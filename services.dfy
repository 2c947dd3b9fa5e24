/** services.py: the message timestamp format and the attachment downloader.
    The file system is a map from paths to contents plus a set of
    directories; `open(path, ...)` succeeding and `requests.get(url)` are
    oracles fixed for the run. */
module Services {
  import opened Types
  import CivilTime

  /** The local clock reading, in seconds, of `timestamp` at a whole-hour
      offset east of UTC. */
  function LocalSeconds(timestamp: int, tzHours: int): int {
    timestamp + 3600 * tzHours
  }

  /** `format_timestamp(t)` with `TIMEZONE = timezone(timedelta(hours=tzHours))`:
      Python accepts offsets strictly inside one day. */
  function FormatTimestamp(timestamp: int, tzHours: int): string
    requires -24 < tzHours < 24
  {
    CivilTime.Render(LocalSeconds(timestamp, tzHours))
  }

  /** The local date and time of `format_timestamp(t)`. */
  function LocalDateTime(timestamp: int, tzHours: int): CivilTime.DateTime {
    CivilTime.UtcDateTime(LocalSeconds(timestamp, tzHours))
  }

  /** For non-negative timestamps up to the end of year 9999 the text is
      `DD.MM.YYYY, HH:MM`, its fields in range, and reading the fields back
      gives the local date and time. */
  lemma FormatTimestampShape(timestamp: int, tzHours: int)
    requires -24 < tzHours < 24 && timestamp >= 0
    requires LocalDateTime(timestamp, tzHours).date.year <= 9999
    ensures CivilTime.ValidDateTime(LocalDateTime(timestamp, tzHours))
    ensures CivilTime.HasRenderedShape(FormatTimestamp(timestamp, tzHours))
    ensures CivilTime.ParseRendered(FormatTimestamp(timestamp, tzHours)) == LocalDateTime(timestamp, tzHours)
  {
    var s := LocalSeconds(timestamp, tzHours);
    assert s >= -86400;
    CivilTime.YearFromDayNumber(s / CivilTime.SECONDS_PER_DAY);
    CivilTime.RenderRoundTrip(s);
  }

  /** Seconds are not printed: timestamps in the same local minute give the same text. */
  lemma FormatTimestampSameMinute(t1: int, t2: int, tzHours: int)
    requires -24 < tzHours < 24
    requires LocalSeconds(t1, tzHours) / 60 == LocalSeconds(t2, tzHours) / 60
    ensures FormatTimestamp(t1, tzHours) == FormatTimestamp(t2, tzHours)
  {
    CivilTime.SameMinuteSameRender(LocalSeconds(t1, tzHours), LocalSeconds(t2, tzHours));
  }

  /** 86400 seconds later is the next calendar day at the same hour and minute. */
  lemma FormatTimestampNextDay(timestamp: int, tzHours: int)
    requires -24 < tzHours < 24
    ensures var t := LocalDateTime(timestamp, tzHours);
            FormatTimestamp(timestamp + CivilTime.SECONDS_PER_DAY, tzHours)
            == CivilTime.Format(CivilTime.DateTime(CivilTime.NextDate(t.date), t.hour, t.minute))
  {
    var s := LocalSeconds(timestamp, tzHours);
    assert LocalSeconds(timestamp + CivilTime.SECONDS_PER_DAY, tzHours) == s + CivilTime.SECONDS_PER_DAY;
    assert FormatTimestamp(timestamp + CivilTime.SECONDS_PER_DAY, tzHours) == CivilTime.Render(s + CivilTime.SECONDS_PER_DAY);
    assert LocalDateTime(timestamp, tzHours) == CivilTime.UtcDateTime(s);
    CivilTime.RenderNextDay(s);
  }

  datatype FileContent = Binary(bytes: seq<byte>) | Utf8(text: string)

  /** `requests.get(url).content`, or the request raising. */
  datatype Fetch = Fetched(body: seq<byte>) | FetchFailed

  /** A download to make: the URL and the name of the file under the backup directory. */
  datatype Download = Download(url: string, fileName: string)

  /** The observable state: files and their contents, directories, and the
      URLs fetched so far, in order. */
  datatype Disk = Disk(files: map<string, FileContent>, dirs: set<string>, fetches: seq<string>)

  /** `os.path.exists(path)`. */
  predicate Exists(d: Disk, path: string) {
    path in d.files || path in d.dirs
  }

  /** The disk after the guarded `os.makedirs(path)`: the directory is
      added unless something is at `path` already. */
  function WithDir(d: Disk, path: string): (r: Disk)
    ensures Exists(r, path)
    ensures r.files == d.files && r.fetches == d.fetches && d.dirs <= r.dirs
    ensures r.dirs - d.dirs <= {path}
  {
    if Exists(d, path) then d else d.(dirs := d.dirs + {path})
  }

  function BodyOf(f: Fetch): seq<byte> {
    if f.Fetched? then f.body else []
  }

  class FileSystem {
    /** BACKUP_DIR. */
    const backupDir: string
    /** Whether `open(path, 'w'/'wb')` succeeds. */
    const canOpen: string -> bool
    /** What `requests.get(url)` yields. */
    const fetch: string -> Fetch

    var files: map<string, FileContent>
    var dirs: set<string>
    var fetches: seq<string>

    constructor (backupDir: string, canOpen: string -> bool, fetch: string -> Fetch,
                 files: map<string, FileContent>, dirs: set<string>)
      ensures this.backupDir == backupDir && this.canOpen == canOpen && this.fetch == fetch
      ensures this.files == files && this.dirs == dirs && this.fetches == []
    {
      this.backupDir := backupDir;
      this.canOpen := canOpen;
      this.fetch := fetch;
      this.files := files;
      this.dirs := dirs;
      this.fetches := [];
    }

    function State(): Disk
      reads this
    {
      Disk(files, dirs, fetches)
    }

    /** The state after `download_file(url, fileName)`. */
    function DownloadEffect(d: Disk, url: string, fileName: string): (r: Disk)
      // an existing path is neither fetched nor written
      ensures Exists(d, backupDir + fileName) ==> r == d
      // afterwards the path exists exactly when it did or could be opened
      ensures Exists(r, backupDir + fileName) <==> Exists(d, backupDir + fileName) || canOpen(backupDir + fileName)
      // at most one fetch, of `url`, and only for a new, openable path
      ensures r.fetches == d.fetches || (r.fetches == d.fetches + [url] && !Exists(d, backupDir + fileName) && canOpen(backupDir + fileName))
      // a new, openable path is fetched into and holds the response body (empty when the request fails)
      ensures !Exists(d, backupDir + fileName) && canOpen(backupDir + fileName)
              ==> backupDir + fileName in r.files && r.files[backupDir + fileName] == Binary(BodyOf(fetch(url)))
                  && r.fetches == d.fetches + [url]
      // no other path and no directory is touched
      ensures r.dirs == d.dirs
      ensures forall p :: p != backupDir + fileName ==> (p in r.files <==> p in d.files)
      ensures forall p :: p != backupDir + fileName && p in d.files ==> r.files[p] == d.files[p]
    {
      var path := backupDir + fileName;
      if Exists(d, path) || !canOpen(path) then d
      else Disk(d.files[path := Binary(BodyOf(fetch(url)))], d.dirs, d.fetches + [url])
    }

    /** The state after the downloads, one after another. */
    function ApplyDownloads(d: Disk, downloads: seq<Download>): Disk
    {
      if downloads == [] then d
      else
        var last := downloads[|downloads| - 1];
        DownloadEffect(ApplyDownloads(d, downloads[..|downloads| - 1]), last.url, last.fileName)
    }

    lemma {:induction false} ApplyDownloadsAppend(d: Disk, a: seq<Download>, b: seq<Download>)
      ensures ApplyDownloads(d, a + b) == ApplyDownloads(ApplyDownloads(d, a), b)
      decreases |b|
    {
      if b == [] {
        assert a + b == a;
      } else {
        assert (a + b)[..|a + b| - 1] == a + b[..|b| - 1];
        ApplyDownloadsAppend(d, a, b[..|b| - 1]);
      }
    }

    /** Downloads never remove a path and never create or remove a directory. */
    lemma {:induction false} ApplyDownloadsKeepsPaths(d: Disk, downloads: seq<Download>, path: string)
      requires Exists(d, path)
      ensures Exists(ApplyDownloads(d, downloads), path)
      ensures ApplyDownloads(d, downloads).dirs == d.dirs
    {
      if downloads != [] {
        ApplyDownloadsKeepsPaths(d, downloads[..|downloads| - 1], path);
      }
    }

    /** Once a download has left its file in place, repeating it for the same
        name changes nothing and fetches nothing, whatever the URL. */
    lemma DownloadIdempotent(d: Disk, url: string, otherUrl: string, fileName: string)
      ensures DownloadEffect(DownloadEffect(d, url, fileName), otherUrl, fileName) == DownloadEffect(d, url, fileName)
    {
    }

    /** The file is opened before the request is made, so a failed request
        still leaves an empty file, and a later download skips it. */
    lemma FailedFetchLeavesEmptyFile(d: Disk, url: string, fileName: string)
      requires !Exists(d, backupDir + fileName) && canOpen(backupDir + fileName) && fetch(url) == FetchFailed
      ensures DownloadEffect(d, url, fileName).files[backupDir + fileName] == Binary([])
      ensures DownloadEffect(d, url, fileName).fetches == d.fetches + [url]
    {
    }

    /** `download_file`: the file name comes back unchanged whatever happened;
        failures are swallowed. */
    method DownloadFile(url: string, fileName: string) returns (name: string)
      modifies this
      ensures name == fileName
      ensures State() == DownloadEffect(old(State()), url, fileName)
    {
      var path := backupDir + fileName;
      if !(path in files || path in dirs) {
        if canOpen(path) {
          files := files[path := Binary([])];
          var response := fetch(url);
          fetches := fetches + [url];
          if response.Fetched? {
            files := files[path := Binary(response.body)];
          }
        }
      }
      name := fileName;
    }

    /** The guarded `os.makedirs(BACKUP_DIR)` of main. */
    method MakeBackupDir()
      modifies this
      ensures State() == WithDir(old(State()), backupDir)
      ensures Exists(State(), backupDir)
      ensures files == old(files) && fetches == old(fetches)
      ensures dirs == if Exists(old(State()), backupDir) then old(dirs) else old(dirs) + {backupDir}
    {
      if !(backupDir in files || backupDir in dirs) {
        dirs := dirs + {backupDir};
      }
    }

    /** `open(path, 'w').write(text)`: false when the open fails. */
    method WriteText(path: string, text: string) returns (ok: bool)
      modifies this
      ensures ok == canOpen(path)
      ensures files == if ok then old(files)[path := Utf8(text)] else old(files)
      ensures dirs == old(dirs) && fetches == old(fetches)
    {
      ok := canOpen(path);
      if ok {
        files := files[path := Utf8(text)];
      }
    }
  }
}
