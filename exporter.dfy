/** `main` of main.py with `check_environment_variables` and
    `get_chat_title`: the order of the steps of a run, where it stops, and
    what it leaves on disk. */
module Exporter {
  import opened Types
  import opened Strings
  import opened Services
  import opened History
  import opened Members
  import opened Transcript

  /** `check_environment_variables()`: `all([TOKEN, PEER_ID])`, so the token
      is set and not empty, and the peer id is not 0. */
  predicate EnvironmentOk(token: Option<string>, peerId: int) {
    token.Some? && token.value != [] && peerId != 0
  }

  /** `get_chat_title(peer_id)`: the chat's own title for a group chat, the
      member's display name for a private chat, "id<peer>" otherwise. */
  function ChatTitle(response: ConversationResponse, names: map<int, string>, peerId: int): (r: Result<string>)
    ensures r.Err? <==> response.ConversationFailed? || response.items == []
    ensures r.Err? ==> r.failure == (if response.ConversationFailed? then ConversationFetchFailed else EmptyConversationResponse)
  {
    if response.ConversationFailed? then Err(ConversationFetchFailed)
    else if response.items == [] then Err(EmptyConversationResponse)
    else
      var conversation := response.items[0];
      if conversation.peerType == "chat" then Ok(conversation.chatTitle)
      else if conversation.peerType == "user" then Ok(NameOf(names, peerId))
      else Ok("id" + IntToString(peerId))
  }

  /** Two chats that are not group chats get the same title exactly when
      their peer ids give the same name; without configured names, exactly
      when the peer ids are equal. */
  lemma ChatTitleDistinguishesPeers(c: Conversation, peer1: int, peer2: int)
    requires c.peerType != "chat" && c.peerType != "user"
    ensures ChatTitle(Conversations([c]), map[], peer1) == ChatTitle(Conversations([c]), map[], peer2)
            <==> peer1 == peer2
  {
    if ChatTitle(Conversations([c]), map[], peer1) == ChatTitle(Conversations([c]), map[], peer2) {
      var s1 := IntToString(peer1);
      var s2 := IntToString(peer2);
      assert "id" + s1 == "id" + s2;
      assert s1 == ("id" + s1)[2..] && s2 == ("id" + s2)[2..];
      IntToStringInjective(peer1, peer2);
    }
  }

  /** What the VK API answers in a run: messages.getConversationsById,
      messages.getConversationMembers, and messages.getHistory by offset. */
  datatype VkApi = VkApi(conversation: ConversationResponse, members: MembersResponse, history: int -> PageResult)

  /** How a run ends: no message to save, the transcript saved with its
      lines, or `sys.exit` / an uncaught exception with its cause. */
  datatype RunOutcome = NoMessages | Saved(path: string, lines: seq<string>) | Aborted(failure: Failure)

  /** The run got past the environment check, the chat title and the member list. */
  predicate Started(token: Option<string>, peerId: int, api: VkApi, names: map<int, string>) {
    EnvironmentOk(token, peerId) && ChatTitle(api.conversation, names, peerId).Ok? && api.members.Members?
  }

  /** The first page that ends the paging is the `k`-th. */
  predicate FirstStop(history: int -> PageResult, k: nat) {
    Stops(history(OffsetAt(0, PAGE_SIZE, k)))
    && forall j: nat :: j < k ==> !Stops(history(OffsetAt(0, PAGE_SIZE, j)))
  }

  /** The file the transcript is written to. */
  function TranscriptPath(peerId: int, title: string): string {
    BackupDir(peerId) + FILE_MESSAGE_NAME + title + ".txt"
  }

  /** A history fetched without failure is empty exactly when its first page is. */
  lemma EmptyHistory(history: int -> PageResult, k: nat)
    requires FirstStop(history, k)
    ensures Collected(history, 0, PAGE_SIZE, k) == [] <==> k == 0
  {
    if k > 0 {
      CollectedPrefix(history, 0, PAGE_SIZE, 1, k);
      assert Collected(history, 0, PAGE_SIZE, 1) == PageItems(history(OffsetAt(0, PAGE_SIZE, 0)));
      assert !Stops(history(OffsetAt(0, PAGE_SIZE, 0)));
    }
  }

  /** How the part of `main()` after the history is fetched ends: nothing to
      do for an empty history; otherwise the first message that ends the run
      decides, then whether the transcript file can be opened. */
  function SaveOutcome(items: seq<HistoryItem>, title: string, peerId: int, flags: Flags, ctx: Context,
                       canOpen: string -> bool): RunOutcome
    requires ValidContext(ctx)
  {
    if items == [] then NoMessages
    else
      var o := ParseItems(items, flags, ctx);
      var path := TranscriptPath(peerId, title);
      if o.failure.Some? then Aborted(o.failure.value)
      else if !canOpen(path) then Aborted(TranscriptWriteFailed)
      else Saved(path, [StartLine(items[0], ctx)] + o.lines)
  }

  /** The disk after that part: for a non-empty history the backup directory
      is made, the attachments are downloaded up to the message that ends the
      run, if any, and the transcript is written when it is saved. */
  function SaveDisk(fs: FileSystem, d: Disk, items: seq<HistoryItem>, title: string, peerId: int,
                    flags: Flags, ctx: Context): Disk
    requires ValidContext(ctx)
  {
    if items == [] then d
    else
      var parsed := fs.ApplyDownloads(WithDir(d, fs.backupDir), ParseItems(items, flags, ctx).downloads);
      match SaveOutcome(items, title, peerId, flags, ctx, fs.canOpen)
      case Saved(path, lines) => parsed.(files := parsed.files[path := Utf8(Join(lines, "\n"))])
      case _ => parsed
  }

  /** A saved transcript is the placeholder line and one line per text,
      image and document of every message. */
  lemma SavedLineCount(items: seq<HistoryItem>, title: string, peerId: int, flags: Flags, ctx: Context,
                       canOpen: string -> bool)
    requires ValidContext(ctx)
    requires SaveOutcome(items, title, peerId, flags, ctx, canOpen).Saved?
    ensures |SaveOutcome(items, title, peerId, flags, ctx, canOpen).lines| == 1 + LineCount(items, flags)
  {
    ParseItemsLineCount(items, flags, ctx);
  }

  /** Saving loses nothing: every path on the disk before is still there. */
  lemma SaveDiskKeepsPaths(fs: FileSystem, d: Disk, items: seq<HistoryItem>, title: string, peerId: int,
                           flags: Flags, ctx: Context, path: string)
    requires ValidContext(ctx)
    requires Exists(d, path)
    ensures Exists(SaveDisk(fs, d, items, title, peerId, flags, ctx), path)
  {
    if items != [] {
      var made := WithDir(d, fs.backupDir);
      assert Exists(made, path);
      fs.ApplyDownloadsKeepsPaths(made, ParseItems(items, flags, ctx).downloads, path);
    }
  }

  /** After a non-empty history the backup directory exists, whether or not
      the run was ended by a message or by the transcript write. */
  lemma SaveDiskMakesBackupDir(fs: FileSystem, d: Disk, items: seq<HistoryItem>, title: string, peerId: int,
                               flags: Flags, ctx: Context)
    requires ValidContext(ctx)
    requires items != []
    ensures Exists(SaveDisk(fs, d, items, title, peerId, flags, ctx), fs.backupDir)
  {
    fs.ApplyDownloadsKeepsPaths(WithDir(d, fs.backupDir), ParseItems(items, flags, ctx).downloads, fs.backupDir);
  }

  /** A saved transcript, read off `SaveOutcome` and `SaveDisk`. */
  lemma SavedTranscript(fs: FileSystem, d: Disk, items: seq<HistoryItem>, title: string, peerId: int,
                        flags: Flags, ctx: Context)
    requires ValidContext(ctx)
    requires SaveOutcome(items, title, peerId, flags, ctx, fs.canOpen).Saved?
    ensures var o := SaveOutcome(items, title, peerId, flags, ctx, fs.canOpen);
            var e := SaveDisk(fs, d, items, title, peerId, flags, ctx);
            |items| > 0
            && o.lines == [StartLine(items[0], ctx)] + ParseItems(items, flags, ctx).lines
            && o.path == TranscriptPath(peerId, title)
            && o.path in e.files && e.files[o.path] == Utf8(Join(o.lines, "\n"))
            && Exists(e, fs.backupDir)
  {
    SaveDiskMakesBackupDir(fs, d, items, title, peerId, flags, ctx);
  }

  /** With only `--text`, saving fetches nothing. */
  lemma TextOnlySaveFetchesNothing(fs: FileSystem, d: Disk, items: seq<HistoryItem>, title: string, peerId: int,
                                   ctx: Context)
    requires ValidContext(ctx)
    ensures SaveDisk(fs, d, items, title, peerId, Flags(true, false, false), ctx).fetches == d.fetches
  {
    TextOnlyDownloadsNothing(items, ctx);
  }

  /** The part of `main()` after the history is fetched: nothing happens
      for an empty history; otherwise the backup directory is made, the
      messages are parsed with their attachments downloaded, and the
      transcript is written. */
  method SaveHistory(items: seq<HistoryItem>, title: string, peerId: int, flags: Flags, ctx: Context, fs: FileSystem)
    returns (outcome: RunOutcome)
    requires ValidContext(ctx)
    requires fs.backupDir == BackupDir(peerId)
    modifies fs
    ensures outcome == SaveOutcome(items, title, peerId, flags, ctx, fs.canOpen)
    ensures fs.State() == SaveDisk(fs, old(fs.State()), items, title, peerId, flags, ctx)
  {
    if items == [] {
      return NoMessages;
    }
    fs.MakeBackupDir();
    var messages := ParseMessages(items, flags, ctx, fs);
    if messages.Err? {
      return Aborted(messages.failure);
    }
    var messageFile := fs.backupDir + FILE_MESSAGE_NAME + title + ".txt";
    var written := fs.WriteText(messageFile, Join(messages.value, "\n"));
    if !written {
      return Aborted(TranscriptWriteFailed);
    }
    return Saved(messageFile, messages.value);
  }

  /** The part of `main()` from `get_history_items` on: the history is paged
      in from offset 0, then saved. `pages` is the number of non-empty pages. */
  method FetchAndSave(history: int -> PageResult, title: string, peerId: int, flags: Flags, ctx: Context, fs: FileSystem)
    returns (outcome: RunOutcome, ghost items: seq<HistoryItem>, ghost pages: nat)
    requires ValidContext(ctx)
    requires fs.backupDir == BackupDir(peerId)
    requires exists n: nat :: Stops(history(OffsetAt(0, PAGE_SIZE, n)))
    modifies fs
    ensures FirstStop(history, pages)
    ensures history(OffsetAt(0, PAGE_SIZE, pages)).PageFailed?
            ==> outcome == Aborted(HistoryFetchFailed) && fs.State() == old(fs.State())
    ensures history(OffsetAt(0, PAGE_SIZE, pages)).Page? ==>
              items == Collected(history, 0, PAGE_SIZE, pages)
              && outcome == SaveOutcome(items, title, peerId, flags, ctx, fs.canOpen)
              && fs.State() == SaveDisk(fs, old(fs.State()), items, title, peerId, flags, ctx)
    ensures outcome == NoMessages <==> history(0) == Page([])
  {
    items := [];
    var fetched, requested := GetHistoryItems(history, 0, PAGE_SIZE);
    pages := |requested| - 1;
    assert requested[pages] == OffsetAt(0, PAGE_SIZE, pages);
    forall j: nat | j < pages
      ensures !Stops(history(OffsetAt(0, PAGE_SIZE, j)))
    {
      assert requested[j] == OffsetAt(0, PAGE_SIZE, j);
    }
    assert history(0) == history(OffsetAt(0, PAGE_SIZE, 0));
    if fetched.Err? {
      return Aborted(fetched.failure), items, pages;
    }
    items := fetched.value;
    EmptyHistory(history, pages);
    outcome := SaveHistory(fetched.value, title, peerId, flags, ctx, fs);
  }

  /** `main()`. `names` is MEMBER_NAMES, `fs` the disk under BACKUP_DIR; the
      ghost `items` and `pages` are the history fetched and its number of
      non-empty pages. */
  method Run(token: Option<string>, peerId: int, flags: Flags, tzHours: int, isWord: char -> bool,
             api: VkApi, dir: MemberDirectory, fs: FileSystem)
    returns (outcome: RunOutcome, ghost items: seq<HistoryItem>, ghost pages: nat)
    requires -24 < tzHours < 24 && !isWord(']')
    requires fs.backupDir == BackupDir(peerId)
    requires exists n: nat :: Stops(api.history(OffsetAt(0, PAGE_SIZE, n)))
    modifies dir, fs
    // the steps before the history is fetched change nothing on disk
    ensures !EnvironmentOk(token, peerId) ==> outcome == Aborted(MissingEnvironment) && dir.names == old(dir.names)
    ensures EnvironmentOk(token, peerId) && ChatTitle(api.conversation, old(dir.names), peerId).Err?
            ==> outcome == Aborted(ChatTitle(api.conversation, old(dir.names), peerId).failure) && dir.names == old(dir.names)
    ensures EnvironmentOk(token, peerId) && ChatTitle(api.conversation, old(dir.names), peerId).Ok? && api.members.MembersFailed?
            ==> outcome == Aborted(MembersFetchFailed) && dir.names == old(dir.names)
    ensures !Started(token, peerId, api, old(dir.names)) ==> fs.State() == old(fs.State())
    // once started, the names are completed and the history is fetched up to the first stopping page
    ensures Started(token, peerId, api, old(dir.names)) ==> dir.names == Enriched(old(dir.names), api.members.profiles)
    ensures Started(token, peerId, api, old(dir.names)) ==> FirstStop(api.history, pages)
    ensures Started(token, peerId, api, old(dir.names)) && api.history(OffsetAt(0, PAGE_SIZE, pages)).PageFailed?
            ==> outcome == Aborted(HistoryFetchFailed) && fs.State() == old(fs.State())
    // after a complete fetch, the history is saved as `SaveOutcome` and `SaveDisk` say
    ensures Started(token, peerId, api, old(dir.names)) && api.history(OffsetAt(0, PAGE_SIZE, pages)).Page? ==>
              items == Collected(api.history, 0, PAGE_SIZE, pages)
              && outcome == SaveOutcome(items, ChatTitle(api.conversation, old(dir.names), peerId).value, peerId, flags,
                                        Context(dir.names, tzHours, isWord), fs.canOpen)
              && fs.State() == SaveDisk(fs, old(fs.State()), items, ChatTitle(api.conversation, old(dir.names), peerId).value,
                                        peerId, flags, Context(dir.names, tzHours, isWord))
    // an empty history: nothing is created and nothing is written
    ensures outcome == NoMessages <==> Started(token, peerId, api, old(dir.names)) && api.history(0) == Page([])
    ensures outcome == NoMessages ==> fs.State() == old(fs.State())
    // otherwise the transcript is the placeholder line and the lines of every message
    ensures outcome.Saved? ==>
              Started(token, peerId, api, old(dir.names))
              && items == Collected(api.history, 0, PAGE_SIZE, pages) && |items| > 0
              && outcome.lines == [StartLine(items[0], Context(dir.names, tzHours, isWord))]
                                  + ParseItems(items, flags, Context(dir.names, tzHours, isWord)).lines
              && outcome.path == TranscriptPath(peerId, ChatTitle(api.conversation, old(dir.names), peerId).value)
              && outcome.path in fs.files && fs.files[outcome.path] == Utf8(Join(outcome.lines, "\n"))
              && Exists(fs.State(), fs.backupDir)
  {
    items, pages := [], 0;
    if !EnvironmentOk(token, peerId) {
      return Aborted(MissingEnvironment), items, pages;
    }
    var title := ChatTitle(api.conversation, dir.names, peerId);
    if title.Err? {
      return Aborted(title.failure), items, pages;
    }
    var membersOk := dir.AddMissingMembers(api.members);
    if !membersOk {
      return Aborted(MembersFetchFailed), items, pages;
    }
    ghost var before := old(fs.State());
    outcome, items, pages := FetchAndSave(api.history, title.value, peerId, flags, Context(dir.names, tzHours, isWord), fs);
    if outcome.Saved? {
      SavedTranscript(fs, before, items, title.value, peerId, flags, Context(dir.names, tzHours, isWord));
    }
  }
}
