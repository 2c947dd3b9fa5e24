# VK chat exporter — a Dafny model

This project models the core of a small exporter. The exporter reads one VK
conversation through the VK API and writes it as a WhatsApp-style text
transcript, which Telegram can import. The photos and documents the
messages carry are downloaded next to the transcript.

A run of `main()`:

1. checks that the access token and the peer id are set;
2. names the chat: a group chat's own title, a private chat's configured
   contact name, or `id<peer>`;
3. completes the configured member names with "first last" from the
   conversation's member list;
4. pages in the history 200 messages at a time until a page comes back empty;
5. when there are messages: makes `backup/<peer>/`, turns every message into
   lines `DD.MM.YYYY, HH:MM - <member>: <content>` (mentions
   `[id<n>|@handle]` replaced by names, one line per saved image and saved
   document) and writes the lines, joined by newlines, to
   `backup/<peer>/Чат WhatsApp с <title>.txt`.

Modules:

- `Strings` holds decimal numerals, two-digit fields and `str.join`.
- `CivilTime` holds the proleptic Gregorian calendar and `strftime('%d.%m.%Y, %H:%M')`.
- `Types` holds the VK records, the failures that end a run, and the config tables.
- `Services` holds `format_timestamp` and `download_file`. The disk is a
  class `FileSystem` whose methods update its files, directories and
  fetch log.
- `DateFormat` holds `get_date`, which is `format_timestamp` with the offset fixed at five hours east of UTC.
- `Mentions` holds `format_text`, with the mention pattern as a hand-written scanner.
- `Attachments` holds `get_image_from_message` and `get_file_from_message`.
- `History` holds `get_history_items`.
- `Members` holds `add_missing_members`, over a class `MemberDirectory`
  holding MEMBER_NAMES.
- `Transcript` holds `parse_messages`: a specification function
  `ParseItems` and the methods that follow it.
- `Exporter` holds `check_environment_variables`, `get_chat_title` and `main`.
  `EnvironmentOk` is `all([TOKEN, PEER_ID])`: the token is set and not
  empty, and the peer id is not 0.

## Model

| member | source | states |
|---|---|---|
| Strings.NatToStringRoundTrip | main.py:116-117 | reading a rendered id back with `int(...)` gives the same number |
| Strings.IntToStringInjective | main.py:35-36 | different ids render as different `id<n>` texts |
| Strings.JoinLength | main.py:167 | the length of `'\n'.join(lines)` is the lines' total length plus one separator between each two neighbours |
| Strings.JoinPart | main.py:167 | each line sits in the joined text, in order, right after the earlier lines and their separators |
| Strings.JoinSeparator | main.py:167 | between each line and the next the joined text holds exactly the separator |
| CivilTime.DateOfDayNumber | services.py:11-12 | calendar dates and day numbers correspond one to one |
| CivilTime.NextDateIsNextDay | services.py:11-12 | the next calendar day (month and year rollover, leap years) is one day number later |
| CivilTime.RenderRoundTrip | services.py:11-12 | for four-digit years the text has the shape `DD.MM.YYYY, HH:MM` and its fields read back as the date and time |
| Services.FormatTimestampShape | services.py:9-12 | a non-negative timestamp renders as `DD.MM.YYYY, HH:MM` with valid fields that read back as the local date and time |
| Services.FormatTimestampSameMinute | services.py:9-12 | seconds are not printed: two timestamps in the same local minute give the same text |
| Services.FormatTimestampNextDay | services.py:9-12 | 86400 seconds later renders as the next calendar day at the same hour and minute |
| Services.WithDir | main.py:158-159 | afterwards the directory exists; files and fetches are unchanged, and at most that one directory is added |
| Services.FileSystem.DownloadEffect | services.py:15-24 | an existing path is left alone; otherwise the path exists afterwards exactly when it could be opened, and then the URL is fetched once and the file holds the response body (empty when the request fails); no other path or directory changes |
| Services.FileSystem.DownloadFile | services.py:15-24 | returns the file name whatever happens, and the disk changes as `DownloadEffect` says |
| Services.FileSystem.ApplyDownloadsAppend | services.py:15-24 | downloads made in two batches leave the disk as the same downloads made in one |
| Services.FileSystem.ApplyDownloadsKeepsPaths | services.py:19 | downloads never remove a path and never change the directories |
| Services.FileSystem.DownloadIdempotent | services.py:19-21 | repeating a download with the same name changes nothing and fetches nothing, whatever the URL |
| Services.FileSystem.FailedFetchLeavesEmptyFile | services.py:20-23 | the file is opened before the request, so a failed request leaves an empty file behind |
| Services.FileSystem.MakeBackupDir | main.py:158-159 | the disk becomes `WithDir` of the backup directory: it exists afterwards, and it is added only when nothing was at that path |
| Services.FileSystem.WriteText | main.py:165-169 | succeeds exactly when the file can be opened, and then the file holds the text |
| DateFormat.GetDateShape | date_format.py:6-8 | a non-negative timestamp renders as `DD.MM.YYYY, HH:MM` with valid fields that read back as the date and time at UTC+5 |
| DateFormat.GetDateSameMinute | date_format.py:6-8 | timestamps in the same minute at UTC+5 give the same text |
| DateFormat.GetDateNextDay | date_format.py:6-8 | 86400 seconds later is the next calendar day at the same hour and minute |
| Mentions.MatchToken | config.py:31 | a match starts with '[' and ends with ']' and is at least `[id|@]` long |
| Mentions.MatchTokenSound | config.py:31 | every match is a mention `[id<digits>|@<word chars>]` |
| Mentions.MatchTokenComplete | config.py:31 | when no match is found at the start, no mention `[id<digits>|@<word chars>]` starts there |
| Mentions.MatchMadeToken | config.py:31 | `[id<digits>|@<word chars>]` is matched whole, whatever follows it |
| Mentions.FirstDigitRun | main.py:116 | `re.search(r'\d+', s)` finds nothing exactly when `s` has no digit; otherwise a non-empty run of digits |
| Mentions.FirstDigitRunAt | main.py:116 | the run found starts at the first digit of `s` and extends to the last digit before the next non-digit: the first, maximal run |
| Mentions.ConvertName | main.py:115-117 | a mention fails exactly when it holds no digit at all |
| Mentions.FormatText | main.py:119-121 | text with no mention comes back unchanged; checking for a mention first changes no result; a failure implies a mention |
| Mentions.SubstituteMention | main.py:115-120 | a mention with digits is replaced by the member's configured name, or `id` and the digits as written, and the rewrite goes on after it |
| Mentions.MentionWithoutDigitsFails | main.py:116 | a mention with no digit, in its id or its handle, makes `format_text` fail |
| Mentions.NoBracketNoToken | config.py:31 | text without '[' holds no mention |
| Attachments.WidestIndex | main.py:129 | `max(sizes, key=width)` picks a size of greatest width, the first one on a tie |
| Attachments.DocName | main.py:140-141 | a document gets a file name exactly when its type is listed in DOC_TYPES |
| Attachments.ImageNamesDistinct | main.py:131 | photos with different owner or id are saved under different names |
| Attachments.DocNamesDistinct | main.py:141 | saved documents with different owner, id or extension are saved under different names |
| Attachments.GetImageFromMessage | main.py:124-132 | downloads the widest size under `<owner>_<id>.jpg` and returns that name; a photo with no sizes fails and touches nothing |
| Attachments.GetFileFromMessage | main.py:135-142 | returns None and touches nothing for an unlisted type; otherwise downloads under `<owner>_<id><ext>` and returns that name |
| History.CollectedPrefix | main.py:72 | messages already gathered stay in place, in order, as more pages arrive |
| History.CollectedFullPages | main.py:52-76 | when every page before the `k`-th is full, `k` pages hold `k * count` messages |
| History.GetHistoryItems | main.py:52-76 | requests go to offsets `offset`, `offset + count`, ... in order; they stop at the first empty or failed page; the result is every earlier page's messages in order, or the failure |
| Members.Enriched | main.py:46-49 | configured names are never overwritten; afterwards exactly the configured ids and the members' ids have names |
| Members.EnrichedFirstProfile | main.py:46-49 | a member without a configured name gets the name of the first profile carrying its id |
| Members.EnrichedIdempotent | main.py:46-49 | visiting the profiles a second time adds nothing |
| Members.MemberDirectory.AddMissingMembers | main.py:39-49 | fails exactly when the member request fails, and then leaves the names as they were; otherwise the names become `Enriched` |
| Transcript.Line | main.py:98 | every line starts with its date and author |
| Transcript.FileLines | main.py:106-109 | one line per saved file, in order |
| Transcript.ScanAttachments | main.py:99-104 | the only failure is a photo with no sizes; otherwise there is one download per image and per document, an image per photo under the photo flag, and a document per listed-type doc under the doc flag |
| Transcript.ItemOutputLines | main.py:90-109 | a message processed to the end gives its text line, image lines and document lines, each starting with its date and author |
| Transcript.CombineAppend | main.py:90-111 | processing outputs in two parts is the first part followed by the second, unless the first failed |
| Transcript.ParseItemsAppend | main.py:90-111 | processing a history in two parts is processing it whole |
| Transcript.ParseItemsFailureSticks | main.py:90-111 | once a message ends the run, later messages add no line and no download |
| Transcript.ParseItemsLineCount | main.py:90-111 | a history processed to the end gives the sum of the messages' line counts |
| Transcript.TextOnlyDownloadsNothing | main.py:97-104 | with only `--text`, nothing is downloaded |
| Transcript.PlainTextMessage | main.py:91-98 | a plain text message under `--text` gives exactly one line: date, author and the text |
| Transcript.ScanItemAttachments | main.py:99-104 | the attachment loop returns the images, documents and failure of `ScanAttachments`, having made exactly its downloads |
| Transcript.ParseItem | main.py:91-109 | one message's lines, failure and downloads are those of `ItemOutput` |
| Transcript.ParseAll | main.py:90-111 | the message loop returns the lines and failure of `ParseItems`, having made exactly its downloads |
| Transcript.ParseMessages | main.py:79-111 | the placeholder line for the first message comes before every message's lines; the result fails exactly when a message ends the run |
| Exporter.ChatTitle | main.py:24-36 | the title fails exactly when the request fails or returns no conversation, with that cause |
| Exporter.ChatTitleDistinguishesPeers | main.py:36 | without configured names, two peers get the same fallback title only when they are the same peer |
| Exporter.EmptyHistory | main.py:155-157 | the fetched history is empty exactly when the first page is |
| Exporter.SavedLineCount | main.py:79-111 | a saved transcript has the placeholder line plus one line per text, saved image and saved document of every message |
| Exporter.SaveDiskKeepsPaths | main.py:157-169 | saving never removes a file or directory that was on the disk |
| Exporter.SaveDiskMakesBackupDir | main.py:157-159 | after a non-empty history the backup directory exists, however the run ended |
| Exporter.TextOnlySaveFetchesNothing | main.py:97-104 | with only `--text`, saving fetches nothing |
| Exporter.SaveHistory | main.py:157-172 | the outcome and the new disk are `SaveOutcome` and `SaveDisk`: an empty history touches nothing; otherwise the backup directory is made, the attachments are downloaded up to the message that ends the run, the first such message's failure ends the run, then the transcript is saved exactly when its file can be opened and a write failure ends the run |
| Exporter.FetchAndSave | main.py:155-172 | the history is paged to the first stopping page; a failed page aborts with nothing on disk; otherwise the collected history is saved as `SaveHistory` says |
| Exporter.Run | main.py:145-172 | the steps run in order and stop at the first failure; a failed environment check (main.py:19-21, 149-151) aborts with `MissingEnvironment`, and it and each later failure before the history leave the names and the disk unchanged; after a complete fetch the outcome and disk are those of saving the collected history under the chat's title; an empty history gives no file; a saved run holds the transcript of the whole history |

## Left out

- The VK client, `time.sleep`, logging, argparse and `.env` loading are
  not part of this model. API answers are parameters (`VkApi`), and the
  switches are the `Flags` record.
- The run's timing (`datetime.now()` before and after) is not modelled:
  it only feeds a log line.
- `\d` is modelled as the ASCII digits. `\w` is a predicate parameter
  `isWord`, assumed only to reject ']'. Python's Unicode digit and word
  classes are not enumerated.
- Services.FormatTimestamp: Python raises for dates outside years
  1..9999. The model renders any timestamp, and its shape lemmas ask for
  non-negative timestamps with years up to 9999.
- Services.FileSystem.DownloadFile: whether `open` succeeds and what
  `requests.get` returns are fixed functions of the path and the URL. A
  write that fails after the open succeeded is not modelled.
- Services.FileSystem.MakeBackupDir: `os.makedirs` is taken to succeed,
  and intermediate directories are not tracked.
- Services.FileSystem.WriteText: a write that fails after the open
  succeeded is not modelled.
- History.GetHistoryItems requires some page to stop the paging. The
  source loops for ever against an API that never returns an empty page.
- Transcript.ParseMessages requires a non-empty history. The source
  indexes `items[0]` and is only called behind main's emptiness check.
- MEMBER_NAMES is a module-level dictionary that `add_missing_members`
  updates in place. It is modelled as the field of one `MemberDirectory`
  object, and its value is passed to the parsing functions.
- Exporter.Run: `get_chat_title` reads the names before
  `add_missing_members` fills them in, as in the source. A private chat
  whose contact is not configured is therefore titled `id<peer>`.
- A VK response is a typed record. A malformed response (missing keys,
  wrong types) is not modelled, except for the empty `items` list of
  `getConversationsById`.
