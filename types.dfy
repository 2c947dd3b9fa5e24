/** The records the exporter reads from the VK API, the outcomes of its
    calls, and the fixed configuration tables (config.py). A VK response is
    a typed record here rather than a dictionary. */
module Types {
  import opened Strings

  datatype Option<+T> = None | Some(value: T)

  /** Why a run stops: `sys.exit(...)` in main.py, or an exception nothing catches. */
  datatype Failure =
    | MissingEnvironment         // check_environment_variables() is false
    | ConversationFetchFailed    // messages.getConversationsById raised
    | EmptyConversationResponse  // response['items'][0] on an empty list
    | MembersFetchFailed         // messages.getConversationMembers raised
    | HistoryFetchFailed         // messages.getHistory raised
    | MentionWithoutDigits       // re.search(r'\d+', token) is None: `.group` fails
    | PhotoWithoutSizes          // max() of an empty sizes list
    | TranscriptWriteFailed      // open/write of the transcript raised

  datatype Result<+T> = Ok(value: T) | Err(failure: Failure)

  newtype byte = x: int | 0 <= x < 256

  datatype PhotoSize = PhotoSize(width: int, url: string)
  datatype Photo = Photo(ownerId: int, id: int, sizes: seq<PhotoSize>)
  datatype Doc = Doc(ownerId: int, id: int, url: string, docType: int)

  /** One entry of a message's `attachments`: a `photo`, a `doc`, or
      anything else, which the exporter ignores. */
  datatype Attachment =
    | PhotoAttachment(photo: Photo)
    | DocAttachment(doc: Doc)
    | OtherAttachment

  datatype HistoryItem = HistoryItem(date: int, fromId: int, text: string, attachments: seq<Attachment>)

  /** One page of messages.getHistory, or the call raising. */
  datatype PageResult = Page(items: seq<HistoryItem>) | PageFailed

  datatype Profile = Profile(id: int, firstName: string, lastName: string)

  /** messages.getConversationMembers: the `profiles` list, or the call raising. */
  datatype MembersResponse = Members(profiles: seq<Profile>) | MembersFailed

  /** One entry of messages.getConversationsById's `items`: the peer type
      and, for a group chat, `chat_settings['title']`. */
  datatype Conversation = Conversation(peerType: string, chatTitle: string)

  datatype ConversationResponse = Conversations(items: seq<Conversation>) | ConversationFailed

  /** The command-line switches --text, --photo and --doc. */
  datatype Flags = Flags(text: bool, photo: bool, doc: bool)

  /** Document types that are saved, with the file extension each gets. */
  const DOC_TYPES: map<int, string> := map[3 := ".gif", 4 := ".jpg"]

  /** Prefix of the transcript file name. */
  const FILE_MESSAGE_NAME := "Чат WhatsApp с "

  /** `member_names.get(id, f"id{id}")`: the display name of a member. */
  function NameOf(names: map<int, string>, id: int): string {
    if id in names then names[id] else "id" + IntToString(id)
  }

  /** `f'backup/{PEER_ID}/'`. */
  function BackupDir(peerId: int): string {
    "backup/" + IntToString(peerId) + "/"
  }
}
