/** `parse_messages` of main.py: the history becomes transcript lines in the
    WhatsApp export format, and the attachments it names are downloaded. A
    placeholder line comes first; then each message gives its text line,
    then one line per saved image, then one line per saved document. */
module Transcript {
  import opened Types
  import opened Strings
  import opened Services
  import Mentions
  import Attachments

  /** What `parse_messages` reads besides its arguments: MEMBER_NAMES, the
      TIMEZONE offset in hours, and the `\w` class of the mention pattern. */
  datatype Context = Context(names: map<int, string>, tzHours: int, isWord: char -> bool)

  predicate ValidContext(ctx: Context) {
    -24 < ctx.tzHours < 24 && !ctx.isWord(']')
  }

  /** What every line of a message starts with: its date and its author. */
  function Head(date: string, member: string): string {
    date + " - " + member + ": "
  }

  /** `f'{date} - {member}: {content}'`. */
  function Line(date: string, member: string, content: string): (r: string)
    ensures Head(date, member) <= r
  {
    Head(date, member) + content
  }

  /** The line announcing a saved file. */
  function FileLine(date: string, member: string, name: string): string {
    Line(date, member, name + " (файл добавлен)")
  }

  function FileLines(date: string, member: string, names: seq<string>): (r: seq<string>)
    ensures |r| == |names|
    ensures forall i :: 0 <= i < |names| ==> r[i] == FileLine(date, member, names[i])
  {
    if names == [] then []
    else FileLines(date, member, names[..|names| - 1]) + [FileLine(date, member, names[|names| - 1])]
  }

  /** The placeholder line: the first message's date and author. */
  function StartLine(item: HistoryItem, ctx: Context): string
    requires ValidContext(ctx)
  {
    Line(FormatTimestamp(item.date, ctx.tzHours), NameOf(ctx.names, item.fromId), "Ожидание сообщения")
  }

  /** The result of the attachment loop of one message: names of saved images
      and documents, the downloads made, and the failure that ended it, if any. */
  datatype Scan = Scan(images: seq<string>, docs: seq<string>, downloads: seq<Download>, failure: Option<Failure>)

  function PhotoCount(atts: seq<Attachment>): nat {
    if atts == [] then 0
    else PhotoCount(atts[..|atts| - 1]) + (if atts[|atts| - 1].PhotoAttachment? then 1 else 0)
  }

  function SavedDocCount(atts: seq<Attachment>): nat {
    if atts == [] then 0
    else
      var a := atts[|atts| - 1];
      SavedDocCount(atts[..|atts| - 1]) + (if a.DocAttachment? && a.doc.docType in DOC_TYPES then 1 else 0)
  }

  /** One attachment visited: a photo is saved when the photo flag is set (a
      photo without sizes ends the run), a document of a listed type when the
      doc flag is set; anything else is skipped. */
  function ScanStep(s: Scan, a: Attachment, flags: Flags): Scan
    requires s.failure.None?
  {
    match a
    case PhotoAttachment(photo) =>
      if !flags.photo then s
      else if |photo.sizes| == 0 then s.(failure := Some(PhotoWithoutSizes))
      else
        var name := Attachments.ImageName(photo);
        s.(images := s.images + [name],
           downloads := s.downloads + [Download(Attachments.BestUrl(photo), name)])
    case DocAttachment(doc) =>
      if !flags.doc || doc.docType !in DOC_TYPES then s
      else
        var name := Attachments.DocName(doc).value;
        s.(docs := s.docs + [name], downloads := s.downloads + [Download(doc.url, name)])
    case OtherAttachment => s
  }

  /** The attachments visited in order, stopping at the first failure. */
  function ScanAttachments(atts: seq<Attachment>, flags: Flags): (r: Scan)
    ensures r.failure.Some? ==> r.failure.value == PhotoWithoutSizes
    ensures r.failure.None? ==> |r.downloads| == |r.images| + |r.docs|
    ensures r.failure.None? ==> |r.images| == (if flags.photo then PhotoCount(atts) else 0)
    ensures r.failure.None? ==> |r.docs| == (if flags.doc then SavedDocCount(atts) else 0)
  {
    if atts == [] then Scan([], [], [], None)
    else
      var s := ScanAttachments(atts[..|atts| - 1], flags);
      if s.failure.Some? then s else ScanStep(s, atts[|atts| - 1], flags)
  }

  /** Lines, downloads and the failure that ended the run, if any. */
  datatype Output = Output(lines: seq<string>, downloads: seq<Download>, failure: Option<Failure>)

  /** The text part of one message: a line when the text flag is set and the
      text is not empty. */
  function TextLines(item: HistoryItem, flags: Flags, ctx: Context): Result<seq<string>>
    requires ValidContext(ctx)
  {
    if flags.text && item.text != [] then
      match Mentions.FormatText(item.text, ctx.names, ctx.isWord)
      case Err(e) => Err(e)
      case Ok(text) =>
        Ok([Line(FormatTimestamp(item.date, ctx.tzHours), NameOf(ctx.names, item.fromId), text)])
    else Ok([])
  }

  /** One message of the history: its text line, then its image lines, then
      its document lines, all dated and signed alike. */
  function ItemOutput(item: HistoryItem, flags: Flags, ctx: Context): Output
    requires ValidContext(ctx)
  {
    var date := FormatTimestamp(item.date, ctx.tzHours);
    var member := NameOf(ctx.names, item.fromId);
    match TextLines(item, flags, ctx)
    case Err(e) => Output([], [], Some(e))
    case Ok(text) =>
      var s := ScanAttachments(item.attachments, flags);
      if s.failure.Some? then Output(text, s.downloads, s.failure)
      else Output(text + FileLines(date, member, s.images) + FileLines(date, member, s.docs), s.downloads, None)
  }

  /** The number of lines one message contributes. */
  function ItemLineCount(item: HistoryItem, flags: Flags): nat {
    (if flags.text && item.text != [] then 1 else 0)
    + (if flags.photo then PhotoCount(item.attachments) else 0)
    + (if flags.doc then SavedDocCount(item.attachments) else 0)
  }

  lemma SignedLines(date: string, member: string, text: seq<string>, images: seq<string>, docs: seq<string>)
    requires forall i :: 0 <= i < |text| ==> Head(date, member) <= text[i]
    ensures var lines := text + FileLines(date, member, images) + FileLines(date, member, docs);
            |lines| == |text| + |images| + |docs|
            && forall i :: 0 <= i < |lines| ==> Head(date, member) <= lines[i]
  {
    var lines := text + FileLines(date, member, images) + FileLines(date, member, docs);
    forall i | 0 <= i < |lines|
      ensures Head(date, member) <= lines[i]
    {
      if i < |text| {
        assert lines[i] == text[i];
      } else if i < |text| + |images| {
        assert lines[i] == FileLines(date, member, images)[i - |text|];
      } else {
        assert lines[i] == FileLines(date, member, docs)[i - |text| - |images|];
      }
    }
  }

  /** A message that is processed to the end contributes exactly its count of
      lines, each starting with its date and author. */
  lemma ItemOutputLines(item: HistoryItem, flags: Flags, ctx: Context)
    requires ValidContext(ctx)
    requires ItemOutput(item, flags, ctx).failure.None?
    ensures |ItemOutput(item, flags, ctx).lines| == ItemLineCount(item, flags)
    ensures forall i :: 0 <= i < |ItemOutput(item, flags, ctx).lines| ==>
              Head(FormatTimestamp(item.date, ctx.tzHours), NameOf(ctx.names, item.fromId)) <= ItemOutput(item, flags, ctx).lines[i]
  {
    var date := FormatTimestamp(item.date, ctx.tzHours);
    var member := NameOf(ctx.names, item.fromId);
    var s := ScanAttachments(item.attachments, flags);
    SignedLines(date, member, TextLines(item, flags, ctx).value, s.images, s.docs);
  }

  /** `o` followed by `next`: nothing more happens once `o` has failed. */
  function Then(o: Output, next: Output): Output {
    if o.failure.Some? then o
    else Output(o.lines + next.lines, o.downloads + next.downloads, next.failure)
  }

  const NOTHING := Output([], [], None)

  lemma ThenAssociative(x: Output, y: Output, z: Output)
    ensures Then(Then(x, y), z) == Then(x, Then(y, z))
  {
    if x.failure.None? && y.failure.None? {
      assert x.lines + y.lines + z.lines == x.lines + (y.lines + z.lines);
      assert x.downloads + y.downloads + z.downloads == x.downloads + (y.downloads + z.downloads);
    }
  }

  /** The outputs of messages processed one after another. */
  function Combine(outs: seq<Output>): Output {
    if outs == [] then NOTHING else Then(Combine(outs[..|outs| - 1]), outs[|outs| - 1])
  }

  lemma CombineSnoc(outs: seq<Output>, last: Output)
    ensures Combine(outs + [last]) == Then(Combine(outs), last)
  {
    assert (outs + [last])[..|outs|] == outs;
  }

  lemma {:induction false} CombineAppend(a: seq<Output>, b: seq<Output>)
    ensures Combine(a + b) == Then(Combine(a), Combine(b))
    decreases |b|
  {
    if b == [] {
      assert a + b == a;
      assert Combine(a).lines + [] == Combine(a).lines;
      assert Combine(a).downloads + [] == Combine(a).downloads;
    } else {
      var init, last := b[..|b| - 1], b[|b| - 1];
      assert a + b == (a + init) + [last];
      CombineSnoc(a + init, last);
      CombineAppend(a, init);
      ThenAssociative(Combine(a), Combine(init), last);
    }
  }

  /** The output of each message on its own. */
  function ItemOutputs(items: seq<HistoryItem>, flags: Flags, ctx: Context): (r: seq<Output>)
    requires ValidContext(ctx)
  {
    if items == [] then []
    else ItemOutputs(items[..|items| - 1], flags, ctx) + [ItemOutput(items[|items| - 1], flags, ctx)]
  }

  lemma {:induction false} ItemOutputsAppend(a: seq<HistoryItem>, b: seq<HistoryItem>, flags: Flags, ctx: Context)
    requires ValidContext(ctx)
    ensures ItemOutputs(a + b, flags, ctx) == ItemOutputs(a, flags, ctx) + ItemOutputs(b, flags, ctx)
    decreases |b|
  {
    if b == [] {
      assert a + b == a;
    } else {
      var init := b[..|b| - 1];
      assert (a + b)[..|a + b| - 1] == a + init;
      assert (a + b)[|a + b| - 1] == b[|b| - 1];
      ItemOutputsAppend(a, init, flags, ctx);
    }
  }

  /** The messages processed in order; once one fails, the rest are not visited. */
  function ParseItems(items: seq<HistoryItem>, flags: Flags, ctx: Context): Output
    requires ValidContext(ctx)
  {
    Combine(ItemOutputs(items, flags, ctx))
  }

  /** Processing a history in two parts is processing it whole: the second
      part's lines and downloads follow the first's, unless the first failed. */
  lemma ParseItemsAppend(a: seq<HistoryItem>, b: seq<HistoryItem>, flags: Flags, ctx: Context)
    requires ValidContext(ctx)
    ensures ParseItems(a + b, flags, ctx) == Then(ParseItems(a, flags, ctx), ParseItems(b, flags, ctx))
  {
    ItemOutputsAppend(a, b, flags, ctx);
    CombineAppend(ItemOutputs(a, flags, ctx), ItemOutputs(b, flags, ctx));
  }

  /** A failure is final: the messages after it add no line and no download. */
  lemma ParseItemsFailureSticks(a: seq<HistoryItem>, b: seq<HistoryItem>, flags: Flags, ctx: Context)
    requires ValidContext(ctx)
    requires ParseItems(a, flags, ctx).failure.Some?
    ensures ParseItems(a + b, flags, ctx) == ParseItems(a, flags, ctx)
  {
    ParseItemsAppend(a, b, flags, ctx);
  }

  /** One more message after the first `i`. */
  lemma ParseItemsPrefix(items: seq<HistoryItem>, i: nat, flags: Flags, ctx: Context)
    requires ValidContext(ctx) && i < |items|
    ensures ParseItems(items[..i + 1], flags, ctx) == Then(ParseItems(items[..i], flags, ctx), ItemOutput(items[i], flags, ctx))
  {
    var outs := ItemOutputs(items[..i], flags, ctx);
    var it := ItemOutput(items[i], flags, ctx);
    assert items[..i + 1][..i] == items[..i];
    assert ItemOutputs(items[..i + 1], flags, ctx) == outs + [it];
    CombineSnoc(outs, it);
  }

  /** A failure among the first `i` messages is the failure of the whole history. */
  lemma ParseItemsPrefixFails(items: seq<HistoryItem>, i: nat, flags: Flags, ctx: Context)
    requires ValidContext(ctx) && i <= |items|
    requires ParseItems(items[..i], flags, ctx).failure.Some?
    ensures ParseItems(items, flags, ctx) == ParseItems(items[..i], flags, ctx)
  {
    var a, b := items[..i], items[i..];
    assert a + b == items;
    ParseItemsFailureSticks(a, b, flags, ctx);
  }

  function LineCount(items: seq<HistoryItem>, flags: Flags): nat {
    if items == [] then 0
    else LineCount(items[..|items| - 1], flags) + ItemLineCount(items[|items| - 1], flags)
  }

  /** A history processed to the end gives, over all messages, the sum of
      their line counts. */
  lemma {:induction false} ParseItemsLineCount(items: seq<HistoryItem>, flags: Flags, ctx: Context)
    requires ValidContext(ctx)
    requires ParseItems(items, flags, ctx).failure.None?
    ensures |ParseItems(items, flags, ctx).lines| == LineCount(items, flags)
  {
    if items != [] {
      var init := items[..|items| - 1];
      var last := items[|items| - 1];
      assert items[..|items| - 1] == init;
      ParseItemsPrefix(items, |items| - 1, flags, ctx);
      assert items[..|items|] == items;
      ParseItemsLineCount(init, flags, ctx);
      ItemOutputLines(last, flags, ctx);
    }
  }

  lemma {:induction false} TextOnlyScansNothing(atts: seq<Attachment>)
    ensures ScanAttachments(atts, Flags(true, false, false)) == Scan([], [], [], None)
  {
    if atts != [] {
      TextOnlyScansNothing(atts[..|atts| - 1]);
    }
  }

  /** With only the text flag, nothing is downloaded. */
  lemma {:induction false} TextOnlyDownloadsNothing(items: seq<HistoryItem>, ctx: Context)
    requires ValidContext(ctx)
    ensures ParseItems(items, Flags(true, false, false), ctx).downloads == []
  {
    if items != [] {
      var init := items[..|items| - 1];
      var last := items[|items| - 1];
      var flags := Flags(true, false, false);
      TextOnlyDownloadsNothing(init, ctx);
      ParseItemsPrefix(items, |items| - 1, flags, ctx);
      assert items[..|items|] == items;
      TextOnlyScansNothing(last.attachments);
    }
  }

  /** A message with plain text and no attachments, under the text flag,
      gives exactly one line: date, author and the text. */
  lemma PlainTextMessage(item: HistoryItem, ctx: Context)
    requires ValidContext(ctx)
    requires item.text != [] && item.attachments == []
    requires forall i :: 0 <= i < |item.text| ==> item.text[i] != '['
    ensures ItemOutput(item, Flags(true, false, false), ctx)
            == Output([Line(FormatTimestamp(item.date, ctx.tzHours), NameOf(ctx.names, item.fromId), item.text)], [], None)
  {
    Mentions.NoBracketNoToken(item.text, ctx.isWord);
  }

  lemma {:induction false} ScanAttachmentsFailureSticks(a: seq<Attachment>, b: seq<Attachment>, flags: Flags)
    requires ScanAttachments(a, flags).failure.Some?
    ensures ScanAttachments(a + b, flags) == ScanAttachments(a, flags)
    decreases |b|
  {
    if b == [] {
      assert a + b == a;
    } else {
      assert (a + b)[..|a + b| - 1] == a + b[..|b| - 1];
      ScanAttachmentsFailureSticks(a, b[..|b| - 1], flags);
    }
  }

  /** The attachment loop of one message, downloading as it goes. */
  method ScanItemAttachments(atts: seq<Attachment>, flags: Flags, fs: FileSystem)
    returns (images: seq<string>, docs: seq<string>, failure: Option<Failure>)
    modifies fs
    ensures var s := ScanAttachments(atts, flags);
            images == s.images && docs == s.docs && failure == s.failure
    ensures fs.State() == fs.ApplyDownloads(old(fs.State()), ScanAttachments(atts, flags).downloads)
  {
    images, docs, failure := [], [], None;
    for i := 0 to |atts|
      invariant ScanAttachments(atts[..i], flags) == Scan(images, docs, ScanAttachments(atts[..i], flags).downloads, None)
      invariant fs.State() == fs.ApplyDownloads(old(fs.State()), ScanAttachments(atts[..i], flags).downloads)
    {
      ghost var before := ScanAttachments(atts[..i], flags).downloads;
      assert atts[..i + 1][..i] == atts[..i];
      match atts[i]
      case PhotoAttachment(photo) =>
        if flags.photo {
          if |photo.sizes| == 0 {
            ScanAttachmentsFailureSticks(atts[..i + 1], atts[i + 1..], flags);
            assert atts[..i + 1] + atts[i + 1..] == atts;
            return images, docs, Some(PhotoWithoutSizes);
          }
          var name := Attachments.GetImageFromMessage(photo, fs);
          images := images + [name.value];
          assert before + [Download(Attachments.BestUrl(photo), name.value)]
                 == ScanAttachments(atts[..i + 1], flags).downloads;
        }
      case DocAttachment(doc) =>
        if flags.doc {
          var docUrl := Attachments.GetFileFromMessage(doc, fs);
          if docUrl.Some? {
            docs := docs + [docUrl.value];
            assert before + [Download(doc.url, docUrl.value)]
                   == ScanAttachments(atts[..i + 1], flags).downloads;
          }
        }
      case OtherAttachment =>
    }
    assert atts[..|atts|] == atts;
  }

  /** The body of the loop over messages: the text line, then the attachment
      loop, then the image and document lines. */
  method ParseItem(item: HistoryItem, flags: Flags, ctx: Context, fs: FileSystem)
    returns (lines: seq<string>, failure: Option<Failure>)
    requires ValidContext(ctx)
    modifies fs
    ensures failure == ItemOutput(item, flags, ctx).failure
    ensures failure.None? ==> lines == ItemOutput(item, flags, ctx).lines
    ensures fs.State() == fs.ApplyDownloads(old(fs.State()), ItemOutput(item, flags, ctx).downloads)
  {
    var date := FormatTimestamp(item.date, ctx.tzHours);
    var member := NameOf(ctx.names, item.fromId);
    var text := item.text;
    lines := [];
    if flags.text && text != [] {
      var formatted := Mentions.FormatText(text, ctx.names, ctx.isWord);
      if formatted.Err? {
        return [], Some(formatted.failure);
      }
      lines := [Line(date, member, formatted.value)];
    }
    var images, docs;
    images, docs, failure := ScanItemAttachments(item.attachments, flags, fs);
    if failure.None? {
      lines := lines + FileLines(date, member, images) + FileLines(date, member, docs);
    }
  }

  /** The loop over messages of `parse_messages`. */
  method ParseAll(items: seq<HistoryItem>, flags: Flags, ctx: Context, fs: FileSystem)
    returns (lines: seq<string>, failure: Option<Failure>)
    requires ValidContext(ctx)
    modifies fs
    ensures failure == ParseItems(items, flags, ctx).failure
    ensures failure.None? ==> lines == ParseItems(items, flags, ctx).lines
    ensures fs.State() == fs.ApplyDownloads(old(fs.State()), ParseItems(items, flags, ctx).downloads)
  {
    lines, failure := [], None;
    for i := 0 to |items|
      invariant ParseItems(items[..i], flags, ctx) == Output(lines, ParseItems(items[..i], flags, ctx).downloads, None)
      invariant fs.State() == fs.ApplyDownloads(old(fs.State()), ParseItems(items[..i], flags, ctx).downloads)
    {
      ghost var prev := ParseItems(items[..i], flags, ctx);
      ghost var it := ItemOutput(items[i], flags, ctx);
      var itemLines, itemFailure := ParseItem(items[i], flags, ctx, fs);
      ParseItemsPrefix(items, i, flags, ctx);
      fs.ApplyDownloadsAppend(old(fs.State()), prev.downloads, it.downloads);
      if itemFailure.Some? {
        ParseItemsPrefixFails(items, i + 1, flags, ctx);
        return lines, itemFailure;
      }
      lines := lines + itemLines;
    }
    assert items[..|items|] == items;
  }

  /** `parse_messages(items, args)`: the placeholder line, then the lines of
      every message; Err when a mention or a photo ends the run, after the
      downloads made up to that point. */
  method ParseMessages(items: seq<HistoryItem>, flags: Flags, ctx: Context, fs: FileSystem)
    returns (r: Result<seq<string>>)
    requires |items| > 0
    requires ValidContext(ctx)
    modifies fs
    ensures var o := ParseItems(items, flags, ctx);
            (r.Ok? <==> o.failure.None?)
            && (r.Ok? ==> r.value == [StartLine(items[0], ctx)] + o.lines)
            && (r.Err? ==> r.failure == o.failure.value)
    ensures fs.State() == fs.ApplyDownloads(old(fs.State()), ParseItems(items, flags, ctx).downloads)
  {
    var startDate := FormatTimestamp(items[0].date, ctx.tzHours);
    var startMember := NameOf(ctx.names, items[0].fromId);
    var messages := [Line(startDate, startMember, "Ожидание сообщения")];
    var lines, failure := ParseAll(items, flags, ctx, fs);
    if failure.Some? {
      return Err(failure.value);
    }
    return Ok(messages + lines);
  }
}
