/** `get_image_from_message` and `get_file_from_message` of main.py: which
    size of a photo is saved, which documents are saved, and the file names
    they are saved under. */
module Attachments {
  import opened Types
  import opened Strings
  import opened Services

  /** The position `max(sizes, key=lambda x: x['width'])` picks: a size of
      greatest width, the first of them on a tie. */
  function WidestIndex(sizes: seq<PhotoSize>): (i: nat)
    requires |sizes| > 0
    ensures i < |sizes|
    ensures forall j :: 0 <= j < |sizes| ==> sizes[j].width <= sizes[i].width
    ensures forall j :: 0 <= j < i ==> sizes[j].width < sizes[i].width
  {
    if |sizes| == 1 then 0
    else
      var k := WidestIndex(sizes[..|sizes| - 1]);
      if sizes[|sizes| - 1].width > sizes[k].width then |sizes| - 1 else k
  }

  /** The URL of the widest size. */
  function BestUrl(photo: Photo): string
    requires |photo.sizes| > 0
  {
    photo.sizes[WidestIndex(photo.sizes)].url
  }

  /** `f"{photo['owner_id']}_{photo['id']}.jpg"`. */
  function ImageName(photo: Photo): string {
    IntToString(photo.ownerId) + "_" + IntToString(photo.id) + ".jpg"
  }

  /** The file name of a document of a type listed in DOC_TYPES, none otherwise. */
  function DocName(doc: Doc): (r: Option<string>)
    ensures r.None? <==> doc.docType !in DOC_TYPES
  {
    if doc.docType in DOC_TYPES then
      Some(IntToString(doc.ownerId) + "_" + IntToString(doc.id) + DOC_TYPES[doc.docType])
    else None
  }

  lemma NoUnderscore(n: int)
    ensures forall i :: 0 <= i < |IntToString(n)| ==> IntToString(n)[i] != '_'
  {
  }

  /** Position of the first '_' in `s` (`|s|` when there is none). */
  function UnderscoreIndex(s: string): nat {
    if s == [] || s[0] == '_' then 0 else 1 + UnderscoreIndex(s[1..])
  }

  lemma {:induction false} UnderscoreIndexAfter(a: string, b: string)
    requires forall i :: 0 <= i < |a| ==> a[i] != '_'
    ensures UnderscoreIndex(a + "_" + b) == |a|
  {
    if a != [] {
      UnderscoreIndexAfter(a[1..], b);
      assert (a + "_" + b)[1..] == a[1..] + "_" + b;
    }
  }

  /** Text before the first '_' and text after it are recovered from the join. */
  lemma SplitAtUnderscore(a1: string, b1: string, a2: string, b2: string)
    requires forall i :: 0 <= i < |a1| ==> a1[i] != '_'
    requires forall i :: 0 <= i < |a2| ==> a2[i] != '_'
    requires a1 + "_" + b1 == a2 + "_" + b2
    ensures a1 == a2 && b1 == b2
  {
    var s := a1 + "_" + b1;
    UnderscoreIndexAfter(a1, b1);
    UnderscoreIndexAfter(a2, b2);
    assert a1 == s[..|a1|] && a2 == (a2 + "_" + b2)[..|a2|];
    assert b1 == s[|a1| + 1..] && b2 == (a2 + "_" + b2)[|a2| + 1..];
  }

  lemma NamePartsDistinct(o1: int, i1: int, e1: string, o2: int, i2: int, e2: string)
    requires |e1| == |e2|
    requires IntToString(o1) + "_" + IntToString(i1) + e1 == IntToString(o2) + "_" + IntToString(i2) + e2
    ensures o1 == o2 && i1 == i2 && e1 == e2
  {
    var s1 := IntToString(o1) + "_" + IntToString(i1);
    var s2 := IntToString(o2) + "_" + IntToString(i2);
    assert s1 + e1 == s2 + e2;
    assert |s1| == |s2|;
    assert s1 == (s1 + e1)[..|s1|] && s2 == (s2 + e2)[..|s2|];
    assert e1 == (s1 + e1)[|s1|..] && e2 == (s2 + e2)[|s2|..];
    NoUnderscore(o1);
    NoUnderscore(o2);
    SplitAtUnderscore(IntToString(o1), IntToString(i1), IntToString(o2), IntToString(i2));
    IntToStringInjective(o1, o2);
    IntToStringInjective(i1, i2);
  }

  /** Photos with different (owner, id) are saved under different names. */
  lemma ImageNamesDistinct(p: Photo, q: Photo)
    requires ImageName(p) == ImageName(q)
    ensures p.ownerId == q.ownerId && p.id == q.id
  {
    NamePartsDistinct(p.ownerId, p.id, ".jpg", q.ownerId, q.id, ".jpg");
  }

  /** Saved documents with different (owner, id) or different extensions are
      saved under different names. */
  lemma DocNamesDistinct(a: Doc, b: Doc)
    requires DocName(a).Some? && DocName(a) == DocName(b)
    ensures a.ownerId == b.ownerId && a.id == b.id && DOC_TYPES[a.docType] == DOC_TYPES[b.docType]
  {
    NamePartsDistinct(a.ownerId, a.id, DOC_TYPES[a.docType], b.ownerId, b.id, DOC_TYPES[b.docType]);
  }

  /** `get_image_from_message`: downloads the widest size under the photo's
      name and returns that name; `max` of no sizes raises. */
  method GetImageFromMessage(photo: Photo, fs: FileSystem) returns (r: Result<string>)
    modifies fs
    ensures |photo.sizes| == 0 ==> r == Err(PhotoWithoutSizes) && fs.State() == old(fs.State())
    ensures |photo.sizes| > 0 ==> r == Ok(ImageName(photo))
    ensures |photo.sizes| > 0 ==> fs.State() == fs.DownloadEffect(old(fs.State()), BestUrl(photo), ImageName(photo))
  {
    if |photo.sizes| == 0 {
      return Err(PhotoWithoutSizes);
    }
    var maxSize := photo.sizes[WidestIndex(photo.sizes)];
    var imageName := ImageName(photo);
    var name := fs.DownloadFile(maxSize.url, imageName);
    return Ok(name);
  }

  /** `get_file_from_message`: None exactly for a type outside DOC_TYPES;
      otherwise the document is downloaded under its name, which is returned. */
  method GetFileFromMessage(doc: Doc, fs: FileSystem) returns (r: Option<string>)
    modifies fs
    ensures r == DocName(doc)
    ensures r.None? ==> fs.State() == old(fs.State())
    ensures r.Some? ==> fs.State() == fs.DownloadEffect(old(fs.State()), doc.url, r.value)
  {
    if doc.docType in DOC_TYPES {
      var docName := IntToString(doc.ownerId) + "_" + IntToString(doc.id) + DOC_TYPES[doc.docType];
      var name := fs.DownloadFile(doc.url, docName);
      return Some(name);
    }
    return None;
  }
}
