/** `format_text` of main.py: every mention `[id<digits>|@<word>]` (the
    pattern `\[id\d*\|@\w*]` of config.py) is replaced, left to right and
    without overlap, by the member's display name. The regular expression is
    a hand-written scanner; `\d` is an ASCII digit and `\w` is the predicate
    `isWord`, which, like Python's `\w`, does not hold of ']'. */
module Mentions {
  import opened Types
  import opened Strings

  /** End of the run of digits that starts at `i`. */
  function DigitRunEnd(s: string, i: nat): (j: nat)
    requires i <= |s|
    ensures i <= j <= |s| && AllDigits(s[i..j]) && (j < |s| ==> !IsDigit(s[j]))
    decreases |s| - i
  {
    if i < |s| && IsDigit(s[i]) then DigitRunEnd(s, i + 1) else i
  }

  predicate AllWord(s: string, isWord: char -> bool) {
    forall i :: 0 <= i < |s| ==> isWord(s[i])
  }

  /** End of the run of word characters that starts at `i`. */
  function WordRunEnd(s: string, i: nat, isWord: char -> bool): (j: nat)
    requires i <= |s|
    ensures i <= j <= |s| && AllWord(s[i..j], isWord) && (j < |s| ==> !isWord(s[j]))
    decreases |s| - i
  {
    if i < |s| && isWord(s[i]) then WordRunEnd(s, i + 1, isWord) else i
  }

  /** The length of the mention at the start of `s`, if one starts there. */
  function MatchToken(s: string, isWord: char -> bool): (r: Option<nat>)
    ensures r.Some? ==> 6 <= r.value <= |s| && s[0] == '[' && s[r.value - 1] == ']'
  {
    if |s| < 3 || s[..3] != "[id" then None
    else
      var j := DigitRunEnd(s, 3);
      if j + 2 > |s| || s[j] != '|' || s[j + 1] != '@' then None
      else
        var k := WordRunEnd(s, j + 2, isWord);
        if k == |s| || s[k] != ']' then None else Some(k + 1)
  }

  /** The mention of member `digits` under the handle `handle`. */
  function MakeToken(digits: string, handle: string): string {
    "[id" + digits + "|@" + handle + "]"
  }

  /** A mention built from digits and word characters is recognised, whole,
      whatever follows it. */
  lemma MatchMadeToken(digits: string, handle: string, rest: string, isWord: char -> bool)
    requires AllDigits(digits) && AllWord(handle, isWord) && !isWord(']')
    ensures MatchToken(MakeToken(digits, handle) + rest, isWord) == Some(|MakeToken(digits, handle)|)
  {
    var s := MakeToken(digits, handle) + rest;
    var j := 3 + |digits|;
    assert s[..3] == "[id";
    assert s[3..j] == digits;
    assert j < |s| && s[j] == '|';
    DigitRunEndStops(s, 3, j);
    assert s[j + 2..j + 2 + |handle|] == handle;
    WordRunEndStops(s, j + 2, j + 2 + |handle|, isWord);
  }

  /** Everything the scanner matches is a mention `[id<digits>|@<word chars>]`. */
  lemma MatchTokenSound(s: string, isWord: char -> bool)
    requires MatchToken(s, isWord).Some?
    ensures exists digits, handle :: AllDigits(digits) && AllWord(handle, isWord)
                                     && s[..MatchToken(s, isWord).value] == MakeToken(digits, handle)
  {
    var j := DigitRunEnd(s, 3);
    var k := WordRunEnd(s, j + 2, isWord);
    TokenAt(s, j, k);
  }

  lemma TokenAt(s: string, j: nat, k: nat)
    requires 3 <= j && j + 2 <= k < |s|
    requires s[..3] == "[id" && s[j] == '|' && s[j + 1] == '@' && s[k] == ']'
    ensures s[..k + 1] == MakeToken(s[3..j], s[j + 2..k])
  {
    var t := MakeToken(s[3..j], s[j + 2..k]);
    assert |t| == k + 1;
    forall i | 0 <= i < k + 1
      ensures s[i] == t[i]
    {
      if i < 3 {
        assert s[i] == s[..3][i];
      }
    }
  }

  /** When the scanner finds no mention at the start, none starts there. */
  lemma MatchTokenComplete(s: string, isWord: char -> bool)
    requires !isWord(']') && MatchToken(s, isWord).None?
    ensures forall digits, handle :: AllDigits(digits) && AllWord(handle, isWord) ==> !(MakeToken(digits, handle) <= s)
  {
    forall digits, handle | AllDigits(digits) && AllWord(handle, isWord)
      ensures !(MakeToken(digits, handle) <= s)
    {
      var token := MakeToken(digits, handle);
      if token <= s {
        var rest := s[|token|..];
        assert s == token + rest;
        MatchMadeToken(digits, handle, rest, isWord);
        assert false;
      }
    }
  }

  lemma {:induction false} DigitRunEndStops(s: string, i: nat, j: nat)
    requires i <= j < |s| && AllDigits(s[i..j]) && !IsDigit(s[j])
    ensures DigitRunEnd(s, i) == j
    decreases j - i
  {
    if i < j {
      assert s[i] == s[i..j][0];
      assert s[i + 1..j] == s[i..j][1..];
      DigitRunEndStops(s, i + 1, j);
    }
  }

  lemma {:induction false} WordRunEndStops(s: string, i: nat, j: nat, isWord: char -> bool)
    requires i <= j < |s| && AllWord(s[i..j], isWord) && !isWord(s[j])
    ensures WordRunEnd(s, i, isWord) == j
    decreases j - i
  {
    if i < j {
      assert s[i] == s[i..j][0];
      assert s[i + 1..j] == s[i..j][1..];
      WordRunEndStops(s, i + 1, j, isWord);
    }
  }

  /** `re.search(r'\d+', s)`: the first run of digits, if there is a digit. */
  function FirstDigitRun(s: string): (r: Option<string>)
    ensures r.None? <==> forall i :: 0 <= i < |s| ==> !IsDigit(s[i])
    ensures r.Some? ==> 1 <= |r.value| && AllDigits(r.value)
  {
    if s == [] then None
    else if IsDigit(s[0]) then Some(s[..DigitRunEnd(s, 0)])
    else
      var r := FirstDigitRun(s[1..]);
      assert forall i :: 1 <= i < |s| ==> s[i] == s[1..][i - 1];
      r
  }

  /** The display name for a member id written as `digits`: the name from the
      directory under `int(digits)`, else "id" and the digits as written. */
  function MentionName(digits: string, names: map<int, string>): string
    requires AllDigits(digits)
  {
    var id := DigitsValue(digits);
    if id in names then names[id] else "id" + digits
  }

  /** `convert_name`: the name for the first digit run inside the matched
      mention; a mention without any digit makes `.group` fail. */
  function ConvertName(token: string, names: map<int, string>): (r: Result<string>)
    ensures r.Err? <==> forall i :: 0 <= i < |token| ==> !IsDigit(token[i])
  {
    match FirstDigitRun(token)
    case None => Err(MentionWithoutDigits)
    case Some(digits) => Ok(MentionName(digits, names))
  }

  /** `re.sub(pattern, convert_name, s)`. */
  function Substitute(s: string, names: map<int, string>, isWord: char -> bool): Result<string>
    decreases |s|
  {
    if s == [] then Ok([])
    else match MatchToken(s, isWord)
      case Some(n) =>
        (match ConvertName(s[..n], names)
         case Err(e) => Err(e)
         case Ok(name) => Prepend(name, Substitute(s[n..], names, isWord)))
      case None => Prepend([s[0]], Substitute(s[1..], names, isWord))
  }

  function Prepend(prefix: string, r: Result<string>): Result<string> {
    match r
    case Ok(rest) => Ok(prefix + rest)
    case Err(e) => Err(e)
  }

  /** `REGEXP_USERNAME.search(s)`: a mention starts somewhere in `s`. */
  predicate ContainsToken(s: string, isWord: char -> bool)
    decreases |s|
  {
    |s| > 0 && (MatchToken(s, isWord).Some? || ContainsToken(s[1..], isWord))
  }

  /** Text without mentions is copied unchanged by the substitution. */
  lemma {:induction false} SubstituteWithoutTokens(s: string, names: map<int, string>, isWord: char -> bool)
    requires !ContainsToken(s, isWord)
    ensures Substitute(s, names, isWord) == Ok(s)
    decreases |s|
  {
    if s != [] {
      SubstituteWithoutTokens(s[1..], names, isWord);
      assert [s[0]] + s[1..] == s;
    }
  }

  /** `format_text`: unchanged text when no mention is found, else every
      mention replaced; the search beforehand changes no result. */
  function FormatText(text: string, names: map<int, string>, isWord: char -> bool): (r: Result<string>)
    ensures !ContainsToken(text, isWord) ==> r == Ok(text)
    ensures r == Substitute(text, names, isWord)
    ensures r.Err? ==> ContainsToken(text, isWord)
  {
    if ContainsToken(text, isWord) then Substitute(text, names, isWord)
    else
      SubstituteWithoutTokens(text, names, isWord);
      Ok(text)
  }

  /** A mention with member digits is replaced by that member's name (or by
      "id" and the digits as written, leading zeros kept), and the scan goes
      on after it. */
  lemma SubstituteMention(digits: string, handle: string, rest: string,
                          names: map<int, string>, isWord: char -> bool)
    requires 1 <= |digits| && AllDigits(digits) && AllWord(handle, isWord) && !isWord(']')
    ensures Substitute(MakeToken(digits, handle) + rest, names, isWord)
            == Prepend(MentionName(digits, names), Substitute(rest, names, isWord))
  {
    var token := MakeToken(digits, handle);
    var s := token + rest;
    MatchMadeToken(digits, handle, rest, isWord);
    assert s[..|token|] == token && s[|token|..] == rest;
    assert token[3..3 + |digits|] == digits;
    DigitRunEndStops(token, 3, 3 + |digits|);
    assert token[3..] == digits + "|@" + handle + "]";
    FirstDigitRunAt(token, 3);
  }

  lemma {:induction false} FirstDigitRunAt(s: string, i: nat)
    requires i < |s| && IsDigit(s[i])
    requires forall k :: 0 <= k < i ==> !IsDigit(s[k])
    ensures FirstDigitRun(s) == Some(s[i..DigitRunEnd(s, i)])
    decreases i
  {
    if i > 0 {
      FirstDigitRunAt(s[1..], i - 1);
      DigitRunEndShift(s, i);
      assert !IsDigit(s[0]);
      var e := DigitRunEnd(s, i);
      assert forall k :: 0 <= k < e - i ==> s[1..][i - 1..e - 1][k] == s[i..e][k];
      assert s[1..][i - 1..e - 1] == s[i..e];
    }
  }

  lemma {:induction false} DigitRunEndShift(s: string, i: nat)
    requires 1 <= i <= |s|
    ensures DigitRunEnd(s[1..], i - 1) == DigitRunEnd(s, i) - 1
    decreases |s| - i
  {
    if i < |s| && IsDigit(s[i]) {
      DigitRunEndShift(s, i + 1);
    }
  }

  /** A mention without any digit, even in its handle, makes the whole
      rewrite fail. */
  lemma MentionWithoutDigitsFails(handle: string, rest: string,
                                  names: map<int, string>, isWord: char -> bool)
    requires AllWord(handle, isWord) && !isWord(']')
    requires forall i :: 0 <= i < |handle| ==> !IsDigit(handle[i])
    ensures FormatText(MakeToken("", handle) + rest, names, isWord) == Err(MentionWithoutDigits)
  {
    var token := MakeToken("", handle);
    var s := token + rest;
    MatchMadeToken("", handle, rest, isWord);
    assert s[..|token|] == token;
    assert forall i :: 5 <= i < |token| - 1 ==> token[i] == handle[i - 5];
  }

  /** Text without '[' holds no mention. */
  lemma {:induction false} NoBracketNoToken(s: string, isWord: char -> bool)
    requires forall i :: 0 <= i < |s| ==> s[i] != '['
    ensures !ContainsToken(s, isWord)
    decreases |s|
  {
    if s != [] {
      NoBracketNoToken(s[1..], isWord);
    }
  }
}
