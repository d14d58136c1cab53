/**
 * The part of `JSON.parse` the update protocol needs: the terminal payload is a JSON
 * array of integer identifiers, e.g. `[101,102,103]`. `FormatIds` is what
 * `JSON.stringify` writes for such an array; `ParseIds` is its inverse.
 */
module JsonIds {
  import opened Wrappers
  import Text

  /** The four characters JSON allows between tokens. */
  predicate IsWhitespace(c: char) {
    c == ' ' || c == '\t' || c == '\n' || c == '\r'
  }

  predicate IsDigit(c: char) {
    '0' <= c <= '9'
  }

  predicate AllWhitespace(s: string) {
    forall i :: 0 <= i < |s| ==> IsWhitespace(s[i])
  }

  predicate AllDigits(s: string) {
    forall i :: 0 <= i < |s| ==> IsDigit(s[i])
  }

  /** `s` without its leading whitespace. */
  function TrimStart(s: string): (t: string)
    ensures |t| <= |s| && t == s[|s| - |t|..]
    ensures AllWhitespace(s[..|s| - |t|])
    ensures t == [] || !IsWhitespace(t[0])
    decreases |s|
  {
    if s != [] && IsWhitespace(s[0]) then TrimStart(s[1..]) else s
  }

  /** `s` without its trailing whitespace. */
  function TrimEnd(s: string): (t: string)
    ensures |t| <= |s| && t == s[..|t|]
    ensures AllWhitespace(s[|t|..])
    ensures t == [] || !IsWhitespace(t[|t| - 1])
    decreases |s|
  {
    if s != [] && IsWhitespace(s[|s| - 1]) then TrimEnd(s[..|s| - 1]) else s
  }

  /** `s` without surrounding whitespace, which `JSON.parse` skips. */
  function Trim(s: string): string {
    TrimEnd(TrimStart(s))
  }

  lemma TrimNothingToTrim(s: string)
    requires s == [] || (!IsWhitespace(s[0]) && !IsWhitespace(s[|s| - 1]))
    ensures Trim(s) == s
  {
  }

  function DigitValue(c: char): nat
    requires IsDigit(c)
  {
    c as int - '0' as int
  }

  function DigitChar(d: nat): (c: char)
    requires d < 10
    ensures IsDigit(c) && DigitValue(c) == d
  {
    ('0' as int + d) as char
  }

  /** The value of a decimal digit string, most significant digit first. */
  function DigitsValue(s: string): nat
    requires AllDigits(s)
    decreases |s|
  {
    if s == [] then 0 else DigitsValue(s[..|s| - 1]) * 10 + DigitValue(s[|s| - 1])
  }

  /** The decimal text of `n` as JavaScript writes an integer: no leading zero. */
  function NatText(n: nat): (s: string)
    ensures |s| >= 1 && AllDigits(s)
    ensures s[0] == '0' <==> n == 0
    ensures n == 0 ==> |s| == 1
    decreases n
  {
    if n < 10 then [DigitChar(n)] else NatText(n / 10) + [DigitChar(n % 10)]
  }

  /** The decimal text of an integer, with a leading `-` when negative. */
  function IntText(x: int): (s: string)
    ensures |s| >= 1
    ensures !IsWhitespace(s[0]) && !IsWhitespace(s[|s| - 1])
    ensures ',' !in s && ';' !in s
  {
    if x < 0 then "-" + NatText(-x) else NatText(x)
  }

  /** A JSON integer without sign: digits, no leading zero unless it is just `0`. */
  function ParseNat(s: string): (r: Option<nat>)
    ensures r.Some? ==> |s| >= 1 && AllDigits(s)
  {
    if |s| >= 1 && AllDigits(s) && (s[0] != '0' || |s| == 1) then Some(DigitsValue(s)) else None
  }

  /** A JSON integer: an optional `-` and a `ParseNat` number. */
  function ParseInt(s: string): (r: Option<int>)
    ensures r.Some? ==> |s| >= 1
  {
    if |s| >= 1 && s[0] == '-' then
      match ParseNat(s[1..])
      case Some(n) => Some(-(n as int))
      case None => None
    else
      match ParseNat(s)
      case Some(n) => Some(n)
      case None => None
  }

  /** Each element text, around which whitespace is allowed, parsed as an integer. */
  function ParseElements(parts: seq<string>): (r: Option<seq<int>>)
    ensures r.Some? ==> |r.value| == |parts|
    decreases |parts|
  {
    if parts == [] then Some([])
    else
      match (ParseInt(Trim(parts[0])), ParseElements(parts[1..]))
      case (Some(x), Some(xs)) => Some([x] + xs)
      case _ => None
  }

  /** An array literal without surrounding whitespace: `[`, integer elements separated by `,`, `]`. */
  function ParseArray(t: string): (r: Option<seq<int>>)
    ensures r.Some? ==> |t| >= 2 && t[0] == '[' && t[|t| - 1] == ']'
  {
    if |t| >= 2 && t[0] == '[' && t[|t| - 1] == ']' then
      var inner := t[1..|t| - 1];
      if AllWhitespace(inner) then Some([])
      else ParseElements(Text.Split(inner, ','))
    else None
  }

  /**
   * `JSON.parse(s)` when the result is an array of integers; `None` where the
   * parse would throw (and, as a limit of the model, for any other JSON value).
   */
  function ParseIds(s: string): (r: Option<seq<int>>)
    ensures r.Some? ==> var t := Trim(s); |t| >= 2 && t[0] == '[' && t[|t| - 1] == ']'
  {
    ParseArray(Trim(s))
  }

  function ElementTexts(ids: seq<int>): (texts: seq<string>)
    ensures |texts| == |ids|
    ensures forall i :: 0 <= i < |ids| ==> texts[i] == IntText(ids[i])
    decreases |ids|
  {
    if ids == [] then [] else [IntText(ids[0])] + ElementTexts(ids[1..])
  }

  /** `JSON.stringify(ids)`: the integers separated by commas, in brackets. */
  function FormatIds(ids: seq<int>): (s: string)
    ensures |s| >= 2 && s[0] == '[' && s[|s| - 1] == ']'
    ensures ';' !in s
  {
    var inner := Text.Join(ElementTexts(ids), ',');
    NoSemicolonInJoin(ElementTexts(ids));
    "[" + inner + "]"
  }

  lemma {:induction false} NoSemicolonInJoin(parts: seq<string>)
    requires forall i :: 0 <= i < |parts| ==> ';' !in parts[i]
    ensures ';' !in Text.Join(parts, ',')
    decreases |parts|
  {
    if |parts| > 1 {
      NoSemicolonInJoin(parts[1..]);
    }
  }

  lemma {:induction false} NatTextValue(n: nat)
    ensures DigitsValue(NatText(n)) == n
    decreases n
  {
    if n >= 10 {
      NatTextValue(n / 10);
      var s := NatText(n);
      assert s[..|s| - 1] == NatText(n / 10);
    }
  }

  lemma NatRoundTrip(n: nat)
    ensures ParseNat(NatText(n)) == Some(n)
  {
    NatTextValue(n);
  }

  /** Reading back the text of an integer gives the integer. */
  lemma IntRoundTrip(x: int)
    ensures ParseInt(IntText(x)) == Some(x)
  {
    var s := IntText(x);
    if x < 0 {
      var t := NatText(-x);
      assert s == "-" + t;
      assert s[1..] == t;
      NatRoundTrip(-x);
    } else {
      NatRoundTrip(x);
      assert s[0] != '-';
    }
  }

  lemma {:induction false} ElementsRoundTrip(ids: seq<int>)
    ensures ParseElements(ElementTexts(ids)) == Some(ids)
    decreases |ids|
  {
    if ids != [] {
      var texts := ElementTexts(ids);
      assert texts[1..] == ElementTexts(ids[1..]);
      TrimNothingToTrim(IntText(ids[0]));
      IntRoundTrip(ids[0]);
      ElementsRoundTrip(ids[1..]);
      assert [ids[0]] + ids[1..] == ids;
    }
  }

  lemma JoinStartsWithFirst(parts: seq<string>, sep: char)
    requires |parts| >= 1
    ensures |Text.Join(parts, sep)| >= |parts[0]|
    ensures Text.Join(parts, sep)[..|parts[0]|] == parts[0]
  {
  }

  lemma ParseArrayBracketed(s: string, inner: string)
    requires s == "[" + inner + "]"
    ensures ParseArray(s) == if AllWhitespace(inner) then Some([]) else ParseElements(Text.Split(inner, ','))
  {
    assert s[1..|s| - 1] == inner;
  }

  lemma ParseIdsTrimmed(s: string)
    requires Trim(s) == s
    ensures ParseIds(s) == ParseArray(s)
  {
  }

  /** A bracketed text is parsed by its inside. */
  lemma ParseBracketed(inner: string)
    ensures ParseIds("[" + inner + "]")
         == if AllWhitespace(inner) then Some([]) else ParseElements(Text.Split(inner, ','))
  {
    var s := "[" + inner + "]";
    assert s[0] == '[' && s[|s| - 1] == ']';
    TrimNothingToTrim(s);
    ParseIdsTrimmed(s);
    ParseArrayBracketed(s, inner);
  }

  /** Parsing what `JSON.stringify` writes for an integer array gives the array back. */
  lemma IdsRoundTrip(ids: seq<int>)
    ensures ParseIds(FormatIds(ids)) == Some(ids)
  {
    var texts := ElementTexts(ids);
    var inner := Text.Join(texts, ',');
    ParseBracketed(inner);
    if ids != [] {
      JoinStartsWithFirst(texts, ',');
      assert inner[0] == texts[0][0];
      assert !IsWhitespace(inner[0]);
      Text.SplitJoin(texts, ',');
      ElementsRoundTrip(ids);
    }
  }
}
