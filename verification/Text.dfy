/** The string operations the sources use, on sequences of characters. */
module Text {
  import opened Wrappers

  /** `char::is_whitespace`: the Unicode White_Space property. */
  predicate IsWhitespace(c: char)
  {
    var u := c as int;
    || 0x09 <= u <= 0x0d || u == 0x20 || u == 0x85 || u == 0xa0 || u == 0x1680
    || 0x2000 <= u <= 0x200a || u == 0x2028 || u == 0x2029 || u == 0x202f || u == 0x205f || u == 0x3000
  }

  /** The 25 characters of that property, in order. */
  const WHITE_SPACE :=
    "\t\n\U{0B}\U{0C}\r \U{85}\U{A0}\U{1680}\U{2000}\U{2001}\U{2002}\U{2003}\U{2004}\U{2005}\U{2006}"
    + "\U{2007}\U{2008}\U{2009}\U{200A}\U{2028}\U{2029}\U{202F}\U{205F}\U{3000}"

  lemma SpacesAre(c: char)
    ensures IsWhitespace(c) <==> c in WHITE_SPACE
  {
    var n := c as int;
    var low, high := n - 0x09, n - 0x2000;
    if 0 <= low < 5 {
      assert WHITE_SPACE[low] == c;
    } else if 0 <= high < 11 {
      assert WHITE_SPACE[9 + high] == c;
    } else {
      assert WHITE_SPACE[5] as int == 0x20 && WHITE_SPACE[6] as int == 0x85 && WHITE_SPACE[7] as int == 0xa0;
      assert WHITE_SPACE[8] as int == 0x1680 && WHITE_SPACE[20] as int == 0x2028 && WHITE_SPACE[21] as int == 0x2029;
      assert WHITE_SPACE[22] as int == 0x202f && WHITE_SPACE[23] as int == 0x205f && WHITE_SPACE[24] as int == 0x3000;
    }
  }

  function TrimStart(s: string): string
  {
    if s != "" && IsWhitespace(s[0]) then TrimStart(s[1..]) else s
  }

  function TrimEnd(s: string): string
  {
    if s != "" && IsWhitespace(s[|s| - 1]) then TrimEnd(s[..|s| - 1]) else s
  }

  /** `str::trim`. */
  function Trim(s: string): string { TrimEnd(TrimStart(s)) }

  predicate AllSpace(s: string) { forall i :: 0 <= i < |s| ==> IsWhitespace(s[i]) }

  /** Text that does not begin or end in white space. */
  predicate Bare(s: string) { s != "" && !IsWhitespace(s[0]) && !IsWhitespace(s[|s| - 1]) }

  lemma {:induction false} TrimStartDrops(front: string, s: string)
    requires AllSpace(front) && (s != "" ==> !IsWhitespace(s[0]))
    ensures TrimStart(front + s) == s
    decreases |front|
  {
    if front == "" {
      assert front + s == s;
    } else {
      assert (front + s)[1..] == front[1..] + s;
      TrimStartDrops(front[1..], s);
    }
  }

  lemma {:induction false} TrimEndDrops(s: string, back: string)
    requires AllSpace(back) && (s != "" ==> !IsWhitespace(s[|s| - 1]))
    ensures TrimEnd(s + back) == s
    decreases |back|
  {
    if back == "" {
      assert s + back == s;
    } else {
      var shorter := back[..|back| - 1];
      assert (s + back)[..|s + back| - 1] == s + shorter;
      TrimEndDrops(s, shorter);
    }
  }

  /** Trimming takes off exactly the white space around a text. */
  lemma TrimDrops(front: string, s: string, back: string)
    requires AllSpace(front) && AllSpace(back) && Bare(s)
    ensures Trim(front + s + back) == s
  {
    assert (s + back)[0] == s[0];
    assert front + s + back == front + (s + back);
    TrimStartDrops(front, s + back);
    TrimEndDrops(s, back);
  }

  lemma TrimSpace(space: string)
    requires AllSpace(space)
    ensures Trim(space) == ""
  {
    TrimStartDrops(space, "");
    assert space + "" == space;
  }

  /** `str::split` on one character. */
  function Split(s: string, c: char): (r: seq<string>)
    ensures r != []
  {
    if s == "" then [""]
    else if s[0] == c then [""] + Split(s[1..], c)
    else
      var rest := Split(s[1..], c);
      [[s[0]] + rest[0]] + rest[1..]
  }

  /** `join`. */
  function Join(parts: seq<string>, c: char): string
  {
    if parts == [] then ""
    else if |parts| == 1 then parts[0]
    else parts[0] + [c] + Join(parts[1..], c)
  }

  /** `str::split_once`. */
  function SplitOnce(s: string, c: char): Option<(string, string)>
  {
    if s == "" then None
    else if s[0] == c then Some(("", s[1..]))
    else
      match SplitOnce(s[1..], c)
      case None => None
      case Some((a, b)) => Some(([s[0]] + a, b))
  }

  lemma {:induction false} SplitFirst(part: string, rest: string, c: char)
    requires c !in part
    ensures Split(part + [c] + rest, c) == [part] + Split(rest, c)
  {
    if part == "" {
      assert part + [c] + rest == [c] + rest;
    } else {
      SplitFirst(part[1..], rest, c);
      var s := part + [c] + rest;
      assert s[1..] == part[1..] + [c] + rest;
      assert part == [part[0]] + part[1..];
    }
  }

  lemma {:induction false} SplitWhole(part: string, c: char)
    requires c !in part
    ensures Split(part, c) == [part]
  {
    if part != "" {
      SplitWhole(part[1..], c);
      assert part == [part[0]] + part[1..];
    }
  }

  /** Splitting undoes joining when no part contains the separator. */
  lemma {:induction false} SplitJoin(parts: seq<string>, c: char)
    requires parts != [] && forall i :: 0 <= i < |parts| ==> c !in parts[i]
    ensures Split(Join(parts, c), c) == parts
  {
    if |parts| == 1 {
      SplitWhole(parts[0], c);
    } else {
      SplitJoin(parts[1..], c);
      SplitFirst(parts[0], Join(parts[1..], c), c);
      assert parts == [parts[0]] + parts[1..];
    }
  }

  lemma {:induction false} SplitOnceFirst(part: string, rest: string, c: char)
    requires c !in part
    ensures SplitOnce(part + [c] + rest, c) == Some((part, rest))
  {
    if part == "" {
      assert part + [c] + rest == [c] + rest;
    } else {
      SplitOnceFirst(part[1..], rest, c);
      assert (part + [c] + rest)[1..] == part[1..] + [c] + rest;
      assert part == [part[0]] + part[1..];
    }
  }

  lemma {:induction false} SplitOnceNone(part: string, c: char)
    requires c !in part
    ensures SplitOnce(part, c) == None
  {
    if part != "" {
      SplitOnceNone(part[1..], c);
    }
  }

  // ---------------------------------------------------------------- decimals

  predicate IsDigit(c: char) { '0' <= c <= '9' }

  predicate AllDigits(s: string) { forall i :: 0 <= i < |s| ==> IsDigit(s[i]) }

  function DigitChar(d: nat): (c: char)
    requires d < 10
    ensures IsDigit(c)
  {
    (48 + d) as char
  }

  function DigitValue(c: char): (d: nat)
    requires IsDigit(c)
    ensures d < 10
  {
    c as int - 48
  }

  /** `to_string` of an unsigned number. */
  function ToDecimal(n: nat): (s: string)
    ensures s != "" && AllDigits(s)
  {
    if n < 10 then [DigitChar(n)] else ToDecimal(n / 10) + [DigitChar(n % 10)]
  }

  function DecimalValue(s: string): nat
    requires AllDigits(s)
  {
    if s == "" then 0 else 10 * DecimalValue(s[..|s| - 1]) + DigitValue(s[|s| - 1])
  }

  lemma {:induction false} DecimalRoundTrip(n: nat)
    ensures DecimalValue(ToDecimal(n)) == n
  {
    if n < 10 {
      assert DecimalValue("") == 0;
      assert ToDecimal(n)[..0] == "";
    } else {
      DecimalRoundTrip(n / 10);
      var s := ToDecimal(n);
      assert s[..|s| - 1] == ToDecimal(n / 10);
    }
  }

  /** `str::parse::<u32>`: an optional plus sign, digits, no overflow. */
  function ParseU32(s: string): Option<nat>
  {
    var digits := if |s| > 1 && s[0] == '+' then s[1..] else s;
    if digits == "" || !AllDigits(digits) || DecimalValue(digits) >= 0x1_0000_0000 then None
    else Some(DecimalValue(digits))
  }

  lemma ParsePrinted(n: nat)
    requires n < 0x1_0000_0000
    ensures ParseU32(ToDecimal(n)) == Some(n)
  {
    DecimalRoundTrip(n);
    assert ToDecimal(n)[0] != '+';
  }

  /** One leading plus sign is passed over, a minus sign or a second plus is not, and a sign alone is no number. */
  lemma ParseSigned(s: string)
    requires AllDigits(s) && s != ""
    ensures ParseU32("+" + s) == ParseU32(s)
    ensures ParseU32("-" + s) == ParseU32("++" + s) == ParseU32("+") == ParseU32("") == None
  {
    var plus, minus, twice := "+" + s, "-" + s, "++" + s;
    assert plus[0] == '+' && plus[1..] == s && s[0] != '+';
    assert !IsDigit(minus[0]) && minus[0] != '+';
    assert twice[0] == '+' && twice[1..][0] == '+' && !IsDigit(twice[1..][0]);
  }

  /** Digits, leading zeros among them, are read if their value fits into 32 bits. */
  lemma ParseDigits(s: string)
    requires AllDigits(s) && s != ""
    ensures ParseU32(s) == if DecimalValue(s) <= 0xffff_ffff then Some(DecimalValue(s)) else None
    ensures ParseU32("0" + s) == ParseU32(s)
  {
    var zero := "0" + s;
    LeadingZero(s);
    assert s[0] != '+' && zero[0] != '+';
  }

  lemma {:induction false} LeadingZero(s: string)
    requires AllDigits(s)
    ensures AllDigits("0" + s) && DecimalValue("0" + s) == DecimalValue(s)
    decreases |s|
  {
    var t := "0" + s;
    assert forall i :: 0 <= i < |s| ==> t[i + 1] == s[i];
    if s == "" {
      assert t[..0] == "" && DecimalValue("") == 0;
    } else {
      assert t[..|t| - 1] == "0" + s[..|s| - 1];
      LeadingZero(s[..|s| - 1]);
    }
  }

  /** Text without white space at its ends is not trimmed. */
  lemma TrimNothing(s: string)
    requires s != "" ==> !IsWhitespace(s[0]) && !IsWhitespace(s[|s| - 1])
    ensures Trim(s) == s
  {
  }
}
