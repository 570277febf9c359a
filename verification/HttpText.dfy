/** The string operations HTTP messages are built from and taken apart with. */
module HttpText {

  import opened Basics

  /** Where `p` first occurs in `s`; |s| if it does not. */
  function Index(s: string, p: string): (i: nat)
    requires p != ""
    ensures i <= |s|
  {
    if s == "" || p <= s then 0 else 1 + Index(s[1..], p)
  }

  /** Where a character of `any` first occurs in `s`; |s| if none does. */
  function FirstOf(s: string, any: string): (i: nat)
    ensures i <= |s|
  {
    if s == "" || s[0] in any then 0 else 1 + FirstOf(s[1..], any)
  }

  /** The non-empty pieces of `s` between occurrences of `d`. */
  function Split(s: string, d: string): seq<string>
    requires d != ""
    decreases |s|
  {
    if s == "" then []
    else if d <= s then Split(s[|d|..], d)
    else [s[..Index(s, d)]] + Split(s[Index(s, d)..], d)
  }

  /** Key and value around the first `d`; both empty when there is no `d` or no key. */
  function SplitPair(s: string, d: char): (string, string) {
    var i := FirstOf(s, [d]);
    if i == |s| || i == 0 then ("", "") else (s[..i], s[i + 1..])
  }

  function Join(parts: seq<string>, d: string): string {
    if |parts| == 0 then "" else if |parts| == 1 then parts[0] else parts[0] + d + Join(parts[1..], d)
  }

  /** Every part followed by `d`. */
  function Ended(parts: seq<string>, d: string): string {
    if |parts| == 0 then "" else parts[0] + d + Ended(parts[1..], d)
  }

  function ToLower(c: char): char { if 'A' <= c <= 'Z' then c - 'A' + 'a' else c }

  function Lower(s: string): (r: string)
    ensures |r| == |s| && forall i :: 0 <= i < |s| ==> r[i] == ToLower(s[i])
  {
    if s == "" then "" else [ToLower(s[0])] + Lower(s[1..])
  }

  /** None of the characters of `any` occurs in `s`. */
  predicate Free(s: string, any: string) { forall c :: c in s ==> c !in any }

  // ---- searching past a part that cannot match ----

  lemma {:induction false} IndexSkips(a: string, s: string, p: string)
    requires p != "" && p[0] !in a
    ensures Index(a + s, p) == |a| + Index(s, p)
  {
    if a == "" {
      assert a + s == s;
    } else {
      assert (a + s)[0] == a[0];
      assert (a + s)[1..] == a[1..] + s;
      IndexSkips(a[1..], s, p);
    }
  }

  lemma {:induction false} FirstOfSkips(a: string, s: string, any: string)
    requires Free(a, any)
    ensures FirstOf(a + s, any) == |a| + FirstOf(s, any)
  {
    if a == "" {
      assert a + s == s;
    } else {
      assert (a + s)[0] == a[0] && a[0] in a;
      assert (a + s)[1..] == a[1..] + s;
      FirstOfSkips(a[1..], s, any);
    }
  }

  lemma SplitHead(t: string, s: string, d: string)
    requires d != "" && t != "" && d[0] !in t
    ensures Split(t + d + s, d) == [t] + Split(s, d)
    ensures Split(t, d) == [t]
  {
    var all := t + d + s;
    assert all == t + (d + s) && t == t + "";
    IndexSkips(t, d + s, d);
    IndexSkips(t, "", d);
    assert all[0] == t[0] && t[0] in t;
    assert d <= d + s;
    assert all[|t|..] == d + s && (d + s)[|d|..] == s;
    assert all[..|t|] == t && t[..|t|] == t && t[|t|..] == "";
  }

  lemma {:induction false} SplitJoin(parts: seq<string>, d: string)
    requires d != "" && forall i :: 0 <= i < |parts| ==> parts[i] != "" && d[0] !in parts[i]
    ensures Split(Join(parts, d), d) == parts
  {
    if |parts| == 1 {
      SplitHead(parts[0], "", d);
    } else if |parts| > 1 {
      SplitHead(parts[0], Join(parts[1..], d), d);
      SplitJoin(parts[1..], d);
    }
  }

  lemma {:induction false} JoinFree(parts: seq<string>, d: string, any: string)
    requires Free(d, any) && forall i :: 0 <= i < |parts| ==> Free(parts[i], any)
    ensures Free(Join(parts, d), any)
  {
    if |parts| > 1 {
      JoinFree(parts[1..], d, any);
    }
  }

  // ---- header sections ----

  const CRLF := "\r\n"
  const BLANK := "\r\n\r\n"

  predicate Line(s: string) { s != "" && Free(s, CRLF) }

  /** What from_string takes a message apart into: the lines before the blank line, and the rest. */
  function Sections(raw: string): Option<(seq<string>, string)> {
    var end := Index(raw, BLANK);
    if end == |raw| then None else Some((Split(raw[..end], CRLF), raw[BodyStart(raw)..]))
  }

  function BodyStart(raw: string): (i: nat)
    requires Index(raw, BLANK) < |raw|
    ensures i <= |raw|
  {
    IndexFinds(raw, BLANK);
    Index(raw, BLANK) + 4
  }

  lemma {:induction false} IndexFinds(s: string, p: string)
    requires p != "" && Index(s, p) < |s|
    ensures p <= s[Index(s, p)..]
  {
    if !(p <= s) {
      IndexFinds(s[1..], p);
    }
  }

  predicate BlankLineAt(raw: string, i: nat) { i < |raw| && BLANK <= raw[i..] }

  lemma {:induction false} IndexIsFirst(s: string, p: string, i: nat)
    requires p != "" && i < |s| && p <= s[i..]
    ensures Index(s, p) <= i
  {
    if i > 0 && !(p <= s) {
      assert s[1..][i - 1..] == s[i..];
      IndexIsFirst(s[1..], p, i - 1);
    }
  }

  /** The first blank line separates header lines and body. */
  lemma FirstBlankLine(raw: string, i: nat)
    requires BlankLineAt(raw, i) && forall j: nat :: j < i ==> !BlankLineAt(raw, j)
    ensures i + 4 <= |raw| && Sections(raw) == Some((Split(raw[..i], CRLF), raw[i + 4..]))
  {
    IndexIsFirst(raw, BLANK, i);
    IndexFinds(raw, BLANK);
    assert BlankLineAt(raw, Index(raw, BLANK));
  }

  /** A text without one has no sections. */
  lemma NoBlankLine(raw: string)
    ensures Sections(raw).None? <==> forall i: nat :: !BlankLineAt(raw, i)
  {
    if Index(raw, BLANK) < |raw| {
      IndexFinds(raw, BLANK);
      assert BlankLineAt(raw, Index(raw, BLANK));
    }
    forall i: nat | BlankLineAt(raw, i) ensures Sections(raw).Some? {
      IndexIsFirst(raw, BLANK, i);
    }
  }

  /** Lines, a blank line and a body are taken apart where they were put together. */
  lemma SectionsOfText(lines: seq<string>, body: string)
    requires lines != [] && forall i :: 0 <= i < |lines| ==> Line(lines[i])
    ensures Sections(Ended(lines, CRLF) + CRLF + body) == Some((lines, body))
  {
    var head := Join(lines, CRLF);
    JoinedLines(lines);
    BlankAt(lines, body);
    SplitJoin(lines, CRLF);
    CutAtBlank(Ended(lines, CRLF) + CRLF + body, head, body);
  }

  lemma CutAtBlank(raw: string, head: string, body: string)
    requires raw == head + CRLF + CRLF + body && Index(raw, BLANK) == |head|
    ensures Sections(raw) == Some((Split(head, CRLF), body))
  {
    assert raw[..|head|] == head;
    assert raw[|head| + 4..] == body;
  }

  lemma {:induction false} JoinedLines(lines: seq<string>)
    requires lines != []
    ensures Ended(lines, CRLF) == Join(lines, CRLF) + CRLF
  {
    if |lines| > 1 {
      JoinedLines(lines[1..]);
    } else {
      assert Ended(lines[1..], CRLF) == "";
    }
  }

  lemma BlankLater(rest: string)
    requires rest != "" && rest[0] != '\r'
    ensures Index(CRLF + rest, BLANK) == 2 + Index(rest, BLANK)
  {
    assert (CRLF + rest)[2] == rest[0];
    assert (CRLF + rest)[1..][1..] == rest;
  }

  lemma {:induction false} BlankAt(lines: seq<string>, body: string)
    requires lines != [] && forall i :: 0 <= i < |lines| ==> Line(lines[i])
    ensures Index(Ended(lines, CRLF) + CRLF + body, BLANK) == |Join(lines, CRLF)|
  {
    var rest := Ended(lines[1..], CRLF) + CRLF + body;
    var tail := CRLF + rest;
    assert Ended(lines, CRLF) + CRLF + body == lines[0] + tail;
    IndexSkips(lines[0], tail, BLANK);
    if |lines| == 1 {
      assert tail == BLANK + body;
    } else {
      var next := lines[1];
      assert rest == next + (CRLF + Ended(lines[2..], CRLF) + CRLF + body) by {
        assert lines[1..][1..] == lines[2..];
      }
      assert next[0] in next && rest[0] == next[0];
      BlankLater(rest);
      BlankAt(lines[1..], body);
    }
  }

  // ---- numbers ----

  function Digit(d: nat): char
    requires d < 10
  {
    '0' + d as char
  }

  predicate IsDigit(c: char) { '0' <= c <= '9' }

  /** std::to_string of an unsigned number. */
  function Decimal(n: nat): (s: string)
    ensures s != "" && forall i :: 0 <= i < |s| ==> IsDigit(s[i])
  {
    if n < 10 then [Digit(n)] else Decimal(n / 10) + [Digit(n % 10)]
  }

  function Digits(s: string): (i: nat)
    ensures i <= |s| && forall j :: 0 <= j < i ==> IsDigit(s[j])
  {
    if s == "" || !IsDigit(s[0]) then 0 else 1 + Digits(s[1..])
  }

  function Value(s: string): nat
    requires forall i :: 0 <= i < |s| ==> IsDigit(s[i])
  {
    if s == "" then 0 else
      assert IsDigit(s[|s| - 1]);
      10 * Value(s[..|s| - 1]) + (s[|s| - 1] as int - '0' as int)
  }

  const WORD64 := 0x1_0000_0000_0000_0000
  const WORD32 := 0x1_0000_0000

  /** convert_from_string to a 32-bit number in base 10: an optional sign, then the leading digits as a
      64-bit number; a minus sign wraps around, and the upper half is cut off. */
  function ParseUint32(s: string): Option<nat> {
    if s != "" && s[0] == '-' then ParseUnsigned(s[1..], true)
    else ParseUnsigned(if s != "" && s[0] == '+' then s[1..] else s, false)
  }

  function ParseUnsigned(t: string, negative: bool): Option<nat> {
    var n := Digits(t);
    if n == 0 || Value(t[..n]) >= WORD64 then None else Some(Cut(Value(t[..n]), negative))
  }

  function Cut(v: nat, negative: bool): nat
    requires v < WORD64
  {
    (if negative then (WORD64 - v) % WORD64 else v) % WORD32
  }

  lemma CutKeeps(v: nat)
    requires v < WORD32
    ensures Cut(v, false) == v
  {
  }

  lemma {:induction false} DecimalValue(n: nat)
    ensures Value(Decimal(n)) == n
  {
    if n >= 10 {
      DecimalValue(n / 10);
      assert Decimal(n)[..|Decimal(n)| - 1] == Decimal(n / 10);
    }
  }

  lemma {:induction false} AllDigits(s: string)
    requires forall i :: 0 <= i < |s| ==> IsDigit(s[i])
    ensures Digits(s) == |s|
  {
    if s != "" {
      AllDigits(s[1..]);
    }
  }

  lemma NumberRoundTrip(n: nat)
    requires n < WORD32
    ensures ParseUint32(Decimal(n)) == Some(n)
  {
    var s := Decimal(n);
    assert IsDigit(s[0]);
    AllDigits(s);
    DecimalValue(n);
    PlainNumber(s);
  }

  lemma PlainNumber(s: string)
    requires Digits(s) == |s| > 0 && Value(s) < WORD32
    ensures ParseUnsigned(s, false) == Some(Value(s))
  {
    assert s[..|s|] == s;
    CutKeeps(Value(s));
  }

  /** Digits end where the number does. */
  lemma {:induction false} DigitsThen(d: string, rest: string)
    requires (forall i :: 0 <= i < |d| ==> IsDigit(d[i])) && (rest == "" || !IsDigit(rest[0]))
    ensures Digits(d + rest) == |d|
  {
    if d != "" {
      assert (d + rest)[1..] == d[1..] + rest;
      DigitsThen(d[1..], rest);
    } else {
      assert d + rest == rest;
    }
  }

  /** The digits are those of the alphabet, with their values. */
  lemma DigitIff(c: char, n: nat)
    ensures IsDigit(c) && Value([c]) == n <==> n < 10 && c == "0123456789"[n]
  {
    if IsDigit(c) {
      assert [c][..0] == [] && Value([]) == 0;
    }
  }

  /** A number kept in 32 bits, if it fits 64. */
  function Kept(v: nat, negative: bool): Option<nat> {
    if v >= 0x1_0000_0000_0000_0000 then None
    else if negative then Some((0 - v) % 0x1_0000_0000)
    else Some(v % 0x1_0000_0000)
  }

  lemma CutIs(v: nat, negative: bool)
    requires v < WORD64
    ensures Some(Cut(v, negative)) == Kept(v, negative)
  {
  }

  predicate AllDigit(d: string) { forall i :: 0 <= i < |d| ==> IsDigit(d[i]) }

  lemma ParsedUnsigned(d: string, rest: string, negative: bool)
    requires d != "" && AllDigit(d) && (rest == "" || !IsDigit(rest[0]))
    ensures ParseUnsigned(d + rest, negative) == Kept(Value(d), negative)
  {
    DigitsThen(d, rest);
    assert (d + rest)[..|d|] == d;
    if Value(d) < WORD64 {
      CutIs(Value(d), negative);
    }
  }

  lemma SignRead(t: string)
    requires t != "" && IsDigit(t[0])
    ensures ParseUint32(t) == ParseUint32("+" + t) == ParseUnsigned(t, false)
    ensures ParseUint32("-" + t) == ParseUnsigned(t, true)
  {
    assert ("+" + t)[1..] == t && ("-" + t)[1..] == t;
  }

  /** What a number is read as, whatever follows it: nothing from 2^64 on, otherwise the number modulo 2^32,
      with a minus sign counted down from 2^32. A plus sign changes nothing. */
  lemma ParsedNumber(d: string, rest: string)
    requires d != "" && AllDigit(d) && (rest == "" || !IsDigit(rest[0]))
    ensures ParseUint32(d + rest) == ParseUint32("+" + (d + rest)) == Kept(Value(d), false)
    ensures ParseUint32("-" + (d + rest)) == Kept(Value(d), true)
  {
    assert (d + rest)[0] == d[0];
    SignRead(d + rest);
    ParsedUnsigned(d, rest, false);
    ParsedUnsigned(d, rest, true);
  }

  /** And without digits nothing is read. */
  lemma NoNumber(sign: string, rest: string)
    requires sign == "" || sign == "+" || sign == "-"
    requires rest == "" || !IsDigit(rest[0])
    requires rest != "" && sign == "" ==> rest[0] != '+' && rest[0] != '-'
    ensures ParseUint32(sign + rest) == None
  {
    assert (sign + rest)[|sign|..] == rest;
    DigitsThen("", rest);
    assert "" + rest == rest;
  }
}
