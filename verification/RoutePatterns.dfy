/** What route patterns and percent escapes mean, said without the functions that read them, and which
    of several matching routes wins. */
module RoutePatterns {
  import opened Basics
  import opened HttpText
  import opened Routes

  // ---- percent escapes ----

  const LOWER_DIGITS := "0123456789abcdef"
  const UPPER_DIGITS := "0123456789ABCDEF"

  /** The hexadecimal digits are those of the two alphabets, and no other character is one. */
  lemma HexDigitIff(c: char, n: nat)
    ensures HexDigit(c) == n <==> n < 16 && (c == LOWER_DIGITS[n] || c == UPPER_DIGITS[n])
    ensures HexDigit(c) >= -1
  {
  }

  /** A percent sign and the two digits of n, in either case, stand for the character with number n. */
  lemma EscapeDecodes(n: nat, hi: char, lo: char, rest: string)
    requires n < 256
    requires hi in {LOWER_DIGITS[n / 16], UPPER_DIGITS[n / 16]} && lo in {LOWER_DIGITS[n % 16], UPPER_DIGITS[n % 16]}
    ensures Decoded(['%', hi, lo] + rest) == [n as char] + Decoded(rest)
  {
    HexDigitIff(hi, n / 16);
    HexDigitIff(lo, n % 16);
    DigitsDecode(hi, lo, rest);
  }

  lemma DigitsDecode(hi: char, lo: char, rest: string)
    requires HexDigit(hi) >= 0 && HexDigit(lo) >= 0
    ensures Decoded(['%', hi, lo] + rest) == [(16 * HexDigit(hi) + HexDigit(lo)) as char] + Decoded(rest)
  {
    assert (['%', hi, lo] + rest)[3..] == rest;
  }

  /** Any other character stands for itself. */
  lemma OthersStay(c: char, rest: string)
    requires c != '%' || |rest| < 2 || HexDigit(rest[0]) < 0 || HexDigit(rest[1]) < 0
    ensures Decoded([c] + rest) == [c] + Decoded(rest)
  {
    assert ([c] + rest)[1..] == rest;
  }

  // ---- pieces of a pattern ----

  lemma Braced(part: string, inner: string)
    requires part == "{" + inner + "}" && inner != ""
    ensures |part| >= 3 && part[0] == '{' && part[|part| - 1] == '}' && part[1..|part| - 1] == inner
  {
  }

  predicate Dotted(name: string) { |name| >= 4 && name[|name| - 3..] == "..." }

  lemma SegmentOfBraced(inner: string)
    requires inner != ""
    ensures SegmentOf("{" + inner + "}") == if Dotted(inner) then CatchAll(inner[..|inner| - 3]) else Param(inner)
  {
    Braced("{" + inner + "}", inner);
  }

  lemma DottedName(name: string)
    requires name != ""
    ensures Dotted(name + "...") && (name + "...")[..|name|] == name
  {
  }

  /** A name in braces is a parameter, a name followed by three dots in braces is a catch-all, and any
      other piece stands for itself. */
  lemma SegmentIff(part: string, name: string)
    ensures SegmentOf(part) == CatchAll(name) <==> name != "" && part == "{" + name + "...}"
    ensures SegmentOf(part) == Param(name) <==>
      name != "" && part == "{" + name + "}" && (|name| < 4 || name[|name| - 3..] != "...")
    ensures SegmentOf(part) == Literal(name) <==>
      name == part && (|part| < 3 || part[0] != '{' || part[|part| - 1] != '}')
  {
    assert "{" + (name + "...") + "}" == "{" + name + "...}";
    if |part| >= 3 && part[0] == '{' && part[|part| - 1] == '}' {
      var inner := part[1..|part| - 1];
      assert part == "{" + inner + "}";
      SegmentOfBraced(inner);
      if part == "{" + name + "}" {
        assert inner == name;
      }
      if part == "{" + (name + "...") + "}" {
        assert inner == name + "...";
      }
      if Dotted(inner) {
        assert inner == inner[..|inner| - 3] + "...";
      }
    } else if name != "" {
      Braced("{" + name + "}", name);
      Braced("{" + (name + "...") + "}", name + "...");
    }
    if name != "" {
      DottedName(name);
    }
  }

  // ---- a catch-all, from the pattern to the parameter ----

  /** Pieces that stand for themselves. */
  predicate Literals(prefix: seq<string>) {
    forall i :: 0 <= i < |prefix| ==>
      var p := prefix[i]; p != "" && '/' !in p && (|p| < 3 || p[0] != '{' || p[|p| - 1] != '}')
  }

  /** prefix[0]/prefix[1]/.../{name...} */
  function CatchAllPattern(prefix: seq<string>, name: string): string {
    Join(prefix + ["{" + name + "...}"], "/")
  }

  lemma {:induction false} SegmentsAre(parts: seq<string>)
    ensures |SegmentsOf(parts)| == |parts|
    ensures forall i :: 0 <= i < |parts| ==> SegmentsOf(parts)[i] == SegmentOf(parts[i])
  {
    if parts != [] {
      SegmentsAre(parts[1..]);
    }
  }

  lemma CatchAllSegments(prefix: seq<string>, name: string, handler: int)
    requires Literals(prefix) && name != "" && '/' !in name
    ensures var segments := RouteOf(CatchAllPattern(prefix, name), handler).segments;
      && |segments| == |prefix| + 1 && segments[|prefix|] == CatchAll(name)
      && forall i :: 0 <= i < |prefix| ==> segments[i] == Literal(prefix[i])
  {
    var last := "{" + name + "...}";
    var parts := prefix + [last];
    SegmentIff(last, name);
    forall i | 0 <= i < |prefix| ensures SegmentOf(parts[i]) == Literal(prefix[i]) {
      SegmentIff(prefix[i], prefix[i]);
    }
    SplitJoin(parts, "/");
    SegmentsAre(parts);
  }

  predicate LiteralAt(segments: seq<Segment>, parts: seq<string>, j: nat)
    requires j < |segments| && j < |parts|
  {
    segments[j] == Literal(Decoded(parts[j]))
  }

  lemma {:induction false} LiteralsThenRest(segments: seq<Segment>, parts: seq<string>, i: nat, n: nat, params: Params)
    requires i <= n < |segments| <= |parts| && segments[n].CatchAll?
    requires forall j :: i <= j < n ==> LiteralAt(segments, parts, j)
    ensures MatchFrom(segments, parts, i, params) == Some(params[segments[n].name := JoinRest("", parts[n..])])
    decreases n - i
  {
    if i < n {
      assert LiteralAt(segments, parts, i);
      LiteralsThenRest(segments, parts, i + 1, n, params);
    }
  }

  /** A catch-all route matches every path that begins with its literal pieces and goes on, and binds the
      name to the rest of the path. */
  lemma CatchAllMatches(prefix: seq<string>, name: string, handler: int, path: string)
    requires Literals(prefix) && name != "" && '/' !in name
    requires |prefix| < |Pieces(path)| && prefix == Pieces(path)[..|prefix|]
    ensures Match(RouteOf(CatchAllPattern(prefix, name), handler), path)
      == Some(map[name := Join(Pieces(path)[|prefix|..], "/")])
  {
    var segments, parts := RouteOf(CatchAllPattern(prefix, name), handler).segments, Split(path, "/");
    CatchAllSegments(prefix, name, handler);
    forall j | 0 <= j < |prefix| ensures LiteralAt(segments, parts, j) {
      assert prefix[j] == Pieces(path)[j];
    }
    LiteralsThenRest(segments, parts, 0, |prefix|, map[]);
    PiecesNotEmpty(path, "/");
    JoinRestJoins(parts[|prefix|..]);
    assert DecodeAll(parts[|prefix|..]) == Pieces(path)[|prefix|..];
    assert segments[|prefix|].CatchAll?;
  }

  /** Through the table: a catch-all route added alone is found for all those paths. */
  method AddThenFind(prefix: seq<string>, name: string, handler: int, kind: int, path: string)
    returns (found: Option<Found>)
    requires Literals(prefix) && name != "" && '/' !in name
    requires Plain(path) && |prefix| < |Pieces(path)| && prefix == Pieces(path)[..|prefix|]
    ensures found == Some(Found(0, map[name := Join(Pieces(path)[|prefix|..], "/")]))
  {
    CatchAllMatches(prefix, name, handler, path);
    SecondDecodingIff(path);
    var table := new RouteTable();
    table.Add(CatchAllPattern(prefix, name), handler, kind);
    found := table.Find(kind, path);
    assert table.routes[kind][0] == RouteOf(CatchAllPattern(prefix, name), handler);
  }

  // ---- which of several routes wins ----

  /** Where the literal segments are, from the i-th on. */
  function LiteralPlaces(segments: seq<Segment>, i: nat): set<nat> {
    set k: nat | i <= k < |segments| && segments[k].Literal?
  }

  lemma {:induction false} LiteralsCount(segments: seq<Segment>, i: nat)
    requires i <= |segments|
    ensures Routes.Literals(segments[i..]) == |LiteralPlaces(segments, i)|
    decreases |segments| - i
  {
    if i < |segments| {
      LiteralsCount(segments, i + 1);
      assert segments[i..][1..] == segments[i + 1..];
      assert LiteralPlaces(segments, i) == LiteralPlaces(segments, i + 1) + if segments[i].Literal? then {i} else {};
    } else {
      assert LiteralPlaces(segments, i) == {};
    }
  }

  predicate Exact(a: Route) { forall k :: 0 <= k < |a.segments| ==> a.segments[k].Literal? }

  predicate Catching(a: Route) { exists k :: 0 <= k < |a.segments| && a.segments[k].CatchAll? }

  /** The routes a route wins over when both match; `first` if it was added before the other. */
  predicate WinsOver(a: Route, b: Route, first: bool) {
    if Exact(a) || Exact(b) then Exact(a) && (Exact(b) ==> first)
    else if Catching(a) || Catching(b) then
      !Catching(a) || (Catching(b) && MoreLiterals(a, b, first))
    else MoreLiterals(a, b, first)
  }

  predicate MoreLiterals(a: Route, b: Route, first: bool) {
    var m, n := |LiteralPlaces(a.segments, 0)|, |LiteralPlaces(b.segments, 0)|;
    m > n || (m == n && first)
  }

  /** Among the routes that match, one without parameters wins over all others and the first added of
      them wins; failing that, one without a catch-all wins over those with one, then more literal pieces
      over fewer, then the one added first. */
  lemma ChosenIff(routes: seq<Route>, path: string, i: nat)
    requires i < |routes|
    ensures Chosen(routes, path, i) <==>
      && Match(routes[i], path).Some?
      && forall j: nat :: j < |routes| && j != i && Match(routes[j], path).Some? ==>
           WinsOver(routes[i], routes[j], i < j)
  {
    forall j: nat | j < |routes|
      ensures Better(routes[i], routes[j]) || (!Better(routes[j], routes[i]) && i < j) <==>
        WinsOver(routes[i], routes[j], i < j)
    {
      LiteralsCount(routes[i].segments, 0);
      LiteralsCount(routes[j].segments, 0);
      assert routes[i].segments[0..] == routes[i].segments && routes[j].segments[0..] == routes[j].segments;
    }
  }
}
