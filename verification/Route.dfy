/** Routes with parameters, and the table that picks one for a path. */
module Routes {
  import opened Basics
  import opened HttpText

  // ---- percent decoding and normalising ----

  function HexDigit(c: char): int {
    if '0' <= c <= '9' then c as int - '0' as int
    else if 'a' <= c <= 'f' then 10 + (c as int - 'a' as int)
    else if 'A' <= c <= 'F' then 10 + (c as int - 'A' as int)
    else -1
  }

  /** A percent sign and two hexadecimal digits at the front. */
  predicate Escape(s: string) { |s| > 2 && s[0] == '%' && HexDigit(s[1]) >= 0 && HexDigit(s[2]) >= 0 }

  function Unescaped(hi: int, lo: int): char
    requires 0 <= hi < 16 && 0 <= lo < 16
  {
    (16 * hi + lo) as char
  }

  function Decoded(s: string): (r: string)
    ensures r == "" <==> s == ""
    ensures '%' !in s ==> r == s
  {
    if s == "" then ""
    else if Escape(s) then [Unescaped(HexDigit(s[1]), HexDigit(s[2]))] + Decoded(s[3..])
    else [s[0]] + Decoded(s[1..])
  }

  lemma DecodedEscape(s: string, i: nat)
    requires i < |s| && Escape(s[i..])
    ensures Decoded(s[i..]) == [Unescaped(HexDigit(s[i + 1]), HexDigit(s[i + 2]))] + Decoded(s[i + 3..])
  {
    assert s[i..][3..] == s[i + 3..];
  }

  lemma DecodedPlain(s: string, i: nat)
    requires i < |s| && !Escape(s[i..])
    ensures Decoded(s[i..]) == [s[i]] + Decoded(s[i + 1..])
  {
    assert s[i..][1..] == s[i + 1..];
  }

  lemma EscapeAt(s: string, i: nat)
    requires i < |s|
    ensures Escape(s[i..]) <==> s[i] == '%' && i + 2 < |s| && HexDigit(s[i + 1]) >= 0 && HexDigit(s[i + 2]) >= 0
  {
  }

  /** The character that starts at i, and where the next one does. */
  method DecodeOne(s: string, i: nat) returns (c: char, next: nat)
    requires i < |s|
    ensures i < next <= |s| && Decoded(s[i..]) == [c] + Decoded(s[next..])
  {
    EscapeAt(s, i);
    if s[i] == '%' && i + 2 < |s| {
      var hi, lo := HexDigit(s[i + 1]), HexDigit(s[i + 2]);
      if hi >= 0 && lo >= 0 {
        DecodedEscape(s, i);
        return Unescaped(hi, lo), i + 3;
      }
    }
    DecodedPlain(s, i);
    return s[i], i + 1;
  }

  method StrDecode(s: string) returns (result: string)
    ensures result == Decoded(s)
  {
    result := "";
    var i := 0;
    assert s[0..] == s;
    while i < |s|
      invariant i <= |s| && Decoded(s) == result + Decoded(s[i..])
    {
      var c, next := DecodeOne(s, i);
      result := result + [c];
      i := next;
    }
  }

  function DecodeAll(parts: seq<string>): (r: seq<string>)
    ensures |r| == |parts| && forall i :: 0 <= i < |r| ==> r[i] == Decoded(parts[i])
  {
    seq(|parts|, i requires 0 <= i < |parts| => Decoded(parts[i]))
  }

  function Normalized(path: string): string { Join(DecodeAll(Split(path, "/")), "/") }

  /** The pieces of a split string are never empty. */
  lemma {:induction false} PiecesNotEmpty(s: string, d: string)
    requires d != ""
    ensures forall i :: 0 <= i < |Split(s, d)| ==> Split(s, d)[i] != ""
    decreases |s|
  {
    if s != "" {
      if d <= s {
        PiecesNotEmpty(s[|d|..], d);
      } else {
        PiecesNotEmpty(s[Index(s, d)..], d);
      }
    }
  }

  // ---- patterns ----

  datatype Segment = Literal(value: string) | Param(name: string) | CatchAll(name: string)

  datatype Route = Route(segments: seq<Segment>, handler: int) {
    predicate HasParams() { exists i :: 0 <= i < |segments| && !segments[i].Literal? }
    predicate HasCatchAll() { exists i :: 0 <= i < |segments| && segments[i].CatchAll? }
    function Specificity(): nat { Literals(segments) }
  }

  function Literals(segments: seq<Segment>): nat {
    if segments == [] then 0 else (if segments[0].Literal? then 1 else 0) + Literals(segments[1..])
  }

  function SegmentOf(part: string): Segment {
    if |part| >= 3 && part[0] == '{' && part[|part| - 1] == '}' then
      var name := part[1..|part| - 1];
      if |name| >= 4 && name[|name| - 3..] == "..." then CatchAll(name[..|name| - 3]) else Param(name)
    else Literal(part)
  }

  function RouteOf(pattern: string, handler: int): Route { Route(SegmentsOf(Split(pattern, "/")), handler) }

  function SegmentsOf(parts: seq<string>): seq<Segment> {
    if parts == [] then [] else [SegmentOf(parts[0])] + SegmentsOf(parts[1..])
  }

  // ---- matching one route ----

  type Params = map<string, string>

  /** The rest of the path, as the catch-all loop joins it. */
  function JoinRest(joined: string, parts: seq<string>): string
    decreases |parts|
  {
    if parts == [] then joined
    else JoinRest((if joined == "" then "" else joined + "/") + Decoded(parts[0]), parts[1..])
  }

  function LengthFits(segments: seq<Segment>, parts: seq<string>): bool {
    if exists i :: 0 <= i < |segments| && segments[i].CatchAll? then |parts| >= |segments| else |parts| == |segments|
  }

  function MatchFrom(segments: seq<Segment>, parts: seq<string>, i: nat, params: Params): Option<Params>
    requires i <= |segments| <= |parts|
    decreases |segments| - i
  {
    if i == |segments| then Some(params)
    else
      match segments[i]
      case CatchAll(name) => Some(params[name := JoinRest("", parts[i..])])
      case Param(name) => MatchFrom(segments, parts, i + 1, params[name := Decoded(parts[i])])
      case Literal(value) => if value != Decoded(parts[i]) then None else MatchFrom(segments, parts, i + 1, params)
  }

  function Match(route: Route, path: string): Option<Params> {
    var parts := Split(path, "/");
    if !LengthFits(route.segments, parts) then None else MatchFrom(route.segments, parts, 0, map[])
  }

  method MatchPath(route: Route, path: string) returns (params: Option<Params>)
    ensures params == Match(route, path)
  {
    var segments, parts := route.segments, Split(path, "/");
    if !LengthFits(segments, parts) {
      return None;
    }
    var found: Params := map[];
    for i := 0 to |segments|
      invariant MatchFrom(segments, parts, 0, map[]) == MatchFrom(segments, parts, i, found)
    {
      match segments[i] {
        case CatchAll(name) =>
          var joined := JoinTail(parts[i..]);
          return Some(found[name := joined]);
        case Param(name) =>
          var value := StrDecode(parts[i]);
          found := found[name := value];
        case Literal(value) =>
          var part := StrDecode(parts[i]);
          if value != part {
            return None;
          }
      }
    }
    return Some(found);
  }

  method JoinTail(parts: seq<string>) returns (joined: string)
    ensures joined == JoinRest("", parts)
  {
    joined := "";
    assert parts[0..] == parts;
    for j := 0 to |parts|
      invariant JoinRest("", parts) == JoinRest(joined, parts[j..])
    {
      assert parts[j..][1..] == parts[j + 1..];
      if joined != "" {
        joined := joined + "/";
      }
      var part := StrDecode(parts[j]);
      joined := joined + part;
    }
  }

  /** The first catch-all, or the end. */
  function Reach(segments: seq<Segment>): (n: nat)
    ensures n <= |segments|
  {
    if segments == [] || segments[0].CatchAll? then 0 else 1 + Reach(segments[1..])
  }

  lemma {:induction false} ReachIs(segments: seq<Segment>, i: nat)
    requires i <= |segments|
    ensures i + Reach(segments[i..]) <= |segments|
    ensures i < |segments| && !segments[i].CatchAll? ==> Reach(segments[i..]) == 1 + Reach(segments[i + 1..])
    ensures i < |segments| && segments[i].CatchAll? ==> Reach(segments[i..]) == 0
  {
    if i < |segments| {
      assert segments[i..][1..] == segments[i + 1..];
    }
  }

  lemma {:induction false} MatchFromIff(segments: seq<Segment>, parts: seq<string>, i: nat, params: Params)
    requires i <= |segments| <= |parts|
    ensures MatchFrom(segments, parts, i, params).Some? <==>
      forall j :: i <= j < i + Reach(segments[i..]) && segments[j].Literal? ==> segments[j].value == Decoded(parts[j])
    decreases |segments| - i
  {
    ReachIs(segments, i);
    if i < |segments| {
      ReachIs(segments, i + 1);
      match segments[i]
      case CatchAll(name) =>
      case Param(name) => MatchFromIff(segments, parts, i + 1, params[name := Decoded(parts[i])]);
      case Literal(value) => MatchFromIff(segments, parts, i + 1, params);
    }
  }

  /** A route matches exactly the paths with the right number of pieces, at least as many for a
      catch-all, whose pieces agree with the literals before it; literals after it do not matter. */
  lemma MatchIff(route: Route, path: string)
    ensures var parts := Split(path, "/");
      Match(route, path).Some? <==>
        && (if route.HasCatchAll() then |parts| >= |route.segments| else |parts| == |route.segments|)
        && forall j :: 0 <= j < Reach(route.segments) && route.segments[j].Literal? && j < |parts| ==>
             route.segments[j].value == Decoded(parts[j])
  {
    var parts := Split(path, "/");
    if LengthFits(route.segments, parts) {
      MatchFromIff(route.segments, parts, 0, map[]);
      assert route.segments[0..] == route.segments;
    }
  }

  // ---- the parameters put back into the pattern ----

  /** No name twice, and a catch-all only at the end. */
  predicate Proper(segments: seq<Segment>) {
    && (forall i, j :: 0 <= i < j < |segments| && !segments[i].Literal? && !segments[j].Literal? ==>
          segments[i].name != segments[j].name)
    && (forall i :: 0 <= i < |segments| && segments[i].CatchAll? ==> i == |segments| - 1)
  }

  /** What stands for segment j. */
  function Standing(segments: seq<Segment>, parts: seq<string>, j: nat): string
    requires j < |segments| <= |parts|
  {
    match segments[j]
    case Literal(value) => value
    case Param(_) => Decoded(parts[j])
    case CatchAll(_) => JoinRest("", parts[j..])
  }

  /** A parameter no later segment names keeps its value. */
  lemma {:induction false} MatchFromKeeps(segments: seq<Segment>, parts: seq<string>, i: nat, params: Params, k: string)
    requires i <= |segments| <= |parts| && MatchFrom(segments, parts, i, params).Some?
    requires k in params && forall j :: i <= j < |segments| && !segments[j].Literal? ==> segments[j].name != k
    ensures var found := MatchFrom(segments, parts, i, params).value; k in found && found[k] == params[k]
    decreases |segments| - i
  {
    if i < |segments| {
      match segments[i]
      case CatchAll(name) =>
      case Param(name) => MatchFromKeeps(segments, parts, i + 1, params[name := Decoded(parts[i])], k);
      case Literal(value) => MatchFromKeeps(segments, parts, i + 1, params, k);
    }
  }

  /** What a match says of segment j: a literal is the decoded part, a parameter what stands for it. */
  predicate Given(segments: seq<Segment>, parts: seq<string>, j: nat, found: Params)
    requires j < |segments| <= |parts|
  {
    if segments[j].Literal? then segments[j].value == Decoded(parts[j])
    else segments[j].name in found && found[segments[j].name] == Standing(segments, parts, j)
  }

  lemma {:induction false} MatchFromGives(segments: seq<Segment>, parts: seq<string>, i: nat, params: Params, j: nat)
    requires i <= j < |segments| <= |parts| && Proper(segments) && MatchFrom(segments, parts, i, params).Some?
    ensures Given(segments, parts, j, MatchFrom(segments, parts, i, params).value)
    decreases j - i
  {
    match segments[i]
    case CatchAll(name) =>
    case Literal(value) =>
      if i < j {
        MatchFromGives(segments, parts, i + 1, params, j);
      }
    case Param(name) =>
      var params' := params[name := Decoded(parts[i])];
      if i < j {
        MatchFromGives(segments, parts, i + 1, params', j);
      } else {
        MatchFromKeeps(segments, parts, i + 1, params', name);
      }
  }

  ghost predicate AllGiven(segments: seq<Segment>, parts: seq<string>, found: Params)
    requires |segments| <= |parts|
  {
    forall j :: 0 <= j < |segments| ==> Given(segments, parts, j, found)
  }

  lemma MatchGives(segments: seq<Segment>, parts: seq<string>)
    requires |segments| <= |parts| && Proper(segments) && MatchFrom(segments, parts, 0, map[]).Some?
    ensures AllGiven(segments, parts, MatchFrom(segments, parts, 0, map[]).value)
  {
    forall j | 0 <= j < |segments| ensures Given(segments, parts, j, MatchFrom(segments, parts, 0, map[]).value) {
      MatchFromGives(segments, parts, 0, map[], j);
    }
  }

  predicate Covers(segments: seq<Segment>, params: Params) {
    forall j :: 0 <= j < |segments| && !segments[j].Literal? ==> segments[j].name in params
  }

  /** The pattern with its parameters substituted. */
  function Filled(segments: seq<Segment>, params: Params): (r: seq<string>)
    requires Covers(segments, params)
    ensures |r| == |segments|
  {
    seq(|segments|, j requires 0 <= j < |segments| =>
      if segments[j].Literal? then segments[j].value else params[segments[j].name])
  }

  /** Every part behind a slash. */
  function Slashed(parts: seq<string>): string {
    if parts == [] then "" else "/" + Decoded(parts[0]) + Slashed(parts[1..])
  }

  lemma {:induction false} RestIsSlashed(joined: string, parts: seq<string>)
    requires joined != ""
    ensures JoinRest(joined, parts) == joined + Slashed(parts)
    decreases |parts|
  {
    if parts != [] {
      var first, rest := "/" + Decoded(parts[0]), Slashed(parts[1..]);
      RestIsSlashed(joined + first, parts[1..]);
      assert joined + "/" + Decoded(parts[0]) == joined + first;
      assert joined + first + rest == joined + (first + rest);
    }
  }

  lemma {:induction false} JoinIsSlashed(parts: seq<string>)
    requires parts != []
    ensures Join(DecodeAll(parts), "/") == Decoded(parts[0]) + Slashed(parts[1..])
  {
    if |parts| > 1 {
      JoinIsSlashed(parts[1..]);
      assert DecodeAll(parts)[1..] == DecodeAll(parts[1..]);
      assert Slashed(parts[1..]) == "/" + Decoded(parts[1]) + Slashed(parts[1..][1..]);
    }
  }

  lemma JoinRestJoins(parts: seq<string>)
    requires forall i :: 0 <= i < |parts| ==> parts[i] != ""
    ensures JoinRest("", parts) == Join(DecodeAll(parts), "/")
  {
    if parts != [] {
      assert "" + Decoded(parts[0]) == Decoded(parts[0]);
      RestIsSlashed(Decoded(parts[0]), parts[1..]);
      JoinIsSlashed(parts);
    }
  }

  lemma {:induction false} JoinNested(a: seq<string>, b: seq<string>, d: string)
    requires b != []
    ensures Join(a + [Join(b, d)], d) == Join(a + b, d)
  {
    if a == [] {
      assert a + [Join(b, d)] == [Join(b, d)] && a + b == b;
    } else {
      assert (a + [Join(b, d)])[1..] == a[1..] + [Join(b, d)];
      assert (a + b)[1..] == a[1..] + b;
      JoinNested(a[1..], b, d);
    }
  }

  lemma GivenCovers(segments: seq<Segment>, parts: seq<string>, params: Params)
    requires |segments| <= |parts| && AllGiven(segments, parts, params)
    ensures Covers(segments, params)
  {
    forall j | 0 <= j < |segments| && !segments[j].Literal? ensures segments[j].name in params {
      assert Given(segments, parts, j, params);
    }
  }

  lemma FilledIs(segments: seq<Segment>, parts: seq<string>, params: Params)
    requires |segments| <= |parts| && AllGiven(segments, parts, params) && Covers(segments, params)
    ensures forall j :: 0 <= j < |segments| ==>
      Filled(segments, params)[j] == if segments[j].CatchAll? then JoinRest("", parts[j..]) else Decoded(parts[j])
  {
    forall j | 0 <= j < |segments|
      ensures Filled(segments, params)[j] ==
        if segments[j].CatchAll? then JoinRest("", parts[j..]) else Decoded(parts[j])
    {
      assert Given(segments, parts, j, params);
    }
  }

  lemma {:induction false} DecodeSplit(parts: seq<string>, n: nat)
    requires n <= |parts|
    ensures DecodeAll(parts) == DecodeAll(parts[..n]) + DecodeAll(parts[n..])
  {
  }

  lemma SplitLast(filled: seq<string>, front: seq<string>)
    requires |filled| == |front| + 1 && forall j :: 0 <= j < |front| ==> filled[j] == front[j]
    ensures filled == front + [filled[|front|]]
  {
  }

  /** With a catch-all the last piece stands for all the rest. */
  lemma RestRebuilds(filled: seq<string>, parts: seq<string>, n: nat)
    requires n < |parts| && |filled| == n + 1 && forall i :: 0 <= i < |parts| ==> parts[i] != ""
    requires forall j :: 0 <= j < n ==> filled[j] == Decoded(parts[j])
    requires filled[n] == JoinRest("", parts[n..])
    ensures Join(filled, "/") == Join(DecodeAll(parts), "/")
  {
    JoinRestJoins(parts[n..]);
    SplitLast(filled, DecodeAll(parts[..n]));
    DecodeSplit(parts, n);
    JoinNested(DecodeAll(parts[..n]), DecodeAll(parts[n..]), "/");
  }

  /** Substituting the parameters of a match back into a proper pattern gives the decoded path. */
  lemma MatchRebuildsPath(route: Route, path: string)
    requires Proper(route.segments) && Match(route, path).Some?
    ensures Covers(route.segments, Match(route, path).value)
    ensures Join(Filled(route.segments, Match(route, path).value), "/") == Normalized(path)
  {
    var segments, parts, params := route.segments, Split(path, "/"), Match(route, path).value;
    MatchGives(segments, parts);
    GivenCovers(segments, parts, params);
    FilledIs(segments, parts, params);
    if route.HasCatchAll() {
      PiecesNotEmpty(path, "/");
      RestRebuilds(Filled(segments, params), parts, |segments| - 1);
    } else {
      assert Filled(segments, params) == DecodeAll(parts);
    }
  }

  /** A proper pattern with these parameters in place is the decoded path. */
  predicate Rebuilds(route: Route, params: Params, path: string) {
    Proper(route.segments) ==>
      Covers(route.segments, params) && Join(Filled(route.segments, params), "/") == Normalized(path)
  }

  // ---- the table ----

  /** The order parameterised routes are tried in: those without a catch-all first, then by the number
      of literals. */
  predicate Sooner(a: Route, b: Route) {
    if a.HasCatchAll() != b.HasCatchAll() then !a.HasCatchAll() else a.Specificity() > b.Specificity()
  }

  /** a is a strictly better choice than b. */
  predicate Better(a: Route, b: Route) {
    if a.HasParams() != b.HasParams() then !a.HasParams() else a.HasParams() && Sooner(a, b)
  }

  predicate Indices(order: seq<nat>, n: nat) { forall i :: 0 <= i < |order| ==> order[i] < n }

  /** i goes before j: it is sooner, or they tie and it was added first. */
  predicate Precedes(routes: seq<Route>, i: nat, j: nat)
    requires i < |routes| && j < |routes|
  {
    Sooner(routes[i], routes[j]) || (!Sooner(routes[j], routes[i]) && i < j)
  }

  predicate Ranked(routes: seq<Route>, order: seq<nat>)
    requires Indices(order, |routes|)
  {
    forall a, b :: 0 <= a < b < |order| ==> Precedes(routes, order[a], order[b])
  }

  function Insert(routes: seq<Route>, order: seq<nat>, i: nat): (r: seq<nat>)
    requires Indices(order, |routes|) && i < |routes|
    ensures Indices(r, |routes|) && multiset(r) == multiset(order) + multiset{i}
  {
    if order == [] then [i]
    else if Precedes(routes, i, order[0]) then [i] + order
    else
      assert order == [order[0]] + order[1..];
      [order[0]] + Insert(routes, order[1..], i)
  }

  /** std::stable_sort of routes given by index, in increasing order of index. */
  function StableSort(routes: seq<Route>, order: seq<nat>): (r: seq<nat>)
    requires Indices(order, |routes|)
    ensures Indices(r, |routes|) && multiset(r) == multiset(order)
  {
    if order == [] then []
    else
      assert order == [order[0]] + order[1..];
      Insert(routes, StableSort(routes, order[1..]), order[0])
  }

  predicate Increasing(order: seq<nat>) { forall a, b :: 0 <= a < b < |order| ==> order[a] < order[b] }

  lemma PrecedesIsTransitive(routes: seq<Route>, i: nat, j: nat, k: nat)
    requires i < |routes| && j < |routes| && k < |routes|
    requires Precedes(routes, i, j) && Precedes(routes, j, k)
    ensures Precedes(routes, i, k)
  {
  }

  lemma {:induction false} InsertRanks(routes: seq<Route>, order: seq<nat>, i: nat)
    requires Indices(order, |routes|) && i < |routes| && i !in order && Ranked(routes, order)
    ensures Ranked(routes, Insert(routes, order, i))
  {
    if order != [] {
      if Precedes(routes, i, order[0]) {
        forall b | 0 <= b < |order| ensures Precedes(routes, i, order[b]) {
          if b > 0 {
            PrecedesIsTransitive(routes, i, order[0], order[b]);
          }
        }
      } else {
        assert Precedes(routes, order[0], i);
        InsertRanks(routes, order[1..], i);
        var rest := Insert(routes, order[1..], i);
        forall b | 0 <= b < |rest| ensures Precedes(routes, order[0], rest[b]) {
          assert rest[b] in multiset(rest);
          assert rest[b] == i || rest[b] in order[1..];
        }
      }
    }
  }

  lemma {:induction false} StableSortRanks(routes: seq<Route>, order: seq<nat>)
    requires Indices(order, |routes|) && Increasing(order)
    ensures Ranked(routes, StableSort(routes, order))
  {
    if order != [] {
      StableSortRanks(routes, order[1..]);
      var rest := StableSort(routes, order[1..]);
      assert order[0] !in order[1..];
      assert order[0] !in multiset(rest);
      InsertRanks(routes, rest, order[0]);
    }
  }

  /** Route i is the choice for the path: it matches, and every other route that does is worse or ties
      and was added later. */
  ghost predicate Chosen(routes: seq<Route>, path: string, i: nat)
    requires i < |routes|
  {
    && Match(routes[i], path).Some?
    && forall j: nat :: j < |routes| && j != i && Match(routes[j], path).Some? ==>
         Better(routes[i], routes[j]) || (!Better(routes[j], routes[i]) && i < j)
  }

  datatype Found = Found(route: nat, params: Params)

  class RouteTable {
    var routes: map<int, seq<Route>>

    constructor ()
      ensures routes == map[]
    {
      routes := map[];
    }

    method Add(pattern: string, handler: int, kind: int)
      modifies this
      ensures routes == old(routes)[kind :=
        (if kind in old(routes) then old(routes)[kind] else []) + [RouteOf(pattern, handler)]]
    {
      var before := if kind in routes then routes[kind] else [];
      routes := routes[kind := before + [RouteOf(pattern, handler)]];
    }

    /** The chosen route for the normalised path, if and only if any matches it. */
    method Find(kind: int, path: string) returns (found: Option<Found>)
      ensures found.None? <==>
        kind !in routes || forall i :: 0 <= i < |routes[kind]| ==> Match(routes[kind][i], Normalized(path)).None?
      ensures found.Some? ==>
        && kind in routes && found.value.route < |routes[kind]|
        && Chosen(routes[kind], Normalized(path), found.value.route)
        && Match(routes[kind][found.value.route], Normalized(path)) == Some(found.value.params)
        && Rebuilds(routes[kind][found.value.route], found.value.params, Normalized(path))
    {
      if kind !in routes {
        return None;
      }
      found := FindExact(routes[kind], Normalized(path));
      if found.None? {
        found := FindRanked(routes[kind], Normalized(path));
      }
      if found.Some? && Proper(routes[kind][found.value.route].segments) {
        MatchRebuildsPath(routes[kind][found.value.route], Normalized(path));
      }
    }
  }

  /** The first loop of find: routes without parameters, in the order they were added. */
  method FindExact(list: seq<Route>, path: string) returns (found: Option<Found>)
    ensures found.None? ==> forall j: nat :: j < |list| && !list[j].HasParams() ==> Match(list[j], path).None?
    ensures found.Some? ==>
      && found.value.route < |list| && Chosen(list, path, found.value.route)
      && Match(list[found.value.route], path) == Some(found.value.params)
  {
    for i := 0 to |list|
      invariant forall j: nat :: j < i && !list[j].HasParams() ==> Match(list[j], path).None?
    {
      if !list[i].HasParams() {
        var params := MatchPath(list[i], path);
        if params.Some? {
          return Some(Found(i, params.value));
        }
      }
    }
    return None;
  }

  /** The second: routes with parameters, best rank first. */
  method FindRanked(list: seq<Route>, path: string) returns (found: Option<Found>)
    requires forall j: nat :: j < |list| && !list[j].HasParams() ==> Match(list[j], path).None?
    ensures found.None? ==> forall j: nat :: j < |list| ==> Match(list[j], path).None?
    ensures found.Some? ==>
      && found.value.route < |list| && Chosen(list, path, found.value.route)
      && Match(list[found.value.route], path) == Some(found.value.params)
  {
    var order := ParamRoutes(list);
    StableSortRanks(list, order);
    var sorted := StableSort(list, order);
    SortedHasAll(list, order);
    for a := 0 to |sorted|
      invariant forall b :: 0 <= b < a ==> Match(list[sorted[b]], path).None?
    {
      var params := MatchPath(list[sorted[a]], path);
      if params.Some? {
        assert sorted[a] in sorted;
        FirstIsChosen(list, path, sorted, a);
        return Some(Found(sorted[a], params.value));
      }
    }
    forall j: nat | j < |list| ensures Match(list[j], path).None? {
      if list[j].HasParams() {
        var b :| 0 <= b < |sorted| && sorted[b] == j;
      }
    }
    return None;
  }

  lemma SortedHasAll(routes: seq<Route>, order: seq<nat>)
    requires Indices(order, |routes|)
    ensures forall i: nat :: i in StableSort(routes, order) <==> i in order
  {
    forall i: nat ensures i in StableSort(routes, order) <==> i in order {
      assert i in multiset(StableSort(routes, order)) <==> i in multiset(order);
    }
  }

  method ParamRoutes(list: seq<Route>) returns (order: seq<nat>)
    ensures Indices(order, |list|) && Increasing(order)
    ensures forall i: nat :: i in order <==> i < |list| && list[i].HasParams()
  {
    order := [];
    for i := 0 to |list|
      invariant Indices(order, i) && Increasing(order)
      invariant forall j: nat :: j in order <==> j < i && list[j].HasParams()
    {
      if list[i].HasParams() {
        order := order + [i];
      }
    }
  }

  lemma FirstIsChosen(routes: seq<Route>, path: string, sorted: seq<nat>, a: nat)
    requires Indices(sorted, |routes|) && a < |sorted| && Ranked(routes, sorted)
    requires routes[sorted[a]].HasParams() && Match(routes[sorted[a]], path).Some?
    requires forall b :: 0 <= b < a ==> Match(routes[sorted[b]], path).None?
    requires forall j: nat :: j < |routes| && !routes[j].HasParams() ==> Match(routes[j], path).None?
    requires forall j: nat :: j < |routes| && routes[j].HasParams() ==> j in sorted
    ensures Chosen(routes, path, sorted[a])
  {
    var i := sorted[a];
    forall j: nat | j < |routes| && j != i && Match(routes[j], path).Some?
      ensures Better(routes[i], routes[j]) || (!Better(routes[j], routes[i]) && i < j)
    {
      var b :| 0 <= b < |sorted| && sorted[b] == j;
      assert Precedes(routes, sorted[a], sorted[b]);
    }
  }

  // ---- the second decoding ----

  /** The pieces of a path, decoded once. */
  function Pieces(path: string): seq<string> { DecodeAll(Split(path, "/")) }

  predicate NoEscape(s: string) { forall i :: 0 <= i < |s| ==> !Escape(s[i..]) }

  /** Decoding the path left neither a separator nor an escape. */
  predicate Plain(path: string) { forall d :: d in Pieces(path) ==> '/' !in d && NoEscape(d) }

  lemma NoEscapeRest(s: string)
    requires s != "" && NoEscape(s)
    ensures NoEscape(s[1..])
  {
    forall i | 0 <= i < |s[1..]| ensures !Escape(s[1..][i..]) {
      assert s[1..][i..] == s[i + 1..];
    }
  }

  /** Decoding shortens a string exactly if there is an escape in it. */
  lemma {:induction false} DecodedLength(s: string)
    ensures |Decoded(s)| <= |s| && (|Decoded(s)| == |s| ==> NoEscape(s))
    ensures NoEscape(s) ==> Decoded(s) == s
  {
    if s != "" {
      assert s[0..] == s;
      if Escape(s) {
        DecodedLength(s[3..]);
      } else {
        DecodedLength(s[1..]);
        if NoEscape(s) {
          NoEscapeRest(s);
        }
        if NoEscape(s[1..]) {
          forall i | 0 <= i < |s| ensures !Escape(s[i..]) {
            assert i > 0 ==> s[i..] == s[1..][i - 1..];
          }
        }
      }
    }
  }

  /** The characters of a string that are no separators. */
  function Letters(s: string): nat {
    if s == "" then 0 else (if s[0] == '/' then 0 else 1) + Letters(s[1..])
  }

  function Total(parts: seq<string>): nat {
    if parts == [] then 0 else |parts[0]| + Total(parts[1..])
  }

  lemma {:induction false} LettersBound(s: string)
    ensures Letters(s) <= |s| && (Letters(s) == |s| <==> '/' !in s)
  {
    if s != "" {
      LettersBound(s[1..]);
      assert s == [s[0]] + s[1..];
    }
  }

  lemma {:induction false} LettersAdd(a: string, b: string)
    ensures Letters(a + b) == Letters(a) + Letters(b)
  {
    if a == "" {
      assert a + b == b;
    } else {
      assert (a + b)[1..] == a[1..] + b;
      LettersAdd(a[1..], b);
    }
  }

  lemma {:induction false} IndexClean(s: string, d: char)
    ensures d !in s[..Index(s, [d])]
  {
    if s != "" && !([d] <= s) {
      IndexClean(s[1..], d);
      assert s[..Index(s, [d])] == [s[0]] + s[1..][..Index(s[1..], [d])];
    }
  }

  /** Splitting keeps every letter. */
  lemma {:induction false} SplitTotal(s: string)
    ensures Total(Split(s, "/")) == Letters(s)
    decreases |s|
  {
    if s != "" {
      if "/" <= s {
        SplitTotal(s[1..]);
      } else {
        var i := Index(s, "/");
        IndexClean(s, '/');
        assert s == s[..i] + s[i..];
        LettersAdd(s[..i], s[i..]);
        LettersBound(s[..i]);
        SplitTotal(s[i..]);
      }
    }
  }

  lemma {:induction false} JoinLetters(parts: seq<string>)
    ensures Letters(Join(parts, "/")) <= Total(parts)
    ensures Letters(Join(parts, "/")) == Total(parts) ==> forall d :: d in parts ==> '/' !in d
  {
    if |parts| > 0 {
      LettersBound(parts[0]);
      JoinLetters(parts[1..]);
      assert parts == [parts[0]] + parts[1..];
      if |parts| > 1 {
        LettersAdd(parts[0] + "/", Join(parts[1..], "/"));
        LettersAdd(parts[0], "/");
      }
    }
  }

  lemma {:induction false} DecodedTotal(parts: seq<string>)
    ensures Total(DecodeAll(parts)) <= Total(parts)
  {
    if parts != [] {
      DecodedLength(parts[0]);
      DecodedTotal(parts[1..]);
      assert DecodeAll(parts)[1..] == DecodeAll(parts[1..]);
    }
  }

  lemma PiecesAreWhole(path: string)
    ensures forall i :: 0 <= i < |Pieces(path)| ==> Pieces(path)[i] != ""
  {
    PiecesNotEmpty(path, "/");
  }

  lemma RejoinedSplit(path: string)
    requires forall d :: d in Pieces(path) ==> '/' !in d
    ensures Split(Normalized(path), "/") == Pieces(path)
  {
    PiecesAreWhole(path);
    SplitJoin(Pieces(path), "/");
  }

  /** Decoding the normalised path again changes its pieces unless the first decoding left them plain. */
  lemma NormalizedPiecesIff(path: string)
    ensures Pieces(Normalized(path)) == Pieces(path) <==> Plain(path)
  {
    var once, again := Pieces(path), Split(Normalized(path), "/");
    if Plain(path) {
      RejoinedSplit(path);
      forall i | 0 <= i < |once| ensures Decoded(once[i]) == once[i] {
        assert once[i] in once;
        DecodedLength(once[i]);
      }
      assert DecodeAll(once) == once;
    }
    if DecodeAll(again) == once {
      DecodedTotal(again);
      SplitTotal(Normalized(path));
      JoinLetters(once);
      RejoinedSplit(path);
      forall d | d in once ensures NoEscape(d) {
        var i :| 0 <= i < |once| && once[i] == d;
        assert Decoded(once[i]) == once[i];
        DecodedLength(d);
      }
    }
  }

  // Two paths with the same pieces are the same to every route.

  lemma {:induction false} SameRest(joined: string, a: seq<string>, b: seq<string>)
    requires DecodeAll(a) == DecodeAll(b)
    ensures JoinRest(joined, a) == JoinRest(joined, b)
    decreases |a|
  {
    assert |a| == |DecodeAll(a)| == |b|;
    if a != [] {
      assert Decoded(a[0]) == DecodeAll(a)[0] == DecodeAll(b)[0] == Decoded(b[0]);
      assert DecodeAll(a[1..]) == DecodeAll(a)[1..] == DecodeAll(b)[1..] == DecodeAll(b[1..]);
      SameRest((if joined == "" then "" else joined + "/") + Decoded(a[0]), a[1..], b[1..]);
    }
  }

  lemma SameTail(a: seq<string>, b: seq<string>, i: nat)
    requires DecodeAll(a) == DecodeAll(b) && i <= |a|
    ensures |a| == |b| && DecodeAll(a[i..]) == DecodeAll(b[i..])
  {
    assert |a| == |DecodeAll(a)| == |b|;
    forall j | 0 <= j < |a| ensures Decoded(a[j]) == Decoded(b[j]) {
      assert DecodeAll(a)[j] == DecodeAll(b)[j];
    }
  }

  lemma {:induction false} SameMatchFrom(segments: seq<Segment>, a: seq<string>, b: seq<string>, i: nat, params: Params)
    requires i <= |segments| <= |a| && DecodeAll(a) == DecodeAll(b)
    ensures |a| == |b| && MatchFrom(segments, a, i, params) == MatchFrom(segments, b, i, params)
    decreases |segments| - i
  {
    SameTail(a, b, i);
    if i < |segments| {
      assert Decoded(a[i]) == DecodeAll(a)[i] == DecodeAll(b)[i] == Decoded(b[i]);
      match segments[i]
      case CatchAll(name) => SameRest("", a[i..], b[i..]);
      case Param(name) => SameMatchFrom(segments, a, b, i + 1, params[name := Decoded(a[i])]);
      case Literal(value) => SameMatchFrom(segments, a, b, i + 1, params);
    }
  }

  lemma SamePiecesMatch(route: Route, p: string, q: string)
    requires Pieces(p) == Pieces(q)
    ensures Match(route, p) == Match(route, q)
  {
    assert |Split(p, "/")| == |Pieces(p)| == |Split(q, "/")|;
    if LengthFits(route.segments, Split(p, "/")) {
      SameMatchFrom(route.segments, Split(p, "/"), Split(q, "/"), 0, map[]);
    }
  }

  // A pattern of n parameters tells any two different sequences of n pieces apart.

  function ParamPart(i: nat): string { "{" + Decimal(i) + "}" }

  function ParamParts(i: nat, n: nat): (parts: seq<string>)
    requires i <= n
    ensures |parts| == n - i && forall j :: 0 <= j < n - i ==> parts[j] == ParamPart(i + j)
    decreases n - i
  {
    if i == n then [] else [ParamPart(i)] + ParamParts(i + 1, n)
  }

  function Probe(n: nat): string { Join(ParamParts(0, n), "/") }

  lemma ParamPartIs(i: nat)
    ensures SegmentOf(ParamPart(i)) == Param(Decimal(i)) && '/' !in ParamPart(i)
  {
    var d, part := Decimal(i), ParamPart(i);
    assert part[1..|part| - 1] == d;
    assert IsDigit(d[|d| - 1]);
    if |d| >= 4 {
      assert d[|d| - 3..][2] == d[|d| - 1];
    }
  }

  lemma {:induction false} SegmentsAt(parts: seq<string>)
    ensures |SegmentsOf(parts)| == |parts|
    ensures forall i :: 0 <= i < |parts| ==> SegmentsOf(parts)[i] == SegmentOf(parts[i])
  {
    if parts != [] {
      SegmentsAt(parts[1..]);
    }
  }

  lemma ProbeSegments(n: nat)
    ensures var segments := RouteOf(Probe(n), 0).segments;
      |segments| == n && Proper(segments) && forall i :: 0 <= i < n ==> segments[i] == Param(Decimal(i))
  {
    var parts := ParamParts(0, n);
    forall i: nat | i < n ensures SegmentOf(parts[i]) == Param(Decimal(i)) && '/' !in parts[i] {
      ParamPartIs(i);
    }
    SplitJoin(parts, "/");
    SegmentsAt(parts);
    forall i: nat, j: nat | i < j < n ensures Decimal(i) != Decimal(j) {
      DecimalValue(i);
      DecimalValue(j);
    }
  }

  lemma NumberedGives(segments: seq<Segment>, parts: seq<string>, found: Params, i: nat)
    requires i < |segments| <= |parts| && AllGiven(segments, parts, found) && segments[i] == Param(Decimal(i))
    ensures Decimal(i) in found && found[Decimal(i)] == Decoded(parts[i])
  {
    assert Given(segments, parts, i, found);
  }

  lemma ProbeMatches(n: nat, path: string)
    ensures var m := Match(RouteOf(Probe(n), 0), path);
      && (m.Some? <==> |Pieces(path)| == n)
      && (m.Some? ==> forall i: nat :: i < n ==> Decimal(i) in m.value && m.value[Decimal(i)] == Pieces(path)[i])
  {
    var route, parts := RouteOf(Probe(n), 0), Split(path, "/");
    ProbeSegments(n);
    MatchIff(route, path);
    if |parts| == n {
      var found := Match(route, path).value;
      MatchGives(route.segments, parts);
      forall i: nat | i < n ensures Decimal(i) in found && found[Decimal(i)] == Pieces(path)[i] {
        NumberedGives(route.segments, parts, found, i);
      }
    }
  }

  lemma ProbeTellsApart(p: string, q: string)
    requires Match(RouteOf(Probe(|Pieces(p)|), 0), p) == Match(RouteOf(Probe(|Pieces(p)|), 0), q)
    ensures Pieces(p) == Pieces(q)
  {
    ProbeMatches(|Pieces(p)|, p);
    ProbeMatches(|Pieces(p)|, q);
    forall i: nat | i < |Pieces(p)| ensures Pieces(p)[i] == Pieces(q)[i] {
      assert Decimal(i) in Match(RouteOf(Probe(|Pieces(p)|), 0), p).value;
    }
  }

  /** A path is normalised before it is matched, so find decodes it twice. That changes nothing, for any
      route that can be added, if and only if the first decoding left no separator and no escape. */
  lemma SecondDecodingIff(path: string)
    ensures Plain(path) <==> forall pattern: string, handler: int ::
      Match(RouteOf(pattern, handler), Normalized(path)) == Match(RouteOf(pattern, handler), path)
  {
    NormalizedPiecesIff(path);
    if Plain(path) {
      forall pattern: string, handler: int
        ensures Match(RouteOf(pattern, handler), Normalized(path)) == Match(RouteOf(pattern, handler), path)
      {
        SamePiecesMatch(RouteOf(pattern, handler), Normalized(path), path);
      }
    } else {
      var probe := Probe(|Pieces(path)|);
      if Match(RouteOf(probe, 0), Normalized(path)) == Match(RouteOf(probe, 0), path) {
        ProbeTellsApart(path, Normalized(path));
      }
    }
  }

  // One path of each kind: an escaped separator, an escaped escape, and a percent sign that is neither.

  lemma OnePiece(path: string, d: string)
    requires path != "" && '/' !in path && Decoded(path) == d
    ensures Pieces(path) == [d]
  {
    SplitHead(path, "", "/");
  }

  lemma EscapedSlashShows()
    ensures Pieces("a%2Fb") == ["a/b"] && !Plain("a%2Fb")
  {
    assert "a%2Fb"[1..] == "%2Fb" && "%2Fb"[3..] == "b" && "b"[1..] == "";
    assert Decoded("%2Fb") == "/b";
    OnePiece("a%2Fb", "a/b");
    assert "a/b" in Pieces("a%2Fb") && "a/b"[1] == '/';
  }

  lemma EscapedEscapeShows()
    ensures Pieces("%2541") == ["%41"] && !Plain("%2541")
  {
    assert "%2541"[3..] == "41" && Decoded("41") == "41";
    OnePiece("%2541", "%41");
    assert "%41" in Pieces("%2541") && "%41"[0..] == "%41" && Escape("%41"[0..]);
  }

  lemma PlainPercentDoesNot()
    ensures Pieces("%25") == ["%"] && Plain("%25")
  {
    assert "%25"[3..] == "";
    OnePiece("%25", "%");
  }
}
