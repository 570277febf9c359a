/** Requests: printing and parsing undo each other, up to what is never printed. */
module HttpRequests {
  import opened Basics
  import opened HttpText
  import opened HttpHeaders

  datatype Method = Get | Post | Put | Delete | Options | Patch | Head | NoMethod

  function MethodName(m: Method): string {
    match m
    case Get => "GET"
    case Post => "POST"
    case Put => "PUT"
    case Delete => "DELETE"
    case Options => "OPTIONS"
    case Patch => "PATCH"
    case Head => "HEAD"
    case NoMethod => "None"
  }

  predicate EqualIgnoringCase(s: string, t: string) {
    |s| == |t| && forall i :: 0 <= i < |s| ==> ToLower(s[i]) == ToLower(t[i])
  }

  function MethodOf(s: string): Method {
    if EqualIgnoringCase(s, "get") then Get
    else if EqualIgnoringCase(s, "post") then Post
    else if EqualIgnoringCase(s, "put") then Put
    else if EqualIgnoringCase(s, "delete") then Delete
    else if EqualIgnoringCase(s, "options") then Options
    else if EqualIgnoringCase(s, "patch") then Patch
    else if EqualIgnoringCase(s, "head") then Head
    else NoMethod
  }

  /** A message without content has the empty body. */
  datatype Request = Request(kind: Method, url: string, query: Fields, cookies: Fields, headers: Fields, body: string)

  // ---- printing ----

  function Pair(key: string, value: string): string { key + "=" + value }

  function Pairs(query: Fields, order: seq<string>): seq<string>
    requires forall k :: k in order ==> k in query
  {
    seq(|order|, i requires 0 <= i < |order| =>
      assert order[i] in order;
      Pair(order[i], query[order[i]]))
  }

  function Target(url: string, query: Fields, order: seq<string>): string
    requires forall k :: k in order ==> k in query
  {
    if query == map[] then url else url + "?" + Join(Pairs(query, order), "&")
  }

  function RequestLine(m: Request, queryOrder: seq<string>): string
    requires forall k :: k in queryOrder ==> k in m.query
  {
    MethodName(m.kind) + " " + Target(m.url, m.query, queryOrder) + " HTTP/1.1"
  }

  function Print(m: Request, queryOrder: seq<string>, headerOrder: seq<string>): string
    requires (forall k :: k in queryOrder ==> k in m.query) && (forall k :: k in headerOrder ==> k in m.headers)
  {
    Ended([RequestLine(m, queryOrder)] + PrintFields(m.headers, headerOrder), CRLF) + CRLF + m.body
  }

  // ---- parsing ----

  function AddParam(query: Fields, param: string): Fields {
    var (key, value) := SplitPair(param, '=');
    if key == "" then query else query[key := value]
  }

  function AddParams(query: Fields, params: seq<string>): Fields
    decreases |params|
  {
    if params == [] then query else AddParams(AddParam(query, params[0]), params[1..])
  }

  /** Path and query of a request target. */
  function SplitTarget(target: string): (string, Fields) {
    var q := FirstOf(target, "?");
    if q == |target| then (target, map[]) else (target[..q], AddParams(map[], Split(target[q + 1..], "&")))
  }

  function ParseLine(line: string): Option<(Method, string, Fields)> {
    var parts := Split(line, " ");
    if |parts| < 3 || MethodOf(parts[0]) == NoMethod || !("HTTP/1." <= parts[2]) then None
    else
      var (path, query) := SplitTarget(parts[1]);
      Some((MethodOf(parts[0]), path, query))
  }

  function Parse(raw: string): Option<Request> {
    match Sections(raw)
    case None => None
    case Some((lines, body)) =>
      if lines == [] then None
      else
        match ParseLine(lines[0])
        case None => None
        case Some((kind, path, query)) =>
          Some(Request(kind, path, query, map[], AddLines(map[], lines[1..]), body))
  }

  // ---- the round trip ----

  predicate GoodQuery(query: Fields) {
    forall k :: k in query ==> k != "" && Free(k, "=& \r\n") && Free(query[k], "& \r\n")
  }

  predicate WellFormed(m: Request) {
    && m.kind != NoMethod
    && Free(m.url, " ?\r\n") && (m.url != "" || m.query != map[])
    && GoodQuery(m.query)
    && Printable(m.headers)
  }

  lemma ThreeLetters(m: Method)
    requires m == Get || m == Put
    ensures MethodOf(MethodName(m)) == m
  {
    assert ToLower("PUT"[0]) != ToLower("get"[0]);
  }

  lemma FourLetters(m: Method)
    requires m == Post || m == Head || m == NoMethod
    ensures MethodOf(MethodName(m)) == m
  {
    var s := MethodName(m);
    assert |s| == 4 && s[0] == (if m == Post then 'P' else if m == Head then 'H' else 'N');
    assert ToLower(s[0]) == (if m == Post then 'p' else if m == Head then 'h' else 'n');
  }

  lemma LongNames(m: Method)
    requires |MethodName(m)| > 4
    ensures MethodOf(MethodName(m)) == m
  {
  }

  lemma MethodRoundTrip(m: Method)
    ensures MethodOf(MethodName(m)) == m
  {
    if m == Get || m == Put {
      ThreeLetters(m);
    } else if m == Post || m == Head || m == NoMethod {
      FourLetters(m);
    } else {
      LongNames(m);
    }
  }

  lemma MethodIsToken(m: Method)
    ensures Free(MethodName(m), " ?\r\n") && MethodName(m) != ""
  {
  }

  lemma PairSplits(key: string, value: string)
    requires key != "" && Free(key, "=& \r\n") && Free(value, "& \r\n")
    ensures SplitPair(Pair(key, value), '=') == (key, value)
    ensures Free(Pair(key, value), "& \r\n") && Pair(key, value) != ""
  {
    var p := Pair(key, value);
    assert p == key + ("=" + value);
    FirstOfSkips(key, "=" + value, "=");
    assert p[..|key|] == key && p[|key| + 1..] == value;
  }

  ghost function Overlaid(acc: Fields, query: Fields, order: seq<string>): Fields
    requires forall k :: k in order ==> k in query
  {
    map k | k in acc.Keys + query.Keys && (k in acc || k in order) :: if k in order then query[k] else acc[k]
  }

  lemma OverlayOne(acc: Fields, query: Fields, order: seq<string>)
    requires order != [] && forall k :: k in order ==> k in query
    ensures order[0] in query
    ensures Overlaid(acc[order[0] := query[order[0]]], query, order[1..]) == Overlaid(acc, query, order)
  {
    var k := order[0];
    assert order == [k] + order[1..];
    assert forall x :: x in order <==> x == k || x in order[1..];
  }

  lemma AddFirstParam(query: Fields, param: string, params: seq<string>)
    ensures AddParams(query, [param] + params) == AddParams(AddParam(query, param), params)
  {
    assert ([param] + params)[1..] == params;
  }

  lemma PairsFirst(query: Fields, order: seq<string>)
    requires order != [] && forall k :: k in order ==> k in query
    ensures order[0] in query
    ensures Pairs(query, order) == [Pair(order[0], query[order[0]])] + Pairs(query, order[1..])
  {
    assert order[0] in order;
  }

  lemma {:induction false} ReadPairs(acc: Fields, query: Fields, order: seq<string>)
    requires GoodQuery(query) && forall k :: k in order ==> k in query
    ensures AddParams(acc, Pairs(query, order)) == Overlaid(acc, query, order)
    decreases |order|
  {
    if order != [] {
      OverlayOne(acc, query, order);
      PairSplits(order[0], query[order[0]]);
      PairsFirst(query, order);
      AddFirstParam(acc, Pair(order[0], query[order[0]]), Pairs(query, order[1..]));
      ReadPairs(acc[order[0] := query[order[0]]], query, order[1..]);
    } else {
      assert Overlaid(acc, query, order) == acc;
    }
  }

  lemma PairsAreParts(query: Fields, order: seq<string>)
    requires GoodQuery(query) && Lists(order, query)
    ensures forall i :: 0 <= i < |order| ==> Pairs(query, order)[i] != "" && Free(Pairs(query, order)[i], "& \r\n")
    ensures Split(Join(Pairs(query, order), "&"), "&") == Pairs(query, order)
    ensures Free(Join(Pairs(query, order), "&"), " \r\n")
  {
    var ps := Pairs(query, order);
    forall i | 0 <= i < |order| ensures ps[i] != "" && Free(ps[i], "& \r\n") {
      assert order[i] in order;
      PairSplits(order[i], query[order[i]]);
    }
    SplitJoin(ps, "&");
    JoinFree(ps, "&", " \r\n");
  }

  lemma QueryFollows(url: string, list: string)
    requires Free(url, " ?\r\n") && Free(list, " \r\n")
    ensures SplitTarget(url + "?" + list) == (url, AddParams(map[], Split(list, "&")))
    ensures Free(url + "?" + list, " \r\n")
  {
    var t := url + "?" + list;
    assert t == url + ("?" + list);
    FirstOfSkips(url, "?" + list, "?");
    assert t[..|url|] == url && t[|url| + 1..] == list;
  }

  lemma PlainTarget(url: string)
    requires Free(url, "?")
    ensures SplitTarget(url) == (url, map[])
  {
    assert url == url + "";
    FirstOfSkips(url, "", "?");
  }

  lemma QueryReads(query: Fields, order: seq<string>)
    requires GoodQuery(query) && Lists(order, query)
    ensures AddParams(map[], Pairs(query, order)) == query
  {
    ReadPairs(map[], query, order);
    assert Overlaid(map[], query, order) == query;
  }

  lemma TargetSplits(url: string, query: Fields, order: seq<string>)
    requires Free(url, " ?\r\n") && GoodQuery(query) && Lists(order, query)
    ensures SplitTarget(Target(url, query, order)) == (url, query)
  {
    if query == map[] {
      PlainTarget(url);
    } else {
      PairsAreParts(query, order);
      QueryFollows(url, Join(Pairs(query, order), "&"));
      QueryReads(query, order);
    }
  }

  lemma TargetIsToken(url: string, query: Fields, order: seq<string>)
    requires Free(url, " ?\r\n") && GoodQuery(query) && Lists(order, query)
    ensures Free(Target(url, query, order), " \r\n")
    ensures url != "" || query != map[] ==> Target(url, query, order) != ""
  {
    if query != map[] {
      PairsAreParts(query, order);
    }
  }

  lemma ThreeParts(a: string, b: string, c: string)
    requires a != "" && b != "" && c != "" && ' ' !in a && ' ' !in b && ' ' !in c
    ensures Split(a + " " + b + " " + c, " ") == [a, b, c]
  {
    assert a + " " + b + " " + c == a + " " + (b + " " + c);
    SplitHead(a, b + " " + c, " ");
    SplitHead(b, c, " ");
    SplitHead(c, "", " ");
  }

  lemma PartsParse(kind: Method, target: string)
    requires kind != NoMethod && target != "" && ' ' !in target
    ensures ParseLine(MethodName(kind) + " " + target + " " + "HTTP/1.1")
      == Some((kind, SplitTarget(target).0, SplitTarget(target).1))
  {
    MethodRoundTrip(kind);
    MethodIsToken(kind);
    ThreeParts(MethodName(kind), target, "HTTP/1.1");
  }

  lemma TokensMakeLine(a: string, b: string, c: string)
    requires a != "" && Free(a, CRLF) && Free(b, CRLF) && Free(c, CRLF)
    ensures Line(a + " " + b + " " + c)
  {
  }

  lemma LineSplits(m: Request, order: seq<string>)
    requires WellFormed(m) && Lists(order, m.query)
    ensures Line(RequestLine(m, order))
    ensures ParseLine(RequestLine(m, order)) == Some((m.kind, m.url, m.query))
  {
    var target := Target(m.url, m.query, order);
    TargetSplits(m.url, m.query, order);
    TargetIsToken(m.url, m.query, order);
    PartsParse(m.kind, target);
    MethodIsToken(m.kind);
    TokensMakeLine(MethodName(m.kind), target, "HTTP/1.1");
    assert RequestLine(m, order) == MethodName(m.kind) + " " + target + " " + "HTTP/1.1";
  }

  /** Whatever order the maps are printed in, reading a printed request gives back its method, path,
      query and body, its header fields that have a value, and no cookies. */
  lemma RoundTrip(m: Request, queryOrder: seq<string>, headerOrder: seq<string>)
    requires WellFormed(m) && Lists(queryOrder, m.query) && Lists(headerOrder, m.headers)
    ensures Parse(Print(m, queryOrder, headerOrder)) == Some(m.(cookies := map[], headers := WithValue(m.headers)))
  {
    var line, fields := RequestLine(m, queryOrder), PrintFields(m.headers, headerOrder);
    LineSplits(m, queryOrder);
    PrintedLines(m.headers, headerOrder);
    SectionsOfText([line] + fields, m.body);
    ParsesAs(Print(m, queryOrder, headerOrder), line, fields, m.body);
    ReadFields(map[], m.headers, headerOrder);
    MergedAll(map[], m.headers, headerOrder);
  }

  lemma ParsesAs(raw: string, line: string, fields: seq<string>, body: string)
    requires Sections(raw) == Some(([line] + fields, body)) && ParseLine(line).Some?
    ensures var (kind, url, query) := ParseLine(line).value;
      Parse(raw) == Some(Request(kind, url, query, map[], AddLines(map[], fields), body))
  {
    assert ([line] + fields)[1..] == fields;
  }

  /** So from_string undoes to_string exactly for requests without cookies and without empty fields. */
  lemma RoundTripIff(m: Request, queryOrder: seq<string>, headerOrder: seq<string>)
    requires WellFormed(m) && Lists(queryOrder, m.query) && Lists(headerOrder, m.headers)
    ensures Parse(Print(m, queryOrder, headerOrder)) == Some(m)
      <==> m.cookies == map[] && forall k :: k in m.headers ==> m.headers[k] != ""
  {
    RoundTrip(m, queryOrder, headerOrder);
    if forall k :: k in m.headers ==> m.headers[k] != "" {
      assert WithValue(m.headers) == m.headers;
    } else {
      var k :| k in m.headers && m.headers[k] == "";
      assert k !in WithValue(m.headers);
    }
  }

  // ---- the code ----

  class HttpRequest {
    var kind: Method
    var url: string
    var query: Fields
    var cookies: Fields
    const header: HttpHeader
    var body: string

    ghost function Message(): Request
      reads this, header
    {
      Request(kind, url, query, cookies, header.fields, body)
    }

    constructor (url: string, kind: Method)
      ensures fresh(header) && Message() == Request(kind, url, map[], map[], map[], "")
    {
      this.kind, this.url, query, cookies, body := kind, url, map[], map[], "";
      header := new HttpHeader();
    }

    static method ReadQuery(target: string) returns (path: string, query: Fields)
      ensures (path, query) == SplitTarget(target)
    {
      path, query := target, map[];
      var q := FirstOf(target, "?");
      if q != |target| {
        path := target[..q];
        var params := Split(target[q + 1..], "&");
        for i := 0 to |params|
          invariant AddParams(map[], params) == AddParams(query, params[i..])
        {
          var (key, value) := SplitPair(params[i], '=');
          if key != "" {
            query := query[key := value];
          }
          assert params[i..][1..] == params[i + 1..];
        }
      }
    }

    static method FromString(raw: string) returns (req: HttpRequest?)
      ensures req == null <==> Parse(raw).None?
      ensures req != null ==> fresh(req) && fresh(req.header) && Parse(raw) == Some(req.Message())
    {
      var sections := Sections(raw);
      if sections.None? || sections.value.0 == [] {
        return null;
      }
      var (lines, body) := sections.value;
      var parts := Split(lines[0], " ");
      if |parts| < 3 {
        return null;
      }
      var kind := MethodOf(parts[0]);
      if kind == NoMethod || !("HTTP/1." <= parts[2]) {
        return null;
      }
      var path, query := ReadQuery(parts[1]);
      req := new HttpRequest(path, kind);
      req.query := query;
      var fields := lines[1..];
      for i := 0 to |fields|
        invariant fresh(req) && fresh(req.header)
        invariant req.Message() == Request(kind, path, query, map[], req.header.fields, "")
        invariant AddLines(map[], fields) == AddLines(req.header.fields, fields[i..])
      {
        assert fields[i..][1..] == fields[i + 1..];
        var _ := req.header.AddHeaderFromStr(fields[i]);
      }
      req.body := body;
    }

    method PrintQuery(queryOrder: seq<string>) returns (list: string)
      requires forall k :: k in queryOrder ==> k in query
      ensures list == Join(Pairs(query, queryOrder), "&")
    {
      ghost var pairs := Pairs(query, queryOrder);
      list := "";
      for i := 0 to |queryOrder|
        invariant list == Join(pairs[..i], "&")
      {
        if i > 0 {
          list := list + "&";
        }
        JoinOneMore(pairs[..i], pairs[i], "&");
        assert pairs[..i] + [pairs[i]] == pairs[..i + 1];
        assert queryOrder[i] in queryOrder;
        list := list + queryOrder[i] + "=" + query[queryOrder[i]];
      }
      assert pairs[..|queryOrder|] == pairs;
    }

    method PrintLine(queryOrder: seq<string>) returns (line: string)
      requires Lists(queryOrder, query)
      ensures line == RequestLine(Message(), queryOrder)
    {
      line := MethodName(kind) + " " + url;
      if query != map[] {
        var list := PrintQuery(queryOrder);
        line := line + "?" + list;
      }
      line := line + " HTTP/1.1";
    }

    method ToString(queryOrder: seq<string>, headerOrder: seq<string>) returns (result: string)
      requires Lists(queryOrder, query) && Lists(headerOrder, header.fields)
      ensures result == Print(Message(), queryOrder, headerOrder)
    {
      result := PrintLine(queryOrder);
      var fields := PrintAll(header.fields, headerOrder);
      EndedFirst(result, PrintFields(header.fields, headerOrder), CRLF);
      result := result + CRLF + fields + CRLF + body;
    }
  }

  lemma {:induction false} JoinOneMore(parts: seq<string>, part: string, d: string)
    ensures Join(parts + [part], d) == Join(parts, d) + (if parts == [] then "" else d) + part
  {
    if |parts| > 0 {
      assert (parts + [part])[1..] == parts[1..] + [part];
      JoinOneMore(parts[1..], part, d);
    }
  }
}
