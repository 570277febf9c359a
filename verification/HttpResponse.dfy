/** Responses: what reading a printed response gives back. */
module HttpResponses {
  import opened Basics
  import opened HttpText
  import opened HttpHeaders

  datatype Response = Response(status: nat, headers: Fields, cookies: seq<string>, body: string)

  const ACCEPT_CHARSET := "accept-charset:"
  const COOKIE_NAME := "set-cookie"
  const CAPITAL_NAME := "Set-Cookie"
  const SET_COOKIE := COOKIE_NAME + ":"

  /** The field every new response starts with. */
  const PRESET: Fields := map[ACCEPT_CHARSET := "utf-8"]

  // ---- printing ----

  function CookieLine(cookie: string): string { CAPITAL_NAME + ": " + cookie }

  function CookieLines(cookies: seq<string>): seq<string> {
    if cookies == [] then [] else [CookieLine(cookies[0])] + CookieLines(cookies[1..])
  }

  function StatusLine(status: nat, reason: string): string { "HTTP/1.1 " + Decimal(status) + " " + reason }

  function Print(m: Response, reason: string, order: seq<string>): string
    requires forall k :: k in order ==> k in m.headers
  {
    Ended([StatusLine(m.status, reason)] + (PrintFields(m.headers, order) + CookieLines(m.cookies)), CRLF)
    + CRLF + m.body
  }

  // ---- parsing ----

  predicate IsCookie(line: string) { CAPITAL_NAME + ": " <= line || COOKIE_NAME + ": " <= line }

  datatype Seen = Seen(headers: Fields, cookies: seq<string>)

  function ReadLine(seen: Seen, line: string): Seen {
    if IsCookie(line) then Seen(seen.headers, seen.cookies + [CookieOf(line)])
    else Seen(AddLine(seen.headers, line), seen.cookies)
  }

  /** The text after the first colon and blank. */
  function CookieOf(line: string): string
    requires IsCookie(line)
  {
    CookieName(line);
    line[Index(line, ": ") + 2..]
  }

  lemma CookieName(line: string)
    requires IsCookie(line)
    ensures Index(line, ": ") == 10
  {
    var name := line[..10];
    assert line == name + line[10..];
    assert ": " <= line[10..] by {
      assert line[10..][..2] == ": ";
    }
    assert ':' !in name;
    IndexSkips(name, line[10..], ": ");
  }

  function ReadLines(seen: Seen, lines: seq<string>): Seen
    decreases |lines|
  {
    if lines == [] then seen else ReadLines(ReadLine(seen, lines[0]), lines[1..])
  }

  function ParseStatus(line: string): Option<nat> {
    var parts := Split(line, " ");
    if |parts| < 2 || !("HTTP/1." <= parts[0]) then None else ParseUint32(parts[1])
  }

  function Parse(raw: string): Option<Response> {
    match Sections(raw)
    case None => None
    case Some((lines, body)) =>
      if lines == [] then None
      else
        match ParseStatus(lines[0])
        case None => None
        case Some(status) =>
          var seen := ReadLines(Seen(PRESET, []), lines[1..]);
          Some(Response(status, seen.headers, seen.cookies, body))
  }

  // ---- the round trip ----

  predicate WellFormed(m: Response) {
    && m.status < WORD32 && Printable(m.headers)
    && forall i :: 0 <= i < |m.cookies| ==> Free(m.cookies[i], CRLF)
  }

  lemma SameName(base: string, value: string, name: string)
    requires Free(base, ": ") && Free(name, ": ") && name + ": " <= base + ": " + value
    ensures base == name
  {
    var line := base + ": " + value;
    var rest := line[|name|..];
    assert line == base + (": " + value) && line == name + rest;
    assert rest[0] == ':' by {
      assert line[..|name| + 2] == name + ": ";
      assert line[|name|] == ':';
    }
    FirstOfSkips(base, ": " + value, ": ");
    FirstOfSkips(name, rest, ": ");
  }

  lemma NoCapital(name: string, value: string)
    requires StoredName(name)
    ensures PrintField(name, value)[0] != 'S'
  {
    var base := PrintName(name);
    assert base + ":" == name;
    if base == "" {
      assert PrintField(name, value)[0] == ':';
    } else {
      assert PrintField(name, value)[0] == name[0] == Lower(name)[0];
    }
  }

  lemma IsNamed(name: string, value: string, key: string)
    requires StoredName(name) && Free(key, ": ") && key + ": " <= PrintField(name, value)
    ensures name == key + ":"
  {
    SameName(PrintName(name), value, key);
  }

  lemma NamedIff(name: string, value: string, key: string)
    requires StoredName(name) && Free(key, ": ")
    ensures key + ": " <= PrintField(name, value) <==> name == key + ":"
  {
    if key + ": " <= PrintField(name, value) {
      IsNamed(name, value, key);
    }
    if name == key + ":" {
      assert PrintName(name) == key;
    }
  }

  lemma NeverCapital(name: string, value: string, key: string)
    requires StoredName(name) && key != "" && key[0] == 'S'
    ensures !(key + ": " <= PrintField(name, value))
  {
    NoCapital(name, value);
    assert (key + ": ")[0] == 'S';
  }

  /** A printed field is read as a cookie exactly when its name is set-cookie. */
  lemma FieldIsCookie(name: string, value: string)
    requires StoredName(name)
    ensures IsCookie(PrintField(name, value)) <==> name == SET_COOKIE
  {
    NeverCapital(name, value, CAPITAL_NAME);
    NamedIff(name, value, COOKIE_NAME);
  }

  lemma CookieAfterName(name: string, value: string)
    requires IsCookie(PrintField(name, value)) && |PrintName(name)| == 10
    ensures CookieOf(PrintField(name, value)) == value
  {
    CookieName(PrintField(name, value));
  }

  // Reading the printed fields, whatever `name` the cookie field has.

  function Visit(seen: Seen, h: Fields, k: string, name: string): Seen
    requires k in h
  {
    if k == name then Seen(seen.headers, seen.cookies + [h[k]])
    else if h[k] == "" || k in seen.headers then seen
    else Seen(seen.headers[k := h[k]], seen.cookies)
  }

  function VisitAll(seen: Seen, h: Fields, order: seq<string>, name: string): Seen
    requires forall k :: k in order ==> k in h
    decreases |order|
  {
    if order == [] then seen
    else
      assert order[0] in order;
      VisitAll(Visit(seen, h, order[0], name), h, order[1..], name)
  }

  lemma VisitReads(seen: Seen, h: Fields, k: string)
    requires Printable(h) && k in h
    ensures ReadLine(seen, PrintField(k, h[k])) == Visit(seen, h, k, SET_COOKIE)
  {
    AddPrinted(seen.headers, k, h[k]);
    FieldIsCookie(k, h[k]);
    if k == SET_COOKIE {
      CookieAfterName(k, h[k]);
    }
  }

  lemma {:induction false} ReadIsVisit(seen: Seen, h: Fields, order: seq<string>)
    requires Printable(h) && forall k :: k in order ==> k in h
    ensures ReadLines(seen, PrintFields(h, order)) == VisitAll(seen, h, order, SET_COOKIE)
    decreases |order|
  {
    if order != [] {
      assert order[0] in order;
      VisitReads(seen, h, order[0]);
      ReadFirst(seen, PrintField(order[0], h[order[0]]), PrintFields(h, order[1..]));
      ReadIsVisit(ReadLine(seen, PrintField(order[0], h[order[0]])), h, order[1..]);
    }
  }

  /** Fields named `name` come back as cookies, ahead of the others. */
  function Strays(h: Fields, name: string): seq<string> { if name in h then [h[name]] else [] }

  lemma {:induction false} VisitedAll(seen: Seen, h: Fields, order: seq<string>, name: string)
    requires forall k :: k in order ==> k in h
    requires forall i, j :: 0 <= i < j < |order| ==> order[i] != order[j]
    ensures VisitAll(seen, h, order, name)
      == Seen(Merged(seen.headers, h - {name}, order), seen.cookies + if name in order then [h[name]] else [])
    decreases |order|
  {
    if order != [] {
      assert order == [order[0]] + order[1..];
      MergeOne(seen.headers, h - {name}, order);
      VisitedAll(Visit(seen, h, order[0], name), h, order[1..], name);
    } else {
      assert Merged(seen.headers, h - {name}, order) == seen.headers;
    }
  }

  lemma ReadFirst(seen: Seen, line: string, lines: seq<string>)
    ensures ReadLines(seen, [line] + lines) == ReadLines(ReadLine(seen, line), lines)
  {
    assert ([line] + lines)[1..] == lines;
  }

  lemma CookieLineReads(seen: Seen, cookie: string)
    requires Free(cookie, CRLF)
    ensures Line(CookieLine(cookie))
    ensures ReadLine(seen, CookieLine(cookie)) == Seen(seen.headers, seen.cookies + [cookie])
  {
    CookieName(CookieLine(cookie));
  }

  lemma {:induction false} ReadCookies(seen: Seen, cookies: seq<string>)
    requires forall i :: 0 <= i < |cookies| ==> Free(cookies[i], CRLF)
    ensures ReadLines(seen, CookieLines(cookies)) == Seen(seen.headers, seen.cookies + cookies)
    ensures forall i :: 0 <= i < |CookieLines(cookies)| ==> Line(CookieLines(cookies)[i])
    decreases |cookies|
  {
    if cookies != [] {
      CookieLineReads(seen, cookies[0]);
      ReadFirst(seen, CookieLine(cookies[0]), CookieLines(cookies[1..]));
      ReadCookies(ReadLine(seen, CookieLine(cookies[0])), cookies[1..]);
      assert seen.cookies + cookies == (seen.cookies + [cookies[0]]) + cookies[1..];
    } else {
      assert seen.cookies + cookies == seen.cookies;
    }
  }

  lemma {:induction false} ReadBoth(seen: Seen, a: seq<string>, b: seq<string>)
    ensures ReadLines(seen, a + b) == ReadLines(ReadLines(seen, a), b)
    decreases |a|
  {
    if a == [] {
      assert a + b == b;
    } else {
      assert (a + b)[1..] == a[1..] + b;
      ReadBoth(ReadLine(seen, a[0]), a[1..], b);
    }
  }

  lemma StatusParses(version: string, status: nat, reason: string)
    requires status < WORD32 && version != "" && ' ' !in version && "HTTP/1." <= version
    ensures ParseStatus(version + " " + Decimal(status) + " " + reason) == Some(status)
  {
    var n := Decimal(status);
    var line := version + " " + n + " " + reason;
    assert line == version + " " + (n + " " + reason);
    SplitHead(version, n + " " + reason, " ");
    SplitHead(n, reason, " ");
    NumberRoundTrip(status);
  }

  lemma StatusReads(status: nat, reason: string)
    requires status < WORD32 && Free(reason, CRLF)
    ensures Line(StatusLine(status, reason)) && ParseStatus(StatusLine(status, reason)) == Some(status)
  {
    StatusParses("HTTP/1.1", status, reason);
    assert StatusLine(status, reason) == "HTTP/1.1" + " " + Decimal(status) + " " + reason;
    assert Free(Decimal(status), CRLF);
  }

  /** What comes back: everything, except that fields without a value are lost, the field called `name`
      has become a cookie, and the preset fields have their preset value. */
  function Returned(m: Response, name: string, preset: Fields): Response {
    Response(m.status, WithValue(m.headers - {name}) + preset, Strays(m.headers, name) + m.cookies, m.body)
  }

  lemma HeadReads(m: Response, order: seq<string>, preset: Fields)
    requires WellFormed(m) && Lists(order, m.headers)
    ensures var seen := ReadLines(Seen(preset, []), PrintFields(m.headers, order) + CookieLines(m.cookies));
      Response(m.status, seen.headers, seen.cookies, m.body) == Returned(m, SET_COOKIE, preset)
  {
    var start := Seen(preset, []);
    ReadBoth(start, PrintFields(m.headers, order), CookieLines(m.cookies));
    ReadIsVisit(start, m.headers, order);
    var met := VisitAll(start, m.headers, order, SET_COOKIE);
    ReadCookies(met, m.cookies);
    FieldsReturned(m.headers, order, SET_COOKIE, preset);
  }

  lemma FieldsReturned(h: Fields, order: seq<string>, name: string, preset: Fields)
    requires Lists(order, h)
    ensures VisitAll(Seen(preset, []), h, order, name) == Seen(WithValue(h - {name}) + preset, Strays(h, name))
  {
    VisitedAll(Seen(preset, []), h, order, name);
    MergedAll(preset, h - {name}, order);
  }

  lemma RoundTrip(m: Response, reason: string, order: seq<string>)
    requires WellFormed(m) && Free(reason, CRLF) && Lists(order, m.headers)
    ensures Parse(Print(m, reason, order)) == Some(Returned(m, SET_COOKIE, PRESET))
  {
    var line, rest := StatusLine(m.status, reason), PrintFields(m.headers, order) + CookieLines(m.cookies);
    StatusReads(m.status, reason);
    HeadReads(m, order, PRESET);
    PrintedLines(m.headers, order);
    ReadCookies(Seen(PRESET, []), m.cookies);
    SectionsOfText([line] + rest, m.body);
    assert ([line] + rest)[1..] == rest;
  }

  lemma ReturnedIff(m: Response, name: string, key: string, value: string)
    requires name != key && value != ""
    ensures Returned(m, name, map[key := value]) == m
      <==> && key in m.headers && m.headers[key] == value
           && name !in m.headers && forall k :: k in m.headers ==> m.headers[k] != ""
  {
    var back := Returned(m, name, map[key := value]);
    assert key in back.headers && back.headers[key] == value && name !in back.headers;
    if back == m {
      forall k | k in m.headers ensures m.headers[k] != "" {
        assert k in back.headers;
      }
    }
    if key in m.headers && m.headers[key] == value && name !in m.headers &&
      forall k :: k in m.headers ==> m.headers[k] != "" {
      assert back.headers == m.headers;
    }
  }

  /** from_string undoes to_string exactly for responses that still carry the preset charset, have no
      set-cookie among their header fields and no field without a value. */
  lemma RoundTripIff(m: Response, reason: string, order: seq<string>)
    requires WellFormed(m) && Free(reason, CRLF) && Lists(order, m.headers)
    ensures Parse(Print(m, reason, order)) == Some(m)
      <==> && ACCEPT_CHARSET in m.headers && m.headers[ACCEPT_CHARSET] == "utf-8"
           && SET_COOKIE !in m.headers && forall k :: k in m.headers ==> m.headers[k] != ""
  {
    RoundTrip(m, reason, order);
    ReturnedIff(m, SET_COOKIE, ACCEPT_CHARSET, "utf-8");
  }

  // ---- the code ----

  method PresetHeader() returns (header: HttpHeader)
    ensures fresh(header) && header.fields == PRESET
  {
    header := new HttpHeader();
    PresetAdds();
    header.SetHeader(ACCEPT_CHARSET, "utf-8");
  }

  class HttpResponse {
    var status: nat
    const header: HttpHeader
    var cookies: seq<string>
    var body: string

    ghost function Message(): Response
      reads this, header
    {
      Response(status, header.fields, cookies, body)
    }

    constructor ()
      ensures fresh(header) && status == 200 && header.fields == PRESET && cookies == [] && body == ""
    {
      status, cookies, body := 200, [], "";
      var preset := PresetHeader();
      header := preset;
    }

    static method FromString(raw: string) returns (resp: HttpResponse?)
      ensures resp == null <==> Parse(raw).None?
      ensures resp != null ==> fresh(resp) && fresh(resp.header) && Parse(raw) == Some(resp.Message())
    {
      var sections := Sections(raw);
      if sections.None? || sections.value.0 == [] {
        return null;
      }
      var (lines, body) := sections.value;
      var parts := Split(lines[0], " ");
      if |parts| < 2 || !("HTTP/1." <= parts[0]) {
        return null;
      }
      var status := ParseUint32(parts[1]);
      if status.None? {
        return null;
      }
      resp := new HttpResponse();
      resp.status := status.value;
      var rest := lines[1..];
      for i := 0 to |rest|
        invariant fresh(resp) && fresh(resp.header)
        invariant resp.status == status.value && resp.body == ""
        invariant ReadLines(Seen(PRESET, []), rest) == ReadLines(Seen(resp.header.fields, resp.cookies), rest[i..])
      {
        assert rest[i..][1..] == rest[i + 1..];
        if IsCookie(rest[i]) {
          resp.cookies := resp.cookies + [CookieOf(rest[i])];
        } else {
          var _ := resp.header.AddHeaderFromStr(rest[i]);
        }
      }
      resp.body := body;
    }

    method ToString(reason: string, order: seq<string>) returns (result: string)
      requires Lists(order, header.fields)
      ensures result == Print(Message(), reason, order)
    {
      result := StatusLine(status, reason);
      ghost var fields := PrintFields(header.fields, order);
      var text := PrintAll(header.fields, order);
      var lines := PrintCookies();
      EndedBoth(fields, CookieLines(cookies), CRLF);
      EndedFirst(result, fields + CookieLines(cookies), CRLF);
      result := result + CRLF + text + lines + CRLF + body;
    }

    method PrintCookies() returns (text: string)
      ensures text == Ended(CookieLines(cookies), CRLF)
    {
      text := "";
      assert cookies[0..] == cookies;
      for i := 0 to |cookies|
        invariant Ended(CookieLines(cookies), CRLF) == text + Ended(CookieLines(cookies[i..]), CRLF)
      {
        assert cookies[i..][1..] == cookies[i + 1..];
        assert CookieLines(cookies[i..])[1..] == CookieLines(cookies[i + 1..]);
        text := text + CookieLine(cookies[i]) + CRLF;
      }
    }
  }

  lemma {:induction false} EndedBoth(a: seq<string>, b: seq<string>, d: string)
    ensures Ended(a + b, d) == Ended(a, d) + Ended(b, d)
  {
    if a == [] {
      assert a + b == b;
    } else {
      assert (a + b)[1..] == a[1..] + b;
      EndedBoth(a[1..], b, d);
    }
  }

  lemma PresetName()
    ensures FormatName(ACCEPT_CHARSET) == ACCEPT_CHARSET
  {
    FormatKeeps(ACCEPT_CHARSET);
  }

  lemma PresetAdds()
    ensures AddField(map[], ACCEPT_CHARSET, "utf-8") == PRESET
  {
    PresetName();
    AddsStored(ACCEPT_CHARSET, "utf-8");
  }

  lemma AddsStored(name: string, value: string)
    requires FormatName(name) == name
    ensures AddField(map[], name, value) == map[name := value]
  {
  }

  lemma FormatKeeps(s: string)
    requires s != "" && s[|s| - 1] == ':' && forall i :: 0 <= i < |s| ==> !('A' <= s[i] <= 'Z')
    ensures FormatName(s) == s
  {
    assert forall i :: 0 <= i < |s| ==> ToLower(s[i]) == s[i];
  }
}
