/** What is on the wire: the lines a printed message consists of. */
module HttpWire {
  import opened Basics
  import opened HttpText
  import opened HttpHeaders
  import HttpRequests
  import HttpResponses

  lemma {:induction false} FieldLine(h: Fields, order: seq<string>, i: nat)
    requires (forall k :: k in order ==> k in h) && i < |order|
    ensures order[i] in h && PrintFields(h, order)[i] == PrintField(order[i], h[order[i]])
  {
    assert order[0] in order && order[i] in order;
    if i > 0 {
      FieldLine(h, order[1..], i - 1);
    }
  }

  lemma FieldOnWire(name: string, value: string)
    requires StoredName(name)
    ensures PrintField(name, value) == name + " " + value
  {
    assert name == PrintName(name) + ":";
  }

  /** One line a header field: the stored name, which ends in a colon, a blank and the value. */
  ghost predicate OnWire(h: Fields, order: seq<string>, fields: seq<string>) {
    |fields| == |order| && forall i :: 0 <= i < |order| ==> order[i] in h && fields[i] == order[i] + " " + h[order[i]]
  }

  lemma FieldsOnWire(h: Fields, order: seq<string>)
    requires Printable(h) && Lists(order, h)
    ensures OnWire(h, order, PrintFields(h, order))
    ensures forall i :: 0 <= i < |order| ==> Line(PrintFields(h, order)[i])
  {
    PrintedLines(h, order);
    forall i | 0 <= i < |order|
      ensures order[i] in h && PrintFields(h, order)[i] == order[i] + " " + h[order[i]]
    {
      FieldLine(h, order, i);
      FieldOnWire(order[i], h[order[i]]);
    }
  }

  lemma RequestLineOnWire(m: HttpRequests.Request, order: seq<string>)
    requires HttpRequests.WellFormed(m) && Lists(order, m.query)
    ensures Line(HttpRequests.RequestLine(m, order))
    ensures Split(HttpRequests.RequestLine(m, order), " ")
      == [HttpRequests.MethodName(m.kind), HttpRequests.Target(m.url, m.query, order), "HTTP/1.1"]
  {
    var target := HttpRequests.Target(m.url, m.query, order);
    HttpRequests.LineSplits(m, order);
    HttpRequests.MethodIsToken(m.kind);
    HttpRequests.TargetIsToken(m.url, m.query, order);
    HttpRequests.ThreeParts(HttpRequests.MethodName(m.kind), target, "HTTP/1.1");
    assert HttpRequests.RequestLine(m, order) == HttpRequests.MethodName(m.kind) + " " + target + " " + "HTTP/1.1";
  }

  lemma InCapitals(m: HttpRequests.Method)
    requires m != HttpRequests.NoMethod
    ensures forall c :: c in HttpRequests.MethodName(m) ==> 'A' <= c <= 'Z'
  {
  }

  /** A printed request: the method in capitals, the target and HTTP/1.1 separated by blanks, the header
      fields, a blank line, the body. */
  lemma RequestOnWire(m: HttpRequests.Request, queryOrder: seq<string>, headerOrder: seq<string>)
    returns (line: string, fields: seq<string>)
    requires HttpRequests.WellFormed(m) && Lists(queryOrder, m.query) && Lists(headerOrder, m.headers)
    ensures Sections(HttpRequests.Print(m, queryOrder, headerOrder)) == Some(([line] + fields, m.body))
    ensures Split(line, " ")
      == [HttpRequests.MethodName(m.kind), HttpRequests.Target(m.url, m.query, queryOrder), "HTTP/1.1"]
    ensures forall c :: c in HttpRequests.MethodName(m.kind) ==> 'A' <= c <= 'Z'
    ensures OnWire(m.headers, headerOrder, fields)
  {
    line, fields := HttpRequests.RequestLine(m, queryOrder), PrintFields(m.headers, headerOrder);
    RequestLineOnWire(m, queryOrder);
    InCapitals(m.kind);
    FieldsOnWire(m.headers, headerOrder);
    SectionsOfText([line] + fields, m.body);
  }

  lemma {:induction false} CookieLineAt(cookies: seq<string>, i: nat)
    requires i < |cookies|
    ensures |HttpResponses.CookieLines(cookies)| == |cookies|
    ensures HttpResponses.CookieLines(cookies)[i] == "Set-Cookie: " + cookies[i]
  {
    if |cookies| > 1 {
      CookieLineAt(cookies[1..], if i > 0 then i - 1 else 0);
    }
  }

  lemma {:induction false} CookieLineCount(cookies: seq<string>)
    ensures |HttpResponses.CookieLines(cookies)| == |cookies|
  {
    if cookies != [] {
      CookieLineCount(cookies[1..]);
    }
  }

  lemma StatusOnWire(status: nat, reason: string)
    ensures HttpResponses.StatusLine(status, reason) == "HTTP/1.1" + " " + (Decimal(status) + " " + reason)
    ensures |Split(HttpResponses.StatusLine(status, reason), " ")| >= 2
    ensures Split(HttpResponses.StatusLine(status, reason), " ")[..2] == ["HTTP/1.1", Decimal(status)]
  {
    var n := Decimal(status);
    assert HttpResponses.StatusLine(status, reason) == "HTTP/1.1" + " " + (n + " " + reason);
    SplitHead("HTTP/1.1", n + " " + reason, " ");
    SplitHead(n, reason, " ");
  }

  lemma CookiesOnWire(cookies: seq<string>)
    requires forall i :: 0 <= i < |cookies| ==> Free(cookies[i], CRLF)
    ensures var lines := HttpResponses.CookieLines(cookies);
      |lines| == |cookies| &&
      forall i :: 0 <= i < |lines| ==> lines[i] == "Set-Cookie: " + cookies[i] && Line(lines[i])
  {
    CookieLineCount(cookies);
    forall i | 0 <= i < |cookies| ensures HttpResponses.CookieLines(cookies)[i] == "Set-Cookie: " + cookies[i] {
      CookieLineAt(cookies, i);
    }
  }

  /** A printed response: HTTP/1.1, the status and the reason, the header fields, one Set-Cookie line a
      cookie, a blank line, the body. */
  lemma ResponseOnWire(m: HttpResponses.Response, reason: string, order: seq<string>)
    returns (line: string, fields: seq<string>, cookies: seq<string>)
    requires HttpResponses.WellFormed(m) && Free(reason, CRLF) && Lists(order, m.headers)
    ensures Sections(HttpResponses.Print(m, reason, order)) == Some(([line] + (fields + cookies), m.body))
    ensures line == "HTTP/1.1" + " " + (Decimal(m.status) + " " + reason)
    ensures OnWire(m.headers, order, fields)
    ensures |cookies| == |m.cookies| && forall i :: 0 <= i < |cookies| ==> cookies[i] == "Set-Cookie: " + m.cookies[i]
  {
    line, fields := HttpResponses.StatusLine(m.status, reason), PrintFields(m.headers, order);
    cookies := HttpResponses.CookieLines(m.cookies);
    HttpResponses.StatusReads(m.status, reason);
    StatusOnWire(m.status, reason);
    FieldsOnWire(m.headers, order);
    CookiesOnWire(m.cookies);
    SectionsOfText([line] + (fields + cookies), m.body);
  }
}
