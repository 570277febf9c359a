/** Header names are the same whatever the case of their letters: in the map, in a request and, with one
    exception, in a response. */
module HttpNames {
  import opened Basics
  import opened HttpText
  import opened HttpHeaders
  import HttpRequests
  import HttpResponses

  const CAPITALS := "ABCDEFGHIJKLMNOPQRSTUVWXYZ"
  const SMALL := "abcdefghijklmnopqrstuvwxyz"

  lemma Alphabet()
    ensures |CAPITALS| == |SMALL| == 26
    ensures forall k :: 0 <= k < 26 ==> CAPITALS[k] as int == 'A' as int + k
    ensures forall k :: 0 <= k < 26 ==> SMALL[k] as int == 'a' as int + k
  {
  }

  lemma CapitalIff(c: char)
    ensures c in CAPITALS <==> 'A' <= c <= 'Z'
  {
    Alphabet();
    if 'A' <= c <= 'Z' {
      assert CAPITALS[c as int - 'A' as int] == c;
    }
  }

  /** The small letter of a capital one; any other character stays. */
  lemma LowerIs(c: char)
    ensures |CAPITALS| == |SMALL| && forall k :: 0 <= k < |CAPITALS| && c == CAPITALS[k] ==> ToLower(c) == SMALL[k]
    ensures c !in CAPITALS ==> ToLower(c) == c
    ensures ToLower(c) !in CAPITALS
  {
    Alphabet();
    CapitalIff(c);
    CapitalIff(ToLower(c));
  }

  /** A name without the colon it may end in. */
  function Stem(name: string): string {
    if name != "" && name[|name| - 1] == ':' then name[..|name| - 1] else name
  }

  predicate SameLetters(a: string, b: string) {
    |a| == |b| && forall i :: 0 <= i < |a| ==> ToLower(a[i]) == ToLower(b[i])
  }

  /** A stored name ends in a colon, has no capital letter, and is otherwise the name given. */
  lemma StoredAs(name: string)
    ensures var r, stem := FormatName(name), Stem(name);
      && |r| == |stem| + 1 && r[|stem|] == ':'
      && (forall i :: 0 <= i < |r| ==> r[i] !in CAPITALS)
      && (forall i :: 0 <= i < |stem| ==> r[i] == ToLower(stem[i]))
  {
    var r := FormatName(name);
    forall i | 0 <= i < |r| ensures r[i] !in CAPITALS {
      var given := if name != "" && name[|name| - 1] == ':' then name else name + ":";
      assert r[i] == ToLower(given[i]);
      LowerIs(given[i]);
    }
  }

  lemma LowerAlikeIff(a: string, b: string)
    ensures Lower(a) == Lower(b) <==> SameLetters(a, b)
  {
    if Lower(a) == Lower(b) {
      forall i | 0 <= i < |a| ensures ToLower(a[i]) == ToLower(b[i]) {
        assert Lower(a)[i] == Lower(b)[i];
      }
    }
  }

  lemma StoredIsLower(name: string)
    ensures FormatName(name) == Lower(Stem(name)) + ":"
  {
    StoredAs(name);
  }

  /** Two names are stored alike exactly if they agree, case aside, without their trailing colons. */
  lemma StoredAlikeIff(a: string, b: string)
    ensures FormatName(a) == FormatName(b) <==> SameLetters(Stem(a), Stem(b))
  {
    var x, y := Lower(Stem(a)), Lower(Stem(b));
    StoredIsLower(a);
    StoredIsLower(b);
    LowerAlikeIff(Stem(a), Stem(b));
    assert (x + ":")[..|x|] == x && (y + ":")[..|y|] == y;
  }

  // ---- messages ----

  /** Header lines as a client writes them. */
  function Lines(names: seq<string>, values: seq<string>): (lines: seq<string>)
    requires |names| == |values|
    ensures |lines| == |names|
  {
    seq(|names|, i requires 0 <= i < |names| => names[i] + ": " + values[i])
  }

  /** Names and values with nothing in them that ends one on the wire. */
  predicate Writable(names: seq<string>, values: seq<string>) {
    && |names| == |values|
    && forall i :: 0 <= i < |names| ==> Free(names[i], ": \r\n") && Free(values[i], CRLF)
  }

  predicate Recased(a: seq<string>, b: seq<string>) {
    |a| == |b| && forall i :: 0 <= i < |a| ==> SameLetters(a[i], b[i])
  }

  lemma NoColon(name: string)
    requires Free(name, ": \r\n")
    ensures Stem(name) == name && Free(name, ": ")
  {
    if name != "" {
      assert name[|name| - 1] in name;
    }
  }

  lemma LineAlike(h: Fields, a: string, b: string, value: string)
    requires Free(a, ": \r\n") && Free(b, ": \r\n") && Free(value, CRLF) && SameLetters(a, b)
    ensures AddLine(h, a + ": " + value) == AddLine(h, b + ": " + value)
  {
    NoColon(a);
    NoColon(b);
    FieldParts(a, value);
    FieldParts(b, value);
    StoredAlikeIff(a, b);
  }

  lemma LinesRest(names: seq<string>, values: seq<string>)
    requires names != [] && |names| == |values|
    ensures Lines(names, values) == [names[0] + ": " + values[0]] + Lines(names[1..], values[1..])
  {
  }

  lemma {:induction false} LinesAlike(h: Fields, a: seq<string>, b: seq<string>, values: seq<string>)
    requires Writable(a, values) && Writable(b, values) && Recased(a, b)
    ensures AddLines(h, Lines(a, values)) == AddLines(h, Lines(b, values))
    decreases |a|
  {
    if a != [] {
      var first, other := a[0] + ": " + values[0], b[0] + ": " + values[0];
      LinesRest(a, values);
      LinesRest(b, values);
      LineAlike(h, a[0], b[0], values[0]);
      AddFirst(h, first, Lines(a[1..], values[1..]));
      AddFirst(h, other, Lines(b[1..], values[1..]));
      LinesAlike(AddLine(h, first), a[1..], b[1..], values[1..]);
    }
  }

  /** A message with this first line, these fields and this body. */
  function Message(first: string, names: seq<string>, values: seq<string>, body: string): string
    requires |names| == |values|
  {
    Ended([first] + Lines(names, values), CRLF) + CRLF + body
  }

  lemma MessageSections(first: string, names: seq<string>, values: seq<string>, body: string)
    requires Line(first) && Writable(names, values)
    ensures Sections(Message(first, names, values, body)) == Some(([first] + Lines(names, values), body))
    ensures ([first] + Lines(names, values))[1..] == Lines(names, values)
  {
    var lines := [first] + Lines(names, values);
    forall i | 0 <= i < |lines| ensures Line(lines[i]) {
      if i > 0 {
        assert lines[i] == names[i - 1] + ": " + values[i - 1];
      }
    }
    SectionsOfText(lines, body);
  }

  /** The case of header names does not matter in a request. */
  lemma RequestInAnyCase(first: string, a: seq<string>, b: seq<string>, values: seq<string>, body: string)
    requires Line(first) && Writable(a, values) && Writable(b, values) && Recased(a, b)
    ensures HttpRequests.Parse(Message(first, a, values, body)) == HttpRequests.Parse(Message(first, b, values, body))
  {
    MessageSections(first, a, values, body);
    MessageSections(first, b, values, body);
    LinesAlike(map[], a, b, values);
  }

  // ---- the method and the request line ----

  /** A method is known by its name in any case, and by nothing else. */
  lemma MethodIff(s: string, m: HttpRequests.Method)
    requires m != HttpRequests.NoMethod
    ensures HttpRequests.MethodOf(s) == m <==> SameLetters(s, HttpRequests.MethodName(m))
  {
    HttpRequests.MethodRoundTrip(m);
    if SameLetters(s, HttpRequests.MethodName(m)) {
      SameMethod(s, HttpRequests.MethodName(m));
    }
  }

  /** Telling methods apart does not depend on the case of letters. */
  lemma SameMethod(s: string, t: string)
    requires SameLetters(s, t)
    ensures HttpRequests.MethodOf(s) == HttpRequests.MethodOf(t)
  {
    forall u: string ensures HttpRequests.EqualIgnoringCase(s, u) <==> HttpRequests.EqualIgnoringCase(t, u) {
      SameEqual(s, t, u);
    }
  }

  lemma SameEqual(s: string, t: string, u: string)
    requires SameLetters(s, t)
    ensures HttpRequests.EqualIgnoringCase(s, u) <==> HttpRequests.EqualIgnoringCase(t, u)
  {
  }

  // ---- responses, where cookies are told by the two usual spellings only ----

  predicate CookieName(name: string) { name == "Set-Cookie" || name == "set-cookie" }

  lemma CookieLineIff(name: string, value: string)
    requires Free(name, ": ")
    ensures HttpResponses.IsCookie(name + ": " + value) <==> CookieName(name)
  {
    var line := name + ": " + value;
    if "Set-Cookie" + ": " <= line {
      HttpResponses.SameName(name, value, "Set-Cookie");
    }
    if "set-cookie" + ": " <= line {
      HttpResponses.SameName(name, value, "set-cookie");
    }
  }

  function Cookies(names: seq<string>): nat {
    if names == [] then 0 else (if CookieName(names[0]) then 1 else 0) + Cookies(names[1..])
  }

  lemma {:induction false} CookiesSeen(seen: HttpResponses.Seen, names: seq<string>, values: seq<string>)
    requires Writable(names, values)
    ensures |HttpResponses.ReadLines(seen, Lines(names, values)).cookies| == |seen.cookies| + Cookies(names)
    decreases |names|
  {
    if names != [] {
      LinesRest(names, values);
      NoColon(names[0]);
      CookieLineIff(names[0], values[0]);
      var first := names[0] + ": " + values[0];
      HttpResponses.ReadFirst(seen, first, Lines(names[1..], values[1..]));
      CookiesSeen(HttpResponses.ReadLine(seen, first), names[1..], values[1..]);
    }
  }

  /** Both spell a cookie line, or neither does. */
  predicate SameCookies(a: seq<string>, b: seq<string>) {
    |a| == |b| && forall i :: 0 <= i < |a| ==> (CookieName(a[i]) <==> CookieName(b[i]))
  }

  lemma {:induction false} ReadAlike(seen: HttpResponses.Seen, a: seq<string>, b: seq<string>, values: seq<string>)
    requires Writable(a, values) && Writable(b, values) && Recased(a, b) && SameCookies(a, b)
    ensures HttpResponses.ReadLines(seen, Lines(a, values)) == HttpResponses.ReadLines(seen, Lines(b, values))
    decreases |a|
  {
    if a != [] {
      LinesRest(a, values);
      LinesRest(b, values);
      OneReadAlike(seen, a[0], b[0], values[0]);
      var first, other := a[0] + ": " + values[0], b[0] + ": " + values[0];
      HttpResponses.ReadFirst(seen, first, Lines(a[1..], values[1..]));
      HttpResponses.ReadFirst(seen, other, Lines(b[1..], values[1..]));
      ReadAlike(HttpResponses.ReadLine(seen, first), a[1..], b[1..], values[1..]);
    }
  }

  lemma OneReadAlike(seen: HttpResponses.Seen, a: string, b: string, value: string)
    requires Free(a, ": \r\n") && Free(b, ": \r\n") && Free(value, CRLF)
    requires SameLetters(a, b) && (CookieName(a) <==> CookieName(b))
    ensures HttpResponses.ReadLine(seen, a + ": " + value) == HttpResponses.ReadLine(seen, b + ": " + value)
  {
    NoColon(a);
    NoColon(b);
    CookieLineIff(a, value);
    CookieLineIff(b, value);
    if CookieName(a) {
      CookieText(a, value);
      CookieText(b, value);
    } else {
      LineAlike(seen.headers, a, b, value);
    }
  }

  lemma CookieText(name: string, value: string)
    requires CookieName(name) && HttpResponses.IsCookie(name + ": " + value)
    ensures HttpResponses.CookieOf(name + ": " + value) == value
  {
    HttpResponses.CookieName(name + ": " + value);
  }

  function AllLower(names: seq<string>): (r: seq<string>)
    ensures |r| == |names| && forall i :: 0 <= i < |names| ==> r[i] == Lower(names[i])
  {
    seq(|names|, i requires 0 <= i < |names| => Lower(names[i]))
  }

  /** In a response the case of header names does not matter either, as long as no cookie line is spelled
      with one of the two usual spellings of its name in one message and with another in the other. */
  lemma ResponseInAnyCase(first: string, a: seq<string>, b: seq<string>, values: seq<string>, body: string)
    requires Line(first) && Writable(a, values) && Writable(b, values) && Recased(a, b) && SameCookies(a, b)
    ensures HttpResponses.Parse(Message(first, a, values, body)) == HttpResponses.Parse(Message(first, b, values, body))
  {
    MessageSections(first, a, values, body);
    MessageSections(first, b, values, body);
    ReadAlike(HttpResponses.Seen(HttpResponses.PRESET, []), a, b, values);
  }

  lemma LowerKeeps(names: seq<string>, values: seq<string>)
    requires Writable(names, values)
    ensures Writable(AllLower(names), values) && Recased(names, AllLower(names))
  {
    forall i | 0 <= i < |names|
      ensures Free(AllLower(names)[i], ": \r\n") && SameLetters(names[i], AllLower(names)[i])
    {
      forall j | 0 <= j < |names[i]|
        ensures AllLower(names)[i][j] !in ": \r\n" && ToLower(AllLower(names)[i][j]) == ToLower(names[i][j])
      {
        assert names[i][j] in names[i];
      }
    }
  }

  lemma {:induction false} MoreCookies(names: seq<string>)
    ensures Cookies(names) <= Cookies(AllLower(names))
    ensures Cookies(names) == Cookies(AllLower(names)) <==> SameCookies(names, AllLower(names))
  {
    if names != [] {
      MoreCookies(names[1..]);
      assert AllLower(names)[1..] == AllLower(names[1..]);
      if CookieName(names[0]) {
        LowerCookie(names[0]);
      }
      SameRest(names, AllLower(names));
    }
  }

  lemma SameRest(a: seq<string>, b: seq<string>)
    requires a != [] && |a| == |b|
    ensures SameCookies(a, b) <==> (CookieName(a[0]) <==> CookieName(b[0])) && SameCookies(a[1..], b[1..])
  {
    if SameCookies(a[1..], b[1..]) && (CookieName(a[0]) <==> CookieName(b[0])) {
      forall i | 0 <= i < |a| ensures CookieName(a[i]) <==> CookieName(b[i]) {
        if i > 0 {
          assert a[i] == a[1..][i - 1] && b[i] == b[1..][i - 1];
        }
      }
    }
  }

  lemma LowerCookie(name: string)
    requires CookieName(name)
    ensures Lower(name) == "set-cookie"
  {
  }

  lemma SmallIsNotCapital(name: string)
    ensures Lower(name) != "Set-Cookie"
  {
    if name != "" {
      CapitalIff('S');
      LowerIs(name[0]);
      assert Lower(name)[0] != 'S';
    }
  }

  lemma UsualSpellings(names: seq<string>)
    ensures SameCookies(names, AllLower(names)) <==>
      forall i :: 0 <= i < |names| && Lower(names[i]) == "set-cookie" ==> CookieName(names[i])
  {
    forall i | 0 <= i < |names|
      ensures CookieName(AllLower(names)[i]) <==> Lower(names[i]) == "set-cookie"
      ensures CookieName(names[i]) ==> Lower(names[i]) == "set-cookie"
    {
      SmallIsNotCapital(names[i]);
      if CookieName(names[i]) {
        LowerCookie(names[i]);
      }
    }
  }

  /** Messages with different numbers of cookies are different. */
  lemma CookiesTellApart(first: string, a: seq<string>, b: seq<string>, values: seq<string>, body: string)
    requires Line(first) && HttpResponses.ParseStatus(first).Some? && Writable(a, values) && Writable(b, values)
    requires HttpResponses.Parse(Message(first, a, values, body))
      == HttpResponses.Parse(Message(first, b, values, body))
    ensures Cookies(a) == Cookies(b)
  {
    var start := HttpResponses.Seen(HttpResponses.PRESET, []);
    MessageSections(first, a, values, body);
    MessageSections(first, b, values, body);
    CookiesSeen(start, a, values);
    CookiesSeen(start, b, values);
  }

  /** Exactly when a response reads as it would with its header names in small letters: every name that
      says set-cookie does so in one of the two usual spellings. */
  lemma ResponseInSmallLettersIff(first: string, names: seq<string>, values: seq<string>, body: string)
    requires Line(first) && HttpResponses.ParseStatus(first).Some? && Writable(names, values)
    ensures
      HttpResponses.Parse(Message(first, names, values, body))
        == HttpResponses.Parse(Message(first, AllLower(names), values, body))
      <==> forall i :: 0 <= i < |names| && Lower(names[i]) == "set-cookie" ==> CookieName(names[i])
  {
    var small := AllLower(names);
    LowerKeeps(names, values);
    UsualSpellings(names);
    if SameCookies(names, small) {
      ResponseInAnyCase(first, names, small, values, body);
    } else {
      MoreCookies(names);
      if HttpResponses.Parse(Message(first, names, values, body))
        == HttpResponses.Parse(Message(first, small, values, body)) {
        CookiesTellApart(first, names, small, values, body);
      }
    }
  }
}
