/** The header map of a message, as printed and as read back. */
module HttpHeaders {
  import opened Basics
  import opened HttpText

  type Fields = map<string, string>

  function FormatName(name: string): string {
    Lower(if name != "" && name[|name| - 1] == ':' then name else name + ":")
  }

  /** The first value given for a name stays. */
  function AddField(h: Fields, name: string, value: string): Fields {
    if FormatName(name) in h then h else h[FormatName(name) := value]
  }

  /** Name and value of a header line. The two characters after the name are taken for the separator,
      and a line with nothing after them is no header. */
  function FieldOf(line: string): Option<(string, string)> {
    var t := if line != "" && line[|line| - 1] == '\n' then line[..|line| - 1] else line;
    var i := FirstOf(t, ": ");
    if i + 2 >= |t| then None else Some((t[..i], t[i + 2..]))
  }

  function AddLine(h: Fields, line: string): Fields {
    match FieldOf(line)
    case None => h
    case Some((name, value)) => AddField(h, name, value)
  }

  function AddLines(h: Fields, lines: seq<string>): Fields
    decreases |lines|
  {
    if lines == [] then h else AddLines(AddLine(h, lines[0]), lines[1..])
  }

  function PrintName(name: string): string {
    if name != "" && name[|name| - 1] == ':' then name[..|name| - 1] else name
  }

  function PrintField(name: string, value: string): string { PrintName(name) + ": " + value }

  /** `order` is an order in which the map's entries may be visited. */
  ghost predicate Lists(order: seq<string>, h: Fields) {
    && (forall k :: k in order <==> k in h)
    && (forall i, j :: 0 <= i < j < |order| ==> order[i] != order[j])
  }

  function PrintFields(h: Fields, order: seq<string>): (lines: seq<string>)
    requires forall k :: k in order ==> k in h
    ensures |lines| == |order|
  {
    if order == [] then []
    else
      assert order[0] in order;
      [PrintField(order[0], h[order[0]])] + PrintFields(h, order[1..])
  }

  /** A name as set_header stores it, with nothing in it that ends a name on the wire. */
  predicate StoredName(name: string) {
    && name != "" && name[|name| - 1] == ':' && Lower(name) == name
    && Free(PrintName(name), ": \r\n")
  }

  predicate Printable(h: Fields) { forall k :: k in h ==> StoredName(k) && Free(h[k], CRLF) }

  /** Fields without a value do not survive. */
  function WithValue(h: Fields): Fields { map k | k in h && h[k] != "" :: h[k] }

  lemma PrintedLine(name: string, value: string)
    requires StoredName(name) && Free(value, CRLF)
    ensures Line(PrintField(name, value))
  {
  }

  lemma NameRestored(name: string)
    requires StoredName(name)
    ensures FormatName(PrintName(name)) == name
  {
    var base := PrintName(name);
    assert base + ":" == name;
    if base != "" {
      assert base[|base| - 1] in base;
    }
  }

  lemma NoLineEnd(base: string, value: string)
    requires Free(value, CRLF)
    ensures (base + ": " + value)[|base + ": " + value| - 1] != '\n'
  {
    if value != "" {
      assert value[|value| - 1] in value;
    }
  }

  lemma FieldParts(base: string, value: string)
    requires Free(base, ": ") && Free(value, CRLF)
    ensures FieldOf(base + ": " + value) == if value == "" then None else Some((base, value))
  {
    var line := base + ": " + value;
    NoLineEnd(base, value);
    assert line == base + (": " + value);
    FirstOfSkips(base, ": " + value, ": ");
    assert line[..|base|] == base && line[|base| + 2..] == value;
  }

  /** The fields already there, then those of `h` that `order` visits and that have a value. */
  ghost function Merged(acc: Fields, h: Fields, order: seq<string>): Fields {
    map k | k in acc.Keys + h.Keys && (k in acc || (k in order && h[k] != "")) :: if k in acc then acc[k] else h[k]
  }

  lemma MergedAll(preset: Fields, h: Fields, order: seq<string>)
    requires forall k :: k in h ==> k in order
    ensures Merged(preset, h, order) == WithValue(h) + preset
    ensures preset == map[] ==> Merged(preset, h, order) == WithValue(h)
  {
  }

  lemma MergeOne(acc: Fields, h: Fields, order: seq<string>)
    requires order != []
    ensures var k := order[0];
      Merged(if k !in h || h[k] == "" || k in acc then acc else acc[k := h[k]], h, order[1..]) == Merged(acc, h, order)
  {
    var k := order[0];
    assert order == [k] + order[1..];
    assert forall x :: x in order <==> x == k || x in order[1..];
  }

  lemma AddPrinted(acc: Fields, name: string, value: string)
    requires StoredName(name) && Free(value, CRLF)
    ensures AddLine(acc, PrintField(name, value)) == if value == "" || name in acc then acc else acc[name := value]
  {
    FieldParts(PrintName(name), value);
    NameRestored(name);
  }

  lemma {:induction false} ReadFields(acc: Fields, h: Fields, order: seq<string>)
    requires Printable(h) && forall k :: k in order ==> k in h
    ensures AddLines(acc, PrintFields(h, order)) == Merged(acc, h, order)
    decreases |order|
  {
    if order != [] {
      assert order[0] in order;
      MergeOne(acc, h, order);
      var line := PrintField(order[0], h[order[0]]);
      AddPrinted(acc, order[0], h[order[0]]);
      AddFirst(acc, line, PrintFields(h, order[1..]));
      ReadFields(AddLine(acc, line), h, order[1..]);
    } else {
      assert Merged(acc, h, order) == acc;
    }
  }

  lemma AddFirst(acc: Fields, line: string, lines: seq<string>)
    ensures AddLines(acc, [line] + lines) == AddLines(AddLine(acc, line), lines)
  {
    assert ([line] + lines)[1..] == lines;
  }

  lemma {:induction false} PrintedLines(h: Fields, order: seq<string>)
    requires Printable(h) && forall k :: k in order ==> k in h
    ensures forall i :: 0 <= i < |order| ==> Line(PrintFields(h, order)[i])
  {
    if order != [] {
      assert order[0] in order;
      PrintedLine(order[0], h[order[0]]);
      PrintedLines(h, order[1..]);
    }
  }

  class HttpHeader {
    var fields: Fields

    constructor ()
      ensures fields == map[]
    {
      fields := map[];
    }

    method SetHeader(name: string, value: string)
      modifies this
      ensures fields == AddField(old(fields), name, value)
    {
      var stored := FormatName(name);
      if stored !in fields {
        fields := fields[stored := value];
      }
    }

    method AddHeaderFromStr(header: string) returns (ok: bool)
      modifies this
      ensures fields == AddLine(old(fields), header)
      ensures ok <==> FieldOf(header).Some?
    {
      var text := header;
      if text != "" && text[|text| - 1] == '\n' {
        text := text[..|text| - 1];
      }
      var before := FirstOf(text, ": ");
      var after := before + 2;
      if before == |text| || after >= |text| {
        return false;
      }
      SetHeader(text[..before], text[after..]);
      return true;
    }
  }

  lemma EndedFirst(line: string, lines: seq<string>, d: string)
    ensures Ended([line] + lines, d) == line + d + Ended(lines, d)
  {
    assert ([line] + lines)[1..] == lines;
  }

  /** The loop over the header map in both to_string functions. */
  method PrintAll(h: Fields, order: seq<string>) returns (text: string)
    requires forall k :: k in order ==> k in h
    ensures text == Ended(PrintFields(h, order), CRLF)
  {
    text := "";
    assert order[0..] == order;
    for i := 0 to |order|
      invariant Ended(PrintFields(h, order), CRLF) == text + Ended(PrintFields(h, order[i..]), CRLF)
    {
      assert order[i..][1..] == order[i + 1..];
      assert order[i] in order;
      EndedFirst(PrintField(order[i], h[order[i]]), PrintFields(h, order[i + 1..]), CRLF);
      text := text + PrintName(order[i]) + ": " + h[order[i]] + CRLF;
    }
  }
}
