/** The rules of a filter on channels of integers: what makes them fire, and why a rule that was verified
    when the filter started never fails later. */
module FilterRules {
  import opened Arith
  import opened Basics
  import opened ChannelStore
  import opened ChannelCascade
  import opened LittleEndian

  const WORD64 := 0x1_0000_0000_0000_0000
  const HALF64 := 0x8000_0000_0000_0000

  type Int64 = n: int | -HALF64 <= n < HALF64

  datatype Kind = Equal | Superior | SuperiorEqual | Inferior | InferiorEqual | ByteAnd | ByteOr | ByteXor

  datatype Config = Config(kind: Kind, triggerIdx: nat, trigger: Int64, sameValue: bool, writeIdx: nat,
                           writeValue: Int64, shouldMatch: bool)

  // ---- values ----

  function Unsigned(n: Int64): nat { if n < 0 then n + WORD64 else n }

  function Signed(n: nat): Int64
    requires n < WORD64
  {
    if n >= HALF64 then n - WORD64 else n
  }

  /** An element as Value's constructor reads it: the bytes are copied into a zeroed 64-bit integer,
      whatever the signedness of the channel. */
  function InValue(element: seq<Byte>): Int64
    requires |element| <= 8
  {
    FieldBound(element);
    Signed(FromLittle(element))
  }

  /** The number the channel means: two's complement in its own width if its elements are signed. */
  function Meant(element: seq<Byte>, signed: bool): int
    requires 1 <= |element| <= 8
  {
    var n := FromLittle(element);
    if signed && 2 * n >= Power(|element|) then n - Power(|element|) else n
  }

  /** Some bit is set in both numbers. */
  predicate CommonBit(a: nat, b: nat) {
    a != 0 && b != 0 && ((a % 2 == 1 && b % 2 == 1) || CommonBit(a / 2, b / 2))
  }

  predicate Matches(kind: Kind, value: Int64, trigger: Int64) {
    match kind
    case Equal => value == trigger
    case Superior => value > trigger
    case SuperiorEqual => value >= trigger
    case Inferior => value < trigger
    case InferiorEqual => value <= trigger
    case ByteAnd => CommonBit(Unsigned(value), Unsigned(trigger))
    case ByteOr => value != 0 || trigger != 0
    case ByteXor => value != trigger
  }

  // ---- firing ----

  function ElementAt(b: seq<Byte>, unit: nat, idx: nat): seq<Byte>
    requires 0 <= idx * unit && idx * unit + unit <= |b|
  {
    b[idx * unit..idx * unit + unit]
  }

  predicate Reads(conf: Config, unit: nat, size: nat) {
    0 <= conf.triggerIdx * unit && conf.triggerIdx * unit + unit <= size
  }

  /** _apply_rule and _rule_match. Reading past the input's content is left without effect; verify rules
      it out. */
  function Fire(conf: Config, inUnit: nat, outUnit: nat, b: seq<Byte>): Option<Out>
    requires 1 <= inUnit <= 8 && 1 <= outUnit <= 8
  {
    if !Reads(conf, inUnit, |b|) then None
    else
      var value := InValue(ElementAt(b, inUnit, conf.triggerIdx));
      if Matches(conf.kind, value, conf.trigger) != conf.shouldMatch then None
      else
        Some(Out(conf.writeIdx * outUnit, Little(Unsigned(if conf.sameValue then value else conf.writeValue), outUnit)))
  }

  function RuleOf(conf: Config, inp: nat, out: nat, inUnit: nat, outUnit: nat): (rule: Rule)
    requires 1 <= inUnit <= 8 && 1 <= outUnit <= 8
    ensures rule.inp == inp && rule.out == out
  {
    Rule(inp, out, (b: seq<Byte>) => Fire(conf, inUnit, outUnit, b))
  }

  /** InternalRule::verify: both indices are inside the arrays as they are at the start. */
  predicate Verified(conf: Config, inp: Cell, out: Cell)
    requires inp.unit > 0 && out.unit > 0
  {
    conf.triggerIdx < inp.size / inp.unit && conf.writeIdx < out.size / out.unit
  }

  // ---- bits ----

  function Pow2(k: nat): (p: nat)
    ensures p >= 1
  {
    if k == 0 then 1 else 2 * Pow2(k - 1)
  }

  /** Bit k of n. */
  predicate Bit(n: nat, k: nat) { n / Pow2(k) % 2 == 1 }

  lemma BitAbove(n: nat, k: nat)
    ensures Bit(n, k + 1) == Bit(n / 2, k)
  {
    var p := Pow2(k);
    var q, t := n / 2 / p, n / 2 % p;
    assert n / 2 == q * p + t;
    assert n == q * (2 * p) + (2 * t + n % 2);
    DivModUnique(n, 2 * p, q, 2 * t + n % 2);
  }

  lemma {:induction false} CommonBitIff(a: nat, b: nat)
    ensures CommonBit(a, b) <==> exists k: nat :: Bit(a, k) && Bit(b, k)
  {
    if a != 0 && b != 0 {
      CommonBitIff(a / 2, b / 2);
      assert Bit(a, 0) == (a % 2 == 1) && Bit(b, 0) == (b % 2 == 1);
      if k: nat :| Bit(a / 2, k) && Bit(b / 2, k) {
        BitAbove(a, k);
        BitAbove(b, k);
        assert Bit(a, k + 1) && Bit(b, k + 1);
      }
      forall k: nat | Bit(a, k) && Bit(b, k) ensures CommonBit(a, b) {
        if k > 0 {
          BitAbove(a, k - 1);
          BitAbove(b, k - 1);
        }
      }
    } else {
      forall k: nat ensures !Bit(0, k) {
        DivModUnique(0, Pow2(k), 0, 0);
      }
    }
  }

  lemma {:induction false} BitsDiffer(a: nat, b: nat)
    ensures a != b <==> exists k: nat :: Bit(a, k) != Bit(b, k)
    decreases a + b
  {
    if a != b {
      if a % 2 != b % 2 {
        assert Bit(a, 0) != Bit(b, 0);
      } else {
        BitsDiffer(a / 2, b / 2);
        var k: nat :| Bit(a / 2, k) != Bit(b / 2, k);
        BitAbove(a, k);
        BitAbove(b, k);
        assert Bit(a, k + 1) != Bit(b, k + 1);
      }
    }
  }

  lemma SomeBit(a: nat)
    ensures a != 0 <==> exists k: nat :: Bit(a, k)
  {
    BitsDiffer(a, 0);
    forall k: nat ensures !Bit(0, k) {
      DivModUnique(0, Pow2(k), 0, 0);
    }
  }

  // ---- when a rule fires and what it writes ----

  /** The comparison a rule makes, in terms of numbers and of bits. */
  lemma MatchesMeans(kind: Kind, v: Int64, t: Int64)
    ensures Matches(kind, v, t) <==>
      match kind
      case Equal => v == t
      case Superior => v > t
      case SuperiorEqual => v >= t
      case Inferior => v < t
      case InferiorEqual => v <= t
      case ByteAnd => exists k: nat :: Bit(Unsigned(v), k) && Bit(Unsigned(t), k)
      case ByteOr => exists k: nat :: Bit(Unsigned(v), k) || Bit(Unsigned(t), k)
      case ByteXor => exists k: nat :: Bit(Unsigned(v), k) != Bit(Unsigned(t), k)
  {
    CommonBitIff(Unsigned(v), Unsigned(t));
    SomeBit(Unsigned(v));
    SomeBit(Unsigned(t));
    BitsDiffer(Unsigned(v), Unsigned(t));
  }

  /** Both indices name whole elements exactly if the rule is verified. */
  lemma VerifiedIff(conf: Config, inp: Cell, out: Cell)
    requires inp.Valid() && out.Valid()
    ensures Verified(conf, inp, out) <==>
      conf.triggerIdx * inp.unit + inp.unit <= inp.size && conf.writeIdx * out.unit + out.unit <= out.size
  {
    InsideIff(conf.triggerIdx, inp.size, inp.unit);
    InsideIff(conf.writeIdx, out.size, out.unit);
  }

  lemma InsideIff(idx: nat, size: nat, unit: nat)
    requires unit > 0
    ensures idx < size / unit <==> idx * unit + unit <= size
  {
    var q := size / unit;
    if idx < q {
      MulGap(idx, q, unit);
    } else {
      assert q * unit <= idx * unit by {
        if q < idx {
          MulGap(q, idx, unit);
        }
      }
    }
  }

  lemma WrapsWith(n: int, k: nat)
    requires k <= 8
    ensures (n + WORD64) % Power(k) == n % Power(k)
  {
    var p := Power(k);
    var m := WORD64 / p;
    assert WORD64 == m * p;
    DivModUnique(n + WORD64, p, n / p + m, n % p);
  }

  /** A value is written modulo the width of the output's elements. */
  lemma WrittenValue(n: Int64, unit: nat)
    requires unit <= 8
    ensures FromLittle(Little(Unsigned(n), unit)) == n % Power(unit)
  {
    FieldHolds(Unsigned(n), unit);
    WrapsWith(n, unit);
  }

  /** v is the number in element triggerIdx of b, eight bytes with the sign, fewer without. */
  ghost predicate ReadIs(conf: Config, unit: nat, b: seq<Byte>, v: Int64)
    requires 1 <= unit <= 8
  {
    && 0 <= conf.triggerIdx * unit && conf.triggerIdx * unit + unit <= |b|
    && (v - FromLittle(b[conf.triggerIdx * unit..conf.triggerIdx * unit + unit])) % WORD64 == 0
  }

  /** When a verified rule fires: exactly if the comparison of the element it reads comes out as asked,
      and then it writes one element. */
  lemma FiresIff(conf: Config, inp: Cell, out: Cell, v: Int64)
    requires inp.Valid() && out.Valid() && inp.unit <= 8 && out.unit <= 8 && Verified(conf, inp, out)
    requires ReadIs(conf, inp.unit, inp.Bytes(), v)
    ensures
      var t := conf.trigger;
      var met :=
        match conf.kind
        case Equal => v == t
        case Superior => v > t
        case SuperiorEqual => v >= t
        case Inferior => v < t
        case InferiorEqual => v <= t
        case ByteAnd => exists k: nat :: Bit(Unsigned(v), k) && Bit(Unsigned(t), k)
        case ByteOr => exists k: nat :: Bit(Unsigned(v), k) || Bit(Unsigned(t), k)
        case ByteXor => exists k: nat :: Bit(Unsigned(v), k) != Bit(Unsigned(t), k);
      Fire(conf, inp.unit, out.unit, inp.Bytes()).Some? <==> met == conf.shouldMatch
    ensures var fired := Fire(conf, inp.unit, out.unit, inp.Bytes());
      fired.Some? ==>
        && fired.value.off == conf.writeIdx * out.unit && |fired.value.bytes| == out.unit
        && FromLittle(fired.value.bytes) == (if conf.sameValue then v else conf.writeValue) % Power(out.unit)
  {
    VerifiedIff(conf, inp, out);
    MatchesMeans(conf.kind, v, conf.trigger);
    FieldBound(ElementAt(inp.Bytes(), inp.unit, conf.triggerIdx));
    assert v == InValue(ElementAt(inp.Bytes(), inp.unit, conf.triggerIdx));
    WrittenValue(if conf.sameValue then v else conf.writeValue, out.unit);
  }

  /** The output after a rule wrote x into element idx: that element holds x, every other byte is as it
      was. */
  ghost predicate ElementSet(before: Cell, after: Cell, idx: nat, x: Int64)
    requires before.Valid() && after.Valid() && before.unit <= 8
  {
    var at := idx * before.unit;
    && after.size == before.size && 0 <= at && at + before.unit <= before.size
    && FromLittle(after.Bytes()[at..at + before.unit]) == x % Power(before.unit)
    && forall i :: 0 <= i < before.size && !(at <= i < at + before.unit) ==> after.Bytes()[i] == before.Bytes()[i]
  }

  lemma StoredElement(c: Cell, idx: nat, bytes: seq<Byte>, x: Int64)
    requires c.Valid() && c.unit <= 8 && 0 <= idx * c.unit && idx * c.unit + c.unit <= c.size && |bytes| == c.unit
    requires FromLittle(bytes) == x % Power(c.unit)
    ensures Store(c, idx * c.unit, bytes).1 in {Written, Unchanged}
    ensures ElementSet(c, Store(c, idx * c.unit, bytes).0, idx, x)
  {
    var off := idx * c.unit;
    if Store(c, off, bytes).1 == Written {
      StoredBytes(c, off, bytes);
    } else {
      assert c.Bytes()[off..off + |bytes|] == c.mem[off..off + |bytes|];
    }
  }

  /** Rule r of filter f was configured as conf and verified against its channels. */
  ghost predicate Configured(net: Net, cells: seq<Cell>, f: nat, r: nat, conf: Config)
    requires net.Valid() && CellsOk(net, cells) && f < |net.filters| && r < |net.filters[f].rules|
  {
    assert net.RuleOk(f, r);
    var rule := net.filters[f].rules[r];
    var inp, out := cells[rule.inp], cells[rule.out];
    && inp.unit <= 8 && out.unit <= 8 && Verified(conf, inp, out)
    && rule == RuleOf(conf, rule.inp, rule.out, inp.unit, out.unit)
  }

  /** The whole effect of a rule on its two channels, seen after the filter's last rule for the channel:
      if it fires and the output is not itself notifying, element writeIdx of the output holds the element
      read or the value to write, and nothing else of the output changed; if it does not fire, nothing
      changed at all. */
  lemma LastRuleWrites(net: Net, cells: seq<Cell>, stack: seq<Hop>, f: nat, r: nat, conf: Config, v: Int64)
    requires net.Valid() && CellsOk(net, cells) && f < |net.filters| && r + 1 == |net.filters[f].rules|
    requires Configured(net, cells, f, r, conf) && net.RuleOk(f, r)
    requires var c := net.filters[f].rules[r].inp;
      !Notifying(stack, c) && ReadIs(conf, cells[c].unit, cells[c].Bytes(), v)
    ensures var rule := net.filters[f].rules[r];
      var o := Rules(net, cells, stack, rule.inp, f, r);
      if Fire(conf, cells[rule.inp].unit, cells[rule.out].unit, cells[rule.inp].Bytes()).None? then
        o == Done(cells, Written)
      else
        o.Done? && !Notifying(stack, rule.out) ==>
          ElementSet(cells[rule.out], o.cells[rule.out], conf.writeIdx, if conf.sameValue then v else conf.writeValue)
  {
    var rule := net.filters[f].rules[r];
    var c := rule.inp;
    var inp, out := cells[c], cells[rule.out];
    FiresIff(conf, inp, out, v);
    VerifiedIff(conf, inp, out);
    var fired := rule.fire(inp.Bytes());
    assert fired == Fire(conf, inp.unit, out.unit, inp.Bytes());
    if fired.Some? && !Notifying(stack, rule.out) {
      var longer := stack + [Hop(c, f, r)];
      Shrinks(net, stack, Hop(c, f, r));
      WithNotifying(stack, Hop(c, f, r), rule.out);
      StoredElement(out, conf.writeIdx, fired.value.bytes, if conf.sameValue then v else conf.writeValue);
      WriteFreezes(net, cells, longer, rule.out, fired.value.off, fired.value.bytes);
      var o := Write(net, cells, longer, rule.out, fired.value.off, fired.value.bytes);
      if o.Done? {
        assert Rules(net, cells, stack, c, f, r) == Done(o.cells, Written);
      }
    }
  }

  /** The same from the outside: a write to a channel that only one rule watches stores the bytes, and the
      rule then acts on what was stored. */
  lemma OneRuleActs(net: Net, cells: seq<Cell>, c: nat, off: nat, bytes: seq<Byte>, f: nat, conf: Config, v: Int64)
    requires net.Valid() && CellsOk(net, cells) && c < |cells| && Store(cells[c], off, bytes).1 == Written
    requires f < |net.filters| && net.filters[f].running && |net.filters[f].rules| == 1
    requires net.observers[c] == [f] && net.filters[f].rules[0].inp == c && net.RuleOk(f, 0)
    requires var next := cells[c := Store(cells[c], off, bytes).0];
      Configured(net, next, f, 0, conf) && ReadIs(conf, next[c].unit, next[c].Bytes(), v)
    ensures var next, rule := cells[c := Store(cells[c], off, bytes).0], net.filters[f].rules[0];
      var o := Write(net, cells, [], c, off, bytes);
      if Fire(conf, next[c].unit, next[rule.out].unit, next[c].Bytes()).None? then o == Done(next, Written)
      else
        o.Done? ==>
          && o.cells[c] == next[c]
          && ElementSet(cells[rule.out], o.cells[rule.out], conf.writeIdx,
                        if conf.sameValue then v else conf.writeValue)
  {
    var next := cells[c := Store(cells[c], off, bytes).0];
    LastRuleWrites(net, next, [], f, 0, conf, v);
    WriteFreezes(net, cells, [], c, off, bytes);
    var h := Handle(net, next, [], c, f);
    assert h == Rules(net, next, [], c, f, 0);
    assert Notify(net, next, [], c, 0) == if h.Done? then Notify(net, h.cells, [], c, 1) else h;
  }

  // ---- several rules on one channel ----

  /** Rule r of filter f either is for another channel, or writes a channel nobody watches, that is not
      notifying, and that no later rule writes. */
  ghost predicate Alone(net: Net, stack: seq<Hop>, c: nat, f: nat, r: nat)
    requires net.Valid() && f < |net.filters| && r < |net.filters[f].rules|
  {
    assert net.RuleOk(f, r);
    var rules := net.filters[f].rules;
    rules[r].inp == c ==>
      && net.observers[rules[r].out] == [] && !Notifying(stack, rules[r].out)
      && forall q :: r < q < |rules| && rules[q].inp == c ==> rules[q].out != rules[r].out
  }

  /** What rule r leaves of its output: the element it writes, if it is for channel c and fires, or all as it
      was. */
  ghost predicate Acted(net: Net, cells: seq<Cell>, after: seq<Cell>, c: nat, f: nat, r: nat)
    requires net.Valid() && CellsOk(net, cells) && CellsOk(net, after) && c < |cells|
    requires f < |net.filters| && r < |net.filters[f].rules|
  {
    assert net.RuleOk(f, r);
    var rule := net.filters[f].rules[r];
    rule.inp == c ==>
      forall conf, v: Int64 ::
        Configured(net, cells, f, r, conf) && ReadIs(conf, cells[c].unit, cells[c].Bytes(), v) ==>
        if Fire(conf, cells[c].unit, cells[rule.out].unit, cells[c].Bytes()).None? then
          after[rule.out] == cells[rule.out]
        else
          ElementSet(cells[rule.out], after[rule.out], conf.writeIdx, if conf.sameValue then v else conf.writeValue)
  }

  /** A write to a channel nobody watches. */
  lemma QuietWrite(net: Net, cells: seq<Cell>, stack: seq<Hop>, c: nat, off: nat, bytes: seq<Byte>)
    requires net.Valid() && CellsOk(net, cells) && c < |cells| && net.observers[c] == [] && !Notifying(stack, c)
    ensures var o := Write(net, cells, stack, c, off, bytes);
      o.Done? ==> o.cells == cells[c := Store(cells[c], off, bytes).0]
  {
  }

  lemma OneActed(net: Net, start: seq<Cell>, cells: seq<Cell>, c: nat, f: nat, r: nat)
    requires net.Valid() && CellsOk(net, start) && CellsOk(net, cells) && c < |cells|
    requires f < |net.filters| && r < |net.filters[f].rules| && net.RuleOk(f, r)
    requires var rule := net.filters[f].rules[r];
      rule.inp == c && cells[c] == start[c] && cells[rule.out] == start[rule.out]
    ensures var rule := net.filters[f].rules[r];
      match rule.fire(cells[c].Bytes())
      case None => Acted(net, start, cells, c, f, r)
      case Some(out) => Acted(net, start, cells[rule.out := Store(cells[rule.out], out.off, out.bytes).0], c, f, r)
  {
    var rule := net.filters[f].rules[r];
    var inp, out := start[c], start[rule.out];
    forall conf, v: Int64 | Configured(net, start, f, r, conf) && ReadIs(conf, inp.unit, inp.Bytes(), v)
      ensures var fired := Fire(conf, inp.unit, out.unit, inp.Bytes());
        && fired == rule.fire(inp.Bytes())
        && (fired.Some? ==> ElementSet(out, Store(out, fired.value.off, fired.value.bytes).0, conf.writeIdx,
                                       if conf.sameValue then v else conf.writeValue))
    {
      FiresIff(conf, inp, out, v);
      VerifiedIff(conf, inp, out);
      var fired := Fire(conf, inp.unit, out.unit, inp.Bytes());
      if fired.Some? {
        StoredElement(out, conf.writeIdx, fired.value.bytes, if conf.sameValue then v else conf.writeValue);
      }
    }
  }

  /** What is known when the rules before the r-th have run. */
  ghost predicate ActedTo(net: Net, start: seq<Cell>, cells: seq<Cell>, c: nat, f: nat, r: nat)
    requires net.Valid() && CellsOk(net, start) && CellsOk(net, cells) && c < |cells|
    requires f < |net.filters| && r <= |net.filters[f].rules|
  {
    var rules := net.filters[f].rules;
    && cells[c] == start[c]
    && (forall q :: 0 <= q < r ==> Acted(net, start, cells, c, f, q))
    && (forall q :: r <= q < |rules| && rules[q].inp == c ==>
          assert net.RuleOk(f, q); cells[rules[q].out] == start[rules[q].out])
  }

  lemma ActedStays(net: Net, start: seq<Cell>, cells: seq<Cell>, cells': seq<Cell>, c: nat, f: nat, q: nat)
    requires net.Valid() && CellsOk(net, start) && CellsOk(net, cells) && CellsOk(net, cells') && c < |cells|
    requires f < |net.filters| && q < |net.filters[f].rules| && net.RuleOk(f, q) && Acted(net, start, cells, c, f, q)
    requires var rule := net.filters[f].rules[q]; rule.inp == c ==> cells'[rule.out] == cells[rule.out]
    ensures Acted(net, start, cells', c, f, q)
  {
  }

  /** What rule r does to the channels, if its output is not watched. */
  ghost function QuietStep(net: Net, cells: seq<Cell>, c: nat, f: nat, r: nat): (next: seq<Cell>)
    requires net.Valid() && CellsOk(net, cells) && c < |cells|
    requires f < |net.filters| && r < |net.filters[f].rules|
    ensures CellsOk(net, next)
  {
    assert net.RuleOk(f, r);
    var rule := net.filters[f].rules[r];
    if rule.inp != c then cells
    else
      match rule.fire(cells[c].Bytes())
      case None => cells
      case Some(out) => cells[rule.out := Store(cells[rule.out], out.off, out.bytes).0]
  }

  lemma RulesGoOn(net: Net, cells: seq<Cell>, stack: seq<Hop>, c: nat, f: nat, r: nat)
    requires net.Valid() && CellsOk(net, cells) && c < |cells| && !Notifying(stack, c)
    requires f < |net.filters| && r < |net.filters[f].rules| && Alone(net, stack, c, f, r)
    ensures var o := Rules(net, cells, stack, c, f, r);
      o.Done? ==> o == Rules(net, QuietStep(net, cells, c, f, r), stack, c, f, r + 1)
  {
    assert net.RuleOk(f, r);
    var rule := net.filters[f].rules[r];
    if rule.inp == c && rule.fire(cells[c].Bytes()).Some? {
      var out := rule.fire(cells[c].Bytes()).value;
      Shrinks(net, stack, Hop(c, f, r));
      WithNotifying(stack, Hop(c, f, r), rule.out);
      QuietWrite(net, cells, stack + [Hop(c, f, r)], rule.out, out.off, out.bytes);
    }
  }

  /** Every rule for the channel runs, also after one that fired, and acts on its own output. */
  lemma {:induction false} EveryRuleActs(net: Net, start: seq<Cell>, cells: seq<Cell>, stack: seq<Hop>, c: nat, f: nat,
      r: nat)
    requires net.Valid() && CellsOk(net, start) && CellsOk(net, cells) && c < |cells| && !Notifying(stack, c)
    requires f < |net.filters| && r <= |net.filters[f].rules| && ActedTo(net, start, cells, c, f, r)
    requires forall q :: 0 <= q < |net.filters[f].rules| ==> Alone(net, stack, c, f, q)
    ensures var o := Rules(net, cells, stack, c, f, r);
      o.Done? ==> forall q :: 0 <= q < |net.filters[f].rules| ==> Acted(net, start, o.cells, c, f, q)
    decreases |net.filters[f].rules| - r
  {
    if r < |net.filters[f].rules| {
      RuleActed(net, start, cells, stack, c, f, r);
      EveryRuleActs(net, start, QuietStep(net, cells, c, f, r), stack, c, f, r + 1);
      RulesGoOn(net, cells, stack, c, f, r);
    }
  }

  /** A filter on one of its channels, seen from the start: after all its rules, each has acted. */
  lemma FilterActs(net: Net, cells: seq<Cell>, stack: seq<Hop>, c: nat, f: nat)
    requires net.Valid() && CellsOk(net, cells) && c < |cells| && !Notifying(stack, c) && f < |net.filters|
    requires !Entered(stack, f) && net.filters[f].running
    requires forall q :: 0 <= q < |net.filters[f].rules| ==> Alone(net, stack, c, f, q)
    ensures var o := Handle(net, cells, stack, c, f);
      o.Done? ==> forall q :: 0 <= q < |net.filters[f].rules| ==> Acted(net, cells, o.cells, c, f, q)
  {
    EveryRuleActs(net, cells, cells, stack, c, f, 0);
  }

  lemma RuleActed(net: Net, start: seq<Cell>, cells: seq<Cell>, stack: seq<Hop>, c: nat, f: nat, r: nat)
    requires net.Valid() && CellsOk(net, start) && CellsOk(net, cells) && c < |cells|
    requires f < |net.filters| && r < |net.filters[f].rules| && ActedTo(net, start, cells, c, f, r)
    requires forall q :: 0 <= q < |net.filters[f].rules| ==> Alone(net, stack, c, f, q)
    ensures ActedTo(net, start, QuietStep(net, cells, c, f, r), c, f, r + 1)
  {
    var rules, next := net.filters[f].rules, QuietStep(net, cells, c, f, r);
    assert net.RuleOk(f, r) && Alone(net, stack, c, f, r);
    if rules[r].inp == c {
      OneActed(net, start, cells, c, f, r);
    }
    assert Acted(net, start, next, c, f, r);
    forall q | 0 <= q < r ensures Acted(net, start, next, c, f, q) {
      assert net.RuleOk(f, q) && Alone(net, stack, c, f, q);
      ActedStays(net, start, cells, next, c, f, q);
    }
    forall q | r < q < |rules| && rules[q].inp == c
      ensures net.RuleOk(f, q) && next[rules[q].out] == start[rules[q].out]
    {
      assert net.RuleOk(f, q);
    }
  }

  // ---- negative numbers on narrow channels ----

  /** When the value compared is the number meant: on a channel narrower than 64 bits if that is not
      negative, on a 64-bit channel if it fits a signed 64-bit number. */
  lemma ReadAsMeantIff(element: seq<Byte>, signed: bool)
    requires 1 <= |element| <= 8
    ensures InValue(element) == Meant(element, signed) <==>
      if |element| < 8 then Meant(element, signed) >= 0 else Meant(element, signed) < HALF64
  {
    FieldBound(element);
  }

  /** So a rule waiting for a negative number on a narrower channel never sees it. */
  lemma NegativeTriggerNeverEqual(element: seq<Byte>, trigger: Int64)
    requires 1 <= |element| < 8 && trigger < 0
    ensures !Matches(Equal, InValue(element), trigger) && Matches(Superior, InValue(element), trigger)
  {
    FieldBound(element);
  }

  // ---- a verified rule stays good ----

  lemma IndexInside(idx: nat, size: nat, unit: nat)
    requires unit > 0 && idx < size / unit
    ensures 0 <= idx * unit && idx * unit + unit <= size
  {
    var q := size / unit;
    assert (idx + 1) * unit <= q * unit;
  }

  /** Channels only grow, and keep their element size. */
  ghost predicate Grown(a: seq<Cell>, b: seq<Cell>) {
    |a| == |b| && forall c :: 0 <= c < |a| ==> a[c].size <= b[c].size && a[c].unit == b[c].unit
  }

  /** Every rule, whatever it reads, writes at least one byte, inside its output. */
  ghost predicate Tame(net: Net, cells: seq<Cell>)
    requires net.Valid() && |cells| == |net.observers|
  {
    forall f, r, b: seq<Byte> :: 0 <= f < |net.filters| && 0 <= r < |net.filters[f].rules| ==>
      WritesInside(net, cells, f, r, b)
  }

  ghost predicate WritesInside(net: Net, cells: seq<Cell>, f: nat, r: nat, b: seq<Byte>)
    requires net.Valid() && |cells| == |net.observers| && f < |net.filters| && r < |net.filters[f].rules|
  {
    assert net.RuleOk(f, r);
    var rule := net.filters[f].rules[r];
    var fired := rule.fire(b);
    fired.Some? ==> fired.value.bytes != [] && fired.value.off + |fired.value.bytes| <= cells[rule.out].size
  }

  lemma VerifiedWritesInside(conf: Config, inp: Cell, out: Cell, b: seq<Byte>)
    requires inp.Valid() && out.Valid() && inp.unit <= 8 && out.unit <= 8 && Verified(conf, inp, out)
    ensures Reads(conf, inp.unit, inp.size)
    ensures var fired := Fire(conf, inp.unit, out.unit, b);
      fired.Some? ==> fired.value.bytes != [] && fired.value.off + |fired.value.bytes| <= out.size
  {
    IndexInside(conf.triggerIdx, inp.size, inp.unit);
    IndexInside(conf.writeIdx, out.size, out.unit);
  }

  lemma InsideIsStored(c: Cell, off: nat, bytes: seq<Byte>)
    requires c.Valid() && bytes != [] && off + |bytes| <= c.size
    ensures Store(c, off, bytes).1 in {Written, Unchanged}
  {
  }

  lemma StoreGrows(c: Cell, off: nat, bytes: seq<Byte>)
    requires c.Valid()
    ensures c.size <= Store(c, off, bytes).0.size && Store(c, off, bytes).0.unit == c.unit
  {
  }

  lemma TameGrown(net: Net, a: seq<Cell>, b: seq<Cell>)
    requires net.Valid() && |a| == |net.observers| && Tame(net, a) && Grown(a, b)
    ensures Tame(net, b)
  {
    forall f, r, x: seq<Byte> | 0 <= f < |net.filters| && 0 <= r < |net.filters[f].rules|
      ensures WritesInside(net, b, f, r, x)
    {
      assert net.RuleOk(f, r);
      assert WritesInside(net, a, f, r, x);
    }
  }

  /** What a notification leaves: no exception, and channels no smaller than before. */
  ghost predicate Smooth(cells: seq<Cell>, o: Outcome) { !o.Raised? && (o.Done? ==> Grown(cells, o.cells)) }

  lemma {:induction false} WriteIsSmooth(net: Net, cells: seq<Cell>, stack: seq<Hop>, c: nat, off: nat,
      bytes: seq<Byte>)
    requires net.Valid() && CellsOk(net, cells) && Tame(net, cells) && c < |cells|
    requires Notifying(stack, c) || Store(cells[c], off, bytes).1 != Threw
    ensures Smooth(cells, Write(net, cells, stack, c, off, bytes))
    decreases Free(net, stack), 3, 0
  {
    if !Notifying(stack, c) {
      StoreGrows(cells[c], off, bytes);
      var next := cells[c := Store(cells[c], off, bytes).0];
      TameGrown(net, cells, next);
      if Store(cells[c], off, bytes).1 == Written {
        NotifyIsSmooth(net, next, stack, c, 0);
      }
    }
  }

  lemma {:induction false} NotifyIsSmooth(net: Net, cells: seq<Cell>, stack: seq<Hop>, c: nat, k: nat)
    requires net.Valid() && CellsOk(net, cells) && Tame(net, cells)
    requires c < |cells| && !Notifying(stack, c) && k <= |net.observers[c]|
    ensures Smooth(cells, Notify(net, cells, stack, c, k))
    decreases Free(net, stack), 2, |net.observers[c]| - k
  {
    if k < |net.observers[c]| {
      var f := net.observers[c][k];
      if !Entered(stack, f) && net.filters[f].running {
        RulesAreSmooth(net, cells, stack, c, f, 0);
      }
      var o := Handle(net, cells, stack, c, f);
      if o.Done? {
        TameGrown(net, cells, o.cells);
        NotifyIsSmooth(net, o.cells, stack, c, k + 1);
      }
    }
  }

  lemma {:induction false} RulesAreSmooth(net: Net, cells: seq<Cell>, stack: seq<Hop>, c: nat, f: nat, r: nat)
    requires net.Valid() && CellsOk(net, cells) && Tame(net, cells) && c < |cells| && !Notifying(stack, c)
    requires f < |net.filters| && r <= |net.filters[f].rules|
    ensures Smooth(cells, Rules(net, cells, stack, c, f, r))
    decreases Free(net, stack), 0, |net.filters[f].rules| - r
  {
    if r < |net.filters[f].rules| {
      assert net.RuleOk(f, r);
      var rule := net.filters[f].rules[r];
      if rule.inp == c && rule.fire(cells[c].Bytes()).Some? {
        FiredIsSmooth(net, cells, stack, c, f, r);
        var out := rule.fire(cells[c].Bytes()).value;
        var o := Write(net, cells, stack + [Hop(c, f, r)], rule.out, out.off, out.bytes);
        if o.Done? {
          TameGrown(net, cells, o.cells);
          RulesAreSmooth(net, o.cells, stack, c, f, r + 1);
        }
      } else {
        RulesAreSmooth(net, cells, stack, c, f, r + 1);
      }
    }
  }

  lemma {:induction false} FiredIsSmooth(net: Net, cells: seq<Cell>, stack: seq<Hop>, c: nat, f: nat, r: nat)
    requires net.Valid() && CellsOk(net, cells) && Tame(net, cells) && c < |cells| && !Notifying(stack, c)
    requires f < |net.filters| && r < |net.filters[f].rules| && net.RuleOk(f, r)
    requires var rule := net.filters[f].rules[r]; rule.inp == c && rule.fire(cells[c].Bytes()).Some?
    ensures var rule := net.filters[f].rules[r]; var out := rule.fire(cells[c].Bytes()).value;
      Smooth(cells, Write(net, cells, stack + [Hop(c, f, r)], rule.out, out.off, out.bytes))
    decreases Free(net, stack), 0, 0
  {
    var rule := net.filters[f].rules[r];
    var out := rule.fire(cells[c].Bytes()).value;
    assert WritesInside(net, cells, f, r, cells[c].Bytes());
    InsideIsStored(cells[rule.out], out.off, out.bytes);
    Shrinks(net, stack, Hop(c, f, r));
    WriteIsSmooth(net, cells, stack + [Hop(c, f, r)], rule.out, out.off, out.bytes);
  }

  lemma {:induction false} NotifySucceeds(net: Net, cells: seq<Cell>, stack: seq<Hop>, c: nat, k: nat)
    requires net.Valid() && CellsOk(net, cells) && c < |cells| && !Notifying(stack, c) && k <= |net.observers[c]|
    ensures var o := Notify(net, cells, stack, c, k); o.Done? ==> o.result == Written
    decreases |net.observers[c]| - k
  {
    if k < |net.observers[c]| {
      var o := Handle(net, cells, stack, c, net.observers[c][k]);
      if o.Done? {
        NotifySucceeds(net, o.cells, stack, c, k + 1);
      }
    }
  }

  /** A write inside the channel is refused for one reason only: the channel is notifying. */
  lemma RefusedOnlyWhileNotifying(net: Net, cells: seq<Cell>, stack: seq<Hop>, c: nat, off: nat, bytes: seq<Byte>)
    requires net.Valid() && CellsOk(net, cells) && c < |cells| && bytes != [] && off + |bytes| <= cells[c].size
    ensures var o := Write(net, cells, stack, c, off, bytes);
      o.Done? ==> (o.result == Refused <==> Notifying(stack, c))
  {
    InsideIsStored(cells[c], off, bytes);
    if !Notifying(stack, c) {
      NotifySucceeds(net, cells[c := Store(cells[c], off, bytes).0], stack, c, 0);
    }
  }

  /** Every rule of the net comes from a configuration verified against the channels. */
  ghost predicate AllVerified(net: Net, cells: seq<Cell>)
    requires net.Valid() && |cells| == |net.observers|
  {
    forall f, r :: 0 <= f < |net.filters| && 0 <= r < |net.filters[f].rules| ==> FromConfig(net, cells, f, r)
  }

  ghost predicate FromConfig(net: Net, cells: seq<Cell>, f: nat, r: nat)
    requires net.Valid() && |cells| == |net.observers| && f < |net.filters| && r < |net.filters[f].rules|
  {
    assert net.RuleOk(f, r);
    var rule := net.filters[f].rules[r];
    var inp, out := cells[rule.inp], cells[rule.out];
    && 1 <= inp.unit <= 8 && 1 <= out.unit <= 8
    && exists conf: Config :: Verified(conf, inp, out)
         && forall b: seq<Byte> :: rule.fire(b) == Fire(conf, inp.unit, out.unit, b)
  }

  /** A rule built from a configuration that verify accepted is one. */
  lemma ConfiguredRule(net: Net, cells: seq<Cell>, f: nat, r: nat, conf: Config)
    requires net.Valid() && |cells| == |net.observers| && f < |net.filters| && r < |net.filters[f].rules|
    requires net.RuleOk(f, r)
    requires var rule := net.filters[f].rules[r]; var inp, out := cells[rule.inp], cells[rule.out];
      && 1 <= inp.unit <= 8 && 1 <= out.unit <= 8 && Verified(conf, inp, out)
      && rule == RuleOf(conf, rule.inp, rule.out, inp.unit, out.unit)
    ensures FromConfig(net, cells, f, r)
  {
    var rule := net.filters[f].rules[r];
    assert forall b: seq<Byte> :: rule.fire(b) == Fire(conf, cells[rule.inp].unit, cells[rule.out].unit, b);
  }

  /** No exception ever comes out of a notification: once the rules have been verified, a cascade throws
      only if its very first write does, and no channel ever shrinks under a rule. */
  lemma VerifiedCascadeNeverThrows(net: Net, cells: seq<Cell>, c: nat, off: nat, bytes: seq<Byte>)
    requires net.Valid() && CellsOk(net, cells) && AllVerified(net, cells) && c < |cells|
    ensures Write(net, cells, [], c, off, bytes).Raised? <==> Store(cells[c], off, bytes).1 == Threw
    ensures Write(net, cells, [], c, off, bytes).Done? ==> Grown(cells, Write(net, cells, [], c, off, bytes).cells)
  {
    forall f, r, b: seq<Byte> | 0 <= f < |net.filters| && 0 <= r < |net.filters[f].rules|
      ensures WritesInside(net, cells, f, r, b)
    {
      assert net.RuleOk(f, r);
      assert FromConfig(net, cells, f, r);
      var rule := net.filters[f].rules[r];
      var inp, out := cells[rule.inp], cells[rule.out];
      var conf: Config :| Verified(conf, inp, out) &&
        forall x: seq<Byte> :: rule.fire(x) == Fire(conf, inp.unit, out.unit, x);
      VerifiedWritesInside(conf, inp, out, b);
    }
    if Store(cells[c], off, bytes).1 != Threw {
      WriteIsSmooth(net, cells, [], c, off, bytes);
    }
  }
}
