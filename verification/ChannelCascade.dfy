/** The byte store of one channel: what Channel::write does under its array mutex. */
module ChannelStore {

  import opened Basics

  /** `mem` is the allocated capacity; only its first `size` bytes are the channel's content. */
  datatype Cell = Cell(mem: seq<Byte>, size: nat, unit: nat, resizable: bool, changeOnly: bool) {
    predicate Valid() { 0 < unit && size <= |mem| && size % unit == 0 }

    function Bytes(): seq<Byte>
      requires Valid()
    {
      mem[..size]
    }
  }

  /** Refused and Threw leave false or an exception to the caller; Unchanged is a success that
      notifies nobody. */
  datatype Result = Refused | Threw | Unchanged | Written

  /** The start of the byte range from `off` to the end; an empty range starts at 0. */
  function RangeFrom(off: nat, size: nat): nat { if off < size then off else 0 }

  function Store(c: Cell, off: nat, bytes: seq<Byte>): (r: (Cell, Result))
    requires c.Valid()
    ensures r.0.Valid()
  {
    var needed := |bytes| + off;
    if needed > c.size && (!c.resizable || needed > |c.mem|) then (c, Refused)
    else if needed > c.size && needed % c.unit != 0 then (c, Threw)
    else
      var g := if needed > c.size then c.(size := needed) else c;
      var from := RangeFrom(off, g.size);
      if g.changeOnly && from + |bytes| <= g.size && g.mem[from..from + |bytes|] == bytes then (g, Unchanged)
      else if off >= g.size || from + |bytes| > g.size then (g, Refused)
      else (g.(mem := g.mem[..from] + bytes + g.mem[from + |bytes|..]), Written)
  }

  /** Which writes are dropped, refused or thrown out. A write of something is refused exactly if it does
      not fit and the channel cannot grow that far; thrown out exactly if growing for it would cut an
      element; and otherwise dropped exactly if the channel notifies changes only and the bytes already
      stand there. */
  lemma StoreResultIff(c: Cell, off: nat, bytes: seq<Byte>)
    requires c.Valid() && bytes != []
    ensures var needed, r := off + |bytes|, Store(c, off, bytes).1;
      var grows := c.size < needed <= |c.mem| && c.resizable;
      && (r == Refused <==> needed > c.size && !grows)
      && (r == Threw <==> grows && needed % c.unit != 0)
      && (r == Unchanged <==> r !in {Refused, Threw} && c.changeOnly && bytes <= c.mem[off..])
    ensures Store(c, off, bytes).1 == Unchanged ==> Store(c, off, bytes).0.mem == c.mem
  {
    var needed := off + |bytes|;
    if needed <= |c.mem| {
      assert bytes <= c.mem[off..] <==> c.mem[off..needed] == bytes by {
        assert c.mem[off..][..|bytes|] == c.mem[off..needed];
      }
    }
  }

  /** A write of nothing changes no byte, but it moves the end of a channel that grows. */
  lemma StoreNothing(c: Cell, off: nat)
    requires c.Valid()
    ensures var (d, r) := Store(c, off, []); var grows := c.size < off <= |c.mem| && c.resizable;
      && d.mem == c.mem
      && (r == Threw <==> grows && off % c.unit != 0)
      && d.size == (if grows && r != Threw then off else c.size)
      && (r == Unchanged <==> c.changeOnly && off <= d.size)
      && (r == Written <==> !c.changeOnly && off < c.size)
  {
  }

  lemma Spliced(mem: seq<Byte>, at: nat, bytes: seq<Byte>)
    requires at + |bytes| <= |mem|
    ensures var m := mem[..at] + bytes + mem[at + |bytes|..];
      && |m| == |mem| && m[at..at + |bytes|] == bytes
      && forall i :: 0 <= i < |mem| && !(at <= i < at + |bytes|) ==> m[i] == mem[i]
  {
  }

  /** A successful write leaves the written bytes where they were aimed and every other byte alone. */
  lemma StoredBytes(c: Cell, off: nat, bytes: seq<Byte>)
    requires c.Valid() && Store(c, off, bytes).1 == Written
    ensures var d := Store(c, off, bytes).0;
      && off + |bytes| <= d.size && d.size == (if off + |bytes| > c.size then off + |bytes| else c.size)
      && d.Bytes()[off..off + |bytes|] == bytes
      && forall i :: 0 <= i < d.size && !(off <= i < off + |bytes|) ==> d.Bytes()[i] == c.mem[i]
  {
    var d := Store(c, off, bytes).0;
    Spliced(c.mem, off, bytes);
    assert d.mem == c.mem[..off] + bytes + c.mem[off + |bytes|..];
    assert d.Bytes()[off..off + |bytes|] == d.mem[off..off + |bytes|];
  }

  /** A refused write changes no bytes, with one exception, and this is exactly it: writing nothing
      past the end of a resizable channel reports failure yet grows it. */
  lemma RefusedChangesNothingIff(c: Cell, off: nat, bytes: seq<Byte>)
    requires c.Valid() && Store(c, off, bytes).1 == Refused
    ensures Store(c, off, bytes).0 == c
      <==> !(bytes == [] && c.size < off <= |c.mem| && c.resizable)
  {
  }

  lemma GrowthOnRefusal() returns (c: Cell, off: nat)
    ensures c.Valid() && Store(c, off, []).1 == Refused && Store(c, off, []).0.Bytes() != c.Bytes()
  {
    c, off := Cell([7, 0], 1, 1, true, false), 2;
    assert c.Bytes() == [7] && |Store(c, off, []).0.Bytes()| == 2;
  }
}

/** Channels and filters wired together: one write notifies the filters that observe the channel,
    whose rules write other channels, and so on on the same thread. */
module ChannelCascade {
  import opened Basics
  import opened ChannelStore

  datatype Out = Out(off: nat, bytes: seq<Byte>)

  /** `fire` is the rule's whole behaviour: what, if anything, it writes to `out` for given input bytes. */
  datatype Rule = Rule(inp: nat, out: nat, fire: seq<Byte> -> Option<Out>)

  datatype Filter = Filter(running: bool, rules: seq<Rule>)

  /** observers[c]: the filters notified by channel c, in order. */
  datatype Net = Net(observers: seq<seq<nat>>, filters: seq<Filter>) {
    predicate RuleOk(f: nat, r: nat)
      requires f < |filters| && r < |filters[f].rules|
    {
      var rule := filters[f].rules[r];
      && rule.inp < |observers| && rule.out < |observers|
      && rule.inp != rule.out
      && f in observers[rule.inp]
    }

    predicate Valid() {
      && (forall c, k :: 0 <= c < |observers| && 0 <= k < |observers[c]| ==> observers[c][k] < |filters|)
      && (forall f, r :: 0 <= f < |filters| && 0 <= r < |filters[f].rules| ==> RuleOk(f, r))
    }
  }

  /** A notification in progress: channel `chan` notifies filter `filter`, whose rule `rule` is writing. */
  datatype Hop = Hop(chan: nat, filter: nat, rule: nat)

  predicate Notifying(stack: seq<Hop>, c: nat) { exists i :: 0 <= i < |stack| && stack[i].chan == c }

  predicate Entered(stack: seq<Hop>, f: nat) { exists i :: 0 <= i < |stack| && stack[i].filter == f }

  ghost function Free(net: Net, stack: seq<Hop>): set<nat> {
    set c: nat | c < |net.observers| && !Notifying(stack, c)
  }

  ghost predicate CellsOk(net: Net, cells: seq<Cell>) {
    |cells| == |net.observers| && forall c :: 0 <= c < |cells| ==> cells[c].Valid()
  }

  /** Deadlock: the thread locks the mutex of a filter it is already inside. */
  datatype Outcome = Done(cells: seq<Cell>, result: Result) | Raised(cells: seq<Cell>) | Deadlock

  ghost predicate Sound(net: Net, o: Outcome) { o.Deadlock? || CellsOk(net, o.cells) }

  ghost function Write(net: Net, cells: seq<Cell>, stack: seq<Hop>, c: nat, off: nat, bytes: seq<Byte>): (o: Outcome)
    requires net.Valid() && CellsOk(net, cells) && c < |cells|
    ensures Sound(net, o)
    decreases Free(net, stack), 3, 0
  {
    if Notifying(stack, c) then Done(cells, Refused)
    else
      var (cell, result) := Store(cells[c], off, bytes);
      if result == Threw then Raised(cells)
      else if result == Written then Notify(net, cells[c := cell], stack, c, 0)
      else Done(cells[c := cell], result)
  }

  /** The observers of c from the k-th on, c's notify lock held. */
  ghost function Notify(net: Net, cells: seq<Cell>, stack: seq<Hop>, c: nat, k: nat): (o: Outcome)
    requires net.Valid() && CellsOk(net, cells) && c < |cells| && !Notifying(stack, c) && k <= |net.observers[c]|
    ensures Sound(net, o)
    decreases Free(net, stack), 2, |net.observers[c]| - k
  {
    if k == |net.observers[c]| then Done(cells, Written)
    else
      var o := Handle(net, cells, stack, c, net.observers[c][k]);
      if o.Done? then Notify(net, o.cells, stack, c, k + 1) else o
  }

  ghost function Handle(net: Net, cells: seq<Cell>, stack: seq<Hop>, c: nat, f: nat): (o: Outcome)
    requires net.Valid() && CellsOk(net, cells) && c < |cells| && !Notifying(stack, c) && f < |net.filters|
    ensures Sound(net, o)
    decreases Free(net, stack), 1, 0
  {
    if Entered(stack, f) then Deadlock
    else if !net.filters[f].running then Done(cells, Written)
    else Rules(net, cells, stack, c, f, 0)
  }

  /** The rules of f on input c from the r-th on, f's mutex held. */
  ghost function Rules(net: Net, cells: seq<Cell>, stack: seq<Hop>, c: nat, f: nat, r: nat): (o: Outcome)
    requires net.Valid() && CellsOk(net, cells) && c < |cells| && !Notifying(stack, c)
    requires f < |net.filters| && r <= |net.filters[f].rules|
    ensures Sound(net, o)
    decreases Free(net, stack), 0, |net.filters[f].rules| - r
  {
    if r == |net.filters[f].rules| then Done(cells, Written)
    else
      assert net.RuleOk(f, r);
      var rule := net.filters[f].rules[r];
      if rule.inp != c then Rules(net, cells, stack, c, f, r + 1)
      else
        match rule.fire(cells[c].Bytes())
        case None => Rules(net, cells, stack, c, f, r + 1)
        case Some(out) =>
          Shrinks(net, stack, Hop(c, f, r));
          var o := Write(net, cells, stack + [Hop(c, f, r)], rule.out, out.off, out.bytes);
          if o.Done? then Rules(net, o.cells, stack, c, f, r + 1) else o
  }

  /** Why every cascade ends: each nested write runs with one more channel locked. */
  lemma Shrinks(net: Net, stack: seq<Hop>, hop: Hop)
    requires hop.chan < |net.observers| && !Notifying(stack, hop.chan)
    ensures Free(net, stack + [hop]) < Free(net, stack)
  {
    var longer := stack + [hop];
    assert longer[|stack|] == hop;
    forall c | Notifying(stack, c) ensures Notifying(longer, c) {
      var i :| 0 <= i < |stack| && stack[i].chan == c;
      assert longer[i].chan == c;
    }
    assert hop.chan in Free(net, stack) && hop.chan !in Free(net, longer);
  }

  // ---- a channel that is notifying does not change ----

  ghost predicate Frozen(before: seq<Cell>, stack: seq<Hop>, o: Outcome) {
    !o.Deadlock? ==>
      |o.cells| == |before| && forall x: nat :: x < |before| && Notifying(stack, x) ==> o.cells[x] == before[x]
  }

  /** The stack once c is notifying too; the filter and rule do not matter. */
  function With(stack: seq<Hop>, c: nat): seq<Hop> { stack + [Hop(c, 0, 0)] }

  lemma WithNotifying(stack: seq<Hop>, hop: Hop, x: nat)
    ensures Notifying(stack + [hop], x) <==> Notifying(stack, x) || x == hop.chan
  {
    var longer := stack + [hop];
    assert longer[|stack|] == hop;
    if Notifying(stack, x) {
      var i :| 0 <= i < |stack| && stack[i].chan == x;
      assert longer[i].chan == x;
    }
  }

  lemma {:induction false} WriteFreezes(net: Net, cells: seq<Cell>, stack: seq<Hop>, c: nat, off: nat, bytes: seq<Byte>)
    requires net.Valid() && CellsOk(net, cells) && c < |cells|
    ensures Frozen(cells, stack, Write(net, cells, stack, c, off, bytes))
    ensures !Notifying(stack, c) && Store(cells[c], off, bytes).1 == Written ==>
      var o := Write(net, cells, stack, c, off, bytes);
      o.Done? ==> o.cells[c] == Store(cells[c], off, bytes).0
    decreases Free(net, stack), 3, 0
  {
    var (cell, result) := Store(cells[c], off, bytes);
    if !Notifying(stack, c) && result == Written {
      NotifyFreezes(net, cells[c := cell], stack, c, 0);
      forall x: nat ensures Notifying(With(stack, c), x) <==> Notifying(stack, x) || x == c {
        WithNotifying(stack, Hop(c, 0, 0), x);
      }
    }
  }

  lemma {:induction false} NotifyFreezes(net: Net, cells: seq<Cell>, stack: seq<Hop>, c: nat, k: nat)
    requires net.Valid() && CellsOk(net, cells) && c < |cells| && !Notifying(stack, c) && k <= |net.observers[c]|
    ensures Frozen(cells, With(stack, c), Notify(net, cells, stack, c, k))
    decreases Free(net, stack), 2, |net.observers[c]| - k
  {
    if k < |net.observers[c]| {
      var f := net.observers[c][k];
      if !Entered(stack, f) && net.filters[f].running {
        RulesFreeze(net, cells, stack, c, f, 0);
      }
      var o := Handle(net, cells, stack, c, f);
      if o.Done? {
        NotifyFreezes(net, o.cells, stack, c, k + 1);
      }
    }
  }

  lemma {:induction false} RulesFreeze(net: Net, cells: seq<Cell>, stack: seq<Hop>, c: nat, f: nat, r: nat)
    requires net.Valid() && CellsOk(net, cells) && c < |cells| && !Notifying(stack, c)
    requires f < |net.filters| && r <= |net.filters[f].rules|
    ensures Frozen(cells, With(stack, c), Rules(net, cells, stack, c, f, r))
    decreases Free(net, stack), 0, |net.filters[f].rules| - r
  {
    if r < |net.filters[f].rules| {
      assert net.RuleOk(f, r);
      var rule := net.filters[f].rules[r];
      if rule.inp == c && rule.fire(cells[c].Bytes()).Some? {
        var out, hop := rule.fire(cells[c].Bytes()).value, Hop(c, f, r);
        Shrinks(net, stack, hop);
        WriteFreezes(net, cells, stack + [hop], rule.out, out.off, out.bytes);
        forall x: nat ensures Notifying(stack + [hop], x) <==> Notifying(With(stack, c), x) {
          WithNotifying(stack, hop, x);
          WithNotifying(stack, Hop(c, 0, 0), x);
        }
        var o := Write(net, cells, stack + [hop], rule.out, out.off, out.bytes);
        if o.Done? {
          RulesFreeze(net, o.cells, stack, c, f, r + 1);
        }
      } else {
        RulesFreeze(net, cells, stack, c, f, r + 1);
      }
    }
  }

  // ---- when does a cascade deadlock? ----

  /** Rule `rule` of a running filter leads from channel `chan` to channel `next`. */
  predicate Link(net: Net, hop: Hop, next: nat) {
    && hop.filter < |net.filters| && net.filters[hop.filter].running
    && hop.rule < |net.filters[hop.filter].rules|
    && net.filters[hop.filter].rules[hop.rule].inp == hop.chan
    && net.filters[hop.filter].rules[hop.rule].out == next
  }

  function ChanAt(path: seq<Hop>, last: nat, i: nat): nat
    requires i <= |path|
  {
    if i < |path| then path[i].chan else last
  }

  /** The hops follow the wiring from channel to channel, down to `last`. */
  predicate Linked(net: Net, path: seq<Hop>, last: nat) {
    forall i :: 0 <= i < |path| ==> Link(net, path[i], ChanAt(path, last, i + 1))
  }

  predicate NoRepeat(path: seq<Hop>) {
    forall i, j :: 0 <= i < j < |path| ==> path[i].chan != path[j].chan
  }

  /** A walk over distinct channels that leaves a filter and comes back to it on another channel. */
  predicate Hazard(net: Net, path: seq<Hop>, last: nat) {
    && path != [] && last < |net.observers|
    && Linked(net, path, last) && NoRepeat(path) && !Notifying(path, last)
    && path[0].filter in net.observers[last]
  }

  ghost predicate Hazardous(net: Net) {
    exists path: seq<Hop>, last: nat :: Hazard(net, path, last)
  }

  lemma SuffixLinked(net: Net, stack: seq<Hop>, c: nat, i: nat)
    requires Linked(net, stack, c) && i <= |stack|
    ensures Linked(net, stack[i..], c)
  {
    var path := stack[i..];
    forall j | 0 <= j < |path|
      ensures Link(net, path[j], ChanAt(path, c, j + 1))
    {
      assert path[j] == stack[i + j];
      assert ChanAt(path, c, j + 1) == ChanAt(stack, c, i + j + 1);
    }
  }

  lemma SuffixFresh(stack: seq<Hop>, c: nat, i: nat)
    requires NoRepeat(stack) && !Notifying(stack, c) && i <= |stack|
    ensures NoRepeat(stack[i..]) && !Notifying(stack[i..], c)
  {
    forall j | 0 <= j < |stack[i..]| ensures stack[i..][j] == stack[i + j] {
    }
  }

  /** Re-entering a filter closes a walk: the part of the stack since it was first entered. */
  lemma ReentryIsHazard(net: Net, stack: seq<Hop>, c: nat, f: nat)
    requires Linked(net, stack, c) && NoRepeat(stack) && !Notifying(stack, c) && Entered(stack, f)
    requires c < |net.observers| && f in net.observers[c]
    ensures Hazardous(net)
  {
    var i :| 0 <= i < |stack| && stack[i].filter == f;
    SuffixLinked(net, stack, c, i);
    SuffixFresh(stack, c, i);
    var path := stack[i..];
    assert Hazard(net, path, c);
  }

  lemma {:induction false} DeadlockInWrite(net: Net, cells: seq<Cell>, stack: seq<Hop>, c: nat, off: nat,
      bytes: seq<Byte>)
    requires net.Valid() && CellsOk(net, cells) && c < |cells|
    requires Linked(net, stack, c) && NoRepeat(stack)
    requires Write(net, cells, stack, c, off, bytes).Deadlock?
    ensures Hazardous(net)
    decreases Free(net, stack), 3, 0
  {
    var (cell, result) := Store(cells[c], off, bytes);
    DeadlockInNotify(net, cells[c := cell], stack, c, 0);
  }

  lemma {:induction false} DeadlockInNotify(net: Net, cells: seq<Cell>, stack: seq<Hop>, c: nat, k: nat)
    requires net.Valid() && CellsOk(net, cells) && c < |cells| && !Notifying(stack, c) && k <= |net.observers[c]|
    requires Linked(net, stack, c) && NoRepeat(stack)
    requires Notify(net, cells, stack, c, k).Deadlock?
    ensures Hazardous(net)
    decreases Free(net, stack), 2, |net.observers[c]| - k
  {
    var f := net.observers[c][k];
    var o := Handle(net, cells, stack, c, f);
    if o.Done? {
      DeadlockInNotify(net, o.cells, stack, c, k + 1);
    } else if Entered(stack, f) {
      ReentryIsHazard(net, stack, c, f);
    } else {
      DeadlockInRules(net, cells, stack, c, f, 0);
    }
  }

  lemma {:induction false} DeadlockInRules(net: Net, cells: seq<Cell>, stack: seq<Hop>, c: nat, f: nat, r: nat)
    requires net.Valid() && CellsOk(net, cells) && c < |cells| && !Notifying(stack, c)
    requires f < |net.filters| && r <= |net.filters[f].rules| && net.filters[f].running
    requires Linked(net, stack, c) && NoRepeat(stack)
    requires Rules(net, cells, stack, c, f, r).Deadlock?
    ensures Hazardous(net)
    decreases Free(net, stack), 0, |net.filters[f].rules| - r
  {
    assert net.RuleOk(f, r);
    var rule := net.filters[f].rules[r];
    if rule.inp == c && rule.fire(cells[c].Bytes()).Some? {
      var out, hop := rule.fire(cells[c].Bytes()).value, Hop(c, f, r);
      var longer := stack + [hop];
      Shrinks(net, stack, hop);
      forall i | 0 <= i < |longer|
        ensures Link(net, longer[i], ChanAt(longer, rule.out, i + 1))
      {
        if i < |stack| {
          assert Link(net, stack[i], ChanAt(stack, c, i + 1));
        }
      }
      var o := Write(net, cells, longer, rule.out, out.off, out.bytes);
      if o.Done? {
        DeadlockInRules(net, o.cells, stack, c, f, r + 1);
      } else {
        DeadlockInWrite(net, cells, longer, rule.out, out.off, out.bytes);
      }
    } else {
      DeadlockInRules(net, cells, stack, c, f, r + 1);
    }
  }

  /** A wiring without a hazard never deadlocks, whatever its rules compute and whatever is written:
      every cascade comes back. */
  lemma NoHazardNoDeadlock(net: Net, cells: seq<Cell>, c: nat, off: nat, bytes: seq<Byte>)
    requires net.Valid() && CellsOk(net, cells) && c < |cells| && !Hazardous(net)
    ensures !Write(net, cells, [], c, off, bytes).Deadlock?
  {
    if Write(net, cells, [], c, off, bytes).Deadlock? {
      DeadlockInWrite(net, cells, [], c, off, bytes);
    }
  }

  // ---- every hazard can deadlock ----

  /** The same wiring whose rules fire only along the path. */
  function OnPath(path: seq<Hop>, f: nat, r: nat, rule: Rule): Rule {
    if Hop(rule.inp, f, r) in path then rule.(fire := (b: seq<Byte>) => Some(Out(0, [1])))
    else rule.(fire := (b: seq<Byte>) => None)
  }

  function Rewired(net: Net, path: seq<Hop>): Net {
    net.(filters := seq(|net.filters|, f requires 0 <= f < |net.filters| =>
      Filter(net.filters[f].running,
             seq(|net.filters[f].rules|, r requires 0 <= r < |net.filters[f].rules| =>
               OnPath(path, f, r, net.filters[f].rules[r])))))
  }

  ghost predicate SameWiring(a: Net, b: Net) {
    && a.observers == b.observers && |a.filters| == |b.filters|
    && forall f :: 0 <= f < |a.filters| ==>
      && a.filters[f].running == b.filters[f].running
      && |a.filters[f].rules| == |b.filters[f].rules|
      && forall r :: 0 <= r < |a.filters[f].rules| ==>
        && a.filters[f].rules[r].inp == b.filters[f].rules[r].inp
        && a.filters[f].rules[r].out == b.filters[f].rules[r].out
  }

  lemma RewiredIsSame(net: Net, path: seq<Hop>)
    requires net.Valid()
    ensures SameWiring(net, Rewired(net, path)) && Rewired(net, path).Valid()
  {
    var w := Rewired(net, path);
    forall f, r | 0 <= f < |w.filters| && 0 <= r < |w.filters[f].rules|
      ensures w.RuleOk(f, r)
    {
      assert net.RuleOk(f, r);
    }
  }

  const ZERO := Cell([0], 1, 1, false, true)

  /** Channels not yet reached still hold their zero byte. */
  ghost predicate Untouched(net: Net, cells: seq<Cell>, stack: seq<Hop>) {
    CellsOk(net, cells) && forall c: nat :: c < |cells| && !Notifying(stack, c) ==> cells[c] == ZERO
  }

  lemma ZeroAccepts()
    ensures Store(ZERO, 0, [1]) == (ZERO.(mem := [1]), Written)
  {
    assert ZERO.mem[0..1] == [0];
    assert ZERO.mem[..0] + [1] + ZERO.mem[1..] == [1];
  }

  /** Off the path nothing fires. */
  lemma {:induction false} SilentRules(net: Net, path: seq<Hop>, cells: seq<Cell>, stack: seq<Hop>, c: nat, f: nat,
      r: nat)
    requires net.Valid() && Rewired(net, path).Valid()
    requires CellsOk(net, cells) && c < |cells| && !Notifying(stack, c)
    requires f < |net.filters| && r <= |net.filters[f].rules|
    requires forall q :: r <= q < |net.filters[f].rules| ==> Hop(c, f, q) !in path
    ensures Rules(Rewired(net, path), cells, stack, c, f, r) == Done(cells, Written)
    decreases |net.filters[f].rules| - r
  {
    if r < |net.filters[f].rules| {
      SilentRule(net, path, cells, stack, c, f, r);
      SilentRules(net, path, cells, stack, c, f, r + 1);
    }
  }

  lemma ChanIsFresh(net: Net, path: seq<Hop>, last: nat, i: nat)
    requires net.Valid() && Hazard(net, path, last) && i <= |path|
    ensures ChanAt(path, last, i) < |net.observers| && !Notifying(path[..i], ChanAt(path, last, i))
    ensures i < |path| ==> Link(net, path[i], ChanAt(path, last, i + 1))
    ensures (if i < |path| then path[i] else path[0]).filter in net.observers[ChanAt(path, last, i)]
  {
    if i < |path| {
      assert Link(net, path[i], ChanAt(path, last, i + 1));
      assert net.RuleOk(path[i].filter, path[i].rule);
    } else {
      assert path[..i] == path;
    }
  }

  /** The hops of the path that leave its i-th channel are the i-th hop alone. */
  lemma OnlyHop(net: Net, path: seq<Hop>, last: nat, i: nat, hop: Hop)
    requires Hazard(net, path, last) && i <= |path| && hop.chan == ChanAt(path, last, i)
    requires i < |path| ==> hop != path[i]
    ensures hop !in path
  {
    forall p | 0 <= p < |path| ensures path[p] != hop {
    }
  }

  lemma SameNotifying(path: seq<Hop>, i: nat)
    requires i < |path|
    ensures forall x: nat :: Notifying(path[..i + 1], x) <==> Notifying(With(path[..i], path[i].chan), x)
  {
    var stack := path[..i];
    assert path[..i + 1] == stack + [path[i]];
    forall x: nat ensures Notifying(path[..i + 1], x) <==> Notifying(With(stack, path[i].chan), x) {
      WithNotifying(stack, path[i], x);
      WithNotifying(stack, Hop(path[i].chan, 0, 0), x);
    }
  }

  lemma TouchOne(net: Net, cells: seq<Cell>, stack: seq<Hop>, c: nat)
    requires Untouched(net, cells, stack) && c < |cells|
    ensures Untouched(net, cells[c := ZERO.(mem := [1])], With(stack, c))
  {
    forall x: nat ensures Notifying(With(stack, c), x) <==> Notifying(stack, x) || x == c {
      WithNotifying(stack, Hop(c, 0, 0), x);
    }
  }

  lemma {:induction false} PathDeadlocks(net: Net, path: seq<Hop>, last: nat, cells: seq<Cell>, i: nat)
    requires net.Valid() && Rewired(net, path).Valid() && Hazard(net, path, last) && i <= |path|
    requires Untouched(net, cells, path[..i])
    ensures ChanAt(path, last, i) < |cells|
    ensures Write(Rewired(net, path), cells, path[..i], ChanAt(path, last, i), 0, [1]) == Deadlock
    decreases |path| - i, 2
  {
    var c, stack := ChanAt(path, last, i), path[..i];
    ChanIsFresh(net, path, last, i);
    ZeroAccepts();
    TouchOne(net, cells, stack, c);
    var j: nat :| j < |net.observers[c]| && net.observers[c][j] == (if i < |path| then path[i] else path[0]).filter;
    NotifyDeadlocks(net, path, last, cells[c := ZERO.(mem := [1])], i, j);
  }

  ghost predicate QuietOrStuck(w: Net, cells: seq<Cell>, stack: seq<Hop>, c: nat, f: nat)
    requires w.Valid() && CellsOk(w, cells) && c < |cells| && !Notifying(stack, c) && f < |w.filters|
  {
    var o := Handle(w, cells, stack, c, f);
    o == Deadlock || o == Done(cells, Written)
  }

  lemma {:induction false} NotifyReaches(w: Net, cells: seq<Cell>, stack: seq<Hop>, c: nat, k: nat, j: nat)
    requires w.Valid() && CellsOk(w, cells) && c < |cells| && !Notifying(stack, c) && k <= j < |w.observers[c]|
    requires forall m: nat :: m < j ==> QuietOrStuck(w, cells, stack, c, w.observers[c][m])
    requires Handle(w, cells, stack, c, w.observers[c][j]) == Deadlock
    ensures Notify(w, cells, stack, c, k) == Deadlock
    decreases j - k
  {
    if k < j {
      assert QuietOrStuck(w, cells, stack, c, w.observers[c][k]);
      NotifyReaches(w, cells, stack, c, k + 1, j);
    }
  }

  lemma NotifyDeadlocks(net: Net, path: seq<Hop>, last: nat, cells: seq<Cell>, i: nat, j: nat)
    requires net.Valid() && Rewired(net, path).Valid() && Hazard(net, path, last) && i <= |path|
    requires var c := ChanAt(path, last, i);
      && c < |net.observers| && !Notifying(path[..i], c) && j < |net.observers[c]|
      && net.observers[c][j] == (if i < |path| then path[i] else path[0]).filter
      && Untouched(net, cells, With(path[..i], c))
    ensures Notify(Rewired(net, path), cells, path[..i], ChanAt(path, last, i), 0) == Deadlock
    decreases |path| - i, 1
  {
    var c := ChanAt(path, last, i);
    var w, stack := Rewired(net, path), path[..i];
    forall m: nat | m < j ensures QuietOrStuck(w, cells, stack, c, w.observers[c][m]) {
      OneObserver(net, path, last, cells, i, net.observers[c][m]);
    }
    OneObserver(net, path, last, cells, i, net.observers[c][j]);
    NotifyReaches(w, cells, stack, c, 0, j);
  }

  lemma OneObserver(net: Net, path: seq<Hop>, last: nat, cells: seq<Cell>, i: nat, f: nat)
    requires net.Valid() && Rewired(net, path).Valid() && Hazard(net, path, last) && i <= |path| && f < |net.filters|
    requires var c := ChanAt(path, last, i);
      && c < |net.observers| && !Notifying(path[..i], c) && Untouched(net, cells, With(path[..i], c))
    ensures var o := Handle(Rewired(net, path), cells, path[..i], ChanAt(path, last, i), f);
      && (f == (if i < |path| then path[i] else path[0]).filter ==> o == Deadlock)
      && QuietOrStuck(Rewired(net, path), cells, path[..i], ChanAt(path, last, i), f)
    decreases |path| - i, 0, 2
  {
    if Entered(path[..i], f) {
    } else if i < |path| && f == path[i].filter {
      ChanIsFresh(net, path, last, i);
      RulesDeadlock(net, path, last, cells, i);
    } else {
      if i == |path| {
        assert path[..i][0].filter == path[0].filter;
      }
      QuietObserver(net, path, last, cells, i, f);
    }
  }

  lemma QuietObserver(net: Net, path: seq<Hop>, last: nat, cells: seq<Cell>, i: nat, f: nat)
    requires net.Valid() && Rewired(net, path).Valid() && Hazard(net, path, last) && i <= |path| && f < |net.filters|
    requires i < |path| ==> f != path[i].filter
    requires var c := ChanAt(path, last, i);
      c < |net.observers| && !Notifying(path[..i], c) && CellsOk(net, cells) && !Entered(path[..i], f)
    ensures Handle(Rewired(net, path), cells, path[..i], ChanAt(path, last, i), f) == Done(cells, Written)
  {
    var c := ChanAt(path, last, i);
    forall q: nat ensures Hop(c, f, q) !in path {
      OnlyHop(net, path, last, i, Hop(c, f, q));
    }
    SilentRules(net, path, cells, path[..i], c, f, 0);
  }

  lemma SilentRule(net: Net, path: seq<Hop>, cells: seq<Cell>, stack: seq<Hop>, c: nat, f: nat, r: nat)
    requires net.Valid() && Rewired(net, path).Valid()
    requires CellsOk(net, cells) && c < |cells| && !Notifying(stack, c)
    requires f < |net.filters| && r < |net.filters[f].rules| && Hop(c, f, r) !in path
    ensures Rules(Rewired(net, path), cells, stack, c, f, r) == Rules(Rewired(net, path), cells, stack, c, f, r + 1)
  {
  }

  lemma FiringRuleDeadlocks(net: Net, cells: seq<Cell>, stack: seq<Hop>, hop: Hop, longer: seq<Hop>, next: nat)
    requires net.Valid() && CellsOk(net, cells) && hop.chan < |cells| && !Notifying(stack, hop.chan)
    requires Link(net, hop, next) && next < |cells|
    requires net.filters[hop.filter].rules[hop.rule].fire(cells[hop.chan].Bytes()) == Some(Out(0, [1]))
    requires longer == stack + [hop] && Write(net, cells, longer, next, 0, [1]) == Deadlock
    ensures Rules(net, cells, stack, hop.chan, hop.filter, hop.rule) == Deadlock
  {
  }

  /** The rules before the path's own do not fire. */
  lemma {:induction false} SkipToHop(net: Net, path: seq<Hop>, cells: seq<Cell>, stack: seq<Hop>, h: Hop, r: nat)
    requires net.Valid() && Rewired(net, path).Valid()
    requires CellsOk(net, cells) && h.chan < |cells| && !Notifying(stack, h.chan)
    requires h.filter < |net.filters| && r <= h.rule < |net.filters[h.filter].rules|
    requires forall q :: r <= q < h.rule ==> Hop(h.chan, h.filter, q) !in path
    ensures Rules(Rewired(net, path), cells, stack, h.chan, h.filter, r)
      == Rules(Rewired(net, path), cells, stack, h.chan, h.filter, h.rule)
    decreases h.rule - r
  {
    if r < h.rule {
      SilentRule(net, path, cells, stack, h.chan, h.filter, r);
      SkipToHop(net, path, cells, stack, h, r + 1);
    }
  }

  lemma FirstOfItsRules(net: Net, path: seq<Hop>, last: nat, i: nat)
    requires Hazard(net, path, last) && i < |path|
    ensures forall q: nat :: q != path[i].rule ==> Hop(path[i].chan, path[i].filter, q) !in path
  {
    forall q: nat | q != path[i].rule ensures Hop(path[i].chan, path[i].filter, q) !in path {
      OnlyHop(net, path, last, i, Hop(path[i].chan, path[i].filter, q));
    }
  }

  lemma SameUntouched(net: Net, cells: seq<Cell>, a: seq<Hop>, b: seq<Hop>)
    requires Untouched(net, cells, a) && forall x: nat :: Notifying(a, x) <==> Notifying(b, x)
    ensures Untouched(net, cells, b)
  {
  }

  /** The path's rule writes the next channel of the path, and that write deadlocks. */
  lemma {:induction false} NextWrite(net: Net, path: seq<Hop>, last: nat, cells: seq<Cell>, i: nat)
    requires net.Valid() && Rewired(net, path).Valid() && Hazard(net, path, last) && i < |path|
    requires Untouched(net, cells, With(path[..i], path[i].chan))
    ensures ChanAt(path, last, i + 1) < |cells|
    ensures Write(Rewired(net, path), cells, path[..i + 1], ChanAt(path, last, i + 1), 0, [1]) == Deadlock
    decreases |path| - i, 0, 0
  {
    SameNotifying(path, i);
    SameUntouched(net, cells, With(path[..i], path[i].chan), path[..i + 1]);
    PathDeadlocks(net, path, last, cells, i + 1);
  }

  lemma OneLonger(path: seq<Hop>, i: nat)
    requires i < |path|
    ensures path[..i + 1] == path[..i] + [path[i]]
  {
  }

  lemma {:induction false} RulesDeadlock(net: Net, path: seq<Hop>, last: nat, cells: seq<Cell>, i: nat)
    requires net.Valid() && Rewired(net, path).Valid() && Hazard(net, path, last) && i < |path|
    requires !Notifying(path[..i], path[i].chan)
    requires Link(net, path[i], ChanAt(path, last, i + 1))
    requires path[i].chan < |net.observers| && Untouched(net, cells, With(path[..i], path[i].chan))
    ensures Rules(Rewired(net, path), cells, path[..i], path[i].chan, path[i].filter, 0) == Deadlock
    decreases |path| - i, 0, 1
  {
    var h, stack := path[i], path[..i];
    NextWrite(net, path, last, cells, i);
    OneLonger(path, i);
    FiresOnPath(net, path, last, i);
    FiringRuleDeadlocks(Rewired(net, path), cells, stack, h, path[..i + 1], ChanAt(path, last, i + 1));
    FirstOfItsRules(net, path, last, i);
    SkipToHop(net, path, cells, stack, h, 0);
  }

  lemma FiresOnPath(net: Net, path: seq<Hop>, last: nat, i: nat)
    requires i < |path| && Link(net, path[i], ChanAt(path, last, i + 1))
    ensures Link(Rewired(net, path), path[i], ChanAt(path, last, i + 1))
    ensures forall b :: Rewired(net, path).filters[path[i].filter].rules[path[i].rule].fire(b) == Some(Out(0, [1]))
  {
    assert path[i] in path;
  }

  /** Every hazard is real: with suitable rules, one write to its first channel deadlocks. */
  lemma HazardCanDeadlock(net: Net, path: seq<Hop>, last: nat) returns (w: Net, cells: seq<Cell>)
    requires net.Valid() && Hazard(net, path, last)
    ensures SameWiring(net, w) && w.Valid() && CellsOk(w, cells) && path[0].chan < |cells|
    ensures Write(w, cells, [], path[0].chan, 0, [1]).Deadlock?
  {
    RewiredIsSame(net, path);
    w := Rewired(net, path);
    cells := seq(|net.observers|, _ => ZERO);
    assert path[..0] == [];
    PathDeadlocks(net, path, last, cells, 0);
  }

  // ---- the code itself: locks taken and released on one thread ----

  /** How a call comes back; a hung call never does. */
  datatype Signal = Returned(result: Result) | Exception | Hung

  ghost predicate Meets(o: Outcome, s: Signal, cells: seq<Cell>) {
    match o
    case Done(after, result) => s == Returned(result) && cells == after
    case Raised(after) => s == Exception && cells == after
    case Deadlock => s == Hung
  }

  lemma EnterFilter(stack: seq<Hop>, hop: Hop)
    ensures forall x: nat :: Notifying(stack + [hop], x) <==> Notifying(stack, x) || x == hop.chan
    ensures forall f: nat :: Entered(stack + [hop], f) <==> Entered(stack, f) || f == hop.filter
  {
    var longer := stack + [hop];
    assert longer[|stack|] == hop;
    forall x: nat ensures Notifying(longer, x) <==> Notifying(stack, x) || x == hop.chan {
      WithNotifying(stack, hop, x);
    }
    forall f: nat | Entered(stack, f) ensures Entered(longer, f) {
      var i :| 0 <= i < |stack| && stack[i].filter == f;
      assert longer[i].filter == f;
    }
  }

  class Wiring {
    const net: Net
    var cells: seq<Cell>
    /** The channels whose notify mutex is held and the filters whose run mutex is held. */
    var notifying: set<nat>
    var inside: set<nat>

    /** The mutexes held are those of the notifications in progress, plus the ones just taken. */
    ghost predicate Holding(stack: seq<Hop>, chans: set<nat>, filters: set<nat>)
      reads this
    {
      && net.Valid() && CellsOk(net, cells)
      && (forall x: nat :: x in notifying <==> Notifying(stack, x) || x in chans)
      && (forall f: nat :: f in inside <==> Entered(stack, f) || f in filters)
    }

    constructor (net: Net, cells: seq<Cell>)
      requires net.Valid() && CellsOk(net, cells)
      ensures this.net == net && this.cells == cells && notifying == {} && inside == {}
      ensures Holding([], {}, {})
    {
      this.net, this.cells, notifying, inside := net, cells, {}, {};
    }

    /** Does what Write says, and gives back every mutex it took, also when an exception passes. */
    method WriteChannel(ghost stack: seq<Hop>, c: nat, off: nat, bytes: seq<Byte>) returns (s: Signal)
      requires Holding(stack, {}, {}) && c < |cells|
      modifies this
      ensures Meets(Write(net, old(cells), stack, c, off, bytes), s, cells)
      ensures !s.Hung? ==> Holding(stack, {}, {}) && notifying == old(notifying) && inside == old(inside)
      decreases Free(net, stack), 3, 0
    {
      if c in notifying {
        return Returned(Refused);
      }
      var (cell, result) := Store(cells[c], off, bytes);
      if result == Threw {
        return Exception;
      }
      cells := cells[c := cell];
      s := Returned(result);
      if result == Written {
        notifying := notifying + {c};
        s := NotifyObservers(stack, c);
        if !s.Hung? {
          notifying := notifying - {c};
        }
      }
    }

    method NotifyObservers(ghost stack: seq<Hop>, c: nat) returns (s: Signal)
      requires Holding(stack, {c}, {}) && c < |cells| && !Notifying(stack, c)
      modifies this
      ensures Meets(Notify(net, old(cells), stack, c, 0), s, cells)
      ensures !s.Hung? ==> Holding(stack, {c}, {}) && notifying == old(notifying) && inside == old(inside)
      decreases Free(net, stack), 2, 0
    {
      var k := 0;
      while k < |net.observers[c]|
        invariant k <= |net.observers[c]| && Holding(stack, {c}, {})
        invariant notifying == old(notifying) && inside == old(inside)
        invariant Notify(net, old(cells), stack, c, 0) == Notify(net, cells, stack, c, k)
      {
        s := HandleNotification(stack, c, net.observers[c][k]);
        if !s.Returned? {
          return;
        }
        k := k + 1;
      }
      s := Returned(Written);
    }

    method HandleNotification(ghost stack: seq<Hop>, c: nat, f: nat) returns (s: Signal)
      requires Holding(stack, {c}, {}) && c < |cells| && !Notifying(stack, c) && f < |net.filters|
      modifies this
      ensures Meets(Handle(net, old(cells), stack, c, f), s, cells)
      ensures !s.Hung? ==> Holding(stack, {c}, {}) && notifying == old(notifying) && inside == old(inside)
      decreases Free(net, stack), 1, 0
    {
      if f in inside {
        return Hung;
      }
      inside := inside + {f};
      s := Returned(Written);
      if net.filters[f].running {
        s := ApplyRules(stack, c, f);
      }
      if !s.Hung? {
        inside := inside - {f};
      }
    }

    method ApplyRules(ghost stack: seq<Hop>, c: nat, f: nat) returns (s: Signal)
      requires Holding(stack, {c}, {f}) && c < |cells| && !Notifying(stack, c) && f < |net.filters|
      modifies this
      ensures Meets(Rules(net, old(cells), stack, c, f, 0), s, cells)
      ensures !s.Hung? ==> Holding(stack, {c}, {f}) && notifying == old(notifying) && inside == old(inside)
      decreases Free(net, stack), 0, 1
    {
      var r := 0;
      while r < |net.filters[f].rules|
        invariant r <= |net.filters[f].rules| && Holding(stack, {c}, {f})
        invariant notifying == old(notifying) && inside == old(inside)
        invariant Rules(net, old(cells), stack, c, f, 0) == Rules(net, cells, stack, c, f, r)
      {
        s := ApplyRule(stack, c, f, r);
        if !s.Returned? {
          return;
        }
        r := r + 1;
      }
      s := Returned(Written);
    }

    /** One rule: nothing if it reads another channel or does not fire. */
    method ApplyRule(ghost stack: seq<Hop>, c: nat, f: nat, r: nat) returns (s: Signal)
      requires Holding(stack, {c}, {f}) && c < |cells| && !Notifying(stack, c)
      requires f < |net.filters| && r < |net.filters[f].rules|
      modifies this
      ensures Holding(stack, {c}, {f}) || s.Hung?
      ensures !s.Hung? ==> notifying == old(notifying) && inside == old(inside)
      ensures s.Returned? ==> Rules(net, old(cells), stack, c, f, r) == Rules(net, cells, stack, c, f, r + 1)
      ensures !s.Returned? ==> Meets(Rules(net, old(cells), stack, c, f, r), s, cells)
      decreases Free(net, stack), 0, 0
    {
      assert net.RuleOk(f, r);
      var rule := net.filters[f].rules[r];
      s := Returned(Written);
      if rule.inp == c {
        var fired := rule.fire(cells[c].Bytes());
        if fired.Some? {
          ghost var hop := Hop(c, f, r);
          Shrinks(net, stack, hop);
          EnterFilter(stack, hop);
          s := WriteChannel(stack + [hop], rule.out, fired.value.off, fired.value.bytes);
        }
      }
    }
  }
}
