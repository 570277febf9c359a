/** Client input on its way to a terminal that takes as much of it as it likes. */
module PtyInput {

  import opened Basics

  /** `present`: there is a terminal; `open`: its master side is; `delivered`: the bytes it has taken. */
  datatype Input = Input(present: bool, open: bool, pending: seq<Byte>, delivered: seq<Byte>)

  /** What a write of n bytes can return: less than nothing on failure, which is all a closed side does. */
  predicate CanReturn(s: Input, n: nat, written: int) { written <= n && (s.open || written < 0) }

  /** An open side may take any part of what is written, or fail; a closed one always fails. */
  lemma CanReturnIff(s: Input, n: nat, written: int)
    ensures s.open ==> (CanReturn(s, n, written) <==> written <= n)
    ensures !s.open ==> (CanReturn(s, n, written) <==> written < 0)
  {
  }

  function Drain(s: Input, written: int): Input
    requires written <= |s.pending|
  {
    if !s.present || s.pending == [] || written <= 0 then s
    else s.(delivered := s.delivered + s.pending[..written], pending := s.pending[written..])
  }

  /** How much on_data tries to write. */
  function Attempt(s: Input, chunk: seq<Byte>): nat { |s.pending| + |chunk| }

  function OnData(s: Input, chunk: seq<Byte>, written: int): (Input, int)
    requires written <= Attempt(s, chunk)
  {
    if !s.present || chunk == [] then (s, 0)
    else if s.pending != [] then (Drain(s.(pending := s.pending + chunk), written), |chunk|)
    else if written < 0 then (s, -1)
    else (s.(delivered := s.delivered + chunk[..written], pending := chunk[written..]), |chunk|)
  }

  datatype Event =
    | Started(spawned: bool)
    | Data(chunk: seq<Byte>, written: int)
    | Polled(written: int)
    | Eof
    | Closed

  predicate Possible(s: Input, e: Event) {
    match e
    case Data(chunk, written) => CanReturn(s, Attempt(s, chunk), written)
    case Polled(written) => CanReturn(s, |s.pending|, written)
    case _ => true
  }

  function Apply(s: Input, e: Event): Input
    requires Possible(s, e)
  {
    match e
    case Started(spawned) => s.(present := spawned, open := spawned)
    case Data(chunk, written) => OnData(s, chunk, written).0
    case Polled(written) => Drain(s, written)
    case Eof => s.(open := false)
    case Closed => s.(present := false, open := false)
  }

  /** The bytes an event adds to those on_data said it took. */
  function Accepted(s: Input, e: Event): seq<Byte>
    requires Possible(s, e)
  {
    if e.Data? && OnData(s, e.chunk, e.written).1 > 0 then e.chunk else []
  }

  predicate CanRun(s: Input, events: seq<Event>)
    decreases |events|
  {
    events == [] || (Possible(s, events[0]) && CanRun(Apply(s, events[0]), events[1..]))
  }

  function After(s: Input, events: seq<Event>): Input
    requires CanRun(s, events)
    decreases |events|
  {
    if events == [] then s else After(Apply(s, events[0]), events[1..])
  }

  function AllAccepted(s: Input, events: seq<Event>): seq<Byte>
    requires CanRun(s, events)
    decreases |events|
  {
    if events == [] then [] else Accepted(s, events[0]) + AllAccepted(Apply(s, events[0]), events[1..])
  }

  // ---- nothing is lost, repeated or reordered ----

  lemma EventConserves(s: Input, e: Event)
    requires Possible(s, e)
    ensures Apply(s, e).delivered + Apply(s, e).pending == s.delivered + s.pending + Accepted(s, e)
  {
    if e.Data? && s.pending != [] && e.chunk != [] && s.present {
      DrainConserves(s.(pending := s.pending + e.chunk), e.written);
      assert s.delivered + (s.pending + e.chunk) == s.delivered + s.pending + e.chunk;
    } else if e.Data? && e.chunk != [] && s.present && e.written >= 0 {
      assert e.chunk[..e.written] + e.chunk[e.written..] == e.chunk;
    } else if e.Polled? {
      DrainConserves(s, e.written);
    }
  }

  lemma DrainConserves(s: Input, written: int)
    requires written <= |s.pending|
    ensures Drain(s, written).delivered + Drain(s, written).pending == s.delivered + s.pending
  {
    if written > 0 {
      assert s.pending[..written] + s.pending[written..] == s.pending;
    }
  }

  /** Over every run, whatever the terminal takes and however often it fails: what has been delivered and
      what is pending are together, in order, what was there before and the chunks on_data took. */
  lemma {:induction false} RunConserves(s: Input, events: seq<Event>)
    requires CanRun(s, events)
    ensures After(s, events).delivered + After(s, events).pending == s.delivered + s.pending + AllAccepted(s, events)
    decreases |events|
  {
    if events != [] {
      EventConserves(s, events[0]);
      RunConserves(Apply(s, events[0]), events[1..]);
    }
  }

  /** Taken is taken whole: on_data returns the chunk's length, or nothing of it is kept. */
  lemma AllOfIt(s: Input, chunk: seq<Byte>, written: int)
    requires CanReturn(s, Attempt(s, chunk), written)
    ensures var (t, r) := OnData(s, chunk, written);
      && (r == |chunk| || ((r == 0 || r == -1) && t == s))
      && (r == -1 <==> s.present && chunk != [] && s.pending == [] && written < 0)
      && (r == 0 <==> !s.present || chunk == [])
  {
  }

  // ---- the pending bytes get through ----

  /** Nothing but polls, each of which finds the terminal willing to take something of what is pending. */
  predicate WillingPolls(s: Input, events: seq<Event>)
    requires CanRun(s, events)
    decreases |events|
  {
    events == [] ||
    (events[0].Polled? && (s.pending != [] ==> events[0].written > 0) && WillingPolls(Apply(s, events[0]), events[1..]))
  }

  /** If every poll finds the terminal willing, all that was pending has been delivered, in order, after at
      most as many polls as there were bytes. */
  lemma {:induction false} PollsDeliver(s: Input, events: seq<Event>)
    requires s.present && CanRun(s, events) && WillingPolls(s, events)
    ensures After(s, events).delivered + After(s, events).pending == s.delivered + s.pending
    ensures |events| >= |s.pending| ==> After(s, events).pending == []
    decreases |events|
  {
    if events != [] {
      if s.pending != [] {
        DrainConserves(s, events[0].written);
      }
      PollsDeliver(Apply(s, events[0]), events[1..]);
    }
  }

  // ---- the end of input overtakes what is pending ----

  predicate NoStart(events: seq<Event>) { forall i :: 0 <= i < |events| ==> !events[i].Started? }

  lemma {:induction false} ClosedSideTakesNothing(s: Input, events: seq<Event>)
    requires !s.open && CanRun(s, events) && NoStart(events)
    ensures After(s, events).delivered == s.delivered
    ensures s.pending == [] ==> After(s, events).pending == [] && AllAccepted(s, events) == []
    decreases |events|
  {
    if events != [] {
      assert Apply(s, events[0]).delivered == s.delivered && !Apply(s, events[0]).open;
      ClosedSideTakesNothing(Apply(s, events[0]), events[1..]);
    }
  }

  /** on_eof closes the master side at once. Every byte that was or will be taken reaches the terminal if
      and only if nothing was pending at that moment. Whatever follows, nothing more is delivered, though
      further chunks are still taken. */
  lemma EofLosesNothingIff(s: Input)
    requires s.present
    ensures s.pending == [] <==>
      forall events :: CanRun(s, [Eof] + events) && NoStart(events) ==>
        After(s, [Eof] + events).delivered == s.delivered + s.pending + AllAccepted(s, [Eof] + events)
    ensures forall events :: CanRun(s, [Eof] + events) && NoStart(events) ==>
      After(s, [Eof] + events).delivered == s.delivered
  {
    var t := Apply(s, Eof);
    forall events | CanRun(s, [Eof] + events) && NoStart(events)
      ensures After(s, [Eof] + events).delivered == s.delivered
    {
      assert ([Eof] + events)[1..] == events;
      ClosedSideTakesNothing(t, events);
    }
    if s.pending == [] {
      forall events | CanRun(s, [Eof] + events) && NoStart(events)
        ensures After(s, [Eof] + events).delivered == s.delivered + s.pending + AllAccepted(s, [Eof] + events)
      {
        assert ([Eof] + events)[1..] == events;
        ClosedSideTakesNothing(t, events);
      }
    } else {
      assert ([Eof] + [])[1..] == [];
      assert CanRun(s, [Eof] + []) && NoStart([]);
      assert AllAccepted(s, [Eof] + []) == [];
      assert |After(s, [Eof] + []).delivered| != |s.delivered + s.pending|;
    }
  }

  // ---- the code ----

  /** The master side of a terminal; `received` is what its child process gets to read. */
  class Terminal {
    var open: bool
    ghost var received: seq<Byte>

    constructor ()
      ensures open && received == []
    {
      open, received := true, [];
    }

    /** The system takes the first `taken` bytes, or fails. */
    method Write(data: seq<Byte>, taken: int) returns (written: int)
      requires taken <= |data| && (open || taken < 0)
      modifies this
      ensures written == taken && open == old(open)
      ensures received == old(received) + if taken > 0 then data[..taken] else []
    {
      written := taken;
      if taken > 0 {
        received := received + data[..taken];
      }
    }
  }

  class SshSubsystemPty {
    var pty: Terminal?
    var pendingIn: seq<Byte>

    ghost function State(): Input
      reads this, pty
    {
      Input(pty != null, pty != null && pty.open, pendingIn, if pty == null then [] else pty.received)
    }

    constructor ()
      ensures State() == Input(false, false, [], [])
    {
      pty, pendingIn := null, [];
    }

    method DrainPendingInput(taken: int)
      requires CanReturn(State(), |pendingIn|, taken)
      modifies this, pty
      ensures pty == old(pty) && State() == Drain(old(State()), taken)
    {
      if pty == null || pendingIn == [] {
        return;
      }
      var written := pty.Write(pendingIn, taken);
      if written > 0 {
        pendingIn := pendingIn[written..];
      }
    }

    method HandleData(data: seq<Byte>, taken: int) returns (r: int)
      requires CanReturn(State(), Attempt(State(), data), taken)
      modifies this, pty
      ensures pty == old(pty) && (State(), r) == OnData(old(State()), data, taken)
    {
      if pty == null {
        return 0;
      }
      if data == [] {
        return 0;
      }
      if pendingIn != [] {
        pendingIn := pendingIn + data;
        DrainPendingInput(taken);
        return |data|;
      }
      var written := pty.Write(data, taken);
      if written < 0 {
        assert pty.received == old(State().delivered);
        return -1;
      }
      if written < |data| {
        pendingIn := pendingIn + data[written..];
      }
      assert pendingIn == data[written..];
      assert pty.received == old(State().delivered) + data[..written];
      return |data|;
    }

    method HandleEof()
      modifies pty
      ensures pty == old(pty) && State() == old(State()).(open := false)
    {
      if pty != null {
        pty.open := false;
      }
    }
  }
}
