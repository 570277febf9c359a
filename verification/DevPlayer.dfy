/** The replay device: a collector thread pushes records on a bounded queue and schedules one task per
    record, a scheduler thread pops and writes them, and both race to announce the end. */
module DevPlayer {

  datatype Record = Record(name: string, timestamp: int, value: seq<int>)

  /** What the two threads share. `tasks` counts the scheduled tasks, `taken` the records popped so far
      in order, `ends` the writes to the end channel. */
  datatype Shared = Shared(queue: seq<Record>, tasks: nat, last: bool, endNotified: bool, taken: seq<Record>, ends: nat)

  function Push(d: Shared, r: Record): Shared { d.(queue := d.queue + [r]) }

  function Pop(d: Shared): Shared
    requires d.queue != []
  {
    d.(queue := d.queue[1..], taken := d.taken + [d.queue[0]])
  }
}

/** Every interleaving of the two threads, section by section, over one run without a stop. */
module Replay {
  import opened DevPlayer

  /** The collector thread. In TestedFull it has evaluated the wait predicate to false and still holds
      the waitable's mutex. */
  datatype Collector =
    | Feeding | Pushing(r: Record) | Testing | TestedFull | Asleep | Adding
    | SettingLast | CheckingEmpty | Exchanging | WritingEnd | Done

  /** The scheduler thread, inside run(). */
  datatype Scheduler =
    | Idle | Fronted(r: Record) | Popped | Written | Notified
    | SchedChecking | SchedExchanging | SchedWritingEnd

  datatype State = State(records: seq<Record>, limit: nat, fed: nat,
                            d: Shared, col: Collector, sch: Scheduler)

  datatype Step = Col | Sch | Spurious

  function Start(records: seq<Record>, limit: nat): State {
    State(records, limit, 0, Shared([], 0, false, false, [], 0), Feeding, Idle)
  }

  predicate Enabled(s: State, step: Step) {
    match step
    case Col => s.col != Asleep && s.col != Done
    case Sch =>
      match s.sch {
        case Idle => s.d.tasks > 0
        case Written => s.col != TestedFull   // notify needs the waitable's mutex
        case _ => true
      }
    case Spurious => s.col == Asleep
  }

  /** Popping an empty queue has no meaning; QueueIsSafe below shows no run gets there. */
  predicate Defined(s: State, step: Step) {
    step == Sch && (s.sch == Idle || s.sch.Fronted?) ==> s.d.queue != []
  }

  function CollectorStep(s: State): State
    requires Enabled(s, Col)
  {
    match s.col
    case Feeding =>
      if s.fed < |s.records| then s.(fed := s.fed + 1, col := Pushing(s.records[s.fed])) else s.(col := SettingLast)
    case Pushing(r) => s.(d := Push(s.d, r), col := Testing)
    case Testing => s.(col := if |s.d.queue| <= s.limit then Adding else TestedFull)
    case TestedFull => s.(col := Asleep)
    case Adding => s.(d := s.d.(tasks := s.d.tasks + 1), col := Feeding)
    case SettingLast => s.(d := s.d.(last := true), col := CheckingEmpty)
    case CheckingEmpty => s.(col := if s.d.queue == [] then Exchanging else Done)
    case Exchanging =>
      s.(d := s.d.(endNotified := true), col := if s.d.endNotified then Done else WritingEnd)
    case WritingEnd => s.(d := s.d.(ends := s.d.ends + 1), col := Done)
    case Asleep => s
    case Done => s
  }

  function SchedulerStep(s: State): State
    requires Enabled(s, Sch) && Defined(s, Sch)
  {
    match s.sch
    case Idle => s.(d := s.d.(tasks := s.d.tasks - 1), sch := Fronted(s.d.queue[0]))
    case Fronted(_) => s.(d := Pop(s.d), sch := Popped)
    case Popped => s.(sch := Written)
    case Written => s.(col := if s.col == Asleep then Testing else s.col, sch := Notified)
    case Notified => s.(sch := if s.d.last then SchedChecking else Idle)
    case SchedChecking => s.(sch := if s.d.queue == [] then SchedExchanging else Idle)
    case SchedExchanging =>
      s.(d := s.d.(endNotified := true), sch := if s.d.endNotified then Idle else SchedWritingEnd)
    case SchedWritingEnd => s.(d := s.d.(ends := s.d.ends + 1), sch := Idle)
  }

  function Apply(s: State, step: Step): State
    requires Enabled(s, step) && Defined(s, step)
  {
    match step
    case Col => CollectorStep(s)
    case Sch => SchedulerStep(s)
    case Spurious => s.(col := Testing)
  }

  predicate Runs(s: State, run: seq<Step>, r: State)
    decreases |run|
  {
    if run == [] then r == s
    else Enabled(s, run[0]) && Defined(s, run[0]) && Runs(Apply(s, run[0]), run[1..], r)
  }

  ghost predicate Reachable(s: State) {
    exists run: seq<Step> :: Runs(Start(s.records, s.limit), run, s)
  }

  // ---- the invariant ----

  function Pushed(s: State): int { if s.col.Pushing? then s.fed - 1 else s.fed }

  /** Between its push and its add_task the collector owes the queue one task. */
  predicate OwesTask(s: State) { s.col in {Testing, TestedFull, Asleep, Adding} }

  predicate After(s: State) { s.col in {CheckingEmpty, Exchanging, WritingEnd, Done} }

  /** Nothing is lost, duplicated or reordered on the way through the queue. */
  predicate FlowInv(s: State) {
    && 0 <= Pushed(s) && s.fed <= |s.records|
    && (s.col.Pushing? ==> s.col.r == s.records[s.fed - 1])
    && s.d.taken + s.d.queue == s.records[..Pushed(s)]
    && (s.sch.Fronted? ==> s.d.queue != [] && s.sch.r == s.d.queue[0])
  }

  /** One task, scheduled, in progress or owed, for each queued record; and the queue's bound. */
  predicate TaskInv(s: State) {
    && |s.d.queue| == s.d.tasks + (if s.sch.Fronted? then 1 else 0) + (if OwesTask(s) then 1 else 0)
    && |s.d.queue| <= s.limit + (if OwesTask(s) && s.col != Adding then 1 else 0)
  }

  /** No lost wake-up: a sleeping collector that could go on is about to be notified. */
  predicate WakeInv(s: State) {
    s.col in {TestedFull, Asleep} && |s.d.queue| <= s.limit ==> s.sch in {Popped, Written}
  }

  predicate EndInv(s: State) {
    && (s.d.last <==> After(s))
    && (After(s) || s.col == SettingLast ==> s.fed == |s.records|)
    && (s.col == Exchanging || s.sch in {SchedChecking, SchedExchanging} || s.d.endNotified ==> s.d.last)
    && (s.col == Exchanging || s.sch == SchedExchanging || s.d.endNotified ==> s.d.queue == [])
    && s.d.ends + (if s.col == WritingEnd then 1 else 0) + (if s.sch == SchedWritingEnd then 1 else 0)
         == (if s.d.endNotified then 1 else 0)
    && (s.d.last && s.d.queue == [] && !s.d.endNotified ==>
         s.col in {CheckingEmpty, Exchanging}
         || s.sch in {Popped, Written, Notified, SchedChecking, SchedExchanging})
  }

  predicate Inv(s: State) { FlowInv(s) && TaskInv(s) && WakeInv(s) && EndInv(s) }

  lemma StartInv(records: seq<Record>, limit: nat)
    ensures Inv(Start(records, limit))
  {
  }

  lemma StepIsDefined(s: State, step: Step)
    requires Inv(s) && Enabled(s, step)
    ensures Defined(s, step)
  {
  }

  lemma PushKeepsFlow(s: State)
    requires FlowInv(s) && s.col.Pushing? && Enabled(s, Col) && Defined(s, Col)
    ensures FlowInv(Apply(s, Col))
  {
    assert s.records[..s.fed] == s.records[..s.fed - 1] + [s.col.r];
  }

  lemma PopKeepsFlow(s: State)
    requires FlowInv(s) && s.sch.Fronted? && Enabled(s, Sch) && Defined(s, Sch)
    ensures FlowInv(Apply(s, Sch))
  {
    assert [s.d.queue[0]] + s.d.queue[1..] == s.d.queue;
  }

  lemma FlowKept(s: State, step: Step)
    requires FlowInv(s) && Enabled(s, step) && Defined(s, step)
    ensures FlowInv(Apply(s, step))
  {
    if step == Col && s.col.Pushing? {
      PushKeepsFlow(s);
    } else if step == Sch && s.sch.Fronted? {
      PopKeepsFlow(s);
    }
  }

  lemma TaskKept(s: State, step: Step)
    requires TaskInv(s) && Enabled(s, step) && Defined(s, step)
    ensures TaskInv(Apply(s, step))
  {
  }

  lemma WakeKept(s: State, step: Step)
    requires WakeInv(s) && Enabled(s, step) && Defined(s, step)
    ensures WakeInv(Apply(s, step))
  {
  }

  lemma EndKept(s: State, step: Step)
    requires EndInv(s) && s.fed <= |s.records| && Enabled(s, step) && Defined(s, step)
    ensures EndInv(Apply(s, step))
  {
  }

  lemma StepKeepsInv(s: State, step: Step)
    requires Inv(s) && Enabled(s, step)
    ensures Defined(s, step) && Inv(Apply(s, step))
  {
    StepIsDefined(s, step);
    FlowKept(s, step);
    TaskKept(s, step);
    WakeKept(s, step);
    EndKept(s, step);
  }

  lemma {:induction false} RunKeepsInv(s: State, run: seq<Step>, r: State)
    requires Inv(s) && Runs(s, run, r)
    ensures Inv(r) && r.records == s.records && r.limit == s.limit
    decreases |run|
  {
    if run != [] {
      StepKeepsInv(s, run[0]);
      RunKeepsInv(Apply(s, run[0]), run[1..], r);
    }
  }

  lemma ReachableInv(s: State)
    requires Reachable(s)
    ensures Inv(s)
  {
    var run: seq<Step> :| Runs(Start(s.records, s.limit), run, s);
    StartInv(s.records, s.limit);
    RunKeepsInv(Start(s.records, s.limit), run, s);
  }

  // ---- what every run guarantees ----

  /** The queue holds at most limit + 1 records, a task never finds it empty, and records leave it in
      the order the provider gave them, whatever the order the tasks run in. */
  lemma QueueIsSafe(s: State)
    requires Reachable(s)
    ensures |s.d.queue| <= s.limit + 1
    ensures Enabled(s, Sch) ==> Defined(s, Sch)
    ensures s.d.taken <= s.records
  {
    ReachableInv(s);
    if Enabled(s, Sch) {
      StepIsDefined(s, Sch);
    }
    assert s.d.taken <= s.d.taken + s.d.queue <= s.records;
  }

  /** A producer blocked on a full queue always has a task that will make room, if the limit is positive. */
  lemma BlockedProducerHasTask(s: State)
    requires Reachable(s) && s.limit > 0
    requires s.col in {TestedFull, Asleep} && |s.d.queue| > s.limit
    ensures s.d.tasks > 0 || s.sch.Fronted?
  {
    ReachableInv(s);
  }

  /** The end is never announced twice, and never before every record was taken. */
  lemma EndComesLastAndOnce(s: State)
    requires Reachable(s)
    ensures s.d.ends <= 1
    ensures s.d.ends == 1 ==> s.d.taken == s.records && s.d.queue == [] && s.d.tasks == 0
  {
    ReachableInv(s);
    if s.d.ends == 1 {
      assert s.records[..|s.records|] == s.records;
    }
  }

  /** Once the end is announced nothing is pushed or taken any more. */
  lemma {:induction false} NothingAfterEnd(s: State, run: seq<Step>, r: State)
    requires Inv(s) && s.d.ends == 1 && Runs(s, run, r)
    ensures r.d.ends == 1 && r.d.queue == [] && r.d.taken == s.d.taken
    decreases |run|
  {
    if run != [] {
      StepKeepsInv(s, run[0]);
      NothingAfterEnd(Apply(s, run[0]), run[1..], r);
    }
  }

  /** The run is over: the collector is done and no task is scheduled or in progress. */
  predicate Complete(s: State) { s.col == Done && s.sch == Idle && s.d.tasks == 0 }

  lemma CompleteRunsAnnounceEnd(s: State)
    requires Reachable(s) && Complete(s)
    ensures s.d.ends == 1 && s.d.taken == s.records
  {
    ReachableInv(s);
    CompleteHasEnded(s);
  }

  lemma CompleteHasEnded(s: State)
    requires Inv(s) && Complete(s)
    ensures s.d.ends == 1 && s.d.taken == s.records && s.d.queue == []
  {
    assert s.records[..|s.records|] == s.records;
  }

  // ---- progress ----

  function ColWeight(c: Collector): nat {
    match c
    case Feeding => 10 case Pushing(_) => 90 case Testing => 80 case TestedFull => 75 case Asleep => 70
    case Adding => 60 case SettingLast => 9 case CheckingEmpty => 8 case Exchanging => 7
    case WritingEnd => 6 case Done => 0
  }

  function SchWeight(c: Scheduler): nat {
    match c
    case Idle => 0 case Fronted(_) => 28 case Popped => 26 case Written => 24 case Notified => 12
    case SchedChecking => 10 case SchedExchanging => 8 case SchedWritingEnd => 6
  }

  /** Bounds the sections left to run, spurious wake-ups aside. */
  function Work(s: State): int {
    100 * (|s.records| - s.fed) + ColWeight(s.col) + 30 * s.d.tasks + SchWeight(s.sch)
  }

  lemma WorkIsNatural(s: State)
    requires Inv(s)
    ensures 0 <= Work(s)
  {
  }

  lemma CollectorDoesWork(s: State)
    requires Inv(s) && Enabled(s, Col)
    ensures Work(Apply(s, Col)) < Work(s)
  {
  }

  lemma SchedulerDoesWork(s: State)
    requires Inv(s) && Enabled(s, Sch) && Defined(s, Sch)
    ensures Work(Apply(s, Sch)) < Work(s)
  {
  }

  lemma StepDoesWork(s: State, step: Step)
    requires Inv(s) && Enabled(s, step) && Defined(s, step) && step != Spurious
    ensures 0 <= Work(Apply(s, step)) < Work(s)
  {
    StepKeepsInv(s, step);
    WorkIsNatural(Apply(s, step));
    if step == Col {
      CollectorDoesWork(s);
    } else {
      SchedulerDoesWork(s);
    }
  }

  function SpuriousOnes(run: seq<Step>): (n: nat)
    ensures n <= |run| && (n == 0 <==> Spurious !in run)
  {
    if run == [] then 0 else (if run[0] == Spurious then 1 else 0) + SpuriousOnes(run[1..])
  }

  /** No schedule goes on for ever: whatever order the threads run in, a run has no more steps than the
      work there is at its start, and eleven for every spurious wake-up. */
  lemma {:induction false} RunsAreBounded(s: State, run: seq<Step>, r: State)
    requires Inv(s) && Runs(s, run, r)
    ensures |run| + Work(r) <= Work(s) + 11 * SpuriousOnes(run) && 0 <= Work(r)
    decreases |run|
  {
    if run != [] {
      var next := Apply(s, run[0]);
      StepKeepsInv(s, run[0]);
      if run[0] != Spurious {
        StepDoesWork(s, run[0]);
      }
      RunsAreBounded(next, run[1..], r);
    }
  }

  /** Neither thread can move; only a spurious wake-up could still happen. */
  predicate Stuck(s: State) { !Enabled(s, Col) && !Enabled(s, Sch) }

  /** No deadlock with a positive limit: the threads only stop when the run is complete. */
  lemma StuckMeansComplete(s: State)
    requires Reachable(s) && s.limit > 0 && Stuck(s)
    ensures Complete(s)
  {
    ReachableInv(s);
    StuckIsComplete(s);
  }

  lemma StuckIsComplete(s: State)
    requires Inv(s) && s.limit > 0 && Stuck(s)
    ensures Complete(s)
  {
  }

  /** From any reachable state, letting the threads run reaches the end of the run. */
  lemma {:induction false} RunsToStuck(s: State) returns (run: seq<Step>, r: State)
    requires Inv(s)
    ensures Runs(s, run, r) && Stuck(r) && Inv(r)
    decreases Work(s)
  {
    if Stuck(s) {
      run, r := [], s;
    } else {
      var step := if Enabled(s, Col) then Col else Sch;
      StepKeepsInv(s, step);
      StepDoesWork(s, step);
      var rest;
      rest, r := RunsToStuck(Apply(s, step));
      run := [step] + rest;
      assert run[1..] == rest;
    }
  }

  /** With a limit of 0 the first record is never scheduled: its producer sleeps on a queue that only
      a task of its own could drain. */
  predicate Starved(s: State) {
    && s.d.tasks == 0 && s.sch == Idle && s.d.ends == 0
    && match s.col
       case Feeding => s.fed == 0 && s.d.queue == []
       case Pushing(_) => s.d.queue == []
       case Testing => |s.d.queue| == 1
       case TestedFull => |s.d.queue| == 1
       case Asleep => |s.d.queue| == 1
       case _ => false
  }

  lemma {:induction false} StarvedForever(s: State, run: seq<Step>, r: State)
    requires s.limit == 0 && s.records != [] && Starved(s) && Runs(s, run, r)
    ensures Starved(r)
    decreases |run|
  {
    if run != [] {
      StarvedForever(Apply(s, run[0]), run[1..], r);
    }
  }

  /** The end is announced by every run played to its end exactly when the limit is positive or there
      is nothing to play. */
  lemma EndAnnouncedIff(s: State)
    requires Reachable(s) && Stuck(s)
    ensures s.d.ends == 1 <==> s.limit > 0 || s.records == []
  {
    ReachableInv(s);
    if s.limit > 0 {
      StuckMeansComplete(s);
      CompleteRunsAnnounceEnd(s);
    } else if s.records == [] {
      CompleteRunsAnnounceEnd(s);
    } else {
      var run: seq<Step> :| Runs(Start(s.records, s.limit), run, s);
      StarvedForever(Start(s.records, s.limit), run, s);
    }
  }
}

/** The device itself, with what its two threads are doing. */
module Players {
  import opened Basics
  import opened DevPlayer
  import opened Replay

  /** Where a thread is inside _provider_ended. */
  datatype Ending = QueueTest | EndExchange | EndWrite

  class Player {
    const records: seq<Record>
    const limit: nat
    var fed: nat
    var safeQueue: seq<Record>
    var tasks: nat
    var lastRecord: bool
    var endNotified: bool
    var taken: seq<Record>
    var endWrites: nat
    var collector: Collector
    var scheduler: Scheduler

    function Data(): Shared
      reads this
    {
      Shared(safeQueue, tasks, lastRecord, endNotified, taken, endWrites)
    }

    function State(): Replay.State
      reads this
    {
      Replay.State(records, limit, fed, Data(), collector, scheduler)
    }

    /** _main_loop up to the start of the collector, on an empty queue. */
    constructor (records: seq<Record>, limit: nat)
      ensures this.records == records && this.limit == limit
      ensures State() == Start(records, limit)
    {
      this.records, this.limit, fed := records, limit, 0;
      safeQueue, tasks, lastRecord, endNotified, taken, endWrites := [], 0, false, false, [], 0;
      collector, scheduler := Feeding, Idle;
    }

    /** One section of _provider_ended, which both threads run; None when it returns. */
    method ProviderEnded(at: Ending) returns (next: Option<Ending>)
      modifies this`endNotified, this`endWrites
      ensures endNotified == (old(endNotified) || at == EndExchange)
      ensures endWrites == old(endWrites) + if at == EndWrite then 1 else 0
      ensures next == match at
        case QueueTest => if safeQueue == [] then Some(EndExchange) else None
        case EndExchange => if old(endNotified) then None else Some(EndWrite)
        case EndWrite => None
    {
      match at {
        case QueueTest =>
          next := if |safeQueue| == 0 then Some(EndExchange) else None;
        case EndExchange =>
          next := if endNotified then None else Some(EndWrite);
          endNotified := true;
        case EndWrite =>
          endWrites := endWrites + 1;
          next := None;
      }
    }

    /** One section of the collector thread: its loop, handle, and the end of _main_loop. */
    method AdvanceCollector()
      requires Enabled(State(), Col)
      modifies this
      ensures State() == CollectorStep(old(State()))
    {
      match collector {
        case Feeding =>
          if fed < |records| {
            collector := Pushing(records[fed]);
            fed := fed + 1;
          } else {
            collector := SettingLast;
          }
        case Pushing(record) =>
          safeQueue := safeQueue + [record];
          collector := Testing;
        case Testing =>
          collector := if |safeQueue| <= limit then Adding else TestedFull;
        case TestedFull =>
          collector := Asleep;
        case Adding =>
          tasks := tasks + 1;
          collector := Feeding;
        case SettingLast =>
          lastRecord := true;
          collector := CheckingEmpty;
        case CheckingEmpty =>
          var next := ProviderEnded(QueueTest);
          collector := if next.Some? then Exchanging else Done;
        case Exchanging =>
          var next := ProviderEnded(EndExchange);
          collector := if next.Some? then WritingEnd else Done;
        case WritingEnd =>
          var _ := ProviderEnded(EndWrite);
          collector := Done;
      }
    }

    /** One section of a task on the scheduler thread: run, and _provider_ended after the last record. */
    method AdvanceScheduler()
      requires Enabled(State(), Sch) && Defined(State(), Sch)
      modifies this
      ensures State() == SchedulerStep(old(State()))
    {
      match scheduler {
        case Idle =>
          tasks := tasks - 1;
          scheduler := Fronted(safeQueue[0]);
        case Fronted(_) =>
          taken := taken + [safeQueue[0]];
          safeQueue := safeQueue[1..];
          scheduler := Popped;
        case Popped =>
          scheduler := Written;
        case Written =>
          if collector == Asleep {
            collector := Testing;
          }
          scheduler := Notified;
        case Notified =>
          scheduler := if lastRecord then SchedChecking else Idle;
        case SchedChecking =>
          var next := ProviderEnded(QueueTest);
          scheduler := if next.Some? then SchedExchanging else Idle;
        case SchedExchanging =>
          var next := ProviderEnded(EndExchange);
          scheduler := if next.Some? then SchedWritingEnd else Idle;
        case SchedWritingEnd =>
          var _ := ProviderEnded(EndWrite);
          scheduler := Idle;
      }
    }

    /** Any step of the protocol is a step of the object. */
    method Advance(step: Step)
      requires Enabled(State(), step) && Defined(State(), step)
      modifies this
      ensures State() == Apply(old(State()), step)
    {
      match step {
        case Col => AdvanceCollector();
        case Sch => AdvanceScheduler();
        case Spurious => collector := Testing;
      }
    }

    /** A whole replay, the threads taking turns in any order and the collector woken for nothing as often
        as `spurious` allows: it ends, with every record taken in order and the end written once. */
    method Play(spurious: nat)
      requires State() == Start(records, limit) && limit > 0
      modifies this
      ensures Complete(State())
      ensures taken == records && safeQueue == [] && endWrites == 1
    {
      var left := spurious;
      StartInv(records, limit);
      while
        invariant Inv(State()) && 0 <= left
        decreases Work(State()) + 11 * left
      {
        case Enabled(State(), Col) =>
          Take(Col);
        case Enabled(State(), Sch) =>
          Take(Sch);
        case left > 0 && Enabled(State(), Spurious) =>
          Take(Spurious);
          left := left - 1;
      }
      StuckIsComplete(State());
      CompleteHasEnded(State());
    }

    method Take(step: Step)
      requires Inv(State()) && Enabled(State(), step)
      modifies this
      ensures Inv(State()) && State() == Apply(old(State()), step)
      ensures 0 <= Work(State()) < Work(old(State())) + if step == Spurious then 11 else 0
    {
      StepKeepsInv(State(), step);
      if step != Spurious {
        StepDoesWork(State(), step);
      }
      Advance(step);
    }
  }
}
