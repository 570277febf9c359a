/** Starting and stopping a tree of services. */
module ServiceTree {

  import opened Basics

  datatype State =
    | Unset | Configuring | Configured | Initializing | Stopped
    | Starting | Running | Stopping | Resetting | Error

  datatype Event = Setup | Init | Start | Stop | Reset | Success | Failure

  /** The default state machine of ServiceController. */
  function Transition(s: State, e: Event): Option<State> {
    match (s, e)
    case (Unset, Setup) => Some(Configuring)
    case (Configuring, Failure) => Some(Error)
    case (Configuring, Success) => Some(Configured)
    case (Configured, Init) => Some(Initializing)
    case (Initializing, Failure) => Some(Error)
    case (Initializing, Success) => Some(Stopped)
    case (Stopped, Start) => Some(Starting)
    case (Starting, Failure) => Some(Error)
    case (Starting, Success) => Some(Running)
    case (Running, Stop) => Some(Stopping)
    case (Stopping, Failure) => Some(Error)
    case (Stopping, Success) => Some(Stopped)
    case (Configured, Reset) => Some(Resetting)
    case (Stopped, Reset) => Some(Resetting)
    case (Resetting, Failure) => Some(Error)
    case (Resetting, Success) => Some(Unset)
    case _ => None
  }

  /** A service and its child services in the order they are visited. `managed`: it has a controller and
      so a state; `up`: its own on_start succeeded and its on_stop has not since. The three last flags
      say how resolve_links, on_start and on_stop will turn out. */
  datatype Tree = Node(managed: bool, state: State, up: bool, linksOk: bool, startsOk: bool, stopsOk: bool,
      kids: seq<Tree>)

  /** Whether the controller lets the operation begin. */
  predicate Begins(t: Tree, e: Event) { t.managed ==> Transition(t.state, e).Some? }

  /** Its state once the operation has ended. */
  function Ended(t: Tree, e: Event, ok: bool): State
    requires Begins(t, e)
  {
    if !t.managed then t.state
    else
      var during := Transition(t.state, e).value;
      match Transition(during, if ok then Success else Failure)
      case Some(after) => after
      case None => during
  }

  lemma EndedIs(t: Tree, ok: bool)
    ensures Begins(t, Start) ==> Ended(t, Start, ok) == if !t.managed then t.state else if ok then Running else Error
    ensures Begins(t, Start) <==> (t.managed ==> t.state == Stopped)
    ensures Begins(t, Stop) ==> Ended(t, Stop, ok) == if !t.managed then t.state else if ok then Stopped else Error
    ensures Begins(t, Stop) <==> (t.managed ==> t.state == Running)
  {
  }

  function StopTree(t: Tree): (Tree, bool) {
    if !Begins(t, Stop) then (t, false)
    else
      var ok := t.stopsOk && forall j :: 0 <= j < |t.kids| ==> StopTree(t.kids[j]).1;
      (t.(state := Ended(t, Stop, ok), up := t.up && !t.stopsOk, kids := StopAll(t.kids, |t.kids|)), ok)
  }

  /** The first n of them stopped. */
  function StopAll(kids: seq<Tree>, n: nat): (r: seq<Tree>)
    requires n <= |kids|
    ensures |r| == |kids| && forall j :: 0 <= j < |r| ==> r[j] == if j < n then StopTree(kids[j]).0 else kids[j]
  {
    seq(|kids|, j requires 0 <= j < |kids| => if j < n then StopTree(kids[j]).0 else kids[j])
  }

  /** How many children from the i-th on start one after the other. */
  function Started(t: Tree, i: nat): (n: nat)
    requires i <= |t.kids|
    ensures i <= n <= |t.kids|
    decreases t, 0, |t.kids| - i
  {
    if i == |t.kids| || !StartTree(t.kids[i]).1 then i else Started(t, i + 1)
  }

  /** The children after the loop: those started, the one that failed if any, and the untouched rest. */
  function KidsTried(t: Tree): (r: seq<Tree>)
    ensures |r| == |t.kids|
    decreases t, 1
  {
    var n := Started(t, 0);
    seq(|t.kids|, j requires 0 <= j < |t.kids| => if j <= n then StartTree(t.kids[j]).0 else t.kids[j])
  }

  function StartTree(t: Tree): (Tree, bool)
    decreases t, 2
  {
    if !Begins(t, Start) then (t, false)
    else
      var n := Started(t, 0);
      var ok := n == |t.kids| && t.linksOk && t.startsOk;
      var kids := if ok then KidsTried(t) else StopAll(KidsTried(t), n);
      (t.(state := Ended(t, Start, ok), up := t.up || ok, kids := kids), ok)
  }

  // ---- what to expect ----

  predicate AllStopped(t: Tree) {
    !t.up && (t.managed ==> t.state == Stopped) && forall j :: 0 <= j < |t.kids| ==> AllStopped(t.kids[j])
  }

  predicate Willing(t: Tree) { t.linksOk && t.startsOk && forall j :: 0 <= j < |t.kids| ==> Willing(t.kids[j]) }

  predicate Obliging(t: Tree) { t.stopsOk && forall j :: 0 <= j < |t.kids| ==> Obliging(t.kids[j]) }

  predicate AnyUp(t: Tree) { t.up || exists j :: 0 <= j < |t.kids| && AnyUp(t.kids[j]) }

  predicate AllUp(t: Tree) {
    t.up && (t.managed ==> t.state == Running) && forall j :: 0 <= j < |t.kids| ==> AllUp(t.kids[j])
  }

  /** The same tree with every service running. */
  function Raised(t: Tree): Tree {
    t.(state := if t.managed then Running else t.state, up := true,
       kids := seq(|t.kids|, j requires 0 <= j < |t.kids| => Raised(t.kids[j])))
  }

  function FirstUnwilling(kids: seq<Tree>): (n: nat)
    ensures n <= |kids| && forall j :: 0 <= j < n ==> Willing(kids[j])
    ensures n < |kids| ==> !Willing(kids[n])
  {
    if kids == [] || !Willing(kids[0]) then 0 else 1 + FirstUnwilling(kids[1..])
  }

  /** The same tree after a failed start: on the path down to the service that failed every state is
      Error, and nothing else has changed. */
  function AfterFailure(t: Tree): Tree {
    var n := FirstUnwilling(t.kids);
    t.(state := if t.managed then Error else t.state,
       kids := seq(|t.kids|, j requires 0 <= j < |t.kids| => if j == n then AfterFailure(t.kids[j]) else t.kids[j]))
  }

  lemma {:induction false} RaisedIsUp(t: Tree)
    ensures AllUp(Raised(t))
  {
    forall j | 0 <= j < |t.kids| ensures AllUp(Raised(t).kids[j]) {
      RaisedIsUp(t.kids[j]);
    }
  }

  lemma {:induction false} StoppedIsDown(t: Tree)
    requires AllStopped(t)
    ensures !AnyUp(t)
  {
    forall j | 0 <= j < |t.kids| ensures !AnyUp(t.kids[j]) {
      StoppedIsDown(t.kids[j]);
    }
  }

  lemma {:induction false} FailureIsDown(t: Tree)
    requires AllStopped(t)
    ensures !AnyUp(AfterFailure(t))
  {
    forall j | 0 <= j < |t.kids| ensures !AnyUp(AfterFailure(t).kids[j]) {
      FailureIsDown(t.kids[j]);
      StoppedIsDown(t.kids[j]);
    }
  }

  // ---- stopping what runs ----

  /** Stopping a running tree visits every service whatever fails on the way; it succeeds, and then
      nothing has changed since before the start, exactly if every on_stop does. */
  lemma {:induction false} StopUndoesRaise(t: Tree)
    requires AllStopped(t)
    ensures StopTree(Raised(t)).1 <==> Obliging(t)
    ensures Obliging(t) ==> StopTree(Raised(t)).0 == t
    ensures AnyUp(StopTree(Raised(t)).0) <==> !Obliging(t)
  {
    var r := Raised(t);
    var s := StopTree(r).0;
    forall j | 0 <= j < |t.kids|
      ensures StopTree(r.kids[j]).1 <==> Obliging(t.kids[j])
      ensures Obliging(t.kids[j]) ==> s.kids[j] == t.kids[j]
      ensures AnyUp(s.kids[j]) <==> !Obliging(t.kids[j])
    {
      assert r.kids[j] == Raised(t.kids[j]);
      StopUndoesRaise(t.kids[j]);
    }
    if Obliging(t) {
      assert s.kids == t.kids;
    } else if t.stopsOk {
      var j :| 0 <= j < |t.kids| && !Obliging(t.kids[j]);
      assert AnyUp(s.kids[j]);
    }
  }

  /** The tree after stopping all of it: every service up whose on_stop failed, and every state above one in
      error. */
  function AfterStop(t: Tree): Tree {
    t.(state := if !t.managed then t.state else if Obliging(t) then Stopped else Error,
       up := !t.stopsOk,
       kids := seq(|t.kids|, j requires 0 <= j < |t.kids| => AfterStop(t.kids[j])))
  }

  lemma StopTreeIs(t: Tree, kids: seq<Tree>, ok: bool)
    requires Begins(t, Stop) && (ok <==> t.stopsOk && forall j :: 0 <= j < |t.kids| ==> StopTree(t.kids[j]).1)
    requires |kids| == |t.kids| && forall j :: 0 <= j < |kids| ==> kids[j] == StopTree(t.kids[j]).0
    ensures StopTree(t) == (t.(state := Ended(t, Stop, ok), up := t.up && !t.stopsOk, kids := kids), ok)
  {
    assert StopAll(t.kids, |t.kids|) == kids;
  }

  /** What stopping a running tree leaves, down to every service. */
  lemma {:induction false} StopOutcome(t: Tree)
    requires AllStopped(t)
    ensures StopTree(Raised(t)) == (AfterStop(t), Obliging(t))
  {
    var r := Raised(t);
    forall j | 0 <= j < |t.kids| ensures StopTree(r.kids[j]) == (AfterStop(t.kids[j]), Obliging(t.kids[j])) {
      StopOutcome(t.kids[j]);
    }
    EndedIs(r, Obliging(t));
    StopTreeIs(r, AfterStop(t).kids, Obliging(t));
  }

  /** A tree in any state stops exactly if each managed service in it runs and every on_stop succeeds. */
  predicate Stoppable(t: Tree) {
    && (t.managed ==> t.state == Running)
    && t.stopsOk && forall j :: 0 <= j < |t.kids| ==> Stoppable(t.kids[j])
  }

  lemma {:induction false} StopSucceedsIff(t: Tree)
    ensures StopTree(t).1 <==> Stoppable(t)
  {
    EndedIs(t, true);
    forall j | 0 <= j < |t.kids| ensures StopTree(t.kids[j]).1 <==> Stoppable(t.kids[j]) {
      StopSucceedsIff(t.kids[j]);
    }
  }

  /** A managed service starts only when it is stopped and stops only when it runs; else nothing happens. */
  lemma WrongStateIsRefused(t: Tree)
    requires t.managed
    ensures t.state != Stopped ==> StartTree(t) == (t, false)
    ensures t.state != Running ==> StopTree(t) == (t, false)
  {
    EndedIs(t, true);
  }

  /** The life of a service: set up and initialised it is stopped, reset it is as new, and an operation that
      fails ends in an error nothing leads out of. */
  lemma LifeCycle(s: State, e: Event)
    ensures Transition(Unset, Setup) == Some(Configuring) && Transition(Configuring, Success) == Some(Configured)
    ensures Transition(Configured, Init) == Some(Initializing) && Transition(Initializing, Success) == Some(Stopped)
    ensures Transition(s, Reset) == if s in {Configured, Stopped} then Some(Resetting) else None
    ensures Transition(Resetting, Success) == Some(Unset)
    ensures Transition(s, Failure) ==
      if s in {Configuring, Initializing, Starting, Stopping, Resetting} then Some(Error) else None
    ensures Transition(Error, e) == None
    ensures Transition(s, Start).Some? <==> s == Stopped
    ensures Transition(s, Stop).Some? <==> s == Running
    ensures Transition(s, Setup).Some? <==> s == Unset
    ensures Transition(s, Init).Some? <==> s == Configured
  {
  }

  // ---- starting ----

  lemma {:induction false} StartedIs(t: Tree, i: nat, n: nat)
    requires i <= n <= |t.kids|
    requires forall j :: i <= j < n ==> StartTree(t.kids[j]).1
    requires n < |t.kids| ==> !StartTree(t.kids[n]).1
    ensures Started(t, i) == n
    decreases n - i
  {
    if i < n {
      StartedIs(t, i + 1, n);
    }
  }

  /** Starting succeeds exactly when every service is willing, and then all of them run. */
  lemma {:induction false} StartSucceedsIff(t: Tree)
    requires AllStopped(t)
    ensures StartTree(t).1 <==> Willing(t)
    ensures Willing(t) ==> StartTree(t).0 == Raised(t)
    ensures Started(t, 0) == FirstUnwilling(t.kids)
  {
    var n := FirstUnwilling(t.kids);
    forall j | 0 <= j < |t.kids|
      ensures StartTree(t.kids[j]).1 <==> Willing(t.kids[j])
      ensures Willing(t.kids[j]) ==> StartTree(t.kids[j]).0 == Raised(t.kids[j])
    {
      StartSucceedsIff(t.kids[j]);
    }
    StartedIs(t, 0, n);
    if Willing(t) {
      assert KidsTried(t) == Raised(t).kids;
    }
  }

  /** What the loop over the children leaves, when the start fails somewhere. */
  lemma KidsAfterLoop(t: Tree, j: nat)
    requires AllStopped(t) && j < |t.kids|
    ensures var n := FirstUnwilling(t.kids);
      KidsTried(t)[j] == if j < n then Raised(t.kids[j]) else if j == n then StartTree(t.kids[j]).0 else t.kids[j]
  {
    StartSucceedsIff(t);
    StartSucceedsIff(t.kids[j]);
  }

  lemma StartTreeIs(t: Tree, kids: seq<Tree>, ok: bool)
    requires Begins(t, Start) && (ok <==> Started(t, 0) == |t.kids| && t.linksOk && t.startsOk)
    requires kids == if ok then KidsTried(t) else StopAll(KidsTried(t), Started(t, 0))
    ensures StartTree(t) == (t.(state := Ended(t, Start, ok), up := t.up || ok, kids := kids), ok)
  {
  }

  lemma FailedRoot(t: Tree)
    requires AllStopped(t) && !Willing(t)
    ensures StartTree(t) == (t.(state := if t.managed then Error else t.state,
                                kids := StopAll(KidsTried(t), FirstUnwilling(t.kids))), false)
  {
    StartSucceedsIff(t);
    EndedIs(t, false);
    StartTreeIs(t, StopAll(KidsTried(t), FirstUnwilling(t.kids)), false);
  }

  function KidAfterFailure(t: Tree, j: nat): Tree
    requires j < |t.kids|
  {
    var n := FirstUnwilling(t.kids);
    if j < n then StopTree(Raised(t.kids[j])).0 else if j == n then StartTree(t.kids[j]).0 else t.kids[j]
  }

  lemma FailedKids(t: Tree)
    requires AllStopped(t) && !Willing(t)
    ensures |StartTree(t).0.kids| == |t.kids|
    ensures forall j: nat :: j < |t.kids| ==> StartTree(t).0.kids[j] == KidAfterFailure(t, j)
  {
    FailedRoot(t);
    forall j: nat | j < |t.kids| ensures StopAll(KidsTried(t), FirstUnwilling(t.kids))[j] == KidAfterFailure(t, j) {
      KidsAfterLoop(t, j);
    }
  }

  /** All or nothing, if stops succeed: a start that fails at any depth leaves no service running, every
      state outside the failing path as it was, and that path in error. */
  lemma {:induction false} FailureIsUndone(t: Tree)
    requires AllStopped(t) && Obliging(t) && !Willing(t)
    ensures StartTree(t) == (AfterFailure(t), false)
  {
    FailedRoot(t);
    FailedKids(t);
    var n, s := FirstUnwilling(t.kids), StartTree(t).0;
    forall j: nat | j < |t.kids| ensures s.kids[j] == AfterFailure(t).kids[j] {
      if j < n {
        StopUndoesRaise(t.kids[j]);
      } else if j == n {
        FailureIsUndone(t.kids[j]);
      }
    }
    assert s.kids == AfterFailure(t).kids;
  }

  lemma StartIsAllOrNothing(t: Tree)
    requires AllStopped(t) && Obliging(t)
    ensures StartTree(t).1 <==> Willing(t)
    ensures if StartTree(t).1 then AllUp(StartTree(t).0) && StopTree(StartTree(t).0) == (t, true)
            else !AnyUp(StartTree(t).0)
  {
    StartSucceedsIff(t);
    if Willing(t) {
      RaisedIsUp(t);
      StopUndoesRaise(t);
    } else {
      FailureIsUndone(t);
      FailureIsDown(t);
    }
  }

  /** A service that refuses to stop is among those the rollback has to stop. */
  predicate Stuck(t: Tree) {
    var n := FirstUnwilling(t.kids);
    (exists j :: 0 <= j < n && !Obliging(t.kids[j])) || (n < |t.kids| && Stuck(t.kids[n]))
  }

  /** Without that assumption: a failed start leaves something running exactly if a service started
      before the failure refuses to stop. */
  lemma {:induction false} FailureLeavesUpIff(t: Tree)
    requires AllStopped(t) && !Willing(t)
    ensures AnyUp(StartTree(t).0) <==> Stuck(t)
  {
    FailedRoot(t);
    FailedKids(t);
    var n, s := FirstUnwilling(t.kids), StartTree(t).0;
    forall j: nat | j < |t.kids|
      ensures AnyUp(s.kids[j]) <==> (j < n && !Obliging(t.kids[j])) || (j == n && Stuck(t.kids[j]))
    {
      if j < n {
        StopUndoesRaise(t.kids[j]);
      } else if j == n {
        FailureLeavesUpIff(t.kids[j]);
      } else {
        StoppedIsDown(t.kids[j]);
      }
    }
    if Stuck(t) && !(n < |t.kids| && Stuck(t.kids[n])) {
      var j :| 0 <= j < n && !Obliging(t.kids[j]);
      assert AnyUp(s.kids[j]);
    }
  }

  /** A managed service whose start failed can neither be started nor stopped again. */
  lemma ErrorIsFinal(t: Tree)
    requires AllStopped(t) && t.managed && !Willing(t)
    ensures var s := StartTree(t).0; StartTree(s) == (s, false) && StopTree(s) == (s, false)
  {
    FailedRoot(t);
  }

  /** The loop depends on the children alone. */
  lemma {:induction false} SameLoop(t: Tree, u: Tree, i: nat)
    requires t.kids == u.kids && i <= |t.kids|
    ensures Started(t, i) == Started(u, i)
    decreases |t.kids| - i
  {
    if i < |t.kids| {
      SameLoop(t, u, i + 1);
    }
  }
}

/** The objects themselves. */
module Devices {
  import opened ServiceTree

  class Service {
    const managed: bool
    const linksOk: bool
    const startsOk: bool
    const stopsOk: bool
    const kids: seq<Service>
    var state: State
    var up: bool
    ghost const height: nat
    ghost const repr: set<Service>

    /** The children are trees of their own, apart from each other. */
    ghost predicate Shape()
      decreases height
    {
      && this in repr
      && (forall j :: 0 <= j < |kids| ==>
            kids[j].height < height && kids[j].repr < repr && this !in kids[j].repr && kids[j].Shape())
      && (forall j, k :: 0 <= j < k < |kids| ==> kids[j].repr !! kids[k].repr)
    }

    ghost function Value(): Tree
      requires Shape()
      reads repr
      decreases height
    {
      Node(managed, state, up, linksOk, startsOk, stopsOk, KidValues())
    }

    ghost function KidValues(): (r: seq<Tree>)
      requires Shape()
      reads repr
      ensures |r| == |kids| && forall j :: 0 <= j < |r| ==> r[j] == kids[j].Value()
      decreases height, 0
    {
      seq(|kids|, j requires 0 <= j < |kids| reads repr => kids[j].Value())
    }

    constructor (managed: bool, state: State, linksOk: bool, startsOk: bool, stopsOk: bool, kids: seq<Service>,
        ghost height: nat)
      requires forall j :: 0 <= j < |kids| ==> kids[j].height < height && kids[j].Shape()
      requires forall j, k :: 0 <= j < k < |kids| ==> kids[j].repr !! kids[k].repr
      ensures Shape() && this.kids == kids && this.height == height
      ensures Value() == Node(managed, state, false, linksOk, startsOk, stopsOk, KidValues())
    {
      this.managed, this.state, this.linksOk, this.startsOk, this.stopsOk := managed, state, linksOk, startsOk, stopsOk;
      this.kids, this.height, up := kids, height, false;
      repr := {this} + set j, s | 0 <= j < |kids| && s in kids[j].repr :: s;
    }

    /** The loop over the children in do_start: stops at the first that fails. */
    method TryKids() returns (n: nat, ok: bool)
      requires Shape()
      modifies repr - {this}
      ensures n == Started(old(Value()), 0) && (ok <==> n == |kids|)
      ensures KidValues() == KidsTried(old(Value()))
      decreases height, 0
    {
      ghost var was := Value();
      n, ok := 0, true;
      while n < |kids| && ok
        invariant n <= |kids| && forall j :: 0 <= j < n ==> StartTree(was.kids[j]).1
        invariant !ok ==> n < |kids| && !StartTree(was.kids[n]).1
        invariant forall j :: 0 <= j < |kids| ==>
          kids[j].Value() == if j < n || (j == n && !ok) then StartTree(was.kids[j]).0 else was.kids[j]
        decreases |kids| - n, ok
      {
        ok := kids[n].StartService();
        if ok {
          n := n + 1;
        }
      }
      StartedIs(was, 0, n);
      assert KidValues() == KidsTried(was);
    }

    /** Stops the first n children, whether or not they let themselves be stopped. */
    method StopKids(n: nat) returns (ok: bool)
      requires Shape() && n <= |kids|
      modifies repr - {this}
      ensures KidValues() == StopAll(old(KidValues()), n)
      ensures ok <==> forall j :: 0 <= j < n ==> StopTree(old(KidValues())[j]).1
      decreases height, 0
    {
      ghost var was := KidValues();
      ok := true;
      for i := 0 to n
        invariant forall j :: 0 <= j < |kids| ==> kids[j].Value() == if j < i then StopTree(was[j]).0 else was[j]
        invariant ok <==> forall j :: 0 <= j < i ==> StopTree(was[j]).1
      {
        var stopped := kids[i].StopService();
        ok := ok && stopped;
      }
      assert KidValues() == StopAll(was, n);
    }

    /** Its own fields are not part of its children. */
    method SetOwn(during: State, isUp: bool)
      requires Shape()
      modifies this
      ensures state == during && up == isUp && KidValues() == old(KidValues())
    {
      ghost var was := KidValues();
      state, up := during, isUp;
      assert KidValues() == was;
    }

    /** op_start of the controller, if there is one. */
    method OpStart(e: Event) returns (ok: bool)
      requires Shape()
      modifies this
      ensures ok <==> Begins(old(Value()), e)
      ensures state == (if managed && ok then Transition(old(state), e).value else old(state))
      ensures up == old(up) && KidValues() == old(KidValues())
    {
      ok := true;
      if managed {
        var next := Transition(state, e);
        ok := next.Some?;
        if ok {
          SetOwn(next.value, up);
        }
      }
    }

    /** op_end of the controller, if there is one. */
    method OpEnd(ghost before: Tree, e: Event, status: bool)
      requires Shape() && before.managed == managed && Begins(before, e)
      requires state == if managed then Transition(before.state, e).value else before.state
      modifies this
      ensures state == ServiceTree.Ended(before, e, status) && up == old(up) && KidValues() == old(KidValues())
    {
      if managed {
        var next := Transition(state, if status then Success else Failure);
        if next.Some? {
          SetOwn(next.value, up);
        }
      }
    }

    /** Device::do_start. */
    method DoStart() returns (ok: bool)
      requires Shape()
      modifies repr
      ensures ok <==> Started(old(Value()), 0) == |kids| && linksOk && startsOk
      ensures state == old(state) && up == (old(up) || ok)
      ensures ok ==> KidValues() == KidsTried(old(Value()))
      ensures !ok ==> KidValues() == StopAll(KidsTried(old(Value())), Started(old(Value()), 0))
      decreases height, 1
    {
      var n: nat;
      n, ok := TryKids();
      ok := ok && linksOk && startsOk;
      if ok {
        SetOwn(state, true);
      } else {
        var _ := StopKids(n);
      }
    }

    method StartService() returns (ok: bool)
      requires Shape()
      modifies repr
      ensures (Value(), ok) == StartTree(old(Value()))
      decreases height, 2
    {
      ghost var was := Value();
      ok := OpStart(Start);
      if ok {
        SameLoop(Value(), was, 0);
        ok := DoStart();
        StartTreeIs(was, KidValues(), ok);
        OpEnd(was, Start, ok);
      }
    }

    /** Device::do_stop. */
    method DoStop() returns (ok: bool)
      requires Shape()
      modifies repr
      ensures ok <==> stopsOk && forall j :: 0 <= j < |kids| ==> StopTree(old(KidValues())[j]).1
      ensures state == old(state) && up == (old(up) && !stopsOk) && KidValues() == StopAll(old(KidValues()), |kids|)
      decreases height, 1
    {
      ok := StopKids(|kids|);
      if stopsOk {
        SetOwn(state, false);
      }
      ok := stopsOk && ok;
    }

    method StopService() returns (ok: bool)
      requires Shape()
      modifies repr
      ensures (Value(), ok) == StopTree(old(Value()))
      decreases height, 2
    {
      ghost var was := Value();
      ok := OpStart(Stop);
      if ok {
        ok := DoStop();
        OpEnd(was, Stop, ok);
      }
    }
  }
}
