/** The Lua global lock: a re-entrant lock over a condition variable, with a pair of operations that
    drop every level and take them all back. Each method below is one section run under the internal
    mutex; a thread that must wait leaves the section asleep and comes back through Recheck. */
module LuaGil {

  import opened Basics

  type Tid = nat

  /** The lock and its wait queue: `asleep` threads wait for a notification, `woken` ones have left the
      condition variable and will test the lock again. */
  datatype Gil = Gil(owner: Option<Tid>, depth: nat, asleep: set<Tid>, woken: set<Tid>) {
    predicate Owns(t: Tid) { depth > 0 && owner == Some(t) }

    function Sleep(t: Tid): Gil { this.(asleep := asleep + {t}, woken := woken - {t}) }

    function Take(t: Tid, n: nat): Gil {
      this.(owner := Some(t), depth := n, asleep := asleep - {t}, woken := woken - {t})
    }

    /** notify_one moves one sleeper, if there is any; it may be any of them. */
    predicate CanPick(pick: Option<Tid>) {
      if asleep == {} then pick == None else pick.Some? && pick.value in asleep
    }

    function Notify(pick: Option<Tid>): Gil {
      match pick
      case None => this
      case Some(t) => this.(asleep := asleep - {t}, woken := woken + {t})
    }
  }

  function LockStep(g: Gil, t: Tid): Gil {
    if g.Owns(t) then g.(depth := g.depth + 1)
    else WaitStep(g, t, 1)
  }

  /** Testing the lock: take it n deep if it is free, else sleep. */
  function WaitStep(g: Gil, t: Tid, n: nat): Gil {
    if g.depth == 0 then g.Take(t, n) else g.Sleep(t)
  }

  function UnlockStep(g: Gil, t: Tid, pick: Option<Tid>): Gil {
    if !g.Owns(t) then g
    else if g.depth > 1 then g.(depth := g.depth - 1)
    else g.(owner := None, depth := 0).Notify(pick)
  }

  function ReleaseStep(g: Gil, t: Tid, pick: Option<Tid>): Gil {
    if !g.Owns(t) then g else g.(owner := None, depth := 0).Notify(pick)
  }

  function RestoreStep(g: Gil, t: Tid, n: nat): Gil {
    if n == 0 then g else WaitStep(g, t, n)
  }

  /** What a call does to a thread that holds the lock, and that it does nothing else for any other: taking
      deepens, unlocking undoes that, and a release leaves the lock free at once. */
  lemma OwnerOnly(g: Gil, t: Tid, pick: Option<Tid>)
    requires g.CanPick(pick)
    ensures var owner := g.depth > 0 && g.owner == Some(t);
      && (owner ==> LockStep(g, t) == g.(depth := g.depth + 1) && UnlockStep(LockStep(g, t), t, pick) == g)
      && (!owner ==> UnlockStep(g, t, pick) == g && ReleaseStep(g, t, pick) == g)
      && (owner ==> ReleaseStep(g, t, pick).depth == 0 && ReleaseStep(g, t, pick).owner == None)
      && (!owner && g.depth > 0 ==> LockStep(g, t).owner == g.owner && LockStep(g, t).depth == g.depth)
      && (g.depth == 0 ==> LockStep(g, t).owner == Some(t) && LockStep(g, t).depth == 1)
      && (owner || g.depth == 0 ==> t !in LockStep(g, t).asleep || t in g.asleep)
  {
  }

  class Lock {
    var owner: Option<Tid>
    var depth: nat
    var asleep: set<Tid>
    var woken: set<Tid>

    ghost function State(): Gil
      reads this
    {
      Gil(owner, depth, asleep, woken)
    }

    constructor ()
      ensures State() == Gil(None, 0, {}, {})
    {
      owner, depth, asleep, woken := None, 0, {}, {};
    }

    method Acquire(self: Tid) returns (acquired: bool)
      modifies this
      ensures State() == LockStep(old(State()), self)
      ensures acquired <==> State().Owns(self)
    {
      if depth > 0 && owner == Some(self) {
        depth := depth + 1;
        return true;
      }
      acquired := Recheck(self, 1);
    }

    /** The condition variable's predicate loop: entered by a new waiter, and again at each wake-up,
        spurious or not. */
    method Recheck(self: Tid, n: nat) returns (acquired: bool)
      requires n > 0
      modifies this
      ensures State() == WaitStep(old(State()), self, n)
      ensures acquired <==> old(depth) == 0
    {
      if depth == 0 {
        owner, depth := Some(self), n;
        asleep, woken := asleep - {self}, woken - {self};
        return true;
      }
      asleep, woken := asleep + {self}, woken - {self};
      return false;
    }

    method NotifyOne() returns (pick: Option<Tid>)
      modifies this`asleep, this`woken
      ensures old(State()).CanPick(pick) && State() == old(State()).Notify(pick)
    {
      if asleep == {} {
        return None;
      }
      var t :| t in asleep;
      asleep, woken := asleep - {t}, woken + {t};
      return Some(t);
    }

    method Unlock(self: Tid) returns (pick: Option<Tid>)
      modifies this
      ensures State() == UnlockStep(old(State()), self, pick)
      ensures old(State()).Owns(self) && old(depth) == 1 ==> old(State()).CanPick(pick)
    {
      pick := None;
      if depth == 0 || owner != Some(self) {
        return;
      }
      depth := depth - 1;
      if depth == 0 {
        owner := None;
        pick := NotifyOne();
      }
    }

    /** Drops every level at once and says how many there were. */
    method ReleaseSave(self: Tid) returns (saved: nat, pick: Option<Tid>)
      modifies this
      ensures saved == if old(State()).Owns(self) then old(depth) else 0
      ensures State() == ReleaseStep(old(State()), self, pick)
      ensures old(State()).Owns(self) ==> old(State()).CanPick(pick)
    {
      saved, pick := 0, None;
      if depth == 0 || owner != Some(self) {
        return;
      }
      saved := depth;
      depth := 0;
      owner := None;
      pick := NotifyOne();
    }

    /** Takes back n levels; it has no re-entrant case, so a holder calling it would wait for itself. */
    method AcquireRestore(self: Tid, n: nat) returns (done: bool)
      modifies this
      ensures State() == RestoreStep(old(State()), self, n)
      ensures done <==> n == 0 || old(depth) == 0
    {
      if n == 0 {
        return true;
      }
      done := Recheck(self, n);
    }
  }
}

/** Threads using the lock through its two scope objects, LuaGilGuard and LuaGilRelease. */
module GilThreads {
  import opened Basics
  import opened LuaGil

  /** An open scope: a guard holds one level; a release remembers how many levels it dropped. */
  datatype Frame = Guard | Release(saved: nat)

  /** Between two of its own actions a thread runs, or waits inside lock() or acquire_restore(). */
  datatype Pc = Running | Locking | Restoring(n: nat)

  datatype Thread = Thread(frames: seq<Frame>, pc: Pc)

  datatype Sys = Sys(gil: Gil, threads: seq<Thread>)

  /** Scopes are well nested: only the innermost one may be closed. */
  datatype Step =
    | OpenGuard(t: Tid)
    | CloseGuard(t: Tid, pick: Option<Tid>)
    | OpenRelease(t: Tid, pick: Option<Tid>)
    | CloseRelease(t: Tid)
    | Wake(t: Tid)   // a notified or spuriously woken waiter tests the lock again

  /** Guards opened since the innermost open release. */
  function Held(frames: seq<Frame>): nat {
    if frames == [] || frames[|frames| - 1].Release? then 0 else 1 + Held(frames[..|frames| - 1])
  }

  predicate Enabled(s: Sys, step: Step) {
    && step.t < |s.threads|
    && var th := s.threads[step.t];
      match step
      case OpenGuard(t) => th.pc == Running
      case CloseGuard(t, pick) => th.pc == Running && th.frames != [] && th.frames[|th.frames| - 1] == Guard
        && (s.gil.Owns(t) && s.gil.depth == 1 ==> s.gil.CanPick(pick))
      case OpenRelease(t, pick) => th.pc == Running && (s.gil.Owns(t) ==> s.gil.CanPick(pick))
      case CloseRelease(t) => th.pc == Running && th.frames != [] && th.frames[|th.frames| - 1].Release?
      case Wake(t) => th.pc != Running
  }

  /** The thread after its section: the scope is entered or left only once the lock was obtained. */
  function After(th: Thread, wait: Pc, owns: bool): Thread {
    if !owns then th.(pc := wait)
    else if wait == Locking then Thread(th.frames + [Guard], Running)
    else if th.frames != [] then Thread(th.frames[..|th.frames| - 1], Running)
    else th.(pc := Running)
  }

  function Apply(s: Sys, step: Step): Sys
    requires Enabled(s, step)
  {
    var t, th := step.t, s.threads[step.t];
    match step
    case OpenGuard(_) =>
      var g := LockStep(s.gil, t);
      Sys(g, s.threads[t := After(th, Locking, g.Owns(t))])
    case CloseGuard(_, pick) =>
      Sys(UnlockStep(s.gil, t, pick), s.threads[t := Thread(th.frames[..|th.frames| - 1], Running)])
    case OpenRelease(_, pick) =>
      var saved := if s.gil.Owns(t) then s.gil.depth else 0;
      Sys(ReleaseStep(s.gil, t, pick), s.threads[t := Thread(th.frames + [Release(saved)], Running)])
    case CloseRelease(_) =>
      var n := th.frames[|th.frames| - 1].saved;
      var g := RestoreStep(s.gil, t, n);
      Sys(g, s.threads[t := After(th, Restoring(n), n == 0 || g.Owns(t))])
    case Wake(_) =>
      var g := WaitStep(s.gil, t, if th.pc == Locking then 1 else th.pc.n);
      Sys(g, s.threads[t := After(th, th.pc, g.Owns(t))])
  }

  function Start(n: nat): Sys { Sys(Gil(None, 0, {}, {}), seq(n, _ => Thread([], Running))) }

  /** `run` can be executed from s, one enabled step after the other, and ends in r. */
  predicate Runs(s: Sys, run: seq<Step>, r: Sys)
    decreases |run|
  {
    if run == [] then r == s
    else Enabled(s, run[0]) && Runs(Apply(s, run[0]), run[1..], r)
  }

  ghost predicate Reachable(s: Sys) {
    exists n: nat, run: seq<Step> :: Runs(Start(n), run, s)
  }

  // ---- the invariant ----

  /** Every open release remembers the guards it covers. */
  predicate SavedRight(frames: seq<Frame>) {
    forall i :: 0 <= i < |frames| && frames[i].Release? ==> frames[i].saved == Held(frames[..i])
  }

  predicate ThreadGood(g: Gil, t: Tid, th: Thread) {
    && SavedRight(th.frames)
    && (th.pc != Running <==> t in g.asleep + g.woken)
    && match th.pc
       case Running => if Held(th.frames) > 0 then g.Owns(t) && g.depth == Held(th.frames) else !g.Owns(t)
       case Locking => !g.Owns(t) && Held(th.frames) == 0
       case Restoring(n) => !g.Owns(t) && n > 0 && th.frames != [] && th.frames[|th.frames| - 1] == Release(n)
  }

  /** The queue is consistent, and no wake-up is lost: while the lock is
      free and threads sleep, one of them has been notified. */
  predicate QueueGood(g: Gil, n: nat) {
    && (g.depth > 0 <==> g.owner.Some?)
    && (g.depth > 0 ==> g.owner.value < n)
    && g.asleep !! g.woken
    && (forall t :: t in g.asleep + g.woken ==> t < n)
    && (g.depth == 0 && g.asleep != {} ==> g.woken != {})
  }

  predicate Inv(s: Sys) {
    && QueueGood(s.gil, |s.threads|)
    && forall t :: 0 <= t < |s.threads| ==> ThreadGood(s.gil, t, s.threads[t])
  }

  lemma {:induction false} HeldPush(frames: seq<Frame>, f: Frame)
    ensures Held(frames + [f]) == if f.Release? then 0 else 1 + Held(frames)
  {
    assert (frames + [f])[..|frames|] == frames;
  }

  lemma SavedPush(frames: seq<Frame>, f: Frame)
    requires SavedRight(frames) && (f.Release? ==> f.saved == Held(frames))
    ensures SavedRight(frames + [f])
  {
    var r := frames + [f];
    forall i | 0 <= i < |r| && r[i].Release?
      ensures r[i].saved == Held(r[..i])
    {
      assert i == |frames| ==> r[..i] == frames;
      assert i < |frames| ==> r[..i] == frames[..i];
    }
  }

  lemma SavedPop(frames: seq<Frame>)
    requires SavedRight(frames) && frames != []
    ensures SavedRight(frames[..|frames| - 1])
  {
    var r := frames[..|frames| - 1];
    forall i | 0 <= i < |r| && r[i].Release?
      ensures r[i].saved == Held(r[..i])
    {
      assert r[..i] == frames[..i];
    }
  }

  /** A section run by t leaves every other thread's relation to the lock as it was. */
  predicate OthersKept(g: Gil, h: Gil, t: Tid, n: nat) {
    forall u :: 0 <= u < n && u != t ==>
      && (u in g.asleep + g.woken <==> u in h.asleep + h.woken)
      && (g.Owns(u) <==> h.Owns(u))
      && (g.Owns(u) ==> g.depth == h.depth)
  }

  lemma InvFromParts(s: Sys, t: Tid, h: Gil, th: Thread)
    requires Inv(s) && t < |s.threads|
    requires QueueGood(h, |s.threads|) && OthersKept(s.gil, h, t, |s.threads|) && ThreadGood(h, t, th)
    ensures Inv(Sys(h, s.threads[t := th]))
  {
    var r := Sys(h, s.threads[t := th]);
    forall u | 0 <= u < |r.threads|
      ensures ThreadGood(r.gil, u, r.threads[u])
    {
      assert ThreadGood(s.gil, u, s.threads[u]);
    }
  }

  lemma OpenGuardKeeps(s: Sys, t: Tid)
    requires Inv(s) && Enabled(s, OpenGuard(t))
    ensures Inv(Apply(s, OpenGuard(t)))
  {
    var th, g := s.threads[t], LockStep(s.gil, t);
    assert ThreadGood(s.gil, t, th);
    HeldPush(th.frames, Guard);
    SavedPush(th.frames, Guard);
    InvFromParts(s, t, g, After(th, Locking, g.Owns(t)));
  }

  lemma CloseGuardKeeps(s: Sys, t: Tid, pick: Option<Tid>)
    requires Inv(s) && Enabled(s, CloseGuard(t, pick))
    ensures Inv(Apply(s, CloseGuard(t, pick)))
  {
    var th := s.threads[t];
    assert ThreadGood(s.gil, t, th);
    SavedPop(th.frames);
    InvFromParts(s, t, UnlockStep(s.gil, t, pick), Thread(th.frames[..|th.frames| - 1], Running));
  }

  lemma OpenReleaseKeeps(s: Sys, t: Tid, pick: Option<Tid>)
    requires Inv(s) && Enabled(s, OpenRelease(t, pick))
    ensures Inv(Apply(s, OpenRelease(t, pick)))
  {
    var th := s.threads[t];
    assert ThreadGood(s.gil, t, th);
    var saved := if s.gil.Owns(t) then s.gil.depth else 0;
    HeldPush(th.frames, Release(saved));
    SavedPush(th.frames, Release(saved));
    InvFromParts(s, t, ReleaseStep(s.gil, t, pick), Thread(th.frames + [Release(saved)], Running));
  }

  lemma CloseReleaseKeeps(s: Sys, t: Tid)
    requires Inv(s) && Enabled(s, CloseRelease(t))
    ensures Inv(Apply(s, CloseRelease(t)))
  {
    var th := s.threads[t];
    assert ThreadGood(s.gil, t, th);
    SavedPop(th.frames);
    var n := th.frames[|th.frames| - 1].saved;
    var g := RestoreStep(s.gil, t, n);
    InvFromParts(s, t, g, After(th, Restoring(n), n == 0 || g.Owns(t)));
  }

  lemma WakeKeeps(s: Sys, t: Tid)
    requires Inv(s) && Enabled(s, Wake(t))
    ensures Inv(Apply(s, Wake(t)))
  {
    var th := s.threads[t];
    assert ThreadGood(s.gil, t, th);
    HeldPush(th.frames, Guard);
    SavedPush(th.frames, Guard);
    if th.frames != [] {
      SavedPop(th.frames);
    }
    var g := WaitStep(s.gil, t, if th.pc == Locking then 1 else th.pc.n);
    InvFromParts(s, t, g, After(th, th.pc, g.Owns(t)));
  }

  lemma StepKeepsInv(s: Sys, step: Step)
    requires Inv(s) && Enabled(s, step)
    ensures Inv(Apply(s, step))
  {
    match step
    case OpenGuard(t) => OpenGuardKeeps(s, t);
    case CloseGuard(t, pick) => CloseGuardKeeps(s, t, pick);
    case OpenRelease(t, pick) => OpenReleaseKeeps(s, t, pick);
    case CloseRelease(t) => CloseReleaseKeeps(s, t);
    case Wake(t) => WakeKeeps(s, t);
  }

  lemma {:induction false} RunKeepsInv(s: Sys, run: seq<Step>, r: Sys)
    requires Inv(s) && Runs(s, run, r)
    ensures Inv(r)
    decreases |run|
  {
    if run != [] {
      StepKeepsInv(s, run[0]);
      RunKeepsInv(Apply(s, run[0]), run[1..], r);
    }
  }

  lemma ReachableInv(s: Sys)
    requires Reachable(s)
    ensures Inv(s)
  {
    var n: nat, run: seq<Step> :| Runs(Start(n), run, s);
    RunKeepsInv(Start(n), run, s);
  }

  // ---- what every reachable state guarantees ----

  /** The thread is executing inside a guard that no release suspends. */
  predicate InRegion(s: Sys, t: Tid) {
    t < |s.threads| && s.threads[t].pc == Running && Held(s.threads[t].frames) > 0
  }

  lemma MutualExclusion(s: Sys, t: Tid, u: Tid)
    requires Reachable(s) && InRegion(s, t) && InRegion(s, u)
    ensures t == u && s.gil.Owns(t) && s.gil.depth == Held(s.threads[t].frames)
  {
    ReachableInv(s);
    assert ThreadGood(s.gil, t, s.threads[t]) && ThreadGood(s.gil, u, s.threads[u]);
  }

  /** The lock is held exactly while some running thread is in its region. */
  lemma HeldMeansInRegion(s: Sys)
    requires Reachable(s)
    ensures s.gil.depth > 0 <==> exists t: Tid :: InRegion(s, t)
  {
    ReachableInv(s);
    if s.gil.depth > 0 {
      var t := s.gil.owner.value;
      assert ThreadGood(s.gil, t, s.threads[t]);
      assert InRegion(s, t);
    }
    forall t: Tid | InRegion(s, t)
      ensures s.gil.depth > 0
    {
      assert ThreadGood(s.gil, t, s.threads[t]);
    }
  }

  /** Leaving a release, at once or after waiting, gives back exactly the depth it saved: the number
      of guards that were open around it. */
  lemma ReleaseGivesBack(s: Sys, step: Step, t: Tid)
    requires Reachable(s) && Enabled(s, step) && step.t == t
    requires step.CloseRelease? || (step.Wake? && s.threads[t].pc.Restoring?)
    requires Apply(s, step).threads[t].pc == Running
    ensures var r, frames := Apply(s, step), s.threads[t].frames;
      && frames != [] && frames[|frames| - 1].Release?
      && var saved := frames[|frames| - 1].saved;
      && r.threads[t].frames == frames[..|frames| - 1]
      && Held(r.threads[t].frames) == saved
      && (if saved > 0 then r.gil.Owns(t) && r.gil.depth == saved else !r.gil.Owns(t))
  {
    ReachableInv(s);
    var frames := s.threads[t].frames;
    assert ThreadGood(s.gil, t, s.threads[t]);
    assert frames[..|frames|] == frames;
    assert frames[|frames| - 1].saved == Held(frames[..|frames| - 1]);
  }

  predicate Waits(s: Sys, t: Tid) { t < |s.threads| && s.threads[t].pc != Running }

  /** Well-nested scopes never make a thread wait for itself, though acquire_restore is not re-entrant. */
  lemma WaiterHoldsNothing(s: Sys, t: Tid)
    requires Reachable(s) && Waits(s, t)
    ensures !s.gil.Owns(t)
    ensures t in s.gil.asleep || t in s.gil.woken
  {
    ReachableInv(s);
    assert ThreadGood(s.gil, t, s.threads[t]);
  }

  /** No wake-up is lost: whenever the lock is free and some thread waits for it, some waiter has been
      notified, and testing the lock again gives it to that waiter. */
  lemma NoLostWakeUp(s: Sys, t: Tid) returns (u: Tid)
    requires Reachable(s) && s.gil.depth == 0 && Waits(s, t)
    ensures u in s.gil.woken && Waits(s, u) && Enabled(s, Wake(u))
    ensures Apply(s, Wake(u)).gil.Owns(u) && Apply(s, Wake(u)).threads[u].pc == Running
  {
    ReachableInv(s);
    assert ThreadGood(s.gil, t, s.threads[t]);
    u :| u in s.gil.woken;
    assert ThreadGood(s.gil, u, s.threads[u]);
  }

  /** No deadlock: in every reachable state some thread runs, or a notified waiter gets the lock. */
  lemma NeverStuck(s: Sys) returns (u: Tid)
    requires Reachable(s) && |s.threads| > 0
    ensures u < |s.threads|
    ensures s.threads[u].pc == Running || (u in s.gil.woken && Apply(s, Wake(u)).threads[u].pc == Running)
  {
    ReachableInv(s);
    if s.gil.depth > 0 {
      u := s.gil.owner.value;
      assert ThreadGood(s.gil, u, s.threads[u]);
    } else if Waits(s, 0) {
      u := NoLostWakeUp(s, 0);
    } else {
      u := 0;
    }
  }
}
