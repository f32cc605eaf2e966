/** The two-level locking of the disk backend cannot block itself: whoever
    holds a session's lock waits for nothing. */
module DiskProgress {
  import opened Prelude
  import opened DiskSteps
  import opened DiskInvariants

  /** How many steps of its own a thread has left, if a writer starts nothing
      further in its section. */
  function StepsLeft(th: Thread): nat {
    match th
    case Idle => 0
    case Found(_, _, _) => 5
    case Locked(_, _, _) => 4
    case Read(_, _, _, _) => 3
    case Written(_, _) => 2
    case Leaving => 1
    case DrainLocked(_) => 3
    case DrainRead(_, _) => 2
    case Drained(_) => 1
    case Writing => 1
    case Removing(_, _) => 4
    case HookLocked(_, _) => 3
    case HookDeleted(_) => 2
    case Cleaned(_) => 2
  }

  /** The session lock a thread is about to take. */
  function Wants(th: Thread): Option<Ref> {
    match th
    case Found(_, ref, _) => Some(ref)
    case Removing(_, ref) => Some(ref)
    case _ => None
  }

  function Finish(th: Thread): Move {
    if th.Writing? then EndWrite else Next
  }

  /** The thread's own step brings it nearer its end. */
  predicate Advances(s: Sys, t: Tid) {
    StepsLeft(Step(s, Action(t, Finish(s.At(t)))).At(t)) < StepsLeft(s.At(t))
  }

  lemma FreeAdvances(s: Sys, t: Tid)
    requires Inv(s) && !s.At(t).Idle?
    requires Wants(s.At(t)).Some? ==> Wants(s.At(t)).value !in s.sh.locked
    ensures Advances(s, t)
  {
    assert DataOk(s.sh, s.At(t));
  }

  lemma HolderWantsNothing(s: Sys, ref: Ref)
    requires Inv(s) && ref in s.sh.locked
    ensures var th := s.At(s.sh.locked[ref]); Holding(th) == Some(ref) && Wants(th).None?
  {
    var u := s.sh.locked[ref];
    assert LocksOk(s.sh, u, s.At(u));
  }

  /** In every state any interleaving reaches, a thread that is inside an
      operation can take its next step, or else waits for a session's lock whose
      holder can; either step brings its thread nearer the end. */
  lemma NeverStuck(acts: seq<Action>, t: Tid)
    requires !After(Start(), acts).At(t).Idle?
    ensures var s := After(Start(), acts);
            || Advances(s, t)
            || (Wants(s.At(t)).Some? && Wants(s.At(t)).value in s.sh.locked
                && s.sh.locked[Wants(s.At(t)).value] != t && Advances(s, s.sh.locked[Wants(s.At(t)).value]))
  {
    var s := After(Start(), acts);
    AlwaysInv(acts);
    if Wants(s.At(t)).Some? && Wants(s.At(t)).value in s.sh.locked {
      HolderWantsNothing(s, Wants(s.At(t)).value);
      FreeAdvances(s, s.sh.locked[Wants(s.At(t)).value]);
    } else {
      FreeAdvances(s, t);
    }
  }

  /** `n` steps of one thread in a row. */
  function Alone(s: Sys, t: Tid, n: nat): Sys
    decreases n
  {
    if n == 0 then s else Alone(Step(s, Action(t, Next)), t, n - 1)
  }

  lemma AloneStep(s: Sys, t: Tid, k: nat)
    ensures Alone(s, t, k + 1) == Alone(Step(s, Action(t, Next)), t, k)
  {
  }

  /** A holder gives its session's lock back after at most as many steps of its
      own as it has left, whatever the others wait for. */
  lemma {:induction false} HolderFinishes(s: Sys, t: Tid, n: nat)
    requires Inv(s) && Holding(s.At(t)).Some? && StepsLeft(s.At(t)) <= n
    ensures exists k: nat :: k <= n && Holding(Alone(s, t, k).At(t)).None? && Inv(Alone(s, t, k))
    decreases n
  {
    FreeAdvances(s, t);
    var s' := Step(s, Action(t, Next));
    StepInv(s, Action(t, Next));
    if Holding(s'.At(t)).None? {
      AloneStep(s, t, 0);
      assert Alone(s, t, 1) == s';
    } else {
      HolderFinishes(s', t, n - 1);
      var k: nat :| k <= n - 1 && Holding(Alone(s', t, k).At(t)).None? && Inv(Alone(s', t, k));
      AloneStep(s, t, k);
    }
  }
}
