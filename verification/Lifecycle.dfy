/** The client's life: polling, keep-alive and Close. The sections under c.mu
    are methods of a class; a step system then interleaves any number of calls
    with the keep-alive goroutine, one step per lock operation and effect. */
module Lifecycle {
  import opened Prelude

  datatype State = Idle | Polling | Closed

  datatype Outcome = Ok | AlreadyPolling | ClientClosed

  /** The fields c.mu guards. `loops` tells of every poll loop ever started
      whether its context was cancelled; `pollCancel` names the loop it cancels;
      `canKeepAlive` is keepAliveCancel != nil. */
  datatype Core = Core(state: State, pollCancel: Option<nat>, loops: seq<bool>, canKeepAlive: bool, keepAliveCancelled: bool)

  function CancelPoll(c: Core): Core {
    match c.pollCancel
    case Some(i) => c.(loops := if i < |c.loops| then c.loops[i := true] else c.loops, pollCancel := None)
    case None => c
  }

  function Start(c: Core): (Core, Outcome) {
    match c.state
    case Polling => (c, AlreadyPolling)
    case Closed => (c, ClientClosed)
    case Idle => (c.(loops := c.loops + [false], pollCancel := Some(|c.loops|), state := Polling), Ok)
  }

  function Stop(c: Core): (Core, Outcome) {
    match c.state
    case Closed => (c, ClientClosed)
    case Idle => (c, Ok)
    case Polling => (CancelPoll(c).(state := Idle), Ok)
  }

  /** The cancellations Close does before it sets the state. */
  function CancelAll(c: Core): Core {
    CancelPoll(c).(canKeepAlive := false, keepAliveCancelled := c.keepAliveCancelled || c.canKeepAlive)
  }

  // The sections as code

  class Client {
    var state: State
    var pollCancel: Option<nat>
    var loops: seq<bool>
    var canKeepAlive: bool
    var keepAliveCancelled: bool

    constructor (keepAlive: bool)
      ensures Fields() == NewCore(keepAlive)
    {
      state, pollCancel, loops, canKeepAlive, keepAliveCancelled := Idle, None, [], keepAlive, false;
    }

    function Fields(): Core
      reads this
    {
      Core(state, pollCancel, loops, canKeepAlive, keepAliveCancelled)
    }

    /** cancel() of one poll loop's context. */
    method Cancel(i: nat)
      modifies `loops
      ensures loops == if i < |old(loops)| then old(loops)[i := true] else old(loops)
    {
      if i < |loops| {
        loops := loops[i := true];
      }
    }

    method StartPolling() returns (r: Outcome)
      modifies this
      ensures (Fields(), r) == Start(old(Fields()))
    {
      match state
      case Polling => return AlreadyPolling;
      case Closed => return ClientClosed;
      case Idle =>
        pollCancel := Some(|loops|);
        loops := loops + [false];
        state := Polling;
        r := Ok;
    }

    method StopPolling() returns (r: Outcome)
      modifies this
      ensures (Fields(), r) == Stop(old(Fields()))
    {
      match state
      case Closed => return ClientClosed;
      case Idle => return Ok;
      case Polling =>
        if pollCancel.Some? {
          Cancel(pollCancel.value);
          pollCancel := None;
        }
        state := Idle;
        r := Ok;
    }

    /** Close up to its unlock: whether this call closed the client, and
        whether it has a keep-alive goroutine to wait for. */
    method BeginClose() returns (closed: bool, join: bool)
      modifies this
      ensures closed == !old(state).Closed? && join == (closed && old(canKeepAlive))
      ensures Fields() == if closed then CancelAll(old(Fields())).(state := Closed) else old(Fields())
    {
      if state == Closed {
        return false, false;
      }
      join := false;
      if pollCancel.Some? {
        Cancel(pollCancel.value);
        pollCancel := None;
      }
      if canKeepAlive {
        keepAliveCancelled := true;
        canKeepAlive := false;
        join := true;
      }
      state := Closed;
      closed := true;
    }
  }

  function NewCore(keepAlive: bool): Core {
    Core(Idle, None, [], keepAlive, false)
  }

  // The step system

  type Tid = nat

  datatype Call = CallStart | CallStop | CallClose

  /** What a Close does after its unlock. */
  datatype Rest = Nothing | Join | Deregister

  datatype Thread =
    | Out
    | Locked(call: Call)
    | Cancelling(join: bool)
    | Unlocking(rest: Rest)
    | Joining
    | Deregistering
    | Deregistered

  /** The keep-alive goroutine: none was started; in its select; waiting for
      the read lock; holding it before and after reading the state; in the
      registration call; about to close its channel; gone. */
  datatype Goroutine = Absent | Selecting | Wanting | Checking | SawOpen | SawClosed | Registering | Returning | Exited

  /** `closer` is the call that closed the client; `deregistrations` counts the
      calls that were begun. */
  datatype Sys = Sys(core: Core, writer: Option<Tid>, ka: Goroutine, threads: map<Tid, Thread>,
                     closer: Option<Tid>, deregistrations: nat)
  {
    function At(t: Tid): Thread {
      if t in threads then threads[t] else Out
    }

    function Put(t: Tid, th: Thread): Sys {
      this.(threads := threads[t := th])
    }
  }

  datatype Action = Begin(t: Tid, call: Call) | Continue(t: Tid) | Tick | CtxDone | GoOn

  predicate Reading(ka: Goroutine) {
    ka.Checking? || ka.SawOpen? || ka.SawClosed?
  }

  predicate Ended(ka: Goroutine) {
    ka.Absent? || ka.Exited?
  }

  function Proceed(s: Sys, t: Tid): Sys {
    match s.At(t)
    case Locked(CallStart) => s.(core := Start(s.core).0).Put(t, Unlocking(Nothing))
    case Locked(CallStop) => s.(core := Stop(s.core).0).Put(t, Unlocking(Nothing))
    case Locked(CallClose) =>
      if s.core.state.Closed? then s.Put(t, Unlocking(Nothing))
      else s.(core := CancelAll(s.core), closer := Some(t)).Put(t, Cancelling(s.core.canKeepAlive))
    case Cancelling(join) =>
      s.(core := s.core.(state := Closed)).Put(t, Unlocking(if join then Join else Deregister))
    case Unlocking(rest) =>
      s.(writer := None).Put(t, match rest case Nothing => Out case Join => Joining case Deregister => Deregistering)
    case Joining => if s.ka.Exited? then s.Put(t, Deregistering) else s
    case Deregistering => s.(deregistrations := s.deregistrations + 1).Put(t, Deregistered)
    case Deregistered => s.Put(t, Out)
    case Out => s
  }

  function GoroutineStep(s: Sys): Goroutine {
    match s.ka
    case Wanting => if s.writer.None? then Checking else Wanting
    case Checking => if s.core.state.Closed? then SawClosed else SawOpen
    case SawOpen => Registering
    case SawClosed => Returning
    case Registering => Selecting
    case Returning => Exited
    case _ => s.ka
  }

  function Step(s: Sys, a: Action): Sys {
    match a
    case Begin(t, call) =>
      if s.At(t).Out? && s.writer.None? && !Reading(s.ka) then s.(writer := Some(t)).Put(t, Locked(call)) else s
    case Continue(t) => Proceed(s, t)
    case Tick => if s.ka.Selecting? then s.(ka := Wanting) else s
    case CtxDone => if s.ka.Selecting? && s.core.keepAliveCancelled then s.(ka := Returning) else s
    case GoOn => s.(ka := GoroutineStep(s))
  }

  function After(s: Sys, acts: seq<Action>): Sys {
    if acts == [] then s else Step(After(s, acts[..|acts| - 1]), acts[|acts| - 1])
  }

  function Initial(keepAlive: bool): Sys {
    Sys(NewCore(keepAlive), None, if keepAlive then Selecting else Absent, map[], None, 0)
  }

  // What every interleaving keeps

  /** Of all poll loops only the one named by pollCancel is not cancelled. */
  ghost predicate LoopsOk(c: Core) {
    && (c.pollCancel.Some? ==> c.pollCancel.value < |c.loops|)
    && forall i :: 0 <= i < |c.loops| ==> (!c.loops[i] <==> c.pollCancel == Some(i))
  }

  predicate HoldsLock(th: Thread) {
    th.Locked? || th.Cancelling? || th.Unlocking?
  }

  predicate Closing(th: Thread) {
    th.Cancelling? || th.Joining? || th.Deregistering? || (th.Unlocking? && !th.rest.Nothing?)
  }

  ghost predicate ThreadOk(s: Sys, t: Tid, th: Thread) {
    && (s.writer == Some(t) <==> HoldsLock(th))
    && (Closing(th) || th.Deregistered? ==> s.closer == Some(t))
    && (Closing(th) ==> s.deregistrations == 0)
    && (th.Cancelling? ==> s.core.pollCancel.None? && !s.core.state.Closed? && (th.join || s.ka.Absent?))
    && (th == Cancelling(true) || th == Unlocking(Join) || th.Joining? ==> s.core.keepAliveCancelled && !s.ka.Absent?)
    && (th == Unlocking(Deregister) || th.Deregistering? || th.Deregistered? ==> Ended(s.ka))
  }

  predicate MidClose(s: Sys) {
    s.closer.Some? && s.At(s.closer.value).Cancelling?
  }

  /** The goroutine as long as nobody closes the client. */
  predicate Alive(ka: Goroutine) {
    !Ended(ka) && !ka.SawClosed? && !ka.Returning?
  }

  ghost predicate SharedOk(s: Sys) {
    && LoopsOk(s.core)
    && (Reading(s.ka) ==> s.writer.None?)
    && s.deregistrations <= 1
    && (s.deregistrations == 1 ==> s.closer.Some? && Ended(s.ka))
    && (s.closer.None? ==>
          !s.core.state.Closed? && !s.core.keepAliveCancelled && (if s.core.canKeepAlive then Alive(s.ka) else s.ka.Absent?))
    && (s.closer.Some? ==> s.core.pollCancel.None? && (s.core.state.Closed? || MidClose(s)))
    && (s.closer.Some? && !Ended(s.ka) ==> s.core.keepAliveCancelled)
    && (MidClose(s) || (s.core.state.Polling? <==> s.core.pollCancel.Some?))
  }

  ghost predicate Inv(s: Sys) {
    SharedOk(s) && forall t :: ThreadOk(s, t, s.At(t))
  }

  lemma CancelPollOk(c: Core)
    requires LoopsOk(c)
    ensures LoopsOk(CancelPoll(c)) && CancelPoll(c).pollCancel.None? && CancelPoll(c).state == c.state
  {
  }

  lemma StartOk(c: Core)
    requires LoopsOk(c) && (c.state.Polling? <==> c.pollCancel.Some?)
    ensures var c' := Start(c).0; LoopsOk(c') && (c'.state.Polling? <==> c'.pollCancel.Some?)
  {
  }

  lemma StopOk(c: Core)
    requires LoopsOk(c) && (c.state.Polling? <==> c.pollCancel.Some?)
    ensures var c' := Stop(c).0; LoopsOk(c') && (c'.state.Polling? <==> c'.pollCancel.Some?)
  {
    CancelPollOk(c);
  }

  /** Only the lock holder finds itself inside a section. */
  lemma Exclusive(s: Sys, t: Tid, u: Tid)
    requires Inv(s) && HoldsLock(s.At(t)) && t != u
    ensures !HoldsLock(s.At(u)) && !MidClose(s.(closer := Some(u)))
  {
    assert ThreadOk(s, t, s.At(t)) && ThreadOk(s, u, s.At(u));
  }

  lemma BeginInv(s: Sys, t: Tid, call: Call)
    requires Inv(s)
    ensures Inv(Step(s, Begin(t, call)))
  {
    var s' := Step(s, Begin(t, call));
    assert ThreadOk(s, t, s.At(t));
    forall u ensures ThreadOk(s', u, s'.At(u)) {
      assert ThreadOk(s, u, s.At(u));
    }
  }

  lemma PollingSectionInv(s: Sys, t: Tid)
    requires Inv(s) && (s.At(t) == Locked(CallStart) || s.At(t) == Locked(CallStop))
    ensures Inv(Proceed(s, t))
  {
    var s' := Proceed(s, t);
    assert ThreadOk(s, t, s.At(t));
    if s.closer.Some? && s.closer.value != t {
      Exclusive(s, t, s.closer.value);
    }
    StartOk(s.core);
    StopOk(s.core);
    forall u ensures ThreadOk(s', u, s'.At(u)) {
      assert ThreadOk(s, u, s.At(u));
    }
  }

  lemma CloseSectionInv(s: Sys, t: Tid)
    requires Inv(s) && s.At(t) == Locked(CallClose)
    ensures Inv(Proceed(s, t))
  {
    var s' := Proceed(s, t);
    assert ThreadOk(s, t, s.At(t));
    if s.closer.Some? && s.closer.value != t {
      Exclusive(s, t, s.closer.value);
    }
    CancelPollOk(s.core);
    forall u ensures ThreadOk(s', u, s'.At(u)) {
      assert ThreadOk(s, u, s.At(u));
    }
  }

  lemma ReleaseInv(s: Sys, t: Tid)
    requires Inv(s) && (s.At(t).Cancelling? || s.At(t).Unlocking?)
    ensures Inv(Proceed(s, t))
  {
    var s' := Proceed(s, t);
    assert ThreadOk(s, t, s.At(t));
    if s.closer.Some? && s.closer.value != t {
      Exclusive(s, t, s.closer.value);
    }
    forall u ensures ThreadOk(s', u, s'.At(u)) {
      assert ThreadOk(s, u, s.At(u));
    }
  }

  lemma OutsideInv(s: Sys, t: Tid)
    requires Inv(s) && !HoldsLock(s.At(t))
    ensures Inv(Proceed(s, t))
  {
    var s' := Proceed(s, t);
    assert ThreadOk(s, t, s.At(t));
    forall u ensures ThreadOk(s', u, s'.At(u)) {
      assert ThreadOk(s, u, s.At(u));
    }
  }

  lemma GoroutineInv(s: Sys, ka: Goroutine)
    requires Inv(s)
    requires ka == GoroutineStep(s) || (s.ka.Selecting? && (ka.Wanting? || (ka.Returning? && s.core.keepAliveCancelled)))
    ensures Inv(s.(ka := ka))
  {
    var s' := s.(ka := ka);
    forall u ensures ThreadOk(s', u, s'.At(u)) {
      assert ThreadOk(s, u, s.At(u));
    }
  }

  lemma StepInv(s: Sys, a: Action)
    requires Inv(s)
    ensures Inv(Step(s, a))
  {
    match a
    case Begin(t, call) => BeginInv(s, t, call);
    case Continue(t) =>
      if s.At(t).Locked? {
        match s.At(t).call {
          case CallStart => PollingSectionInv(s, t);
          case CallStop => PollingSectionInv(s, t);
          case CallClose => CloseSectionInv(s, t);
        }
      } else if HoldsLock(s.At(t)) {
        ReleaseInv(s, t);
      } else {
        OutsideInv(s, t);
      }
    case Tick =>
      if s.ka.Selecting? {
        GoroutineInv(s, Wanting);
      }
    case CtxDone =>
      if s.ka.Selecting? && s.core.keepAliveCancelled {
        GoroutineInv(s, Returning);
      }
    case GoOn => GoroutineInv(s, GoroutineStep(s));
  }

  lemma {:induction false} AlwaysInv(keepAlive: bool, acts: seq<Action>)
    ensures Inv(After(Initial(keepAlive), acts))
  {
    if acts != [] {
      var init := acts[..|acts| - 1];
      AlwaysInv(keepAlive, init);
      StepInv(After(Initial(keepAlive), init), acts[|acts| - 1]);
    }
  }

  // The promises

  lemma {:induction false} NeverFewer(s: Sys, acts: seq<Action>, i: nat)
    requires i <= |acts|
    ensures After(s, acts[..i]).deregistrations <= After(s, acts).deregistrations
  {
    if i == |acts| {
      assert acts[..i] == acts;
    } else {
      var init := acts[..|acts| - 1];
      NeverFewer(s, init, i);
      assert init[..i] == acts[..i];
    }
  }

  /** However many Close calls run, the client deregisters at most once; and
      from the start of that call on no re-registration is in progress. */
  lemma DeregistersOnce(keepAlive: bool, acts: seq<Action>, i: nat)
    requires i <= |acts|
    ensures var before, now := After(Initial(keepAlive), acts[..i]), After(Initial(keepAlive), acts);
            && now.deregistrations <= 1
            && (before.deregistrations == 1 ==> !now.ka.Registering?)
  {
    AlwaysInv(keepAlive, acts);
    NeverFewer(Initial(keepAlive), acts, i);
  }

  /** With the lock free the client is polling iff exactly one poll loop has not
      been cancelled, and that is the loop StopPolling and Close would cancel. */
  lemma PollingIffOneLoop(keepAlive: bool, acts: seq<Action>)
    requires After(Initial(keepAlive), acts).writer.None?
    ensures var c := After(Initial(keepAlive), acts).core;
            && (c.state.Polling? <==> exists i :: 0 <= i < |c.loops| && !c.loops[i])
            && (forall i, j :: 0 <= i < |c.loops| && 0 <= j < |c.loops| && !c.loops[i] && !c.loops[j] ==> i == j)
            && (forall i :: 0 <= i < |c.loops| && !c.loops[i] ==> c.pollCancel == Some(i))
  {
    var s := After(Initial(keepAlive), acts);
    AlwaysInv(keepAlive, acts);
    if s.closer.Some? {
      assert ThreadOk(s, s.closer.value, s.At(s.closer.value));
    }
    if s.core.pollCancel.Some? {
      assert !s.core.loops[s.core.pollCancel.value];
    }
  }

  /** How many steps the goroutine still takes once the client is closed. */
  function Rank(ka: Goroutine): nat {
    match ka
    case SawOpen => 8
    case Registering => 7
    case Selecting => 6
    case Wanting => 5
    case Checking => 4
    case SawClosed => 3
    case Returning => 2
    case Exited => 0
    case Absent => 0
  }

  /** An action of the goroutine that is not the end of the run. */
  predicate Moves(s: Sys, a: Action) {
    (a.Tick? || a.CtxDone? || a.GoOn?) && Step(s, a).ka != s.ka
  }

  /** Close is never stuck: while some Close waits for the goroutine, either the
      goroutine has a step, or it waits for the lock of a call whose own next
      step is enabled; every step of the goroutine brings it nearer its end, no
      other step takes it back, and at its end the waiting call goes on. */
  lemma CloseNeverStuck(keepAlive: bool, acts: seq<Action>, t: Tid, a: Action)
    requires After(Initial(keepAlive), acts).At(t).Joining?
    ensures var s := After(Initial(keepAlive), acts);
            && (s.ka.Exited? || (exists b :: Moves(s, b)) ||
                (s.writer.Some? && Proceed(s, s.writer.value).At(s.writer.value) != s.At(s.writer.value)))
            && Rank(Step(s, a).ka) <= Rank(s.ka)
            && (Moves(s, a) ==> Rank(Step(s, a).ka) < Rank(s.ka))
            && (s.ka.Exited? ==> Proceed(s, t).At(t).Deregistering?)
  {
    var s := After(Initial(keepAlive), acts);
    AlwaysInv(keepAlive, acts);
    assert ThreadOk(s, t, s.At(t)) && s.core.state.Closed?;
    GoroutineMoves(s);
    GoroutineRanks(s, a);
  }

  lemma GoroutineMoves(s: Sys)
    requires Inv(s) && !s.ka.Absent?
    ensures s.ka.Exited? || (exists b :: Moves(s, b)) ||
            (s.writer.Some? && Proceed(s, s.writer.value).At(s.writer.value) != s.At(s.writer.value))
  {
    if s.ka.Selecting? {
      assert Moves(s, Tick);
    } else if s.ka.Wanting? && s.writer.Some? {
      var w := s.writer.value;
      assert ThreadOk(s, w, s.At(w)) && HoldsLock(s.At(w));
    } else if !s.ka.Exited? {
      assert Moves(s, GoOn);
    }
  }

  lemma GoroutineRanks(s: Sys, a: Action)
    requires s.core.state.Closed?
    ensures Rank(Step(s, a).ka) <= Rank(s.ka) && (Moves(s, a) ==> Rank(Step(s, a).ka) < Rank(s.ka))
  {
  }
}
