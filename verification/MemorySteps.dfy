/** The memory backend under concurrency: every section between taking and
    releasing a lock, and every atomic access outside one, is a step, and the
    steps of any number of calls interleave. Sessions have an identity, because
    a call may go on with a session that has been removed or replaced. */
module MemorySteps {
  import opened Prelude
  import opened Store

  type Ref = nat
  type Tid = nat

  /** `gen` names the session registered under each id; `lost` keeps the ones
      removed, which a handle may still hold. `appended` and `drained` record
      per session what was pushed and what was delivered. */
  datatype Shared = Shared(st: Store, gen: map<Id, Ref>, lost: map<Ref, SessionState>, next: Ref, clock: int,
                           deletes: nat, appended: map<Ref, seq<Bytes>>, drained: map<Ref, seq<Bytes>>)

  datatype Call = GetCall(id: Id, secret: Text) | HasCall(id: Id) | AppendCall(id: Id, encrypted: Option<Bytes>)

  datatype Answer = Session(ref: Ref) | Missing | WrongSecret | Known(yes: bool) | Stored

  /** Where a call stands: validated and about to touch, about to move the id
      to the back, past the first section having seen an expired session,
      revalidated under the write lock, about to push, answered. */
  datatype Thread =
    | Idle
    | Validated(call: Call, ref: Ref)
    | Promoting(call: Call, ref: Ref)
    | Expired(call: Call)
    | Revalidated(call: Call, ref: Ref)
    | Pushing(call: Call, ref: Ref)
    | Done(call: Call, answer: Answer)

  datatype Sys = Sys(sh: Shared, threads: map<Tid, Thread>) {
    function At(t: Tid): Thread {
      if t in threads then threads[t] else Idle
    }
  }

  datatype Action =
    | Begin(t: Tid, call: Call)
    | Continue(t: Tid)
    | Finish(t: Tid)
    | RegisterNow(id: Id, request: Request)
    | DeleteNow(id: Id, secret: Text)
    | DrainNow(id: Id, ref: Ref)
    | Tick(now: int)

  predicate Live(p: Policy, sh: Shared, id: Id) {
    id in sh.st.sessions && !IsExpired(p, sh.st.sessions[id], sh.clock)
  }

  // Session objects

  predicate Current(sh: Shared, id: Id, ref: Ref) {
    id in sh.gen && sh.gen[id] == ref && id in sh.st.sessions
  }

  /** The session `ref`, registered as `id` or removed, is still there. */
  predicate Exists(sh: Shared, id: Id, ref: Ref) {
    Current(sh, id, ref) || ref in sh.lost
  }

  function Object(sh: Shared, id: Id, ref: Ref): SessionState
    requires Exists(sh, id, ref)
  {
    if Current(sh, id, ref) then sh.st.sessions[id] else sh.lost[ref]
  }

  function Replace(sh: Shared, id: Id, ref: Ref, s: SessionState): Shared
    requires Exists(sh, id, ref)
  {
    if Current(sh, id, ref) then sh.(st := sh.st.(sessions := sh.st.sessions[id := s]))
    else sh.(lost := sh.lost[ref := s])
  }

  function Relog(sh: Shared, appended: map<Ref, seq<Bytes>>, drained: map<Ref, seq<Bytes>>): Shared {
    sh.(appended := appended, drained := drained)
  }

  function TouchRef(p: Policy, sh: Shared, id: Id, ref: Ref): Shared {
    if p.slidingTTL && Exists(sh, id, ref) then Replace(sh, id, ref, Object(sh, id, ref).(lastAccess := sh.clock)) else sh
  }

  function Pushed(sh: Shared, ref: Ref, e: Bytes): map<Ref, seq<Bytes>> {
    sh.appended[ref := Under(sh.appended, ref) + [e]]
  }

  function Taken(sh: Shared, ref: Ref, s: SessionState): map<Ref, seq<Bytes>> {
    sh.drained[ref := Under(sh.drained, ref) + s.interactions]
  }

  function PushRef(sh: Shared, id: Id, ref: Ref, e: Bytes): Shared {
    if !Exists(sh, id, ref) then sh
    else
      var s := Object(sh, id, ref);
      Relog(Replace(sh, id, ref, s.(interactions := s.interactions + [e])), Pushed(sh, ref, e), sh.drained)
  }

  function DrainRef(sh: Shared, id: Id, ref: Ref): Shared {
    if !Exists(sh, id, ref) then sh
    else
      var s := Object(sh, id, ref);
      Relog(Replace(sh, id, ref, s.(interactions := [])), sh.appended, Taken(sh, ref, s))
  }

  // Sections under the write lock

  function Detach(sh: Shared, id: Id, st: Store): Shared {
    if id in sh.gen && id in sh.st.sessions
    then sh.(st := st, gen := sh.gen - {id}, lost := sh.lost[sh.gen[id] := sh.st.sessions[id]])
    else sh.(st := st)
  }

  function EvictSection(sh: Shared, id: Id): Shared {
    Detach(sh, id, Evicted(sh.st, id))
  }

  function RoomSection(p: Policy, sh: Shared): Shared {
    var missed := sh.(st := Missed(sh.st));
    if |missed.st.sessions| >= p.capacity && Victim(missed.st) != "" then EvictSection(missed, Victim(missed.st)) else missed
  }

  function AddSection(sh: Shared, id: Id, q: Request): Shared {
    if q.aesKey.None? then sh
    else sh.(st := Add(sh.st, id, q, sh.clock).0, gen := sh.gen[id := sh.next], next := sh.next + 1)
  }

  function RegisterSection(p: Policy, sh: Shared, id: Id, q: Request): Shared {
    if id !in sh.st.sessions then AddSection(RoomSection(p, sh), id, q)
    else if IsExpired(p, sh.st.sessions[id], sh.clock) then AddSection(RoomSection(p, EvictSection(sh, id)), id, q)
    else KeepAliveSection(p, sh, id, q)
  }

  function KeepAliveSection(p: Policy, sh: Shared, id: Id, q: Request): Shared
    requires id in sh.st.sessions
  {
    sh.(st := if sh.st.sessions[id].secretKey != q.secret then sh.st.(hits := sh.st.hits + 1) else Hit(p, sh.st, id, sh.clock))
  }

  function DeleteSection(sh: Shared, id: Id, secret: Text): Shared {
    var (st, r) := Delete(sh.st, id, secret);
    Settled(sh, id, st, r.Deleted?)
  }

  function Settled(sh: Shared, id: Id, st: Store, deleted: bool): Shared {
    if deleted then Detach(sh, id, st).(deletes := sh.deletes + 1) else sh.(st := st)
  }

  /** The section is the registration of the sequential store. */
  lemma RegisterSectionIsRegister(p: Policy, sh: Shared, id: Id, q: Request)
    ensures RegisterSection(p, sh, id, q).st == Register(p, sh.st, id, q, sh.clock).0
  {
    if id !in sh.st.sessions {
      RoomSectionIsMakeRoom(p, sh);
      AddSectionIsAdd(RoomSection(p, sh), id, q);
    } else if IsExpired(p, sh.st.sessions[id], sh.clock) {
      RoomSectionIsMakeRoom(p, EvictSection(sh, id));
      AddSectionIsAdd(RoomSection(p, EvictSection(sh, id)), id, q);
    }
  }

  lemma AddSectionIsAdd(sh: Shared, id: Id, q: Request)
    ensures AddSection(sh, id, q).st == Add(sh.st, id, q, sh.clock).0
  {
  }

  lemma RoomSectionIsMakeRoom(p: Policy, sh: Shared)
    ensures RoomSection(p, sh).st == MakeRoom(p, Missed(sh.st)) && RoomSection(p, sh).clock == sh.clock
  {
  }

  // The calls

  /** First section, under the read lock. */
  function First(p: Policy, sh: Shared, call: Call): Thread {
    var id := call.id;
    if id !in sh.st.sessions || id !in sh.gen then
      Done(call, match call case GetCall(_, _) => Missing case HasCall(_) => Known(false) case AppendCall(_, _) => Stored)
    else
      match call
      case GetCall(_, secret) =>
        if IsExpired(p, sh.st.sessions[id], sh.clock) then Expired(call)
        else if sh.st.sessions[id].secretKey != secret then Done(call, WrongSecret)
        else Validated(call, sh.gen[id])
      case HasCall(_) =>
        if IsExpired(p, sh.st.sessions[id], sh.clock) then Expired(call) else Done(call, Known(true))
      case AppendCall(_, _) => Validated(call, sh.gen[id])
  }

  /** Second section of a call that saw an expired session, under the write
      lock: the check is repeated on whatever is registered now. */
  function Second(p: Policy, sh: Shared, call: Call): (Shared, Thread) {
    var id := call.id;
    var gone := match call case GetCall(_, _) => Missing case HasCall(_) => Known(false) case AppendCall(_, _) => Stored;
    if id !in sh.st.sessions || id !in sh.gen then (sh, Done(call, gone))
    else if IsExpired(p, sh.st.sessions[id], sh.clock) then (EvictSection(sh, id), Done(call, gone))
    else
      match call
      case GetCall(_, secret) =>
        if sh.st.sessions[id].secretKey != secret then (sh, Done(call, WrongSecret))
        else (sh.(st := Promote(sh.st, id)), Revalidated(call, sh.gen[id]))
      case HasCall(_) => (sh, Done(call, Known(true)))
      case AppendCall(_, _) => (sh, Done(call, Stored))
  }

  function Proceed(p: Policy, sh: Shared, th: Thread): (Shared, Thread) {
    match th
    case Idle => (sh, th)
    case Validated(call, ref) =>
      (TouchRef(p, sh, call.id, ref), if call.AppendCall? then Pushing(call, ref) else Promoting(call, ref))
    case Promoting(call, ref) => (sh.(st := Promote(sh.st, call.id)), Done(call, Session(ref)))
    case Expired(call) => Second(p, sh, call)
    case Revalidated(call, ref) => (TouchRef(p, sh, call.id, ref), Done(call, Session(ref)))
    case Pushing(call, ref) =>
      (if call.AppendCall? && call.encrypted.Some? then PushRef(sh, call.id, ref, call.encrypted.value) else sh,
       Done(call, Stored))
    case Done(_, _) => (sh, th)
  }

  /** One step of the system; a step that is not enabled changes nothing. */
  function Step(p: Policy, s: Sys, a: Action): Sys {
    match a
    case Begin(t, call) => if s.At(t).Idle? then s.(threads := s.threads[t := First(p, s.sh, call)]) else s
    case Continue(t) =>
      var (sh, th) := Proceed(p, s.sh, s.At(t));
      Sys(sh, s.threads[t := th])
    case Finish(t) => if s.At(t).Done? then s.(threads := s.threads[t := Idle]) else s
    case RegisterNow(id, q) => s.(sh := RegisterSection(p, s.sh, id, q))
    case DeleteNow(id, secret) => s.(sh := DeleteSection(s.sh, id, secret))
    case DrainNow(id, ref) => s.(sh := DrainRef(s.sh, id, ref))
    case Tick(now) => if now >= s.sh.clock then s.(sh := s.sh.(clock := now)) else s
  }

  function After(p: Policy, s: Sys, acts: seq<Action>): Sys {
    if acts == [] then s else Step(p, After(p, s, acts[..|acts| - 1]), acts[|acts| - 1])
  }

  // Linearizability of the double-checked expiry

  /** The answer is true of the store at one instant. */
  predicate Justified(p: Policy, sh: Shared, call: Call, answer: Answer) {
    match call
    case GetCall(id, secret) =>
      (match answer
       case Session(ref) => Live(p, sh, id) && Current(sh, id, ref) && sh.st.sessions[id].secretKey == secret
       case Missing => !Live(p, sh, id)
       case WrongSecret => Live(p, sh, id) && sh.st.sessions[id].secretKey != secret
       case _ => false)
    case HasCall(id) => answer == Known(Live(p, sh, id))
    case AppendCall(_, _) => answer == Stored
  }

  ghost predicate JustifiedDuring(p: Policy, s: Sys, acts: seq<Action>, i: nat, j: nat, call: Call, answer: Answer)
    requires j <= |acts|
  {
    exists k :: i <= k < j && Justified(p, After(p, s, acts[..k]).sh, call, answer)
  }

  ghost predicate GensMatch(sh: Shared) {
    sh.gen.Keys == sh.st.sessions.Keys
  }

  /** What a thread inside a call that began with action `i` can rely on. */
  ghost predicate Explained(p: Policy, s: Sys, acts: seq<Action>, i: nat, j: nat, call: Call, th: Thread)
    requires j <= |acts|
  {
    match th
    case Idle => false
    case Validated(c, ref) => c == call && (call.GetCall? ==> JustifiedDuring(p, s, acts, i, j, call, Session(ref))) && !call.HasCall?
    case Promoting(c, ref) => c == call && call.GetCall? && JustifiedDuring(p, s, acts, i, j, call, Session(ref))
    case Expired(c) => c == call && !call.AppendCall?
    case Revalidated(c, ref) => c == call && call.GetCall? && JustifiedDuring(p, s, acts, i, j, call, Session(ref))
    case Pushing(c, _) => c == call && call.AppendCall?
    case Done(c, answer) => c == call && JustifiedDuring(p, s, acts, i, j, call, answer)
  }

  lemma GensStep(p: Policy, s: Sys, a: Action)
    requires GensMatch(s.sh)
    ensures GensMatch(Step(p, s, a).sh)
  {
    match a
    case RegisterNow(id, q) => GensRegister(p, s.sh, id, q);
    case Begin(_, _) =>
    case Continue(t) => GensProceed(p, s.sh, s.At(t));
    case Finish(_) =>
    case DeleteNow(id, secret) => GensDelete(s.sh, id, secret);
    case DrainNow(_, _) =>
    case Tick(_) =>
  }

  lemma GensProceed(p: Policy, sh: Shared, th: Thread)
    requires GensMatch(sh)
    ensures GensMatch(Proceed(p, sh, th).0)
  {
    match th
    case Expired(call) => GensEvict(sh, call.id);
    case _ =>
  }

  lemma GensEvict(sh: Shared, id: Id)
    requires GensMatch(sh)
    ensures GensMatch(EvictSection(sh, id))
  {
  }

  lemma GensDelete(sh: Shared, id: Id, secret: Text)
    requires GensMatch(sh)
    ensures GensMatch(DeleteSection(sh, id, secret))
  {
  }

  lemma GensRegister(p: Policy, sh: Shared, id: Id, q: Request)
    requires GensMatch(sh)
    ensures GensMatch(RegisterSection(p, sh, id, q))
  {
    if id !in sh.st.sessions {
      GensRoom(p, sh);
      GensAdd(RoomSection(p, sh), id, q);
    } else if IsExpired(p, sh.st.sessions[id], sh.clock) {
      GensEvict(sh, id);
      GensRoom(p, EvictSection(sh, id));
      GensAdd(RoomSection(p, EvictSection(sh, id)), id, q);
    } else {
      assert KeepAliveSection(p, sh, id, q).st.sessions.Keys == sh.st.sessions.Keys;
    }
  }

  lemma GensAdd(sh: Shared, id: Id, q: Request)
    requires GensMatch(sh)
    ensures GensMatch(AddSection(sh, id, q))
  {
  }

  lemma GensRoom(p: Policy, sh: Shared)
    requires GensMatch(sh)
    ensures GensMatch(RoomSection(p, sh))
  {
  }

  lemma {:induction false} GensAlways(p: Policy, s: Sys, acts: seq<Action>)
    requires GensMatch(s.sh)
    ensures GensMatch(After(p, s, acts).sh)
  {
    if acts != [] {
      GensAlways(p, s, acts[..|acts| - 1]);
      GensStep(p, After(p, s, acts[..|acts| - 1]), acts[|acts| - 1]);
    }
  }

  lemma AfterStep(p: Policy, s: Sys, acts: seq<Action>, j: nat)
    requires j < |acts|
    ensures After(p, s, acts[..j + 1]) == Step(p, After(p, s, acts[..j]), acts[j])
  {
    assert acts[..j + 1][..j] == acts[..j] && acts[..j + 1][j] == acts[j];
  }

  /** A justification found before action j still counts after it; and so does
      one at the state action j starts from. */
  lemma JustifiedLater(p: Policy, s: Sys, acts: seq<Action>, i: nat, j: nat, call: Call, answer: Answer)
    requires i <= j < |acts|
    requires JustifiedDuring(p, s, acts, i, j, call, answer) || Justified(p, After(p, s, acts[..j]).sh, call, answer)
    ensures JustifiedDuring(p, s, acts, i, j + 1, call, answer)
  {
  }

  lemma FirstJustified(p: Policy, sh: Shared, call: Call)
    requires GensMatch(sh)
    ensures match First(p, sh, call)
            case Done(c, answer) => c == call && Justified(p, sh, call, answer)
            case Validated(c, ref) => c == call && !call.HasCall? && (call.GetCall? ==> Justified(p, sh, call, Session(ref)))
            case Expired(c) => c == call && !call.AppendCall?
            case _ => false
  {
  }

  lemma SecondJustified(p: Policy, sh: Shared, call: Call)
    requires GensMatch(sh) && !call.AppendCall?
    ensures match Second(p, sh, call).1
            case Done(c, answer) => c == call && Justified(p, sh, call, answer)
            case Revalidated(c, ref) => c == call && call.GetCall? && Justified(p, sh, call, Session(ref))
            case _ => false
  {
  }

  lemma ContinueExplained(p: Policy, s: Sys, acts: seq<Action>, i: nat, j: nat, call: Call, th: Thread)
    requires i < j < |acts| && GensMatch(After(p, s, acts[..j]).sh)
    requires Explained(p, s, acts, i, j, call, th)
    ensures Explained(p, s, acts, i, j + 1, call, Proceed(p, After(p, s, acts[..j]).sh, th).1)
    ensures Explained(p, s, acts, i, j + 1, call, th)
  {
    var sh := After(p, s, acts[..j]).sh;
    match th
    case Validated(c, ref) =>
      if call.GetCall? {
        JustifiedLater(p, s, acts, i, j, call, Session(ref));
      }
    case Promoting(c, ref) => JustifiedLater(p, s, acts, i, j, call, Session(ref));
    case Expired(c) =>
      SecondJustified(p, sh, call);
      match Second(p, sh, call).1 {
        case Done(_, answer) => JustifiedLater(p, s, acts, i, j, call, answer);
        case Revalidated(_, ref) => JustifiedLater(p, s, acts, i, j, call, Session(ref));
        case _ =>
      }
    case Revalidated(c, ref) => JustifiedLater(p, s, acts, i, j, call, Session(ref));
    case Pushing(c, ref) => JustifiedLater(p, s, acts, i, j, call, Stored);
    case Done(c, answer) => JustifiedLater(p, s, acts, i, j, call, answer);
  }

  lemma {:induction false} CallExplained(p: Policy, s: Sys, acts: seq<Action>, i: nat, j: nat, t: Tid, call: Call)
    requires i < j <= |acts| && GensMatch(s.sh)
    requires acts[i] == Begin(t, call) && After(p, s, acts[..i]).At(t).Idle?
    requires forall k :: i < k < j ==> acts[k] != Finish(t)
    ensures Explained(p, s, acts, i, j, call, After(p, s, acts[..j]).At(t))
    decreases j
  {
    GensAlways(p, s, acts[..j - 1]);
    if j == i + 1 {
      BeginExplained(p, s, acts, i, call);
      AfterStep(p, s, acts, i);
      BeginStep(p, After(p, s, acts[..i]), t, call);
    } else {
      CallExplained(p, s, acts, i, j - 1, t, call);
      StepExplained(p, s, acts, i, j - 1, t, call);
    }
  }

  lemma StepExplained(p: Policy, s: Sys, acts: seq<Action>, i: nat, j: nat, t: Tid, call: Call)
    requires i < j < |acts| && GensMatch(After(p, s, acts[..j]).sh) && acts[j] != Finish(t)
    requires Explained(p, s, acts, i, j, call, After(p, s, acts[..j]).At(t))
    ensures Explained(p, s, acts, i, j + 1, call, After(p, s, acts[..j + 1]).At(t))
  {
    var before := After(p, s, acts[..j]);
    ContinueExplained(p, s, acts, i, j, call, before.At(t));
    AfterStep(p, s, acts, j);
    ThreadStep(p, before, acts[j], t);
  }

  lemma BeginStep(p: Policy, s: Sys, t: Tid, call: Call)
    requires s.At(t).Idle?
    ensures Step(p, s, Begin(t, call)).At(t) == First(p, s.sh, call)
  {
  }

  lemma BeginExplained(p: Policy, s: Sys, acts: seq<Action>, i: nat, call: Call)
    requires i < |acts| && GensMatch(After(p, s, acts[..i]).sh)
    ensures Explained(p, s, acts, i, i + 1, call, First(p, After(p, s, acts[..i]).sh, call))
  {
    var sh := After(p, s, acts[..i]).sh;
    FirstJustified(p, sh, call);
    match First(p, sh, call)
    case Done(_, answer) => JustifiedLater(p, s, acts, i, i, call, answer);
    case Validated(_, ref) =>
      if call.GetCall? {
        JustifiedLater(p, s, acts, i, i, call, Session(ref));
      }
    case _ =>
  }

  /** A busy thread moves only by its own Continue. */
  lemma ThreadStep(p: Policy, s: Sys, a: Action, t: Tid)
    requires !s.At(t).Idle? && a != Finish(t)
    ensures Step(p, s, a).At(t) == if a == Continue(t) then Proceed(p, s.sh, s.At(t)).1 else s.At(t)
  {
  }

  /** Whatever runs between its two sections, a call's answer was true of the
      store at some instant between its first step and its last: a session was
      returned only if it was then registered under the id, unexpired and had
      the presented secret; "could not get", "invalid secret" and both answers
      of HasCorrelationID likewise. */
  lemma AnswersLinearizable(p: Policy, s: Sys, acts: seq<Action>, i: nat, j: nat, t: Tid, call: Call, answer: Answer)
    requires i < j <= |acts| && GensMatch(s.sh)
    requires acts[i] == Begin(t, call) && After(p, s, acts[..i]).At(t).Idle?
    requires forall k :: i < k < j ==> acts[k] != Finish(t)
    requires After(p, s, acts[..j]).At(t) == Done(call, answer)
    ensures exists k :: i <= k < j && Justified(p, After(p, s, acts[..k]).sh, call, answer)
  {
    CallExplained(p, s, acts, i, j, t, call);
  }
}
