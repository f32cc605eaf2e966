/** One session among all the others: whatever other clients do meanwhile, a
    session that is used in time and not evicted answers as if it were alone. */
module SessionView {
  import opened Prelude
  import opened RecordCodec
  import opened Store
  import opened DiskRefinement
  import opened StoreRuns

  /** What the owner can tell about its session: when it was last kept alive,
      and which interactions it has not polled yet. */
  datatype View = View(lastAccess: int, pending: seq<Bytes>)

  function Kept(p: Policy, v: View, now: int): View {
    if p.slidingTTL then v.(lastAccess := now) else v
  }

  /** On disk a failed encryption does not keep the session alive. */
  function ViewStep(p: Policy, v: View, e: Event, id: Id, q: Request, disk: bool): View {
    if e.op.id != id then v
    else
      match e.op
      case RegisterOp(_, again) => if again.secret == q.secret then Kept(p, v, e.now) else v
      case PollOp(_, secret) => if secret == q.secret then Kept(p, v, e.now).(pending := []) else v
      case AppendOp(_, Some(x)) => Kept(p, v, e.now).(pending := v.pending + [x])
      case AppendOp(_, None) => if disk then v else Kept(p, v, e.now)
      case _ => v
  }

  function ViewRun(p: Policy, v: View, es: seq<Event>, id: Id, q: Request, disk: bool): View
    decreases es
  {
    if es == [] then v else ViewRun(p, ViewStep(p, v, es[0], id, q, disk), es[1..], id, q, disk)
  }

  /** The session registered at `t0` has not expired. */
  predicate InTime(p: Policy, t0: int, v: View, now: int) {
    p.noEviction || (if p.slidingTTL then now - v.lastAccess <= p.ttl else now - t0 <= p.ttl)
  }

  /** The owner does not deregister, and the record format can hold what is
      captured. */
  predicate Allowed(op: Op, q: Request, disk: bool) {
    && (op.DeleteOp? ==> op.secret != q.secret)
    && (op.AppendOp? && op.encrypted.Some? && disk ==> Fits(op.encrypted.value))
  }

  /** The operations that evict a session they find expired. */
  predicate Evicts(op: Op) {
    op.RegisterOp? || op.PollOp? || op.HasOp?
  }

  /** Every operation on `id` that looks at its expiry comes in time; those on
      other ids are arbitrary. */
  predicate UsedInTime(p: Policy, t0: int, v: View, es: seq<Event>, id: Id, q: Request, disk: bool)
    decreases es
  {
    es != [] ==>
      && (es[0].op.id == id ==> (Evicts(es[0].op) ==> InTime(p, t0, v, es[0].now)) && Allowed(es[0].op, q, disk))
      && UsedInTime(p, t0, ViewStep(p, v, es[0], id, q, disk), es[1..], id, q, disk)
  }

  /** No registration of the run evicts `id`. */
  predicate Stays(p: Policy, st: Store, es: seq<Event>, id: Id)
    decreases es
  {
    es != [] ==> id in Step(p, st, es[0]).0.sessions && Stays(p, Step(p, st, es[0]).0, es[1..], id)
  }

  /** The interactions held for `id`, on either backend. */
  ghost predicate Holding(st: Store, id: Id, interactions: seq<Bytes>)
    requires id in st.sessions
  {
    match st.db
    case None => st.sessions[id].interactions == interactions
    case Some(db) => st.sessions[id].interactions == [] && Holds(Under(db, id), interactions)
  }

  /** The store has the session as its owner sees it. */
  ghost predicate Shows(st: Store, id: Id, q: Request, t0: int, v: View) {
    && q.aesKey.Some? && id in st.sessions && Holding(st, id, v.pending)
    && OnDisk(st.sessions[id]) == SessionState(q.publicKey, q.aesKey.value, q.secret, q.response, t0, v.lastAccess, [])
  }

  // Operations on other ids

  /** The part of the store that belongs to `id`. */
  ghost predicate SameAt(a: Store, b: Store, id: Id) {
    && id in a.sessions && id in b.sessions && a.sessions[id] == b.sessions[id] && a.db.Some? == b.db.Some?
    && (a.db.Some? ==> Under(a.db.value, id) == Under(b.db.value, id))
  }

  lemma RoomSame(p: Policy, st: Store, id: Id)
    requires id in MakeRoom(p, st).sessions
    ensures SameAt(st, MakeRoom(p, st), id)
  {
  }

  lemma AddSame(st: Store, other: Id, q: Request, now: int, id: Id)
    requires id in st.sessions && other != id
    ensures SameAt(st, Add(st, other, q, now).0, id)
  {
  }

  lemma RegisterNewSame(p: Policy, st: Store, other: Id, q: Request, now: int, id: Id)
    requires other != id && id in RegisterNew(p, st, other, q, now).0.sessions
    ensures SameAt(st, RegisterNew(p, st, other, q, now).0, id)
  {
    RoomSame(p, Missed(st), id);
    AddSame(MakeRoom(p, Missed(st)), other, q, now, id);
  }

  lemma RegisterSame(p: Policy, st: Store, other: Id, q: Request, now: int, id: Id)
    requires other != id && id in st.sessions && id in Register(p, st, other, q, now).0.sessions
    ensures SameAt(st, Register(p, st, other, q, now).0, id)
  {
    if other !in st.sessions {
      RegisterNewSame(p, st, other, q, now, id);
    } else if IsExpired(p, st.sessions[other], now) {
      RegisterNewSame(p, Evicted(st, other), other, q, now, id);
    }
  }

  lemma AppendSame(p: Policy, st: Store, other: Id, encrypted: Option<Bytes>, now: int, id: Id)
    requires other != id && id in st.sessions
    ensures SameAt(st, Append(p, st, other, encrypted, now).0, id)
  {
  }

  lemma PollSame(p: Policy, st: Store, other: Id, secret: Text, now: int, id: Id)
    requires other != id && id in st.sessions
    ensures SameAt(st, Poll(p, st, other, secret, now).0, id)
  {
  }

  lemma OthersKeep(p: Policy, st: Store, e: Event, id: Id)
    requires e.op.id != id && id in st.sessions && id in Step(p, st, e).0.sessions
    ensures SameAt(st, Step(p, st, e).0, id)
  {
    match e.op
    case RegisterOp(other, q) => RegisterSame(p, st, other, q, e.now, id);
    case PollOp(other, secret) => PollSame(p, st, other, secret, e.now, id);
    case AppendOp(other, encrypted) => AppendSame(p, st, other, encrypted, e.now, id);
    case _ =>
  }

  /** With room for one more, an operation on another id evicts nothing alive. */
  lemma RoomKeeps(p: Policy, st: Store, e: Event, id: Id)
    requires e.op.id != id && id in st.sessions
    requires e.op.RegisterOp? ==> |st.sessions| < p.capacity
    ensures id in Step(p, st, e).0.sessions
  {
    match e.op
    case RegisterOp(other, q) =>
      if other in st.sessions && IsExpired(p, st.sessions[other], e.now) {
        Smaller(Evicted(st, other).sessions.Keys, st.sessions.Keys);
      }
    case PollOp(other, secret) => PollSame(p, st, other, secret, e.now, id);
    case AppendOp(other, encrypted) => AppendSame(p, st, other, encrypted, e.now, id);
    case _ =>
  }

  // Operations of the owner, and captures for it

  lemma HitShows(p: Policy, st: Store, id: Id, q: Request, t0: int, v: View, now: int)
    requires Shows(st, id, q, t0, v)
    ensures Shows(Hit(p, st, id, now), id, q, t0, Kept(p, v, now))
  {
  }

  lemma DrainShows(st: Store, id: Id, q: Request, t0: int, v: View)
    requires Shows(st, id, q, t0, v)
    ensures Drain(st, id).1 == v.pending && Shows(Drain(st, id).0, id, q, t0, v.(pending := []))
  {
  }

  lemma AppendShows(p: Policy, st: Store, id: Id, x: Bytes, q: Request, t0: int, v: View, now: int)
    requires Shows(st, id, q, t0, v) && (st.db.Some? ==> Fits(x))
    ensures Shows(Append(p, st, id, Some(x), now).0, id, q, t0, Kept(p, v, now).(pending := v.pending + [x]))
  {
    if st.db.Some? {
      HoldsAppend(Under(st.db.value, id), v.pending, x);
    }
  }

  lemma FailedShows(p: Policy, st: Store, id: Id, q: Request, t0: int, v: View, now: int)
    requires Shows(st, id, q, t0, v)
    ensures Shows(Append(p, st, id, None, now).0, id, q, t0, if st.db.Some? then v else Kept(p, v, now))
  {
  }

  /** A poll in time returns exactly what is pending. */
  lemma PollShows(p: Policy, st: Store, id: Id, q: Request, t0: int, v: View, now: int)
    requires Shows(st, id, q, t0, v) && InTime(p, t0, v, now)
    ensures var (st', r) := Poll(p, st, id, q.secret, now);
            r == Polled(q.aesKey.value, q.publicKey, v.pending)
            && Shows(st', id, q, t0, Kept(p, v, now).(pending := []))
  {
    HitShows(p, st, id, q, t0, v, now);
    DrainShows(Hit(p, st, id, now), id, q, t0, Kept(p, v, now));
  }

  lemma OwnerStep(p: Policy, st: Store, e: Event, id: Id, q: Request, t0: int, v: View)
    requires Shows(st, id, q, t0, v) && e.op.id == id && Allowed(e.op, q, st.db.Some?)
    requires Evicts(e.op) ==> InTime(p, t0, v, e.now)
    ensures Shows(Step(p, st, e).0, id, q, t0, ViewStep(p, v, e, id, q, st.db.Some?))
  {
    match e.op
    case RegisterOp(_, _) => HitShows(p, st, id, q, t0, v, e.now);
    case PollOp(_, _) => PollShows(p, st, id, q, t0, v, e.now);
    case AppendOp(_, Some(x)) => AppendShows(p, st, id, x, q, t0, v, e.now);
    case AppendOp(_, None) => FailedShows(p, st, id, q, t0, v, e.now);
    case _ =>
  }

  lemma ShowsStep(p: Policy, st: Store, e: Event, id: Id, q: Request, t0: int, v: View)
    requires Shows(st, id, q, t0, v) && id in Step(p, st, e).0.sessions
    requires e.op.id == id ==> (Evicts(e.op) ==> InTime(p, t0, v, e.now)) && Allowed(e.op, q, st.db.Some?)
    ensures Shows(Step(p, st, e).0, id, q, t0, ViewStep(p, v, e, id, q, st.db.Some?)) && Step(p, st, e).0.db.Some? == st.db.Some?
  {
    if e.op.id == id {
      OwnerStep(p, st, e, id, q, t0, v);
    } else {
      OthersKeep(p, st, e, id);
    }
    StepKind(p, st, e);
  }

  /** Over any run of operations on any ids that does not evict the session, it
      stays as its owner sees it. */
  lemma {:induction false} ShowsRun(p: Policy, st: Store, es: seq<Event>, id: Id, q: Request, t0: int, v: View)
    requires Shows(st, id, q, t0, v) && UsedInTime(p, t0, v, es, id, q, st.db.Some?) && Stays(p, st, es, id)
    ensures Shows(Run(p, st, es).0, id, q, t0, ViewRun(p, v, es, id, q, st.db.Some?)) && Run(p, st, es).0.db.Some? == st.db.Some?
    decreases es
  {
    if es != [] {
      ShowsStep(p, st, es[0], id, q, t0, v);
      ShowsRun(p, Step(p, st, es[0]).0, es[1..], id, q, t0, ViewStep(p, v, es[0], id, q, st.db.Some?));
    }
  }

  /** Room for every registration of the run is enough not to be evicted. */
  lemma {:induction false} RoomStays(p: Policy, st: Store, es: seq<Event>, id: Id, q: Request, t0: int, v: View)
    requires Shows(st, id, q, t0, v) && UsedInTime(p, t0, v, es, id, q, st.db.Some?)
    requires |st.sessions| + Registrations(es) <= p.capacity
    ensures Stays(p, st, es, id)
    ensures |Run(p, st, es).0.sessions| <= |st.sessions| + Registrations(es)
    decreases es
  {
    if es != [] {
      var e := es[0];
      if e.op.id == id {
        OwnerStep(p, st, e, id, q, t0, v);
      } else {
        RoomKeeps(p, st, e, id);
      }
      ShowsStep(p, st, e, id, q, t0, v);
      StepSize(p, st, e);
      RoomStays(p, Step(p, st, e).0, es[1..], id, q, t0, ViewStep(p, v, e, id, q, st.db.Some?));
    }
  }

  // What is pending

  function CapturesHere(e: Event, id: Id): seq<Bytes> {
    if e.op.AppendOp? && e.op.id == id && e.op.encrypted.Some? then [e.op.encrypted.value] else []
  }

  function Captures(es: seq<Event>, id: Id): seq<Bytes> {
    if es == [] then [] else CapturesHere(es[0], id) + Captures(es[1..], id)
  }

  predicate Unpolled(es: seq<Event>, id: Id) {
    forall i :: 0 <= i < |es| && es[i].op.PollOp? ==> es[i].op.id != id
  }

  /** Between two polls, what is pending is what was captured, in order. */
  lemma {:induction false} PendingGrows(p: Policy, v: View, es: seq<Event>, id: Id, q: Request, disk: bool)
    requires Unpolled(es, id)
    ensures ViewRun(p, v, es, id, q, disk).pending == v.pending + Captures(es, id)
    decreases es
  {
    if es != [] {
      var v' := ViewStep(p, v, es[0], id, q, disk);
      assert forall i :: 0 <= i < |es| - 1 ==> es[1..][i] == es[i + 1];
      PendingGrows(p, v', es[1..], id, q, disk);
      var here := CapturesHere(es[0], id);
      assert v.pending + [] == v.pending && v'.pending == v.pending + here;
      Associate(v.pending, here, Captures(es[1..], id));
    }
  }
}
