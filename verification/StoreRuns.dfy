/** What single operations and runs do to a store, on either backend. */
module StoreRuns {
  import opened Prelude
  import opened Store

  type Sessions = map<Id, SessionState>

  // Runs

  predicate NonDecreasing(now: int, es: seq<Event>)
    decreases es
  {
    es != [] ==> now <= es[0].now && NonDecreasing(es[0].now, es[1..])
  }

  function Registrations(es: seq<Event>): nat {
    if es == [] then 0 else (if es[0].op.RegisterOp? then 1 else 0) + Registrations(es[1..])
  }

  lemma {:induction false} RunConcat(p: Policy, st: Store, a: seq<Event>, b: seq<Event>)
    ensures Run(p, st, a + b).0 == Run(p, Run(p, st, a).0, b).0
    decreases a
  {
    if a == [] {
      assert a + b == b;
    } else {
      assert (a + b)[0] == a[0] && (a + b)[1..] == a[1..] + b;
      RunConcat(p, Step(p, st, a[0]).0, a[1..], b);
    }
  }

  lemma RunSnoc(p: Policy, st: Store, es: seq<Event>, e: Event)
    ensures Run(p, st, es + [e]).0 == Step(p, Run(p, st, es).0, e).0
  {
    RunConcat(p, st, es, [e]);
    assert [e][1..] == [];
  }

  lemma RunThree(p: Policy, st: Store, a: Event, b: Event, c: Event)
    ensures Run(p, st, [a, b, c]).1[2] == Step(p, Step(p, Step(p, st, a).0, b).0, c).1
  {
    var s1 := Step(p, st, a).0;
    var s2 := Step(p, s1, b).0;
    assert [a, b, c][1..] == [b, c] && [b, c][1..] == [c];
    assert Run(p, s2, [c]).1[0] == Step(p, s2, c).1;
    assert Run(p, s1, [b, c]).1[1] == Run(p, s2, [c]).1[0];
  }

  // Which backend it is

  lemma RoomKind(p: Policy, st: Store)
    ensures MakeRoom(p, st).db.Some? == st.db.Some?
  {
  }

  lemma RegisterNewKind(p: Policy, st: Store, id: Id, q: Request, now: int)
    ensures RegisterNew(p, st, id, q, now).0.db.Some? == st.db.Some?
  {
    RoomKind(p, Missed(st));
  }

  lemma RegisterKind(p: Policy, st: Store, id: Id, q: Request, now: int)
    ensures Register(p, st, id, q, now).0.db.Some? == st.db.Some?
  {
    if id !in st.sessions {
      RegisterNewKind(p, st, id, q, now);
    } else if IsExpired(p, st.sessions[id], now) {
      RegisterNewKind(p, Evicted(st, id), id, q, now);
    }
  }

  lemma PollKind(p: Policy, st: Store, id: Id, secret: Text, now: int)
    ensures Poll(p, st, id, secret, now).0.db.Some? == st.db.Some?
  {
  }

  lemma AppendKind(p: Policy, st: Store, id: Id, encrypted: Option<Bytes>, now: int)
    ensures Append(p, st, id, encrypted, now).0.db.Some? == st.db.Some?
  {
  }

  /** No operation changes which backend it is. */
  lemma StepKind(p: Policy, st: Store, e: Event)
    ensures Step(p, st, e).0.db.Some? == st.db.Some?
  {
    match e.op
    case RegisterOp(id, q) => RegisterKind(p, st, id, q, e.now);
    case PollOp(id, secret) => PollKind(p, st, id, secret, e.now);
    case AppendOp(id, encrypted) => AppendKind(p, st, id, encrypted, e.now);
    case DeleteOp(_, _) =>
    case HasOp(_) =>
    case ResponseOp(_) =>
  }

  // Which sessions there are

  /** What an operation may do to the sessions: remove some, touch some now,
      add the one it registers. */
  ghost predicate Moderate(a: Sessions, b: Sessions, e: Event) {
    && (forall id :: id in b ==> id in a || (e.op.RegisterOp? && id == e.op.id))
    && forall id :: id in b ==>
         || (b[id].createdAt == b[id].lastAccess == e.now)
         || (id in a && b[id].createdAt == a[id].createdAt && b[id].lastAccess in {a[id].lastAccess, e.now})
  }

  lemma RegisterModerate(p: Policy, st: Store, e: Event)
    requires e.op.RegisterOp?
    ensures Moderate(st.sessions, Step(p, st, e).0.sessions, e)
  {
    var id, q, now := e.op.id, e.op.request, e.now;
    if id !in st.sessions {
      AddModerate(MakeRoom(p, Missed(st)), e);
    } else if IsExpired(p, st.sessions[id], now) {
      AddModerate(MakeRoom(p, Missed(Evicted(st, id))), e);
    }
  }

  lemma AddModerate(st: Store, e: Event)
    requires e.op.RegisterOp?
    ensures Moderate(st.sessions, Add(st, e.op.id, e.op.request, e.now).0.sessions, e)
  {
  }

  lemma StepModerate(p: Policy, st: Store, e: Event)
    ensures Moderate(st.sessions, Step(p, st, e).0.sessions, e)
  {
    match e.op
    case RegisterOp(_, _) => RegisterModerate(p, st, e);
    case PollOp(_, _) => PollModerate(p, st, e);
    case AppendOp(_, _) => AppendModerate(p, st, e);
    case _ =>
  }

  lemma GetModerate(p: Policy, st: Store, e: Event)
    requires e.op.PollOp?
    ensures Moderate(st.sessions, GetSession(p, st, e.op.id, e.op.secret, e.now).0.sessions, e)
  {
  }

  lemma DrainModerate(a: Sessions, st: Store, e: Event)
    requires Moderate(a, st.sessions, e)
    ensures Moderate(a, Drain(st, e.op.id).0.sessions, e)
  {
  }

  lemma PollModerate(p: Policy, st: Store, e: Event)
    requires e.op.PollOp?
    ensures Moderate(st.sessions, Poll(p, st, e.op.id, e.op.secret, e.now).0.sessions, e)
  {
    GetModerate(p, st, e);
    DrainModerate(st.sessions, GetSession(p, st, e.op.id, e.op.secret, e.now).0, e);
  }

  lemma AppendModerate(p: Policy, st: Store, e: Event)
    requires e.op.AppendOp?
    ensures Moderate(st.sessions, Step(p, st, e).0.sessions, e)
  {
  }

  lemma StepSize(p: Policy, st: Store, e: Event)
    ensures |Step(p, st, e).0.sessions| <= |st.sessions| + if e.op.RegisterOp? then 1 else 0
  {
    StepModerate(p, st, e);
    var a, b := st.sessions.Keys, Step(p, st, e).0.sessions.Keys;
    var more := if e.op.RegisterOp? then {e.op.id} else {};
    assert b <= a + more;
    Smaller(b, a + more);
  }

  lemma Smaller(a: set<Id>, b: set<Id>)
    requires a <= b
    ensures |a| <= |b|
  {
    assert b == a + (b - a);
  }
}
