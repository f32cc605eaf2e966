/** Lazy expiry is invisible: the memory backend, which forgets an expired
    session only when it next meets it, answers as a store that drops every
    session the moment it expires. */
module LazyExpiry {
  import opened Prelude
  import opened Store
  import opened StoreRuns
  import D = DiskRefinement

  /** The session a client can still reach under `id`. */
  function LiveAt(p: Policy, m: Sessions, id: Id, now: int): Option<SessionState> {
    if id in m && !IsExpired(p, m[id], now) then Some(m[id]) else None
  }

  function Drop(p: Policy, m: Sessions, now: int): Sessions {
    map id | id in m && !IsExpired(p, m[id], now) :: m[id]
  }

  function Refresh(p: Policy, s: SessionState, now: int): SessionState {
    if p.slidingTTL then s.(lastAccess := now) else s
  }

  /** The eager store: no list, no capacity, no counters. */
  function EagerStep(p: Policy, m0: Sessions, e: Event): (Sessions, Result) {
    var m := Drop(p, m0, e.now);
    var id := e.op.id;
    match e.op
    case RegisterOp(_, q) =>
      if id in m then
        if m[id].secretKey != q.secret then (m, AlreadyExists)
        else (m[id := Refresh(p, m[id], e.now)], Registered(m[id].aesKey, false))
      else if q.aesKey.None? then (m, KeyFailure)
      else
        (m[id := SessionState(q.publicKey, q.aesKey.value, q.secret, q.response, e.now, e.now, [])],
         Registered(q.aesKey.value, true))
    case PollOp(_, secret) =>
      if id !in m then (m, NotFound)
      else if m[id].secretKey != secret then (m, InvalidSecret)
      else (m[id := Refresh(p, m[id], e.now).(interactions := [])], Polled(m[id].aesKey, m[id].publicKey, m[id].interactions))
    case AppendOp(_, encrypted) =>
      if id !in m then (m, Appended)
      else
        var s := Refresh(p, m[id], e.now);
        (m[id := if encrypted.Some? then s.(interactions := s.interactions + [encrypted.value]) else s], Appended)
    case DeleteOp(_, secret) =>
      if id !in m then (m, NotFound)
      else if m[id].secretKey != secret then (m, InvalidSecret)
      else (m - {id}, Deleted)
    case HasOp(_) => (m, Present(id in m))
    case ResponseOp(_) => (m, Response(if id in m then m[id].response else None))
  }

  function EagerRun(p: Policy, m: Sessions, es: seq<Event>): (r: (Sessions, seq<Result>))
    ensures |r.1| == |es|
    decreases es
  {
    if es == [] then (m, [])
    else
      var (m', r) := EagerStep(p, m, es[0]);
      var (end, rs) := EagerRun(p, m', es[1..]);
      (end, [r] + rs)
  }

  ghost predicate Agree(p: Policy, a: Sessions, b: Sessions, now: int) {
    forall id :: LiveAt(p, a, id, now) == LiveAt(p, b, id, now)
  }

  /** An expired session that is still in the map. */
  predicate Lingers(p: Policy, st: Store, id: Id, now: int) {
    id in st.sessions && IsExpired(p, st.sessions[id], now)
  }

  /** An append to such a session revives it under sliding expiry. */
  predicate Revives(p: Policy, st: Store, id: Id, now: int) {
    p.slidingTTL && Lingers(p, st, id, now)
  }

  /** What a new registration of `id` finds: an expired session of that id is
      evicted first. */
  function Cleared(p: Policy, st: Store, id: Id, now: int): Store {
    if Lingers(p, st, id, now) then Evicted(st, id) else st
  }

  /** A new registration, in a full store, that evicts a session still alive. */
  predicate EvictsLive(p: Policy, st: Store, id: Id, now: int) {
    var st0 := Cleared(p, st, id, now);
    && LiveAt(p, st.sessions, id, now).None? && |st0.sessions| >= p.capacity
    && Victim(st0) != "" && LiveAt(p, st0.sessions, Victim(st0), now).Some?
  }

  predicate Benign(p: Policy, st: Store, e: Event) {
    && (e.op.AppendOp? ==> !Revives(p, st, e.op.id, e.now))
    && (e.op.RegisterOp? ==> !EvictsLive(p, st, e.op.id, e.now))
  }

  lemma AgreeLater(p: Policy, a: Sessions, b: Sessions, now: int, later: int)
    requires Agree(p, a, b, now) && now <= later
    ensures Agree(p, a, b, later)
  {
    forall id ensures LiveAt(p, a, id, later) == LiveAt(p, b, id, later) {
      assert LiveAt(p, a, id, now) == LiveAt(p, b, id, now);
    }
  }

  lemma AgreeDrop(p: Policy, a: Sessions, b: Sessions, now: int)
    requires Agree(p, a, b, now)
    ensures Agree(p, a, Drop(p, b, now), now)
    ensures forall id :: id in Drop(p, b, now) <==> LiveAt(p, a, id, now).Some?
    ensures forall id :: id in Drop(p, b, now) ==> Drop(p, b, now)[id] == LiveAt(p, a, id, now).value
  {
    forall id ensures LiveAt(p, b, id, now) == LiveAt(p, a, id, now) {
    }
    forall id ensures LiveAt(p, a, id, now) == LiveAt(p, Drop(p, b, now), id, now) {
      assert LiveAt(p, b, id, now) == LiveAt(p, a, id, now);
    }
  }

  lemma AgreeSet(p: Policy, a: Sessions, b: Sessions, id: Id, s: SessionState, now: int)
    requires Agree(p, a, b, now)
    ensures Agree(p, a[id := s], b[id := s], now)
  {
    var a', b' := a[id := s], b[id := s];
    forall x ensures LiveAt(p, a', x, now) == LiveAt(p, b', x, now) {
      assert LiveAt(p, a, x, now) == LiveAt(p, b, x, now);
    }
  }

  lemma AgreeRemove(p: Policy, a: Sessions, b: Sessions, id: Id, now: int)
    requires Agree(p, a, b, now)
    ensures Agree(p, a - {id}, b - {id}, now)
    ensures LiveAt(p, b, id, now).None? ==> Agree(p, a - {id}, b, now)
  {
    var a', b' := a - {id}, b - {id};
    forall x
      ensures LiveAt(p, a', x, now) == LiveAt(p, b', x, now)
      ensures LiveAt(p, b, id, now).None? ==> LiveAt(p, a', x, now) == LiveAt(p, b, x, now)
    {
      assert LiveAt(p, a, x, now) == LiveAt(p, b, x, now);
    }
  }

  /** The sessions a new registration of `id` leaves of the others. */
  function Roomed(p: Policy, st: Store, id: Id, now: int): Sessions {
    MakeRoom(p, Missed(Cleared(p, st, id, now))).sessions
  }

  lemma RoomEffect(p: Policy, st: Store)
    ensures MakeRoom(p, Missed(st)).sessions ==
            if |st.sessions| >= p.capacity && Victim(st) != "" then st.sessions - {Victim(st)} else st.sessions
  {
  }

  lemma RegisterEffect(p: Policy, st: Store, id: Id, q: Request, now: int)
    ensures var (st', r) := Register(p, st, id, q, now);
            if LiveAt(p, st.sessions, id, now).Some? then
              var s := st.sessions[id];
              if s.secretKey != q.secret then st'.sessions == st.sessions && r == AlreadyExists
              else st'.sessions == st.sessions[id := Refresh(p, s, now)] && r == Registered(s.aesKey, false)
            else if q.aesKey.None? then st'.sessions == Roomed(p, st, id, now) && r == KeyFailure
            else
              st'.sessions == Roomed(p, st, id, now)
                [id := SessionState(q.publicKey, q.aesKey.value, q.secret, q.response, now, now, [])]
              && r == Registered(q.aesKey.value, true)
  {
  }

  /** Making room goes unnoticed exactly when no live session is evicted. */
  lemma RoomInvisibleIff(p: Policy, st: Store, d: Sessions, id: Id, now: int)
    requires Agree(p, st.sessions, d, now) && LiveAt(p, st.sessions, id, now).None?
    ensures Agree(p, Roomed(p, st, id, now), d, now) <==> !EvictsLive(p, st, id, now)
    ensures EvictsLive(p, st, id, now) ==> Parted(p, Roomed(p, st, id, now), d, Victim(Cleared(p, st, id, now)), now)
    ensures EvictsLive(p, st, id, now) ==> Victim(Cleared(p, st, id, now)) != id
  {
    var st0 := Cleared(p, st, id, now);
    assert LiveAt(p, d, id, now) == LiveAt(p, st.sessions, id, now);
    AgreeRemove(p, st.sessions, d, id, now);
    assert Agree(p, st0.sessions, d, now);
    RoomEffect(p, st0);
    if |st0.sessions| >= p.capacity && Victim(st0) != "" {
      assert LiveAt(p, d, Victim(st0), now) == LiveAt(p, st0.sessions, Victim(st0), now);
      AgreeRemove(p, st0.sessions, d, Victim(st0), now);
    }
  }

  /** The two differ at `id`, which only the second still has. */
  ghost predicate Parted(p: Policy, a: Sessions, b: Sessions, id: Id, now: int) {
    LiveAt(p, a, id, now).None? && LiveAt(p, b, id, now).Some?
  }

  lemma PartedSet(p: Policy, a: Sessions, b: Sessions, v: Id, id: Id, s: SessionState, now: int)
    requires Parted(p, a, b, v, now) && v != id
    ensures !Agree(p, a, b, now) && !Agree(p, a[id := s], b[id := s], now)
  {
    assert Parted(p, a[id := s], b[id := s], v, now);
  }

  /** A registration answers as the eager store does, and goes unnoticed
      exactly when it does not evict a session that is still alive. */
  lemma RegisterInvisibleIff(p: Policy, st: Store, m: Sessions, e: Event)
    requires e.op.RegisterOp? && Agree(p, st.sessions, m, e.now)
    ensures var (st', r) := Step(p, st, e);
            var (m', r') := EagerStep(p, m, e);
            r == r' && (Agree(p, st'.sessions, m', e.now) <==> !EvictsLive(p, st, e.op.id, e.now))
  {
    var id, q, now, d := e.op.id, e.op.request, e.now, Drop(p, m, e.now);
    AgreeDrop(p, st.sessions, m, now);
    RegisterEffect(p, st, id, q, now);
    if id in d {
      AgreeSet(p, st.sessions, d, id, Refresh(p, d[id], now), now);
    } else {
      RoomInvisibleIff(p, st, d, id, now);
      if q.aesKey.Some? {
        var s := SessionState(q.publicKey, q.aesKey.value, q.secret, q.response, now, now, []);
        if EvictsLive(p, st, id, now) {
          PartedSet(p, Roomed(p, st, id, now), d, Victim(Cleared(p, st, id, now)), id, s, now);
        } else {
          AgreeSet(p, Roomed(p, st, id, now), d, id, s, now);
        }
      }
    }
  }

  lemma PollInvisible(p: Policy, st: Store, m: Sessions, e: Event)
    requires e.op.PollOp? && Agree(p, st.sessions, m, e.now) && st.db.None?
    ensures var (st', r) := Step(p, st, e);
            var (m', r') := EagerStep(p, m, e);
            r == r' && Agree(p, st'.sessions, m', e.now)
  {
    var id, now, d := e.op.id, e.now, Drop(p, m, e.now);
    AgreeDrop(p, st.sessions, m, now);
    AgreeRemove(p, st.sessions, d, id, now);
    if id in d {
      var s := Refresh(p, d[id], now).(interactions := []);
      AgreeSet(p, st.sessions, d, id, s, now);
      if d[id].secretKey == e.op.secret {
        assert Step(p, st, e).0.sessions == st.sessions[id := s];
      }
    }
  }

  lemma AppendEffect(p: Policy, st: Store, id: Id, encrypted: Option<Bytes>, now: int)
    requires st.db.None? && id in st.sessions
    ensures var s := Refresh(p, st.sessions[id], now);
            Append(p, st, id, encrypted, now).0.sessions ==
            st.sessions[id := if encrypted.Some? then s.(interactions := s.interactions + [encrypted.value]) else s]
  {
  }

  /** An append goes unnoticed exactly when it does not revive a session. */
  lemma AppendInvisibleIff(p: Policy, st: Store, m: Sessions, e: Event)
    requires e.op.AppendOp? && Agree(p, st.sessions, m, e.now) && st.db.None? && p.ttl >= 0
    ensures var (st', r) := Step(p, st, e);
            var (m', r') := EagerStep(p, m, e);
            r == r' && (Agree(p, st'.sessions, m', e.now) <==> !Revives(p, st, e.op.id, e.now))
  {
    var id, now, d := e.op.id, e.now, Drop(p, m, e.now);
    var st', m' := Step(p, st, e).0.sessions, EagerStep(p, m, e).0;
    AgreeDrop(p, st.sessions, m, now);
    if id in st.sessions {
      AppendEffect(p, st, id, e.op.encrypted, now);
      if id in d {
        AgreeSet(p, st.sessions, d, id, m'[id], now);
      } else {
        assert LiveAt(p, m', id, now).None? && m' == d;
        if Revives(p, st, id, now) {
          assert LiveAt(p, st', id, now).Some?;
        } else {
          forall x ensures LiveAt(p, st', x, now) == LiveAt(p, m', x, now) {
            assert LiveAt(p, st.sessions, x, now) == LiveAt(p, d, x, now);
          }
        }
      }
    }
  }

  /** Delete is the one operation that looks at a session without asking
      whether it expired: its answer is the eager one exactly when it does not
      meet an expired session that is still in the map. */
  lemma DeleteAnswerIff(p: Policy, st: Store, m: Sessions, e: Event)
    requires e.op.DeleteOp? && Agree(p, st.sessions, m, e.now)
    ensures Step(p, st, e).1 == EagerStep(p, m, e).1 <==> !Lingers(p, st, e.op.id, e.now)
  {
    AgreeDrop(p, st.sessions, m, e.now);
  }

  lemma OtherInvisible(p: Policy, st: Store, m: Sessions, e: Event)
    requires (e.op.DeleteOp? || e.op.HasOp? || e.op.ResponseOp?) && Agree(p, st.sessions, m, e.now)
    ensures var (st', r) := Step(p, st, e);
            var (m', r') := EagerStep(p, m, e);
            (e.op.DeleteOp? || r == r') && Agree(p, st'.sessions, m', e.now)
  {
    AgreeDrop(p, st.sessions, m, e.now);
    AgreeRemove(p, st.sessions, Drop(p, m, e.now), e.op.id, e.now);
  }

  ghost predicate AllBenign(p: Policy, st: Store, es: seq<Event>, now: int)
    decreases es
  {
    es != [] ==> now <= es[0].now && Benign(p, st, es[0]) && AllBenign(p, Step(p, st, es[0]).0, es[1..], es[0].now)
  }

  /** Over any run with a clock that does not go back, in which no live session
      is evicted and no expired one revived, every answer but Delete's own is that of the
      eager store, and the sessions still alive at the end are the same. */
  lemma {:induction false} ExpiryInvisible(p: Policy, st: Store, m: Sessions, es: seq<Event>, now: int)
    requires Agree(p, st.sessions, m, now) && st.db.None? && p.ttl >= 0 && AllBenign(p, st, es, now)
    ensures var (end, rs) := Run(p, st, es);
            var (m', rs') := EagerRun(p, m, es);
            && |rs| == |rs'| == |es|
            && (forall i :: 0 <= i < |es| && !es[i].op.DeleteOp? ==> rs[i] == rs'[i])
            && Agree(p, end.sessions, m', if es == [] then now else es[|es| - 1].now)
    decreases es
  {
    if es != [] {
      var e := es[0];
      AgreeLater(p, st.sessions, m, now, e.now);
      StepKind(p, st, e);
      StepInvisible(p, st, m, e);
      ExpiryInvisible(p, Step(p, st, e).0, EagerStep(p, m, e).0, es[1..], e.now);
    }
  }

  lemma StepInvisible(p: Policy, st: Store, m: Sessions, e: Event)
    requires Agree(p, st.sessions, m, e.now) && st.db.None? && p.ttl >= 0 && Benign(p, st, e)
    ensures var (st', r) := Step(p, st, e);
            var (m', r') := EagerStep(p, m, e);
            (e.op.DeleteOp? || r == r') && Agree(p, st'.sessions, m', e.now)
  {
    match e.op
    case RegisterOp(_, _) => RegisterInvisibleIff(p, st, m, e);
    case PollOp(_, _) => PollInvisible(p, st, m, e);
    case AppendOp(_, _) => AppendInvisibleIff(p, st, m, e);
    case DeleteOp(_, _) => OtherInvisible(p, st, m, e);
    case HasOp(_) => OtherInvisible(p, st, m, e);
    case ResponseOp(_) => OtherInvisible(p, st, m, e);
  }

  // What a caller can see to

  /** Every append comes after HasCorrelationID on the same id at the same
      instant; `ids` are the ones already asked about at `at`. */
  predicate Checked(ids: set<Id>, at: int, es: seq<Event>)
    decreases es
  {
    es != [] ==>
      var known := if es[0].now == at then ids else {};
      && (es[0].op.AppendOp? ==> es[0].op.id in known)
      && Checked(if es[0].op.HasOp? then known + {es[0].op.id} else known, es[0].now, es[1..])
  }

  /** An id that does not linger now cannot come to linger at this instant. */
  lemma StaysClear(p: Policy, st: Store, e: Event, id: Id)
    requires p.ttl >= 0 && !Lingers(p, st, id, e.now)
    ensures !Lingers(p, Step(p, st, e).0, id, e.now)
  {
    StepModerate(p, st, e);
  }

  /** The handlers append only after HasCorrelationID said yes; whatever it
      says, an append at that same instant revives nothing. */
  lemma CheckedAppendRevivesNothing(p: Policy, st: Store, id: Id, now: int)
    ensures var (st', r) := HasCorrelationID(p, st, id, now);
            && !Lingers(p, st', id, now) && !Revives(p, st', id, now)
            && (r == Present(true) <==> LiveAt(p, st.sessions, id, now).Some?)
  {
  }

  /** Enough room and checked appends make every event of the run benign. */
  lemma {:induction false} CarefulIsBenign(p: Policy, st: Store, es: seq<Event>, now: int, ids: set<Id>)
    requires p.ttl >= 0 && NonDecreasing(now, es) && |st.sessions| + Registrations(es) <= p.capacity
    requires p.slidingTTL ==> Checked(ids, now, es)
    requires forall id :: id in ids ==> !Lingers(p, st, id, now)
    ensures AllBenign(p, st, es, now)
    decreases es
  {
    if es != [] {
      var e, st' := es[0], Step(p, st, es[0]).0;
      var known := if e.now == now then ids else {};
      if e.op.RegisterOp? {
        RoomToRegister(p, st, e.op.id, e.now);
      }
      StepSize(p, st, e);
      forall id | id in known ensures !Lingers(p, st', id, e.now) {
        StaysClear(p, st, e, id);
      }
      if e.op.HasOp? {
        CheckedAppendRevivesNothing(p, st, e.op.id, e.now);
      }
      CarefulIsBenign(p, st', es[1..], e.now, if e.op.HasOp? then known + {e.op.id} else known);
    }
  }

  lemma RoomToRegister(p: Policy, st: Store, id: Id, now: int)
    requires |st.sessions| < p.capacity
    ensures !EvictsLive(p, st, id, now)
  {
    Smaller((st.sessions - {id}).Keys, st.sessions.Keys);
  }

  /** Lazy expiry is invisible, in terms of the calls alone: with fixed expiry,
      or with every append checked at its instant, with room for every
      registration, and a clock that does not go back. Delete's answers are the
      eager ones too wherever they do not meet a lingering session. */
  lemma ExpiryInvisibleToCallers(p: Policy, es: seq<Event>, now: int)
    requires p.ttl >= 0 && NonDecreasing(now, es) && Registrations(es) <= p.capacity
    requires p.slidingTTL ==> Checked({}, now, es)
    ensures var rs := Run(p, Empty(None), es).1;
            var rs' := EagerRun(p, map[], es).1;
            forall i :: 0 <= i < |es| && !es[i].op.DeleteOp? ==> rs[i] == rs'[i]
  {
    CarefulIsBenign(p, Empty(None), es, now, {});
    ExpiryInvisible(p, Empty(None), map[], es, now);
  }

  /** And so it is on the disk backend, if every encryption succeeds with a
      payload whose length the record format can hold. */
  lemma ExpiryInvisibleOnDisk(p: Policy, es: seq<Event>, now: int)
    requires p.ttl >= 0 && NonDecreasing(now, es) && Registrations(es) <= p.capacity && D.AllFit(es)
    requires p.slidingTTL ==> Checked({}, now, es)
    ensures var rs := Run(p, Empty(Some(map[])), es).1;
            var rs' := EagerRun(p, map[], es).1;
            forall i :: 0 <= i < |es| && !es[i].op.DeleteOp? ==> rs[i] == rs'[i]
  {
    D.BackendsAnswerAlike(p, es);
    ExpiryInvisibleToCallers(p, es, now);
  }

  /** Without the check the two stores come to differ: under a sliding TTL of
      10, an append at 11 revives the session registered at 0, and a poll at 12
      finds it. */
  lemma RevivalRun(key: Bytes, e: Bytes)
    ensures var p := Policy(10, false, true, 1);
            var es := [Event(0, RegisterOp("a", Request("", "", None, Some(key)))), Event(11, AppendOp("a", Some(e))),
                       Event(12, PollOp("a", ""))];
            Run(p, Empty(None), es).1[2] == Polled(key, "", [e]) && EagerRun(p, map[], es).1[2] == NotFound
  {
    var p := Policy(10, false, true, 1);
    var a, b, c := Event(0, RegisterOp("a", Request("", "", None, Some(key)))), Event(11, AppendOp("a", Some(e))), Event(12, PollOp("a", ""));
    RunThree(p, Empty(None), a, b, c);
    var st1 := Step(p, Empty(None), a).0;
    var st2 := Step(p, st1, b).0;
    assert st1.sessions["a"] == SessionState("", key, "", None, 0, 0, []);
    assert st2.sessions["a"] == SessionState("", key, "", None, 0, 11, [e]);
    EagerThree(p, a, b, c);
    var m1 := EagerStep(p, map[], a).0;
    assert m1["a"] == SessionState("", key, "", None, 0, 0, []);
    assert Drop(p, m1, 11) == map[];
  }

  lemma EagerThree(p: Policy, a: Event, b: Event, c: Event)
    ensures EagerRun(p, map[], [a, b, c]).1[2] ==
            EagerStep(p, EagerStep(p, EagerStep(p, map[], a).0, b).0, c).1
  {
    var m1 := EagerStep(p, map[], a).0;
    var m2 := EagerStep(p, m1, b).0;
    assert [a, b, c][1..] == [b, c] && [b, c][1..] == [c];
    assert EagerRun(p, m2, [c]).1[0] == EagerStep(p, m2, c).1;
    assert EagerRun(p, m1, [b, c]).1[1] == EagerRun(p, m2, [c]).1[0];
  }
}
