/** The disk backend refines the memory backend: same answers, same sessions,
    same list order, same counters, with the interactions in the database. */
module DiskRefinement {
  import opened Prelude
  import opened RecordCodec
  import opened Store
  import opened StoreRuns

  /** `s` on disk: the same session, its interactions encoded elsewhere. */
  function OnDisk(s: SessionState): SessionState {
    s.(interactions := [])
  }

  ghost predicate SameSessions(mem: map<Id, SessionState>, disk: map<Id, SessionState>) {
    mem.Keys == disk.Keys && forall id :: id in mem ==> disk[id] == OnDisk(mem[id])
  }

  /** `b` is the encoding of the interactions and decodes to them. */
  ghost predicate Holds(b: Bytes, interactions: seq<Bytes>) {
    b == EncodeAll(interactions) && Parse(b) == interactions
  }

  ghost predicate Encodes(mem: map<Id, SessionState>, db: map<Id, Bytes>) {
    && (forall id :: id in mem ==> Holds(Under(db, id), mem[id].interactions))
    && db.Keys <= mem.Keys
  }

  /** All but the interactions. */
  ghost predicate SameOutside(mem: Store, disk: Store) {
    && mem.db.None? && disk.db.Some?
    && mem.lru == disk.lru && mem.hits == disk.hits && mem.misses == disk.misses
    && mem.evictions == disk.evictions && mem.total == disk.total
    && SameSessions(mem.sessions, disk.sessions)
  }

  ghost predicate Related(mem: Store, disk: Store) {
    SameOutside(mem, disk) && Encodes(mem.sessions, disk.db.value)
  }

  lemma RemoveRelated(mem: Store, disk: Store, id: Id)
    requires Related(mem, disk)
    ensures Related(Remove(mem, id), Remove(disk, id))
  {
    var db := disk.db.value - {id};
    forall x | x in mem.sessions && x != id ensures Under(db, x) == Under(disk.db.value, x) {
    }
  }

  lemma HitRelated(p: Policy, mem: Store, disk: Store, id: Id, now: int)
    requires Related(mem, disk) && id in mem.sessions
    ensures Related(Hit(p, mem, id, now), Hit(p, disk, id, now))
  {
  }

  lemma {:induction false} ProbeSame(mem: map<Id, SessionState>, disk: map<Id, SessionState>, ids: seq<Id>, victim: Id, time: int)
    requires SameSessions(mem, disk)
    ensures Probe(mem, ids, victim, time) == Probe(disk, ids, victim, time)
  {
    if ids != [] {
      if ids[0] in mem && mem[ids[0]].lastAccess < time {
        ProbeSame(mem, disk, ids[1..], ids[0], mem[ids[0]].lastAccess);
      } else {
        ProbeSame(mem, disk, ids[1..], victim, time);
      }
    }
  }

  lemma EvictedRelated(mem: Store, disk: Store, id: Id)
    requires Related(mem, disk)
    ensures Related(Evicted(mem, id), Evicted(disk, id))
  {
    RemoveRelated(mem, disk, id);
  }

  lemma MakeRoomRelated(p: Policy, mem: Store, disk: Store)
    requires Related(mem, disk)
    ensures Related(MakeRoom(p, mem), MakeRoom(p, disk))
  {
    assert |mem.sessions| == |mem.sessions.Keys| && |disk.sessions| == |disk.sessions.Keys|;
    ProbeSame(mem.sessions, disk.sessions, ProbeWindow(mem.lru), "", MAX_INT64);
    EvictedRelated(mem, disk, Victim(mem));
  }

  lemma InsertRelated(mem: Store, disk: Store, id: Id, s: SessionState)
    requires Related(mem, disk) && s.interactions == []
    ensures Related(Insert(mem, id, s), Insert(disk, id, s))
  {
    var db := disk.db.value - {id};
    forall x | x in mem.sessions && x != id ensures Under(db, x) == Under(disk.db.value, x) {
    }
  }

  lemma RegisterNewRelated(p: Policy, mem: Store, disk: Store, id: Id, q: Request, now: int)
    requires Related(mem, disk)
    ensures var (m, r) := RegisterNew(p, mem, id, q, now);
            var (d, r') := RegisterNew(p, disk, id, q, now);
            r == r' && Related(m, d)
  {
    RoomRelated(p, mem, disk);
    AddRelated(MakeRoom(p, Missed(mem)), MakeRoom(p, Missed(disk)), id, q, now);
  }

  lemma RoomRelated(p: Policy, mem: Store, disk: Store)
    requires Related(mem, disk)
    ensures Related(MakeRoom(p, Missed(mem)), MakeRoom(p, Missed(disk)))
  {
    var m, d := Missed(mem), Missed(disk);
    assert SameOutside(m, d);
    MakeRoomRelated(p, m, d);
  }

  lemma AddRelated(mem: Store, disk: Store, id: Id, q: Request, now: int)
    requires Related(mem, disk)
    ensures Add(mem, id, q, now).1 == Add(disk, id, q, now).1
    ensures Related(Add(mem, id, q, now).0, Add(disk, id, q, now).0)
  {
    if q.aesKey.Some? {
      InsertRelated(mem, disk, id, SessionState(q.publicKey, q.aesKey.value, q.secret, q.response, now, now, []));
    }
  }

  lemma RegisterRelated(p: Policy, mem: Store, disk: Store, id: Id, q: Request, now: int)
    requires Related(mem, disk)
    ensures var (m, r) := Register(p, mem, id, q, now);
            var (d, r') := Register(p, disk, id, q, now);
            r == r' && Related(m, d)
  {
    if id !in mem.sessions {
      RegisterNewRelated(p, mem, disk, id, q, now);
    } else if IsExpired(p, mem.sessions[id], now) {
      EvictedRelated(mem, disk, id);
      RegisterNewRelated(p, Evicted(mem, id), Evicted(disk, id), id, q, now);
    } else {
      HitRelated(p, mem, disk, id, now);
    }
  }

  lemma DrainRelated(mem: Store, disk: Store, id: Id)
    requires Related(mem, disk) && id in mem.sessions
    ensures Drain(mem, id).1 == Drain(disk, id).1
    ensures Related(Drain(mem, id).0, Drain(disk, id).0)
  {
    var db := disk.db.value;
    assert Holds(Under(db, id), mem.sessions[id].interactions);
    assert Holds([], []);
    EncodesDrain(mem.sessions, db, id, mem.sessions[id].(interactions := []));
    assert db - {id} == if id in db then db - {id} else db;
  }

  lemma EncodesDrain(mem: map<Id, SessionState>, db: map<Id, Bytes>, id: Id, s: SessionState)
    requires Encodes(mem, db) && id in mem && s.interactions == []
    ensures Encodes(mem[id := s], db - {id})
  {
    assert Holds([], []);
    forall x | x in mem[id := s] ensures Holds(Under(db - {id}, x), mem[id := s][x].interactions) {
      if x == id {
        assert Under(db - {id}, x) == [];
      } else {
        assert Under(db - {id}, x) == Under(db, x);
      }
    }
  }

  lemma PollRelated(p: Policy, mem: Store, disk: Store, id: Id, secret: Text, now: int)
    requires Related(mem, disk)
    ensures var (m, r) := Poll(p, mem, id, secret, now);
            var (d, r') := Poll(p, disk, id, secret, now);
            r == r' && Related(m, d)
  {
    if id in mem.sessions {
      if IsExpired(p, mem.sessions[id], now) {
        EvictedRelated(mem, disk, id);
      } else if mem.sessions[id].secretKey == secret {
        HitRelated(p, mem, disk, id, now);
        DrainRelated(Hit(p, mem, id, now), Hit(p, disk, id, now), id);
      }
    }
  }

  /** When the two backends stay in step over an append: the payload's length
      must be representable, and a failed encryption must find nothing to
      touch, because only the memory backend touches the session before. */
  predicate AppendAgrees(p: Policy, st: Store, id: Id, encrypted: Option<Bytes>, now: int) {
    id in st.sessions ==>
      match encrypted
      case Some(e) => Fits(e)
      case None => !p.slidingTTL || st.sessions[id].lastAccess == now
  }

  lemma EncodesAppend(mem: map<Id, SessionState>, db: map<Id, Bytes>, id: Id, s: SessionState, e: Bytes)
    requires Encodes(mem, db) && id in mem && s.interactions == mem[id].interactions + [e]
    ensures Encodes(mem[id := s], db[id := Under(db, id) + EncodeRecord(e)]) <==> Fits(e)
  {
    var db' := db[id := Under(db, id) + EncodeRecord(e)];
    HoldsAppend(Under(db, id), mem[id].interactions, e);
    if Fits(e) {
      forall x | x in mem[id := s] ensures Holds(Under(db', x), mem[id := s][x].interactions) {
        if x != id {
          assert Under(db', x) == Under(db, x);
        }
      }
    } else {
      assert !Holds(Under(db', id), mem[id := s][id].interactions);
    }
  }

  lemma HoldsAppend(b: Bytes, ints: seq<Bytes>, e: Bytes)
    requires Holds(b, ints)
    ensures Holds(b + EncodeRecord(e), ints + [e]) <==> Fits(e)
  {
    EncodeAllAppend(ints, e);
    RoundTrip(ints);
    RoundTrip(ints + [e]);
    assert (ints + [e])[|ints|] == e;
    assert (forall q :: q in ints + [e] ==> Fits(q)) <==> Fits(e);
  }

  lemma AppendRelatedIff(p: Policy, mem: Store, disk: Store, id: Id, encrypted: Option<Bytes>, now: int)
    requires Related(mem, disk)
    ensures Append(p, mem, id, encrypted, now).1 == Append(p, disk, id, encrypted, now).1
    ensures Related(Append(p, mem, id, encrypted, now).0, Append(p, disk, id, encrypted, now).0)
            <==> AppendAgrees(p, mem, id, encrypted, now)
  {
    if id in mem.sessions {
      if encrypted.Some? {
        StoredRelatedIff(p, mem, disk, id, encrypted.value, now);
      } else {
        FailedRelatedIff(p, mem, disk, id, now);
      }
    }
  }

  lemma StoredRelatedIff(p: Policy, mem: Store, disk: Store, id: Id, e: Bytes, now: int)
    requires Related(mem, disk) && id in mem.sessions
    ensures Related(Append(p, mem, id, Some(e), now).0, Append(p, disk, id, Some(e), now).0) <==> Fits(e)
  {
    var m, d := Append(p, mem, id, Some(e), now).0, Append(p, disk, id, Some(e), now).0;
    StoredOutside(p, mem, disk, id, e, now);
    EncodesAppend(mem.sessions, disk.db.value, id, m.sessions[id], e);
  }

  lemma StoredOutside(p: Policy, mem: Store, disk: Store, id: Id, e: Bytes, now: int)
    requires SameOutside(mem, disk) && id in mem.sessions
    ensures var m, d := Append(p, mem, id, Some(e), now).0, Append(p, disk, id, Some(e), now).0;
            && SameOutside(m, d)
            && id in m.sessions && m.sessions == mem.sessions[id := m.sessions[id]]
            && m.sessions[id].interactions == mem.sessions[id].interactions + [e]
            && d.db.value == disk.db.value[id := Under(disk.db.value, id) + EncodeRecord(e)]
  {
  }

  lemma FailedRelatedIff(p: Policy, mem: Store, disk: Store, id: Id, now: int)
    requires Related(mem, disk) && id in mem.sessions
    ensures Related(Append(p, mem, id, None, now).0, Append(p, disk, id, None, now).0)
            <==> !p.slidingTTL || mem.sessions[id].lastAccess == now
  {
    var m, d := Append(p, mem, id, None, now).0, Append(p, disk, id, None, now).0;
    assert d.sessions[id] == OnDisk(mem.sessions[id]);
    assert m.sessions[id].lastAccess == if p.slidingTTL then now else mem.sessions[id].lastAccess;
    if !p.slidingTTL || mem.sessions[id].lastAccess == now {
      assert m.sessions == mem.sessions;
    }
  }

  lemma DeleteRelated(mem: Store, disk: Store, id: Id, secret: Text)
    requires Related(mem, disk)
    ensures var (m, r) := Delete(mem, id, secret);
            var (d, r') := Delete(disk, id, secret);
            r == r' && Related(m, d)
  {
    assert Related(mem.(hits := mem.hits + 1), disk.(hits := disk.hits + 1));
    RemoveRelated(mem.(hits := mem.hits + 1), disk.(hits := disk.hits + 1), id);
  }

  lemma HasRelated(p: Policy, mem: Store, disk: Store, id: Id, now: int)
    requires Related(mem, disk)
    ensures var (m, r) := HasCorrelationID(p, mem, id, now);
            var (d, r') := HasCorrelationID(p, disk, id, now);
            r == r' && Related(m, d)
  {
    EvictedRelated(mem, disk, id);
  }

  lemma StepRelated(p: Policy, mem: Store, disk: Store, e: Event)
    requires Related(mem, disk)
    requires e.op.AppendOp? ==> AppendAgrees(p, mem, e.op.id, e.op.encrypted, e.now)
    ensures var (m, r) := Step(p, mem, e);
            var (d, r') := Step(p, disk, e);
            r == r' && Related(m, d)
  {
    match e.op
    case RegisterOp(id, q) => RegisterRelated(p, mem, disk, id, q, e.now);
    case PollOp(id, secret) => PollRelated(p, mem, disk, id, secret, e.now);
    case AppendOp(id, encrypted) => AppendRelatedIff(p, mem, disk, id, encrypted, e.now);
    case DeleteOp(id, secret) => DeleteRelated(mem, disk, id, secret);
    case HasOp(id) => HasRelated(p, mem, disk, id, e.now);
    case ResponseOp(_) =>
  }

  ghost predicate AppendsAgree(p: Policy, st: Store, es: seq<Event>)
    decreases es
  {
    es != [] ==>
      && (es[0].op.AppendOp? ==> AppendAgrees(p, st, es[0].op.id, es[0].op.encrypted, es[0].now))
      && AppendsAgree(p, Step(p, st, es[0]).0, es[1..])
  }

  /** Over any run the two backends give the same answers, polled batches
      included, and end with the same sessions, list order and counters. */
  lemma {:induction false} DiskRefinesMemory(p: Policy, mem: Store, disk: Store, es: seq<Event>)
    requires Related(mem, disk) && AppendsAgree(p, mem, es)
    ensures var (m, rs) := Run(p, mem, es);
            var (d, rs') := Run(p, disk, es);
            rs == rs' && Related(m, d)
    decreases es
  {
    if es != [] {
      StepRelated(p, mem, disk, es[0]);
      DiskRefinesMemory(p, Step(p, mem, es[0]).0, Step(p, disk, es[0]).0, es[1..]);
    }
  }

  lemma EmptyRelated()
    ensures Related(Empty(None), Empty(Some(map[])))
  {
  }

  /** Every encryption of the run succeeded, with a length the format can hold. */
  predicate AllFit(es: seq<Event>) {
    forall i :: 0 <= i < |es| && es[i].op.AppendOp? ==> es[i].op.encrypted.Some? && Fits(es[i].op.encrypted.value)
  }

  lemma {:induction false} FittingAppendsAgree(p: Policy, st: Store, es: seq<Event>)
    requires AllFit(es)
    ensures AppendsAgree(p, st, es)
    decreases es
  {
    if es != [] {
      assert forall i :: 0 <= i < |es| - 1 ==> es[1..][i] == es[i + 1];
      FittingAppendsAgree(p, Step(p, st, es[0]).0, es[1..]);
    }
  }

  /** From empty stores, in terms of the calls alone. */
  lemma BackendsAnswerAlike(p: Policy, es: seq<Event>)
    requires AllFit(es)
    ensures Run(p, Empty(None), es).1 == Run(p, Empty(Some(map[])), es).1
    ensures Related(Run(p, Empty(None), es).0, Run(p, Empty(Some(map[])), es).0)
  {
    EmptyRelated();
    FittingAppendsAgree(p, Empty(None), es);
    DiskRefinesMemory(p, Empty(None), Empty(Some(map[])), es);
  }

  function Registering(key: Bytes): Event {
    Event(0, RegisterOp("a", Request("", "", None, Some(key))))
  }

  /** A failed encryption tells the backends apart: under a sliding TTL of 10
      it touches the session in memory but not on disk, so that a poll at 11
      finds it only in memory. */
  lemma FailedEncryptionRun(key: Bytes)
    ensures var p := Policy(10, false, true, 1);
            var es := [Registering(key), Event(10, AppendOp("a", None)), Event(11, PollOp("a", ""))];
            Run(p, Empty(None), es).1[2] == Polled(key, "", []) && Run(p, Empty(Some(map[])), es).1[2] == NotFound
  {
    var p := Policy(10, false, true, 1);
    var a, b, c := Registering(key), Event(10, AppendOp("a", None)), Event(11, PollOp("a", ""));
    RunThree(p, Empty(None), a, b, c);
    RunThree(p, Empty(Some(map[])), a, b, c);
    var mem, disk := Step(p, Empty(None), a).0, Step(p, Empty(Some(map[])), a).0;
    assert mem.sessions["a"] == disk.sessions["a"] == SessionState("", key, "", None, 0, 0, []);
    assert Step(p, mem, b).0.sessions["a"].lastAccess == 10 && Step(p, disk, b).0.sessions["a"].lastAccess == 0;
  }

  /** So does a payload too long for the length field: only the memory backend
      gives it back. */
  lemma OversizePayloadRun(key: Bytes, e: Bytes)
    requires !Fits(e)
    ensures var p := Policy(10, false, true, 1);
            var es := [Registering(key), Event(1, AppendOp("a", Some(e))), Event(2, PollOp("a", ""))];
            Run(p, Empty(None), es).1[2] == Polled(key, "", [e]) && Run(p, Empty(Some(map[])), es).1[2] != Polled(key, "", [e])
  {
    var p := Policy(10, false, true, 1);
    var a, b, c := Registering(key), Event(1, AppendOp("a", Some(e))), Event(2, PollOp("a", ""));
    RunThree(p, Empty(None), a, b, c);
    RunThree(p, Empty(Some(map[])), a, b, c);
    var mem, disk := Step(p, Empty(None), a).0, Step(p, Empty(Some(map[])), a).0;
    assert mem.sessions["a"] == disk.sessions["a"] == SessionState("", key, "", None, 0, 0, []);
    assert "a" !in disk.db.value;
    assert Step(p, mem, b).0.sessions["a"] == SessionState("", key, "", None, 0, 1, [e]);
    assert Step(p, disk, b).0.db.value["a"] == EncodeAll([e]);
    RoundTrip([e]);
    assert e in [e];
  }
}
