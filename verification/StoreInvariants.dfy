/** What every reachable state of the session store keeps. */
module StoreInvariants {
  import opened Prelude
  import opened Store

  /** Map, list and database agree on which ids there are. */
  ghost predicate IndexOk(st: Store) {
    && NoDup(st.lru)
    && (forall id :: id in st.lru <==> id in st.sessions)
    && (st.db.Some? ==> st.db.value.Keys <= st.sessions.Keys)
  }

  /** No session has the id or the time the probe loop uses for "none". */
  ghost predicate Probeable(st: Store) {
    "" !in st.sessions && forall id :: id in st.sessions ==> st.sessions[id].lastAccess < MAX_INT64
  }

  predicate Proper(e: Event) {
    e.now < MAX_INT64 && e.op.id != ""
  }

  lemma {:induction false} WithoutSplit(lru: seq<Id>, id: Id)
    requires NoDup(lru)
    ensures NoDup(Without(lru, id)) && forall x :: x in Without(lru, id) <==> x in lru && x != id
  {
    var isOther := (x: Id) => x != id;
    forall x ensures x in Without(lru, id) <==> x in lru && x != id {
      FilterElements(isOther, lru, x);
    }
    if lru != [] {
      var tail := Without(lru[1..], id);
      assert NoDup(lru[1..]);
      WithoutSplit(lru[1..], id);
      assert Without(lru, id) == (if lru[0] != id then [lru[0]] else []) + tail;
      if lru[0] != id {
        assert lru[0] !in lru[1..];
      } else {
        assert Without(lru, id) == tail;
      }
    }
  }

  lemma RemoveOk(st: Store, id: Id)
    requires IndexOk(st)
    ensures IndexOk(Remove(st, id))
  {
    WithoutSplit(st.lru, id);
    var r := Remove(st, id);
    assert r.lru == Without(st.lru, id);
    assert forall x :: x in r.sessions <==> x in st.sessions && x != id;
  }

  lemma RemoveSize(sessions: map<Id, SessionState>, id: Id)
    ensures id in sessions ==> |sessions - {id}| == |sessions| - 1
    ensures id !in sessions ==> sessions - {id} == sessions
  {
    assert (sessions - {id}).Keys == sessions.Keys - {id};
  }

  lemma PromoteOk(st: Store, id: Id)
    requires IndexOk(st)
    ensures IndexOk(Promote(st, id)) && Promote(st, id).sessions == st.sessions
  {
    WithoutSplit(st.lru, id);
  }

  lemma InsertOk(st: Store, id: Id, s: SessionState)
    requires IndexOk(st) && id !in st.sessions
    ensures IndexOk(Insert(st, id, s)) && |Insert(st, id, s).sessions| == |st.sessions| + 1
  {
    assert Insert(st, id, s).sessions.Keys == st.sessions.Keys + {id};
  }

  // The victim

  /** The k-th of `ids` is the first with the least lastAccess. */
  ghost predicate LeastAt(sessions: map<Id, SessionState>, ids: seq<Id>, k: nat) {
    && k < |ids| && ids[k] in sessions
    && (forall j :: 0 <= j < |ids| && ids[j] in sessions ==> sessions[ids[k]].lastAccess <= sessions[ids[j]].lastAccess)
    && (forall j :: 0 <= j < k && ids[j] in sessions ==> sessions[ids[k]].lastAccess < sessions[ids[j]].lastAccess)
  }

  ghost predicate FirstLeast(sessions: map<Id, SessionState>, ids: seq<Id>, v: Id) {
    exists k: nat :: LeastAt(sessions, ids, k) && ids[k] == v
  }

  ghost predicate NoneBelow(sessions: map<Id, SessionState>, ids: seq<Id>, time: int) {
    forall j :: 0 <= j < |ids| && ids[j] in sessions ==> sessions[ids[j]].lastAccess >= time
  }

  lemma LeastShift(sessions: map<Id, SessionState>, ids: seq<Id>, k: nat)
    requires ids != [] && LeastAt(sessions, ids[1..], k)
    requires ids[0] in sessions ==> sessions[ids[1..][k]].lastAccess < sessions[ids[0]].lastAccess
    ensures LeastAt(sessions, ids, k + 1)
  {
    assert forall j :: 0 < j < |ids| ==> ids[j] == ids[1..][j - 1];
  }

  /** An entry that beats the best so far, before the rest of the window. */
  lemma LeastTaken(sessions: map<Id, SessionState>, ids: seq<Id>, v: Id)
    requires ids != [] && ids[0] in sessions
    requires var first := sessions[ids[0]].lastAccess;
             || (v == ids[0] && NoneBelow(sessions, ids[1..], first))
             || (FirstLeast(sessions, ids[1..], v) && sessions[v].lastAccess < first)
    ensures FirstLeast(sessions, ids, v) && sessions[v].lastAccess <= sessions[ids[0]].lastAccess
  {
    var rest := ids[1..];
    assert forall j :: 0 < j < |ids| ==> ids[j] == rest[j - 1];
    if v == ids[0] && NoneBelow(sessions, rest, sessions[ids[0]].lastAccess) {
      assert LeastAt(sessions, ids, 0);
    } else {
      var k: nat :| LeastAt(sessions, rest, k) && rest[k] == v;
      LeastShift(sessions, ids, k);
    }
  }

  lemma LeastSkipped(sessions: map<Id, SessionState>, ids: seq<Id>, v: Id, time: int)
    requires ids != [] && (ids[0] in sessions ==> sessions[ids[0]].lastAccess >= time)
    ensures NoneBelow(sessions, ids[1..], time) ==> NoneBelow(sessions, ids, time)
    ensures FirstLeast(sessions, ids[1..], v) && sessions[v].lastAccess < time ==> FirstLeast(sessions, ids, v)
  {
    var rest := ids[1..];
    assert forall j :: 0 < j < |ids| ==> ids[j] == rest[j - 1];
    if FirstLeast(sessions, rest, v) && sessions[v].lastAccess < time {
      var k: nat :| LeastAt(sessions, rest, k) && rest[k] == v;
      LeastShift(sessions, ids, k);
    }
  }

  /** What the probe loop computes from any state of its two variables. */
  lemma {:induction false} ProbeLeast(sessions: map<Id, SessionState>, ids: seq<Id>, victim: Id, time: int)
    ensures var v := Probe(sessions, ids, victim, time);
            || (v == victim && NoneBelow(sessions, ids, time))
            || (FirstLeast(sessions, ids, v) && sessions[v].lastAccess < time)
  {
    if ids != [] {
      var v := Probe(sessions, ids, victim, time);
      if ids[0] in sessions && sessions[ids[0]].lastAccess < time {
        ProbeLeast(sessions, ids[1..], ids[0], sessions[ids[0]].lastAccess);
        LeastTaken(sessions, ids, v);
      } else {
        ProbeLeast(sessions, ids[1..], victim, time);
        LeastSkipped(sessions, ids, v, time);
      }
    }
  }

  /** When no session looks like "none", a store that is not empty always
      yields a victim: the least recently used of the probed entries. */
  lemma VictimIsLeastProbed(st: Store)
    requires IndexOk(st) && Probeable(st) && st.sessions != map[]
    ensures FirstLeast(st.sessions, ProbeWindow(st.lru), Victim(st))
    ensures Victim(st) != "" && Victim(st) in st.sessions
  {
    var ids := ProbeWindow(st.lru);
    var id :| id in st.sessions;
    assert id in st.lru;
    assert ids[0] in st.lru && ids[0] in st.sessions;
    ProbeLeast(st.sessions, ids, "", MAX_INT64);
  }

  lemma FirstLeastUnique(sessions: map<Id, SessionState>, ids: seq<Id>, v: Id, w: Id)
    requires FirstLeast(sessions, ids, v) && FirstLeast(sessions, ids, w)
    ensures v == w
  {
    var k: nat :| LeastAt(sessions, ids, k) && ids[k] == v;
    var l: nat :| LeastAt(sessions, ids, l) && ids[l] == w;
    assert k == l;
  }

  // Every operation, every run

  /** Ids in the list, and one count of sessions: created less removed. */
  ghost predicate Counts(st: Store, deletes: nat) {
    st.total == |st.sessions| + st.evictions + deletes
  }

  ghost predicate Ok(p: Policy, st: Store, deletes: nat) {
    IndexOk(st) && Probeable(st) && Counts(st, deletes) && |st.sessions| <= p.capacity
  }

  lemma SetOk(p: Policy, st: Store, id: Id, s: SessionState, deletes: nat)
    requires Ok(p, st, deletes) && id in st.sessions && s.lastAccess < MAX_INT64
    ensures Ok(p, st.(sessions := st.sessions[id := s]), deletes)
  {
    assert st.sessions[id := s].Keys == st.sessions.Keys;
  }

  lemma TouchOk(p: Policy, st: Store, id: Id, now: int, deletes: nat)
    requires Ok(p, st, deletes) && id in st.sessions && now < MAX_INT64
    ensures Ok(p, Touch(p, st, id, now), deletes)
  {
    SetOk(p, st, id, st.sessions[id].(lastAccess := now), deletes);
  }

  lemma RemovedOk(p: Policy, st: Store, id: Id, deletes: nat)
    requires Ok(p, st, deletes) && id in st.sessions
    ensures Ok(p, Evicted(st, id), deletes)
    ensures Ok(p, Remove(st, id), deletes + 1)
  {
    RemoveOk(st, id);
    RemoveSize(st.sessions, id);
  }

  lemma MakeRoomOk(p: Policy, st: Store, deletes: nat)
    requires Ok(p, st, deletes) && p.capacity > 0
    ensures var room := MakeRoom(p, st);
            Ok(p, room, deletes) && |room.sessions| < p.capacity && room.sessions.Keys <= st.sessions.Keys
  {
    if |st.sessions| >= p.capacity {
      VictimIsLeastProbed(st);
      RemovedOk(p, st, Victim(st), deletes);
      RemoveSize(st.sessions, Victim(st));
    }
  }

  lemma AddOk(p: Policy, st: Store, id: Id, q: Request, now: int, deletes: nat)
    requires Ok(p, st, deletes) && |st.sessions| < p.capacity
    requires id !in st.sessions && id != "" && now < MAX_INT64
    ensures var (st', r) := Add(st, id, q, now); Ok(p, st', deletes) && !r.Deleted?
  {
    if q.aesKey.Some? {
      InsertOk(st, id, SessionState(q.publicKey, q.aesKey.value, q.secret, q.response, now, now, []));
    }
  }

  lemma RegisterNewOk(p: Policy, st: Store, id: Id, q: Request, now: int, deletes: nat)
    requires Ok(p, st, deletes) && id !in st.sessions && id != "" && now < MAX_INT64 && p.capacity > 0
    ensures var (st', r) := RegisterNew(p, st, id, q, now); Ok(p, st', deletes) && !r.Deleted?
  {
    RoomOk(p, st, deletes);
    AddOk(p, MakeRoom(p, Missed(st)), id, q, now, deletes);
  }

  lemma RoomOk(p: Policy, st: Store, deletes: nat)
    requires Ok(p, st, deletes) && p.capacity > 0
    ensures var room := MakeRoom(p, Missed(st));
            Ok(p, room, deletes) && |room.sessions| < p.capacity && room.sessions.Keys <= st.sessions.Keys
  {
    var missed := Missed(st);
    assert Ok(p, missed, deletes);
    MakeRoomOk(p, missed, deletes);
  }

  lemma RegisterOk(p: Policy, st: Store, id: Id, q: Request, now: int, deletes: nat)
    requires Ok(p, st, deletes) && id != "" && now < MAX_INT64 && p.capacity > 0
    ensures var (st', r) := Register(p, st, id, q, now); Ok(p, st', deletes) && !r.Deleted?
  {
    if id !in st.sessions {
      RegisterNewOk(p, st, id, q, now, deletes);
    } else if IsExpired(p, st.sessions[id], now) {
      RemovedOk(p, st, id, deletes);
      RegisterNewOk(p, Evicted(st, id), id, q, now, deletes);
    } else {
      HitOk(p, st, id, now, deletes);
    }
  }

  lemma DeleteOk(p: Policy, st: Store, id: Id, secret: Text, deletes: nat)
    requires Ok(p, st, deletes)
    ensures var (st', r) := Delete(st, id, secret); Ok(p, st', deletes + DeleteCount(r))
  {
    if id in st.sessions {
      RemovedOk(p, st.(hits := st.hits + 1), id, deletes);
    }
  }

  lemma HasOk(p: Policy, st: Store, id: Id, now: int, deletes: nat)
    requires Ok(p, st, deletes)
    ensures Ok(p, HasCorrelationID(p, st, id, now).0, deletes)
  {
    if id in st.sessions {
      RemovedOk(p, st, id, deletes);
    }
  }

  function DeleteCount(r: Result): nat { if r.Deleted? then 1 else 0 }

  lemma StepOk(p: Policy, st: Store, e: Event, deletes: nat)
    requires Ok(p, st, deletes) && Proper(e) && p.capacity > 0
    ensures var (st', r) := Step(p, st, e); Ok(p, st', deletes + DeleteCount(r))
  {
    match e.op
    case RegisterOp(id, q) => RegisterOk(p, st, id, q, e.now, deletes);
    case PollOp(id, secret) => PollOk(p, st, id, secret, e.now, deletes);
    case AppendOp(id, encrypted) => AppendOk(p, st, id, encrypted, e.now, deletes);
    case DeleteOp(id, secret) => DeleteOk(p, st, id, secret, deletes);
    case HasOp(id) => HasOk(p, st, id, e.now, deletes);
    case ResponseOp(_) =>
  }

  lemma DrainOk(p: Policy, st: Store, id: Id, deletes: nat)
    requires Ok(p, st, deletes)
    ensures Ok(p, Drain(st, id).0, deletes)
  {
    if id in st.sessions {
      SetOk(p, st, id, st.sessions[id].(interactions := []), deletes);
    }
  }

  lemma HitOk(p: Policy, st: Store, id: Id, now: int, deletes: nat)
    requires Ok(p, st, deletes) && id in st.sessions && now < MAX_INT64
    ensures Ok(p, Hit(p, st, id, now), deletes)
  {
    var hit := st.(hits := st.hits + 1);
    assert Ok(p, hit, deletes);
    TouchOk(p, hit, id, now, deletes);
    PromoteOk(Touch(p, hit, id, now), id);
  }

  lemma PollOk(p: Policy, st: Store, id: Id, secret: Text, now: int, deletes: nat)
    requires Ok(p, st, deletes) && now < MAX_INT64
    ensures Ok(p, Poll(p, st, id, secret, now).0, deletes) && !Poll(p, st, id, secret, now).1.Deleted?
  {
    var (got, r) := GetSession(p, st, id, secret, now);
    if id in st.sessions {
      if IsExpired(p, st.sessions[id], now) {
        RemovedOk(p, st, id, deletes);
      } else {
        HitOk(p, st, id, now, deletes);
      }
    }
    assert Ok(p, got, deletes);
    DrainOk(p, got, id, deletes);
  }

  lemma AppendOk(p: Policy, st: Store, id: Id, encrypted: Option<Bytes>, now: int, deletes: nat)
    requires Ok(p, st, deletes) && now < MAX_INT64
    ensures Ok(p, Append(p, st, id, encrypted, now).0, deletes) && !Append(p, st, id, encrypted, now).1.Deleted?
  {
    if id in st.sessions {
      var touched := Touch(p, st.(hits := st.hits + 1), id, now);
      TouchOk(p, st.(hits := st.hits + 1), id, now, deletes);
      if encrypted.Some? {
        SetOk(p, touched, id, touched.sessions[id].(interactions := touched.sessions[id].interactions + [encrypted.value]), deletes);
      }
    }
  }

  function Deletes(rs: seq<Result>): nat {
    if rs == [] then 0 else DeleteCount(rs[0]) + Deletes(rs[1..])
  }

  lemma EmptyOk(p: Policy, db: Option<map<Id, Bytes>>)
    requires db.Some? ==> db.value == map[]
    ensures Ok(p, Empty(db), 0)
  {
  }

  /** In every state a run of operations reaches: the ids of the map and of the
      list are the same, without duplicates; the database has
      no key that is not registered; there are no more sessions than the
      capacity; and sessions created = live + evicted + deleted. */
  lemma {:induction false} RunOk(p: Policy, st: Store, es: seq<Event>, deletes: nat)
    requires Ok(p, st, deletes) && p.capacity > 0
    requires forall i :: 0 <= i < |es| ==> Proper(es[i])
    ensures var (end, rs) := Run(p, st, es); Ok(p, end, deletes + Deletes(rs))
    decreases es
  {
    if es != [] {
      var (st', r) := Step(p, st, es[0]);
      StepOk(p, st, es[0], deletes);
      RunOk(p, st', es[1..], deletes + DeleteCount(r));
      var rs := Run(p, st', es[1..]).1;
      assert ([r] + rs)[1..] == rs;
    }
  }

  // The empty id

  /** The probe loop marks "no victim" by the empty id. A full store makes room
      exactly when the session it would evict is not the one of that id. */
  lemma MakesRoomIff(p: Policy, st: Store)
    requires IndexOk(st) && (forall id :: id in st.sessions ==> st.sessions[id].lastAccess < MAX_INT64)
    requires 0 < p.capacity == |st.sessions|
    ensures |MakeRoom(p, st).sessions| < p.capacity <==> !FirstLeast(st.sessions, ProbeWindow(st.lru), "")
  {
    var ids, v := ProbeWindow(st.lru), Victim(st);
    assert st.sessions != map[];
    var id :| id in st.sessions;
    assert id in st.lru;
    assert ids[0] in st.lru && ids[0] in st.sessions;
    ProbeLeast(st.sessions, ids, "", MAX_INT64);
    if v != "" {
      RemoveSize(st.sessions, v);
      if FirstLeast(st.sessions, ids, "") {
        FirstLeastUnique(st.sessions, ids, v, "");
      }
    }
  }

  /** So the capacity holds after registering a new id in a full store exactly
      when that session is not the first least recently used one probed. */
  lemma CapacityKeptIff(p: Policy, st: Store, id: Id, q: Request, now: int)
    requires IndexOk(st) && (forall x :: x in st.sessions ==> st.sessions[x].lastAccess < MAX_INT64)
    requires 0 < p.capacity == |st.sessions| && id !in st.sessions && q.aesKey.Some?
    ensures |Register(p, st, id, q, now).0.sessions| <= p.capacity <==> !FirstLeast(st.sessions, ProbeWindow(st.lru), "")
  {
    MakesRoomIff(p, Missed(st));
    var room := MakeRoom(p, Missed(st));
    assert Add(room, id, q, now).0.sessions.Keys == room.sessions.Keys + {id};
    assert |room.sessions.Keys + {id}| == |room.sessions| + 1;
  }

  /** Two registrations suffice: with room for one session, the one under the
      empty id shields itself and the store then holds two. The configuration
      asks for ids of at least three characters (config.go:139), so no deployed
      server registers the empty id. */
  lemma EmptyIdDefeatsCapacity(q: Request)
    requires q.aesKey.Some?
    ensures var p := Policy(10, true, true, 1);
            |Run(p, Empty(None), [Event(0, RegisterOp("", q)), Event(0, RegisterOp("a", q))]).0.sessions| == 2
  {
    var p := Policy(10, true, true, 1);
    var a, b := Event(0, RegisterOp("", q)), Event(0, RegisterOp("a", q));
    var st := Step(p, Empty(None), a).0;
    AddedAlone(q);
    Shielded(p, st, q);
    assert [a, b][1..] == [b] && Run(p, st, [b]).0 == Step(p, st, b).0;
  }

  lemma AddedAlone(q: Request)
    requires q.aesKey.Some?
    ensures var st := Register(Policy(10, true, true, 1), Empty(None), "", q, 0).0;
            st.sessions.Keys == {""} && st.lru == [""] && st.sessions[""].lastAccess == 0 && st.db.None?
  {
  }

  lemma Shielded(p: Policy, st: Store, q: Request)
    requires p.capacity == 1 && q.aesKey.Some?
    requires st.sessions.Keys == {""} && st.lru == [""] && st.sessions[""].lastAccess == 0 && st.db.None?
    ensures |Register(p, st, "a", q, 0).0.sessions| == 2
  {
    assert LeastAt(st.sessions, [""], 0);
    assert |st.sessions| == |st.sessions.Keys| == 1;
    MakesRoomIff(p, Missed(st));
    var room := MakeRoom(p, Missed(st));
    assert room.sessions == st.sessions;
    assert Add(room, "a", q, 0).0.sessions.Keys == {"", "a"};
  }
}
