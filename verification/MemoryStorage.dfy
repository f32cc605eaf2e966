/** The memory backend as it is written: session objects in a map, a list of
    LRU entries with an index into it, and counters, all updated in place.
    Every method is proved to do what the function of the same name in Store
    does; what those functions keep is proved in StoreInvariants. */
module MemoryStorageModel {
  import opened Prelude
  import opened RecordCodec
  import opened LruLinks
  import S = Store

  type Id = S.Id

  class Session {
    const publicKey: Text
    const aesKey: Bytes
    const secretKey: Text
    const response: Option<S.ResponseConfig>
    const createdAt: int
    var lastAccess: int
    var interactions: seq<Bytes>

    constructor (q: S.Request, now: int)
      requires q.aesKey.Some?
      ensures State() == S.SessionState(q.publicKey, q.aesKey.value, q.secret, q.response, now, now, [])
    {
      publicKey, aesKey, secretKey, response := q.publicKey, q.aesKey.value, q.secret, q.response;
      createdAt, lastAccess, interactions := now, now, [];
    }

    function State(): S.SessionState
      reads this
    {
      S.SessionState(publicKey, aesKey, secretKey, response, createdAt, lastAccess, interactions)
    }

    /** The handle's drain in the memory backend. */
    method GetAndClearInteractions() returns (result: seq<Bytes>)
      modifies `interactions
      ensures result == old(interactions) && interactions == []
    {
      result := interactions;
      interactions := [];
    }
  }

  /** The key/value database behind the disk backend. */
  class Database {
    var contents: map<Id, Bytes>

    constructor ()
      ensures contents == map[]
    {
      contents := map[];
    }

    method Delete(id: Id)
      modifies this
      ensures contents == old(contents) - {id}
    {
      contents := contents - {id};
    }

    method Put(id: Id, value: Bytes)
      modifies this
      ensures contents == old(contents)[id := value]
    {
      contents := contents[id := value];
    }
  }

  /** The values the session objects hold. */
  ghost function States(sessions: map<Id, Session>): map<Id, S.SessionState>
    reads sessions.Values
  {
    map id | id in sessions :: sessions[id].State()
  }

  lemma StatesRemove(sessions: map<Id, Session>, id: Id)
    ensures States(sessions - {id}) == States(sessions) - {id}
  {
  }

  lemma StatesInsert(sessions: map<Id, Session>, id: Id, s: Session)
    ensures States(sessions[id := s]) == States(sessions)[id := s.State()]
  {
  }

  /** Objects that were left alone hold what they held. */
  twostate lemma StatesSame(sessions: map<Id, Session>)
    requires forall id :: id in sessions ==> sessions[id].State() == old(sessions[id].State())
    ensures States(sessions) == old(States(sessions))
  {
  }

  ghost function Recorded(st: S.Store, id: Id, payload: Bytes): S.Store
    requires st.db.Some?
  {
    var existing := if id in st.db.value then st.db.value[id] else [];
    st.(db := Some(st.db.value[id := existing + EncodeRecord(payload)]))
  }

  ghost function Pushed(st: S.Store, id: Id, payload: Bytes): S.Store
    requires id in st.sessions
  {
    var s := st.sessions[id];
    st.(sessions := st.sessions[id := s.(interactions := s.interactions + [payload])])
  }

  /** The instant that decides a call that tests expiry, and tests it again if
      the first test says expired. */
  ghost function Deciding(p: S.Policy, st: S.Store, id: Id, now: int, later: int): int {
    if id in st.sessions && S.IsExpired(p, st.sessions[id], now) then later else now
  }

  ghost function Counted(st: S.Store): S.Store {
    st.(hits := st.hits + 1)
  }

  /** The parts of a hit, in the two orders the code has them. */
  lemma HitParts(p: S.Policy, st: S.Store, id: Id, now: int)
    requires id in st.sessions
    ensures S.Promote(S.Touch(p, Counted(st), id, now), id) == S.Hit(p, st, id, now)
    ensures id in S.Promote(st, id).sessions
    ensures S.Touch(p, Counted(S.Promote(st, id)), id, now) == S.Hit(p, st, id, now)
  {
  }

  /** Registering an id that is registered already. */
  ghost function KeptAlive(p: S.Policy, st: S.Store, id: Id, q: S.Request, now: int): (S.Store, S.Result)
    requires id in st.sessions
  {
    if st.sessions[id].secretKey != q.secret then (Counted(st), S.AlreadyExists)
    else (S.Promote(S.Touch(p, Counted(st), id, now), id), S.Registered(st.sessions[id].aesKey, false))
  }

  lemma RegisterIsKeepAlive(p: S.Policy, st: S.Store, id: Id, q: S.Request, now: int)
    requires id in st.sessions && !S.IsExpired(p, st.sessions[id], now)
    ensures S.Register(p, st, id, q, now) == KeptAlive(p, st, id, q, now)
  {
  }

  lemma AppendParts(p: S.Policy, st: S.Store, id: Id, encrypted: Option<Bytes>, now: int)
    requires id in st.sessions && st.db.None?
    ensures id in S.Touch(p, Counted(st), id, now).sessions
    ensures S.Append(p, st, id, encrypted, now).0 ==
            if encrypted.Some? then Pushed(S.Touch(p, Counted(st), id, now), id, encrypted.value)
            else S.Touch(p, Counted(st), id, now)
  {
  }

  class MemoryStorage {
    const policy: S.Policy
    /** Set for the disk backend, whose onEvict and onRegister hooks delete. */
    const db: Database?
    var sessions: map<Id, Session>
    var lruList: seq<Element>
    var lruMap: map<Id, Element>
    /** How many elements PushBack has allocated. */
    var pushes: nat
    var hits: nat
    var misses: nat
    var evictions: nat
    var sessionsTotal: nat

    constructor (policy: S.Policy, db: Database?)
      requires db != null ==> db.contents == map[]
      ensures this.policy == policy && this.db == db && sessions == map[]
      ensures Valid() && Model() == S.Empty(if db == null then None else Some(map[]))
    {
      this.policy, this.db := policy, db;
      sessions, lruList, lruMap := map[], [], map[];
      pushes, hits, misses, evictions, sessionsTotal := 0, 0, 0, 0, 0;
    }

    /** The same ids in the map, the list and its index; no session twice. */
    ghost predicate Valid()
      reads this
    {
      && Linked(lruList, lruMap) && lruMap.Keys == sessions.Keys
      && (forall a, b :: a in sessions && b in sessions && a != b ==> sessions[a] != sessions[b])
    }

    ghost function Stored(): Option<map<Id, Bytes>>
      reads db
    {
      if db == null then None else Some(db.contents)
    }

    ghost function Model(): S.Store
      reads this, sessions.Values, db
    {
      S.Store(States(sessions), Ids(lruList), Stored(), hits, misses, evictions, sessionsTotal)
    }

    predicate IsExpired(s: Session, now: int)
      reads s
      ensures IsExpired(s, now) == S.IsExpired(policy, s.State(), now)
    {
      if policy.noEviction then false
      else if policy.slidingTTL then now - s.lastAccess > policy.ttl
      else now - s.createdAt > policy.ttl
    }

    /** The session leaves the map, the list and its index. */
    method Detach(id: Id)
      requires Valid()
      modifies `sessions, `lruList, `lruMap
      ensures Valid() && sessions == old(sessions) - {id} && Ids(lruList) == S.Without(old(Ids(lruList)), id)
    {
      sessions := sessions - {id};
      if id in lruMap {
        Unlinked(lruList, lruMap, id);
        RemoveLinked(lruList, lruMap, id);
        lruList, lruMap := Unlink(lruList, lruMap[id]), lruMap - {id};
      } else {
        IndexedIds(lruList, lruMap, id);
        WithoutAbsent(Ids(lruList), id);
      }
    }

    /** Both hooks of the disk backend. */
    method DeleteStored(id: Id)
      requires Valid()
      modifies db
      ensures Stored() == match old(Stored()) case Some(contents) => Some(contents - {id}) case None => None
    {
      if db != null {
        db.Delete(id);
      }
    }

    /** removeLocked, with the onEvict hook. */
    method RemoveLocked(id: Id)
      requires Valid()
      modifies `sessions, `lruList, `lruMap, db
      ensures Valid() && sessions == old(sessions) - {id} && Model() == S.Remove(old(Model()), id)
    {
      Detach(id);
      DeleteStored(id);
      StatesSame(old(sessions));
      StatesRemove(old(sessions), id);
    }

    // The atomic counters

    method CountHit()
      requires Valid()
      modifies `hits
      ensures Valid() && Model() == Counted(old(Model()))
    {
      hits := hits + 1;
      StatesSame(sessions);
    }

    method CountMiss()
      requires Valid()
      modifies `misses
      ensures Valid() && Model() == S.Missed(old(Model()))
    {
      misses := misses + 1;
      StatesSame(sessions);
    }

    /** A removal that counts as an eviction. */
    method Evict(id: Id)
      requires Valid()
      modifies `sessions, `lruList, `lruMap, `evictions, db
      ensures Valid() && sessions == old(sessions) - {id} && Model() == S.Evicted(old(Model()), id)
    {
      RemoveLocked(id);
      CountEviction();
    }

    method CountEviction()
      requires Valid()
      modifies `evictions
      ensures Valid() && Model() == old(Model()).(evictions := old(evictions) + 1)
    {
      evictions := evictions + 1;
      StatesSame(sessions);
    }

    // Touching and promoting

    method TouchSession(s: Session, now: int)
      modifies s`lastAccess
      ensures s.lastAccess == now
    {
      s.lastAccess := now;
    }

    method Refresh(id: Id, now: int)
      requires Valid() && id in sessions
      modifies sessions[id]
      ensures Valid() && Model() == S.Touch(policy, old(Model()), id, now)
    {
      if policy.slidingTTL {
        TouchSession(sessions[id], now);
        assert States(sessions) == old(States(sessions))[id := old(sessions[id].State()).(lastAccess := now)];
      }
    }

    method PromoteLRU(id: Id)
      requires Valid()
      modifies `lruList
      ensures Valid() && Model() == S.Promote(old(Model()), id)
    {
      if id in lruMap {
        IndexedIds(lruList, lruMap, id);
        Unlinked(lruList, lruMap, id);
        MoveLinked(lruList, lruMap, id);
        IdsAppend(Unlink(lruList, lruMap[id]), lruMap[id]);
        lruList := Unlink(lruList, lruMap[id]) + [lruMap[id]];
      } else {
        IndexedIds(lruList, lruMap, id);
      }
      StatesSame(sessions);
    }

    // Registration

    /** evictLRU: at most MAX_PROBE elements from the front are looked at. */
    method EvictLRU()
      requires Valid()
      modifies `sessions, `lruList, `lruMap, `evictions, db
      ensures Valid() && sessions.Keys <= old(sessions.Keys) && Model() == S.EvictLRU(old(Model()))
      ensures forall id :: id in sessions ==> sessions[id] == old(sessions)[id]
    {
      var victimID := FindVictim();
      if victimID != "" {
        Evict(victimID);
      }
    }

    method FindVictim() returns (victimID: Id)
      requires Valid()
      ensures victimID == S.Victim(Model())
    {
      victimID := "";
      var victimTime := S.MAX_INT64;
      ghost var window := S.ProbeWindow(Ids(lruList));
      ghost var states := States(sessions);
      var i := 0;
      while i < S.MAX_PROBE && i < |lruList|
        invariant 0 <= i <= |window|
        invariant S.Probe(states, window[i..], victimID, victimTime) == S.Victim(Model())
      {
        var id := lruList[i].correlationID;
        IdsAt(lruList, i);
        if id !in sessions {
          assert false;
        } else if sessions[id].lastAccess < victimTime {
          victimTime, victimID := sessions[id].lastAccess, id;
        }
        i := i + 1;
      }
    }

    method Insert(id: Id, session: Session)
      requires Valid() && id !in sessions
      requires forall x :: x in sessions ==> sessions[x] != session
      modifies `sessions, `lruList, `lruMap, `pushes, `sessionsTotal, db
      ensures Valid() && Model() == S.Insert(old(Model()), id, session.State())
    {
      DeleteStored(id);
      PushBack(id, session);
      StatesSame(old(sessions));
      StatesInsert(old(sessions), id, session);
    }

    method PushBack(id: Id, session: Session)
      requires Valid() && id !in sessions
      requires forall x :: x in sessions ==> sessions[x] != session
      modifies `sessions, `lruList, `lruMap, `pushes, `sessionsTotal
      ensures Valid() && sessions == old(sessions)[id := session] && Ids(lruList) == old(Ids(lruList)) + [id]
      ensures sessionsTotal == old(sessionsTotal) + 1
    {
      var elem := Element(pushes, id);
      IdsAppend(lruList, elem);
      PushLinked(lruList, lruMap, elem);
      sessions := sessions[id := session];
      lruList, lruMap, pushes := lruList + [elem], lruMap[id := elem], pushes + 1;
      sessionsTotal := sessionsTotal + 1;
    }

    method RegisterNew(id: Id, q: S.Request, now: int) returns (r: S.Result)
      requires Valid() && id !in sessions
      modifies this, db
      ensures Valid() && (Model(), r) == S.RegisterNew(policy, old(Model()), id, q, now)
    {
      CountMiss();
      MakeRoom();
      r := Add(id, q, now);
    }

    method Add(id: Id, q: S.Request, now: int) returns (r: S.Result)
      requires Valid() && id !in sessions
      modifies `sessions, `lruList, `lruMap, `pushes, `sessionsTotal, db
      ensures Valid() && (Model(), r) == S.Add(old(Model()), id, q, now)
    {
      if q.aesKey.None? {
        return S.KeyFailure;
      }
      var session := new Session(q, now);
      Insert(id, session);
      r := S.Registered(q.aesKey.value, true);
    }

    method MakeRoom()
      requires Valid()
      modifies `sessions, `lruList, `lruMap, `evictions, db
      ensures Valid() && sessions.Keys <= old(sessions.Keys) && Model() == S.MakeRoom(policy, old(Model()))
      ensures forall id :: id in sessions ==> sessions[id] == old(sessions)[id]
    {
      assert |sessions| == |sessions.Keys| && |States(sessions)| == |States(sessions).Keys|;
      assert States(sessions).Keys == sessions.Keys;
      if |sessions| >= policy.capacity {
        EvictLRU();
      }
    }

    method Register(id: Id, q: S.Request, now: int) returns (r: S.Result)
      requires Valid()
      modifies this, db, if id in sessions then {sessions[id]} else {}
      ensures Valid() && (Model(), r) == S.Register(policy, old(Model()), id, q, now)
    {
      if id in sessions {
        if !IsExpired(sessions[id], now) {
          RegisterIsKeepAlive(policy, Model(), id, q, now);
          r := KeepAlive(id, q, now);
          return;
        }
        Evict(id);
      }
      r := RegisterNew(id, q, now);
    }

    method KeepAlive(id: Id, q: S.Request, now: int) returns (r: S.Result)
      requires Valid() && id in sessions
      modifies this, sessions[id]
      ensures Valid() && (Model(), r) == KeptAlive(policy, old(Model()), id, q, now)
    {
      CountHit();
      if sessions[id].secretKey != q.secret {
        return S.AlreadyExists;
      }
      TouchAndPromote(id, now);
      r := S.Registered(sessions[id].aesKey, false);
    }

    // The other operations

    /** getSession: the session object is what a handle keeps. A session that
        looks expired under the read lock, at `now`, is looked at again under
        the write lock, at `later`. */
    method GetSession(id: Id, secret: Text, now: int, later: int) returns (session: Session?, r: S.Result)
      requires Valid()
      modifies this, db, if id in sessions then {sessions[id]} else {}
      ensures Valid() && (Model(), r) == S.GetSession(policy, old(Model()), id, secret, Deciding(policy, old(Model()), id, now, later))
      ensures session != null <==> r.Polled?
      ensures r.Polled? ==> id in sessions && session == sessions[id] == old(sessions)[id]
    {
      if id !in sessions {
        CountMiss();
        return null, S.NotFound;
      }
      session := sessions[id];
      if !IsExpired(session, now) {
        if session.secretKey != secret {
          return null, S.InvalidSecret;
        }
        Access(id, now);
        r := S.Polled(session.aesKey, session.publicKey, []);
        return;
      }
      session, r := GetUnderWriteLock(id, secret, later);
    }

    /** The second look of getSession, at whatever is registered by then. */
    method GetUnderWriteLock(id: Id, secret: Text, now: int) returns (session: Session?, r: S.Result)
      requires Valid()
      modifies this, db, if id in sessions then {sessions[id]} else {}
      ensures Valid() && (Model(), r) == S.GetSession(policy, old(Model()), id, secret, now)
      ensures session != null <==> r.Polled?
      ensures r.Polled? ==> id in sessions && session == sessions[id] == old(sessions)[id]
    {
      if id !in sessions {
        CountMiss();
        return null, S.NotFound;
      }
      session := sessions[id];
      if IsExpired(session, now) {
        Expire(id);
        return null, S.NotFound;
      }
      if session.secretKey != secret {
        return null, S.InvalidSecret;
      }
      PromoteAndAccess(id, now);
      r := S.Polled(session.aesKey, session.publicKey, []);
    }

    /** A validated access that is promoted before it is counted and touched. */
    method PromoteAndAccess(id: Id, now: int)
      requires Valid() && id in sessions
      modifies `hits, `lruList, sessions[id]
      ensures Valid() && Model() == S.Hit(policy, old(Model()), id, now)
    {
      HitParts(policy, Model(), id, now);
      PromoteLRU(id);
      CountAndRefresh(id, now);
    }

    /** Lazy eviction: an eviction and a miss. */
    method Expire(id: Id)
      requires Valid()
      modifies `sessions, `lruList, `lruMap, `evictions, `misses, db
      ensures Valid() && Model() == S.Missed(S.Evicted(old(Model()), id))
    {
      Evict(id);
      CountMiss();
    }

    /** A validated access. */
    method Access(id: Id, now: int)
      requires Valid() && id in sessions
      modifies `hits, `lruList, sessions[id]
      ensures Valid() && Model() == S.Hit(policy, old(Model()), id, now)
    {
      HitParts(policy, Model(), id, now);
      CountHit();
      TouchAndPromote(id, now);
    }

    method TouchAndPromote(id: Id, now: int)
      requires Valid() && id in sessions
      modifies `lruList, sessions[id]
      ensures Valid() && Model() == S.Promote(S.Touch(policy, old(Model()), id, now), id)
    {
      Refresh(id, now);
      PromoteLRU(id);
    }

    method CountAndRefresh(id: Id, now: int)
      requires Valid() && id in sessions
      modifies `hits, sessions[id]
      ensures Valid() && Model() == S.Touch(policy, Counted(old(Model())), id, now)
    {
      CountHit();
      Refresh(id, now);
    }

    /** The poll handler on the memory backend: the handle is drained at once. */
    method Poll(id: Id, secret: Text, now: int, later: int) returns (r: S.Result)
      requires Valid() && db == null
      modifies this, if id in sessions then {sessions[id]} else {}
      ensures Valid() && (Model(), r) == S.Poll(policy, old(Model()), id, secret, Deciding(policy, old(Model()), id, now, later))
    {
      var session;
      session, r := GetSession(id, secret, now, later);
      if session != null {
        var interactions := DrainHandle(id, session);
        r := r.(interactions := interactions);
      }
    }

    method DrainHandle(id: Id, session: Session) returns (interactions: seq<Bytes>)
      requires Valid() && db == null && id in sessions && session == sessions[id]
      modifies session
      ensures Valid() && (Model(), interactions) == S.Drain(old(Model()), id)
    {
      interactions := session.GetAndClearInteractions();
      assert States(sessions) == old(States(sessions))[id := old(session.State()).(interactions := [])];
    }

    /** The memory backend: the session is touched before encryption can fail. */
    method AppendInteraction(id: Id, encrypted: Option<Bytes>, now: int) returns (r: S.Result)
      requires Valid() && db == null
      modifies this, if id in sessions then {sessions[id]} else {}
      ensures Valid() && (Model(), r) == S.Append(policy, old(Model()), id, encrypted, now)
    {
      if id !in sessions {
        CountMiss();
      } else {
        Store(id, encrypted, now);
      }
      r := S.Appended;
    }

    method Store(id: Id, encrypted: Option<Bytes>, now: int)
      requires Valid() && db == null && id in sessions
      modifies this, sessions[id]
      ensures Valid() && Model() == S.Append(policy, old(Model()), id, encrypted, now).0
    {
      AppendParts(policy, Model(), id, encrypted, now);
      CountAndRefresh(id, now);
      if encrypted.Some? {
        Push(id, encrypted.value);
      }
    }

    method Push(id: Id, payload: Bytes)
      requires Valid() && id in sessions
      modifies sessions[id]
      ensures Valid() && Model() == Pushed(old(Model()), id, payload)
    {
      sessions[id].interactions := sessions[id].interactions + [payload];
      assert States(sessions) == Pushed(old(Model()), id, payload).sessions;
    }

    method HasCorrelationID(id: Id, now: int, later: int) returns (r: bool)
      requires Valid()
      modifies this, db
      ensures Valid() && (Model(), S.Present(r)) ==
              S.HasCorrelationID(policy, old(Model()), id, Deciding(policy, old(Model()), id, now, later))
    {
      if id !in sessions {
        return false;
      }
      if !IsExpired(sessions[id], now) {
        return true;
      }
      r := HasUnderWriteLock(id, later);
    }

    method HasUnderWriteLock(id: Id, now: int) returns (r: bool)
      requires Valid()
      modifies this, db
      ensures Valid() && (Model(), S.Present(r)) == S.HasCorrelationID(policy, old(Model()), id, now)
    {
      r := id in sessions;
      if r && IsExpired(sessions[id], now) {
        Evict(id);
        r := false;
      }
    }

    method GetResponse(id: Id, now: int) returns (r: Option<S.ResponseConfig>)
      requires Valid()
      ensures r == S.GetResponse(policy, Model(), id, now)
    {
      if id !in sessions || IsExpired(sessions[id], now) {
        return None;
      }
      r := sessions[id].response;
    }

    method Delete(id: Id, secret: Text) returns (r: S.Result)
      requires Valid()
      modifies this, db
      ensures Valid() && (Model(), r) == S.Delete(old(Model()), id, secret)
    {
      if id !in sessions {
        CountMiss();
        return S.NotFound;
      }
      CountHit();
      if sessions[id].secretKey != secret {
        return S.InvalidSecret;
      }
      RemoveLocked(id);
      r := S.Deleted;
    }
  }

  /** The disk backend embeds the memory backend and shares its database. */
  class DiskStorage {
    const memory: MemoryStorage
    const db: Database

    constructor (policy: S.Policy)
      ensures Valid() && fresh(memory) && fresh(db) && memory.Model() == S.Empty(Some(map[]))
    {
      var database := new Database();
      memory := new MemoryStorage(policy, database);
      db := database;
    }

    ghost predicate Valid()
      reads this, memory
    {
      memory.Valid() && memory.db == db
    }

    /** Encrypted first, touched after; then get, append a record, put. */
    method AppendInteraction(id: Id, encrypted: Option<Bytes>, now: int) returns (r: S.Result)
      requires Valid()
      modifies memory, db, if id in memory.sessions then {memory.sessions[id]} else {}
      ensures Valid() && (memory.Model(), r) == S.Append(memory.policy, old(memory.Model()), id, encrypted, now)
    {
      r := S.Appended;
      if id !in memory.sessions {
        memory.CountMiss();
        return;
      }
      memory.CountHit();
      if encrypted.Some? {
        TouchAndPut(id, encrypted.value, now);
      }
    }

    method TouchAndPut(id: Id, payload: Bytes, now: int)
      requires Valid() && id in memory.sessions
      modifies db, memory.sessions[id]
      ensures Valid() && memory.Model() == Recorded(S.Touch(memory.policy, old(memory.Model()), id, now), id, payload)
    {
      memory.Refresh(id, now);
      PutRecord(id, payload);
    }

    method PutRecord(id: Id, payload: Bytes)
      requires Valid()
      modifies db
      ensures Valid() && memory.Model() == Recorded(old(memory.Model()), id, payload)
    {
      var existing := if id in db.contents then db.contents[id] else [];
      db.Put(id, existing + EncodeRecord(payload));
      StatesSame(memory.sessions);
    }

    /** The poll handler on the disk backend. */
    method Poll(id: Id, secret: Text, now: int, later: int) returns (r: S.Result)
      requires Valid()
      modifies memory, db, if id in memory.sessions then {memory.sessions[id]} else {}
      ensures Valid() && (memory.Model(), r) ==
              S.Poll(memory.policy, old(memory.Model()), id, secret, Deciding(memory.policy, old(memory.Model()), id, now, later))
    {
      var session;
      session, r := memory.GetSession(id, secret, now, later);
      if session != null {
        var interactions := DrainHandle(id);
        r := r.(interactions := interactions);
      }
    }

    /** GetAndClearInteractions: get, delete, then parse the records. */
    method DrainHandle(id: Id) returns (interactions: seq<Bytes>)
      requires Valid()
      modifies db
      ensures Valid() && (memory.Model(), interactions) == S.Drain(old(memory.Model()), id)
    {
      if id !in db.contents {
        return [];
      }
      var data := db.contents[id];
      db.Delete(id);
      interactions := ParseRecords(data);
      StatesSame(memory.sessions);
    }
  }
}
