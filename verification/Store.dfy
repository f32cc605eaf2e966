/** The session store on values: one function per operation, for the memory
    backend (`db` is None) and for the disk backend that wraps it. An operation
    is atomic here and sees one instant `now`; MemorySteps and DiskSteps take
    them apart, MemoryStorageModel carries them out on mutable objects. */
module Store {
  import opened Prelude
  import opened RecordCodec

  type Id = Text

  const MAX_PROBE := 8
  const MAX_INT64 := 0x7FFF_FFFF_FFFF_FFFF

  datatype Policy = Policy(ttl: int, noEviction: bool, slidingTTL: bool, capacity: nat)

  datatype ResponseConfig = ResponseConfig(statusCode: int, headers: seq<Text>, body: Text)

  datatype SessionState = SessionState(publicKey: Text, aesKey: Bytes, secretKey: Text, response: Option<ResponseConfig>,
                                       createdAt: int, lastAccess: int, interactions: seq<Bytes>)

  datatype Store = Store(sessions: map<Id, SessionState>, lru: seq<Id>, db: Option<map<Id, Bytes>>,
                         hits: nat, misses: nat, evictions: nat, total: nat)

  function Empty(db: Option<map<Id, Bytes>>): Store {
    Store(map[], [], db, 0, 0, 0, 0)
  }

  datatype Result =
    | Registered(aesKey: Bytes, isNew: bool)
    | AlreadyExists
    | KeyFailure
    | NotFound
    | InvalidSecret
    | Polled(aesKey: Bytes, publicKey: Text, interactions: seq<Bytes>)
    | Deleted
    | Present(yes: bool)
    | Response(response: Option<ResponseConfig>)
    | Appended

  // Pieces

  predicate IsExpired(p: Policy, s: SessionState, now: int) {
    if p.noEviction then false
    else if p.slidingTTL then now - s.lastAccess > p.ttl
    else now - s.createdAt > p.ttl
  }

  function Without(lru: seq<Id>, id: Id): seq<Id> {
    Filter((x: Id) => x != id, lru)
  }

  function Missed(st: Store): Store {
    st.(misses := st.misses + 1)
  }

  /** removeLocked, with the disk backend's onEvict hook. */
  function Remove(st: Store, id: Id): Store {
    st.(sessions := st.sessions - {id}, lru := Without(st.lru, id),
        db := if st.db.Some? then Some(st.db.value - {id}) else None)
  }

  function Promote(st: Store, id: Id): Store {
    if id in st.lru then st.(lru := Without(st.lru, id) + [id]) else st
  }

  function Touch(p: Policy, st: Store, id: Id, now: int): Store
    requires id in st.sessions
  {
    if p.slidingTTL then st.(sessions := st.sessions[id := st.sessions[id].(lastAccess := now)]) else st
  }

  /** A removal that counts as an eviction. */
  function Evicted(st: Store, id: Id): Store {
    Remove(st, id).(evictions := st.evictions + 1)
  }

  /** A validated access: counted, touched, moved to the back of the list. */
  function Hit(p: Policy, st: Store, id: Id, now: int): Store
    requires id in st.sessions
  {
    Promote(Touch(p, st.(hits := st.hits + 1), id, now), id)
  }

  /** The probe loop: the first id with the smallest lastAccess below `time`. */
  function Probe(sessions: map<Id, SessionState>, ids: seq<Id>, victim: Id, time: int): Id {
    if ids == [] then victim
    else if ids[0] in sessions && sessions[ids[0]].lastAccess < time
    then Probe(sessions, ids[1..], ids[0], sessions[ids[0]].lastAccess)
    else Probe(sessions, ids[1..], victim, time)
  }

  function ProbeWindow(lru: seq<Id>): seq<Id> {
    if |lru| <= MAX_PROBE then lru else lru[..MAX_PROBE]
  }

  function Victim(st: Store): Id {
    Probe(st.sessions, ProbeWindow(st.lru), "", MAX_INT64)
  }

  function EvictLRU(st: Store): Store {
    var v := Victim(st);
    if v == "" then st else Evicted(st, v)
  }

  // Operations

  function Insert(st: Store, id: Id, s: SessionState): Store {
    st.(sessions := st.sessions[id := s], lru := st.lru + [id], total := st.total + 1,
        db := if st.db.Some? then Some(st.db.value - {id}) else None)
  }

  function MakeRoom(p: Policy, st: Store): Store {
    if |st.sessions| >= p.capacity then EvictLRU(st) else st
  }

  /** What a registration brings; the key is None when generating it failed. */
  datatype Request = Request(publicKey: Text, secret: Text, response: Option<ResponseConfig>, aesKey: Option<Bytes>)

  function Add(st: Store, id: Id, q: Request, now: int): (Store, Result) {
    match q.aesKey
    case None => (st, KeyFailure)
    case Some(key) =>
      (Insert(st, id, SessionState(q.publicKey, key, q.secret, q.response, now, now, [])), Registered(key, true))
  }

  function RegisterNew(p: Policy, st: Store, id: Id, q: Request, now: int): (Store, Result) {
    Add(MakeRoom(p, Missed(st)), id, q, now)
  }

  function Register(p: Policy, st: Store, id: Id, q: Request, now: int): (Store, Result) {
    if id !in st.sessions then RegisterNew(p, st, id, q, now)
    else if IsExpired(p, st.sessions[id], now) then RegisterNew(p, Evicted(st, id), id, q, now)
    else if st.sessions[id].secretKey != q.secret then (st.(hits := st.hits + 1), AlreadyExists)
    else (Hit(p, st, id, now), Registered(st.sessions[id].aesKey, false))
  }

  /** getSession: the handle is the session it found, or none. */
  function GetSession(p: Policy, st: Store, id: Id, secret: Text, now: int): (Store, Result) {
    if id !in st.sessions then (Missed(st), NotFound)
    else
      var s := st.sessions[id];
      if !IsExpired(p, s, now) then
        if s.secretKey != secret then (st, InvalidSecret)
        else (Hit(p, st, id, now), Polled(s.aesKey, s.publicKey, []))
      else (Evicted(st, id).(misses := st.misses + 1), NotFound)
  }

  /** GetAndClearInteractions on the handle of the session registered as `id`. */
  function Drain(st: Store, id: Id): (Store, seq<Bytes>) {
    match st.db
    case Some(db) =>
      if id in db then (st.(db := Some(db - {id})), Parse(db[id])) else (st, [])
    case None =>
      if id in st.sessions
      then (st.(sessions := st.sessions[id := st.sessions[id].(interactions := [])]), st.sessions[id].interactions)
      else (st, [])
  }

  /** A poll: GetSession and, on success, an immediate drain of the handle. */
  function Poll(p: Policy, st: Store, id: Id, secret: Text, now: int): (Store, Result) {
    var (got, r) := GetSession(p, st, id, secret, now);
    if r.Polled? then
      var (drained, interactions) := Drain(got, id);
      (drained, r.(interactions := interactions))
    else (got, r)
  }

  /** The interaction as encryption returned it; None when encryption failed.
      The memory backend touches the session first, the disk backend after. */
  function Append(p: Policy, st: Store, id: Id, encrypted: Option<Bytes>, now: int): (Store, Result) {
    if id !in st.sessions then (Missed(st), Appended)
    else
      var hit := st.(hits := st.hits + 1);
      match st.db
      case Some(db) =>
        if encrypted.None? then (hit, Appended)
        else
          var existing := if id in db then db[id] else [];
          (Touch(p, hit, id, now).(db := Some(db[id := existing + EncodeRecord(encrypted.value)])), Appended)
      case None =>
        var touched := Touch(p, hit, id, now);
        if encrypted.None? then (touched, Appended)
        else
          var s := touched.sessions[id];
          (touched.(sessions := touched.sessions[id := s.(interactions := s.interactions + [encrypted.value])]), Appended)
  }

  function Delete(st: Store, id: Id, secret: Text): (Store, Result) {
    if id !in st.sessions then (Missed(st), NotFound)
    else
      var hit := st.(hits := st.hits + 1);
      if st.sessions[id].secretKey != secret then (hit, InvalidSecret) else (Remove(hit, id), Deleted)
  }

  function HasCorrelationID(p: Policy, st: Store, id: Id, now: int): (Store, Result) {
    if id !in st.sessions then (st, Present(false))
    else if IsExpired(p, st.sessions[id], now) then (Evicted(st, id), Present(false))
    else (st, Present(true))
  }

  function GetResponse(p: Policy, st: Store, id: Id, now: int): Option<ResponseConfig> {
    if id in st.sessions && !IsExpired(p, st.sessions[id], now) then st.sessions[id].response else None
  }

  // Runs

  datatype Op =
    | RegisterOp(id: Id, request: Request)
    | PollOp(id: Id, secret: Text)
    | AppendOp(id: Id, encrypted: Option<Bytes>)
    | DeleteOp(id: Id, secret: Text)
    | HasOp(id: Id)
    | ResponseOp(id: Id)

  datatype Event = Event(now: int, op: Op)

  function Step(p: Policy, st: Store, e: Event): (Store, Result) {
    match e.op
    case RegisterOp(id, request) => Register(p, st, id, request, e.now)
    case PollOp(id, secret) => Poll(p, st, id, secret, e.now)
    case AppendOp(id, encrypted) => Append(p, st, id, encrypted, e.now)
    case DeleteOp(id, secret) => Delete(st, id, secret)
    case HasOp(id) => HasCorrelationID(p, st, id, e.now)
    case ResponseOp(id) => (st, Response(GetResponse(p, st, id, e.now)))
  }

  function Run(p: Policy, st: Store, es: seq<Event>): (r: (Store, seq<Result>))
    ensures |r.1| == |es|
    decreases es
  {
    if es == [] then (st, [])
    else
      var (st', r) := Step(p, st, es[0]);
      var (end, rs) := Run(p, st', es[1..]);
      (end, [r] + rs)
  }
}
