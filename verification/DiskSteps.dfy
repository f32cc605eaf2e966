/** The disk backend under concurrency, one step per lock operation and per
    database access: m.mu (`writer`, `readers`) around the session map, then
    session.mu (`locked`) around the database. A drain holds only session.mu,
    of its handle's session, and names the database key by correlation ID. */
module DiskSteps {
  import opened Prelude

  type Id = Text
  type Ref = nat
  type Tid = nat

  /** One stored record and, for the specification, the session it was
      appended to. RecordCodec relates a list of them to the stored bytes. */
  datatype Rec = Rec(owner: Ref, payload: Bytes)

  /** `names` lists the id each session was registered under. `removing` is the
      session taken out of the map whose records the hook has yet to delete.
      `appended` and `drained` record what was stored and delivered through
      each session; `tainted` the sessions a stale handle interfered with. */
  datatype Shared = Shared(sessions: map<Id, Ref>, removing: map<Id, Ref>, names: seq<Id>, db: map<Id, seq<Rec>>,
                           writer: Option<Tid>, readers: set<Tid>, locked: map<Ref, Tid>,
                           appended: map<Ref, seq<Bytes>>, drained: map<Ref, seq<Bytes>>, tainted: set<Ref>)

  datatype Thread =
    | Idle
    // AppendInteraction, holding m.mu for reading throughout
    | Found(id: Id, ref: Ref, payload: Bytes)
    | Locked(id: Id, ref: Ref, payload: Bytes)
    | Read(id: Id, ref: Ref, payload: Bytes, existing: seq<Rec>)
    | Written(id: Id, ref: Ref)
    | Leaving
    // GetAndClearInteractions on a handle
    | DrainLocked(ref: Ref)
    | DrainRead(ref: Ref, data: seq<Rec>)
    | Drained(ref: Ref)
    // any section under m.mu for writing
    | Writing
    | Removing(id: Id, ref: Ref)
    | HookLocked(id: Id, ref: Ref)
    | HookDeleted(ref: Ref)
    | Cleaned(id: Id)

  datatype Sys = Sys(sh: Shared, threads: map<Tid, Thread>) {
    function At(t: Tid): Thread {
      if t in threads then threads[t] else Idle
    }
  }

  datatype Move =
    | BeginAppend(id: Id, payload: Bytes)
    | BeginDrain(ref: Ref)
    | BeginWrite
    | BeginRemove(id: Id)
    | BeginRegister(id: Id)
    | EndWrite
    | Next

  datatype Action = Action(t: Tid, move: Move)

  function Payloads(recs: seq<Rec>): seq<Bytes> {
    if recs == [] then [] else Payloads(recs[..|recs| - 1]) + [recs[|recs| - 1].payload]
  }

  /** The session whose records the key `id` may hold. */
  predicate Owns(sh: Shared, id: Id, ref: Ref) {
    (id in sh.sessions && sh.sessions[id] == ref) || (id in sh.removing && sh.removing[id] == ref)
  }

  // Lock and database steps

  function Lock(sh: Shared, t: Tid, ref: Ref): Shared {
    sh.(locked := sh.locked[ref := t])
  }

  function Unlock(sh: Shared, ref: Ref): Shared {
    sh.(locked := sh.locked - {ref})
  }

  function Put(sh: Shared, id: Id, ref: Ref, payload: Bytes, existing: seq<Rec>): Shared {
    sh.(db := sh.db[id := existing + [Rec(ref, payload)]],
        appended := sh.appended[ref := Under(sh.appended, ref) + [payload]])
  }

  /** A drain's db.Delete. If the key does not belong to the handle's session,
      both that session and the one it does belong to are tainted. */
  function Take(sh: Shared, ref: Ref, data: seq<Rec>): Shared
    requires ref < |sh.names|
  {
    var id := sh.names[ref];
    sh.(db := sh.db - {id}, drained := sh.drained[ref := Under(sh.drained, ref) + Payloads(data)],
        tainted := if Owns(sh, id, ref) then sh.tainted else sh.tainted + {ref} + Owners(sh, id))
  }

  function Owners(sh: Shared, id: Id): set<Ref> {
    (if id in sh.sessions then {sh.sessions[id]} else {}) + (if id in sh.removing then {sh.removing[id]} else {})
  }

  function Detach(sh: Shared, id: Id): Shared
    requires id in sh.sessions
  {
    sh.(sessions := sh.sessions - {id}, removing := sh.removing[id := sh.sessions[id]])
  }

  function HookDelete(sh: Shared, id: Id): Shared {
    sh.(db := sh.db - {id}, removing := sh.removing - {id})
  }

  function Insert(sh: Shared, id: Id): Shared {
    sh.(sessions := sh.sessions[id := |sh.names|], names := sh.names + [id])
  }

  // The programs

  function Proceed(sh: Shared, t: Tid, th: Thread): (Shared, Thread) {
    match th
    case Found(id, ref, e) => if ref in sh.locked then (sh, th) else (Lock(sh, t, ref), Locked(id, ref, e))
    case Locked(id, ref, e) => (sh, Read(id, ref, e, Under(sh.db, id)))
    case Read(id, ref, e, existing) => (Put(sh, id, ref, e, existing), Written(id, ref))
    case Written(id, ref) => (Unlock(sh, ref), Leaving)
    case Leaving => (sh.(readers := sh.readers - {t}), Idle)
    case DrainLocked(ref) =>
      if ref < |sh.names| && sh.names[ref] in sh.db then (sh, DrainRead(ref, sh.db[sh.names[ref]])) else (sh, Drained(ref))
    case DrainRead(ref, data) => if ref < |sh.names| then (Take(sh, ref, data), Drained(ref)) else (sh, th)
    case Drained(ref) => (Unlock(sh, ref), Idle)
    case Removing(id, ref) => if ref in sh.locked then (sh, th) else (Lock(sh, t, ref), HookLocked(id, ref))
    case HookLocked(id, ref) => (HookDelete(sh, id), HookDeleted(ref))
    case HookDeleted(ref) => (Unlock(sh, ref), Writing)
    case Cleaned(id) => (Insert(sh, id), Writing)
    case _ => (sh, th)
  }

  function Begin(sh: Shared, t: Tid, move: Move): (Shared, Thread) {
    match move
    case BeginAppend(id, e) =>
      if sh.writer.Some? || id !in sh.sessions then (sh, Idle)
      else (sh.(readers := sh.readers + {t}), Found(id, sh.sessions[id], e))
    case BeginDrain(ref) =>
      if ref >= |sh.names| || ref in sh.locked then (sh, Idle) else (Lock(sh, t, ref), DrainLocked(ref))
    case BeginWrite =>
      if sh.writer.Some? || sh.readers != {} then (sh, Idle) else (sh.(writer := Some(t)), Writing)
    case _ => (sh, Idle)
  }

  /** Within its section a writer may remove and register any sessions, which
      covers Register, Delete, the lazy evictions and evictLRU. */
  function Write(sh: Shared, t: Tid, move: Move): (Shared, Thread) {
    match move
    case BeginRemove(id) => if id in sh.sessions then (Detach(sh, id), Removing(id, sh.sessions[id])) else (sh, Writing)
    case BeginRegister(id) => if id in sh.sessions then (sh, Writing) else (sh.(db := sh.db - {id}), Cleaned(id))
    case EndWrite => (sh.(writer := None), Idle)
    case _ => (sh, Writing)
  }

  function Step(s: Sys, a: Action): Sys {
    var th := s.At(a.t);
    var (sh, th') :=
      if th.Idle? then Begin(s.sh, a.t, a.move)
      else if th.Writing? then Write(s.sh, a.t, a.move)
      else if a.move.Next? then Proceed(s.sh, a.t, th)
      else (s.sh, th);
    Sys(sh, s.threads[a.t := th'])
  }

  function After(s: Sys, acts: seq<Action>): Sys {
    if acts == [] then s else Step(After(s, acts[..|acts| - 1]), acts[|acts| - 1])
  }

  function Start(): Sys {
    Sys(Shared(map[], map[], [], map[], None, {}, map[], map[], map[], {}), map[])
  }
}
