/** What every interleaving of the disk backend keeps. */
module DiskInvariants {
  import opened Prelude
  import opened DiskSteps

  // Locks

  predicate IsReader(th: Thread) {
    th.Found? || th.Locked? || th.Read? || th.Written? || th.Leaving?
  }

  predicate IsWriter(th: Thread) {
    th.Writing? || th.Removing? || th.HookLocked? || th.HookDeleted? || th.Cleaned?
  }

  function Holding(th: Thread): Option<Ref> {
    match th
    case Locked(_, ref, _) => Some(ref)
    case Read(_, ref, _, _) => Some(ref)
    case Written(_, ref) => Some(ref)
    case DrainLocked(ref) => Some(ref)
    case DrainRead(ref, _) => Some(ref)
    case Drained(ref) => Some(ref)
    case HookLocked(_, ref) => Some(ref)
    case HookDeleted(ref) => Some(ref)
    case _ => None
  }

  ghost predicate LocksOk(sh: Shared, t: Tid, th: Thread) {
    && (t in sh.readers <==> IsReader(th))
    && (sh.writer == Some(t) <==> IsWriter(th))
    && (forall r :: r in sh.locked && sh.locked[r] == t <==> Holding(th) == Some(r))
  }

  // Data

  ghost predicate OwnedBy(recs: seq<Rec>, ref: Ref) {
    forall i :: 0 <= i < |recs| ==> recs[i].owner == ref
  }

  predicate Registered(sh: Shared, id: Id, ref: Ref) {
    id in sh.sessions && sh.sessions[id] == ref
  }

  ghost predicate DataOk(sh: Shared, th: Thread) {
    match th
    case Idle => true
    case Found(id, ref, _) => Registered(sh, id, ref)
    case Locked(id, ref, _) => Registered(sh, id, ref)
    case Read(id, ref, _, existing) =>
      Registered(sh, id, ref) && OwnedBy(existing, ref) && (ref !in sh.tainted ==> existing == Under(sh.db, id))
    case Written(id, ref) => Registered(sh, id, ref)
    case Leaving => true
    case DrainLocked(ref) => ref < |sh.names|
    case DrainRead(ref, data) =>
      ref < |sh.names| && (ref !in sh.tainted && Owns(sh, sh.names[ref], ref) ==> data == Under(sh.db, sh.names[ref]))
    case Drained(ref) => ref < |sh.names|
    case Writing => sh.removing == map[]
    case Removing(id, ref) => sh.removing == map[id := ref]
    case HookLocked(id, ref) => sh.removing == map[id := ref]
    case HookDeleted(_) => sh.removing == map[]
    case Cleaned(id) => sh.removing == map[] && id !in sh.sessions
  }

  ghost predicate NamesOk(sh: Shared) {
    && (forall id :: id in sh.sessions ==> sh.sessions[id] < |sh.names| && sh.names[sh.sessions[id]] == id)
    && (forall id :: id in sh.removing ==> sh.removing[id] < |sh.names| && sh.names[sh.removing[id]] == id)
    && (forall id :: id in sh.removing ==> id !in sh.sessions)
    && (sh.writer.Some? ==> sh.readers == {})
    && (sh.writer.None? ==> sh.removing == map[])
  }

  /** Whatever is stored under a key was appended to the session owning it. */
  ghost predicate OwnersOk(sh: Shared) {
    forall id :: id in sh.db ==> exists ref :: Owns(sh, id, ref) && OwnedBy(sh.db[id], ref)
  }

  ghost predicate Balanced(sh: Shared, id: Id, ref: Ref) {
    Under(sh.drained, ref) + Payloads(Under(sh.db, id)) == Under(sh.appended, ref)
  }

  ghost predicate LogsOk(sh: Shared) {
    && (forall id, ref :: Owns(sh, id, ref) && ref !in sh.tainted ==> Balanced(sh, id, ref))
    && (forall ref :: ref !in sh.tainted ==> Under(sh.drained, ref) <= Under(sh.appended, ref))
    && (forall ref :: ref in sh.appended || ref in sh.drained ==> ref < |sh.names|)
  }

  ghost predicate SharedOk(sh: Shared) {
    NamesOk(sh) && OwnersOk(sh) && LogsOk(sh)
  }

  ghost predicate Inv(s: Sys) {
    SharedOk(s.sh) && forall t :: LocksOk(s.sh, t, s.At(t)) && DataOk(s.sh, s.At(t))
  }

  lemma PayloadsAppend(recs: seq<Rec>, r: Rec)
    ensures Payloads(recs + [r]) == Payloads(recs) + [r.payload]
  {
    assert (recs + [r])[..|recs|] == recs;
  }

  // One access at a time: what it does to the shared state

  lemma LockKeeps(sh: Shared, t: Tid, ref: Ref)
    requires SharedOk(sh)
    ensures SharedOk(Lock(sh, t, ref)) && SharedOk(Unlock(sh, ref))
  {
    SharedSame(sh, Lock(sh, t, ref));
    SharedSame(sh, Unlock(sh, ref));
  }

  lemma SharedSame(sh: Shared, sh': Shared)
    requires SharedOk(sh)
    requires sh'.sessions == sh.sessions && sh'.removing == sh.removing && sh'.names == sh.names && sh'.db == sh.db
    requires sh'.appended == sh.appended && sh'.drained == sh.drained && sh'.tainted == sh.tainted
    requires sh'.writer.Some? ==> sh'.readers == {}
    requires sh'.writer.None? ==> sh.removing == map[]
    ensures SharedOk(sh')
  {
    OwnsSame(sh, sh');
    LogsSame(sh, sh');
  }

  lemma OwnsSame(sh: Shared, sh': Shared)
    requires OwnersOk(sh) && sh'.sessions == sh.sessions && sh'.removing == sh.removing && sh'.db == sh.db
    ensures OwnersOk(sh') && forall id, ref :: Owns(sh', id, ref) <==> Owns(sh, id, ref)
  {
    forall id | id in sh'.db ensures exists ref :: Owns(sh', id, ref) && OwnedBy(sh'.db[id], ref) {
      var ref :| Owns(sh, id, ref) && OwnedBy(sh.db[id], ref);
      assert Owns(sh', id, ref);
    }
  }

  lemma LogsSame(sh: Shared, sh': Shared)
    requires LogsOk(sh) && forall id, ref :: Owns(sh', id, ref) <==> Owns(sh, id, ref)
    requires sh'.names == sh.names && sh'.db == sh.db
    requires sh'.appended == sh.appended && sh'.drained == sh.drained && sh'.tainted == sh.tainted
    ensures LogsOk(sh')
  {
    forall id, ref | Owns(sh', id, ref) && ref !in sh'.tainted ensures Balanced(sh', id, ref) {
      assert Balanced(sh, id, ref);
    }
  }

  /** An id belongs to one session and a session to one id. */
  lemma OwnsOne(sh: Shared, a: Id, r: Ref, b: Id, q: Ref)
    requires NamesOk(sh) && Owns(sh, a, r) && Owns(sh, b, q)
    ensures a == b <==> r == q
  {
  }

  lemma PutShared(sh: Shared, id: Id, ref: Ref, e: Bytes, existing: seq<Rec>)
    requires SharedOk(sh) && DataOk(sh, Read(id, ref, e, existing))
    ensures SharedOk(Put(sh, id, ref, e, existing))
  {
    var sh' := Put(sh, id, ref, e, existing);
    assert Owns(sh, id, ref) && OwnedBy(existing + [Rec(ref, e)], ref);
    forall x | x in sh'.db ensures exists r :: Owns(sh', x, r) && OwnedBy(sh'.db[x], r) {
      if x == id {
        assert Owns(sh', id, ref);
      } else {
        var r :| Owns(sh, x, r) && OwnedBy(sh.db[x], r);
        assert Owns(sh', x, r);
      }
    }
    PutLogs(sh, id, ref, e, existing);
  }

  lemma PutLogs(sh: Shared, id: Id, ref: Ref, e: Bytes, existing: seq<Rec>)
    requires NamesOk(sh) && LogsOk(sh) && DataOk(sh, Read(id, ref, e, existing))
    ensures LogsOk(Put(sh, id, ref, e, existing))
  {
    var sh' := Put(sh, id, ref, e, existing);
    forall x, r | Owns(sh', x, r) && r !in sh'.tainted ensures Balanced(sh', x, r) {
      assert Owns(sh, x, r);
      PutBalanced(sh, id, ref, e, existing, x, r);
    }
    forall r | r !in sh'.tainted ensures Under(sh'.drained, r) <= Under(sh'.appended, r) {
      assert Under(sh.drained, r) <= Under(sh.appended, r);
    }
  }

  lemma PutBalanced(sh: Shared, id: Id, ref: Ref, e: Bytes, existing: seq<Rec>, x: Id, r: Ref)
    requires NamesOk(sh) && LogsOk(sh) && DataOk(sh, Read(id, ref, e, existing))
    requires Owns(sh, x, r) && r !in sh.tainted
    ensures Balanced(Put(sh, id, ref, e, existing), x, r)
  {
    assert Owns(sh, id, ref) && Balanced(sh, x, r);
    OwnsOne(sh, id, ref, x, r);
    if x == id {
      PayloadsAppend(existing, Rec(ref, e));
      assert Under(sh.drained, r) + (Payloads(existing) + [e]) == (Under(sh.drained, r) + Payloads(existing)) + [e];
    }
  }

  lemma TakeShared(sh: Shared, ref: Ref, data: seq<Rec>)
    requires SharedOk(sh) && DataOk(sh, DrainRead(ref, data))
    ensures SharedOk(Take(sh, ref, data))
  {
    var sh' := Take(sh, ref, data);
    KeyGone(sh, sh', sh.names[ref]);
    TakeLogs(sh, ref, data);
  }

  lemma KeyGone(sh: Shared, sh': Shared, id: Id)
    requires OwnersOk(sh) && sh'.db == sh.db - {id}
    requires forall x, r :: x != id && Owns(sh, x, r) ==> Owns(sh', x, r)
    ensures OwnersOk(sh')
  {
    forall x | x in sh'.db ensures exists r :: Owns(sh', x, r) && OwnedBy(sh'.db[x], r) {
      var r :| Owns(sh, x, r) && OwnedBy(sh.db[x], r);
      assert Owns(sh', x, r);
    }
  }

  lemma TakeLogs(sh: Shared, ref: Ref, data: seq<Rec>)
    requires NamesOk(sh) && LogsOk(sh) && DataOk(sh, DrainRead(ref, data))
    ensures LogsOk(Take(sh, ref, data))
  {
    var sh' := Take(sh, ref, data);
    forall x, r | Owns(sh', x, r) && r !in sh'.tainted ensures Balanced(sh', x, r) {
      TakeBalanced(sh, ref, data, x, r);
    }
    forall r | r !in sh'.tainted ensures Under(sh'.drained, r) <= Under(sh'.appended, r) {
      assert Under(sh.drained, r) <= Under(sh.appended, r);
      if r == ref {
        TakeBalanced(sh, ref, data, sh.names[ref], ref);
      }
    }
  }

  lemma TakeBalanced(sh: Shared, ref: Ref, data: seq<Rec>, x: Id, r: Ref)
    requires NamesOk(sh) && LogsOk(sh) && DataOk(sh, DrainRead(ref, data))
    requires Owns(sh, x, r) && r !in Take(sh, ref, data).tainted
    ensures Balanced(Take(sh, ref, data), x, r)
  {
    assert Balanced(sh, x, r) && sh.names[r] == x;
    if x == sh.names[ref] {
      TaintedOwner(sh, x, ref, r, data);
    } else {
      TakeElsewhere(sh, ref, data, x, r);
    }
  }

  lemma TakeElsewhere(sh: Shared, ref: Ref, data: seq<Rec>, x: Id, r: Ref)
    requires ref < |sh.names| && x != sh.names[ref] && r != ref
    ensures Under(Take(sh, ref, data).db, x) == Under(sh.db, x)
    ensures Balanced(sh, x, r) ==> Balanced(Take(sh, ref, data), x, r)
  {
  }

  lemma TaintedOwner(sh: Shared, id: Id, ref: Ref, r: Ref, data: seq<Rec>)
    requires NamesOk(sh) && ref < |sh.names| && sh.names[ref] == id && Owns(sh, id, r)
    ensures r == ref || r in Take(sh, ref, data).tainted
  {
    if Owns(sh, id, ref) {
      OwnsOne(sh, id, ref, id, r);
    }
  }

  lemma DetachShared(sh: Shared, id: Id)
    requires SharedOk(sh) && id in sh.sessions && sh.removing == map[] && sh.writer.Some?
    ensures SharedOk(Detach(sh, id)) && forall x, r :: Owns(Detach(sh, id), x, r) <==> Owns(sh, x, r)
  {
    var sh' := Detach(sh, id);
    forall x | x in sh'.db ensures exists ref :: Owns(sh', x, ref) && OwnedBy(sh'.db[x], ref) {
      var ref :| Owns(sh, x, ref) && OwnedBy(sh.db[x], ref);
      assert Owns(sh', x, ref);
    }
    LogsSame(sh, sh');
  }

  lemma HookShared(sh: Shared, id: Id, ref: Ref)
    requires SharedOk(sh) && sh.removing == map[id := ref] && sh.writer.Some?
    ensures SharedOk(HookDelete(sh, id))
  {
    var sh' := HookDelete(sh, id);
    KeyGone(sh, sh', id);
    forall x, r | Owns(sh', x, r) && r !in sh'.tainted ensures Balanced(sh', x, r) {
      assert Owns(sh, x, r) && Balanced(sh, x, r);
    }
  }

  lemma CleanShared(sh: Shared, id: Id)
    requires SharedOk(sh) && id !in sh.sessions && sh.removing == map[]
    ensures sh.db - {id} == sh.db
  {
    assert forall r :: !Owns(sh, id, r);
    assert id !in sh.db;
  }

  lemma InsertShared(sh: Shared, id: Id)
    requires SharedOk(sh) && id !in sh.sessions && sh.removing == map[] && sh.writer.Some?
    ensures SharedOk(Insert(sh, id))
  {
    var sh' := Insert(sh, id);
    CleanShared(sh, id);
    assert id !in sh.db - {id};
    forall x | x in sh'.db ensures exists r :: Owns(sh', x, r) && OwnedBy(sh'.db[x], r) {
      var r :| Owns(sh, x, r) && OwnedBy(sh.db[x], r);
      assert Owns(sh', x, r);
    }
    forall x, r | Owns(sh', x, r) && r !in sh'.tainted ensures Balanced(sh', x, r) {
      if x != id {
        assert Balanced(sh, x, r);
      }
    }
  }

  // The moving thread

  lemma ProceedOwn(sh: Shared, t: Tid, th: Thread)
    requires SharedOk(sh) && LocksOk(sh, t, th) && DataOk(sh, th)
    ensures SharedOk(Proceed(sh, t, th).0)
  {
    match th
    case Found(id, ref, e) => LockKeeps(sh, t, ref);
    case Read(id, ref, e, existing) => PutShared(sh, id, ref, e, existing);
    case Written(id, ref) => LockKeeps(sh, t, ref);
    case Leaving => SharedSame(sh, Proceed(sh, t, th).0);
    case DrainRead(ref, data) => TakeShared(sh, ref, data);
    case Drained(ref) => LockKeeps(sh, t, ref);
    case Removing(id, ref) => LockKeeps(sh, t, ref);
    case HookLocked(id, ref) => HookShared(sh, id, ref);
    case HookDeleted(ref) => LockKeeps(sh, t, ref);
    case Cleaned(id) => InsertShared(sh, id);
    case _ =>
  }

  lemma ProceedData(sh: Shared, t: Tid, th: Thread)
    requires SharedOk(sh) && DataOk(sh, th)
    ensures DataOk(Proceed(sh, t, th).0, Proceed(sh, t, th).1)
  {
    match th
    case Locked(id, ref, e) => ReadOwned(sh, id, ref);
    case HookLocked(id, ref) => assert map[id := ref] - {id} == map[];
    case _ =>
  }

  lemma ReadOwned(sh: Shared, id: Id, ref: Ref)
    requires SharedOk(sh) && Registered(sh, id, ref)
    ensures OwnedBy(Under(sh.db, id), ref)
  {
    if id in sh.db {
      var r :| Owns(sh, id, r) && OwnedBy(sh.db[id], r);
      assert Owns(sh, id, ref);
      OwnsOne(sh, id, ref, id, r);
    }
  }

  lemma ProceedLocks(sh: Shared, t: Tid, th: Thread)
    requires LocksOk(sh, t, th)
    ensures LocksOk(Proceed(sh, t, th).0, t, Proceed(sh, t, th).1)
  {
    match th
    case Found(id, ref, e) => LockLocks(sh, t, th, ref, Locked(id, ref, e));
    case Removing(id, ref) => LockLocks(sh, t, th, ref, HookLocked(id, ref));
    case Written(id, ref) => UnlockLocks(sh, t, th, ref, Leaving);
    case Drained(ref) => UnlockLocks(sh, t, th, ref, Idle);
    case HookDeleted(ref) => UnlockLocks(sh, t, th, ref, Writing);
    case Leaving => LeaveLocks(sh, t);
    case _ => LocksSame(sh, Proceed(sh, t, th).0, t, th, Proceed(sh, t, th).1);
  }

  lemma LocksSame(sh: Shared, sh': Shared, t: Tid, th: Thread, th': Thread)
    requires LocksOk(sh, t, th) && Holding(th) == Holding(th') && IsReader(th) == IsReader(th') && IsWriter(th) == IsWriter(th')
    requires sh'.readers == sh.readers && sh'.writer == sh.writer && sh'.locked == sh.locked
    ensures LocksOk(sh', t, th')
  {
  }

  lemma LeaveLocks(sh: Shared, t: Tid)
    requires LocksOk(sh, t, Leaving)
    ensures LocksOk(sh.(readers := sh.readers - {t}), t, Idle)
  {
  }

  lemma LockLocks(sh: Shared, t: Tid, th: Thread, ref: Ref, th': Thread)
    requires LocksOk(sh, t, th) && Holding(th) == None && Holding(th') == Some(ref)
    requires IsReader(th) == IsReader(th') && IsWriter(th) == IsWriter(th')
    ensures ref !in sh.locked ==> LocksOk(Lock(sh, t, ref), t, th')
  {
  }

  lemma UnlockLocks(sh: Shared, t: Tid, th: Thread, ref: Ref, th': Thread)
    requires LocksOk(sh, t, th) && Holding(th) == Some(ref) && Holding(th') == None
    requires IsReader(th) == IsReader(th') && IsWriter(th) == IsWriter(th')
    ensures LocksOk(Unlock(sh, ref), t, th')
  {
  }

  lemma BeginOwn(sh: Shared, t: Tid, move: Move)
    requires SharedOk(sh)
    ensures SharedOk(Begin(sh, t, move).0) && DataOk(Begin(sh, t, move).0, Begin(sh, t, move).1)
  {
    match move
    case BeginAppend(id, e) => ReadLockKeeps(sh, t);
    case BeginDrain(ref) => LockKeeps(sh, t, ref);
    case BeginWrite => WriteLockKeeps(sh, t);
    case _ =>
  }

  lemma ReadLockKeeps(sh: Shared, t: Tid)
    requires SharedOk(sh)
    ensures sh.writer.None? ==> SharedOk(sh.(readers := sh.readers + {t}))
  {
    if sh.writer.None? {
      SharedSame(sh, sh.(readers := sh.readers + {t}));
    }
  }

  lemma WriteLockKeeps(sh: Shared, t: Tid)
    requires SharedOk(sh)
    ensures sh.writer.None? && sh.readers == {} ==> SharedOk(sh.(writer := Some(t))) && sh.removing == map[]
  {
    if sh.writer.None? && sh.readers == {} {
      SharedSame(sh, sh.(writer := Some(t)));
    }
  }

  lemma BeginLocks(sh: Shared, t: Tid, move: Move)
    requires LocksOk(sh, t, Idle)
    ensures LocksOk(Begin(sh, t, move).0, t, Begin(sh, t, move).1)
  {
  }

  lemma WriteOwn(sh: Shared, t: Tid, move: Move)
    requires SharedOk(sh) && LocksOk(sh, t, Writing) && DataOk(sh, Writing)
    ensures var (sh', th') := Write(sh, t, move); SharedOk(sh') && DataOk(sh', th')
  {
    match move
    case BeginRemove(id) =>
      if id in sh.sessions {
        DetachShared(sh, id);
      }
    case BeginRegister(id) =>
      if id !in sh.sessions {
        CleanShared(sh, id);
        SharedSame(sh, Write(sh, t, move).0);
      }
    case EndWrite => SharedSame(sh, sh.(writer := None));
    case _ =>
  }

  lemma WriteLocks(sh: Shared, t: Tid, move: Move)
    requires LocksOk(sh, t, Writing)
    ensures LocksOk(Write(sh, t, move).0, t, Write(sh, t, move).1)
  {
  }

  // Any other thread

  lemma ProceedOther(sh: Shared, t: Tid, th: Thread, u: Tid, other: Thread)
    requires SharedOk(sh) && t != u && LocksOk(sh, t, th) && DataOk(sh, th) && LocksOk(sh, u, other) && DataOk(sh, other)
    ensures DataOk(Proceed(sh, t, th).0, other)
  {
    match th
    case Read(id, ref, e, existing) => PutOther(sh, t, th, u, other);
    case DrainRead(ref, data) => TakeOther(sh, t, th, u, other);
    case HookLocked(id, ref) => HookOther(sh, t, th, u, other);
    case Cleaned(id) => InsertOther(sh, t, th, u, other);
    case _ => ProceedQuiet(sh, t, th, other);
  }

  lemma ProceedQuiet(sh: Shared, t: Tid, th: Thread, other: Thread)
    requires DataOk(sh, other) && !th.Read? && !th.DrainRead? && !th.HookLocked? && !th.Cleaned?
    ensures DataOk(Proceed(sh, t, th).0, other)
  {
    DataSame(sh, Proceed(sh, t, th).0, other);
  }

  lemma DataSame(sh: Shared, sh': Shared, other: Thread)
    requires DataOk(sh, other) && sh'.sessions == sh.sessions && sh'.removing == sh.removing
    requires sh'.names == sh.names && sh'.db == sh.db && sh'.tainted == sh.tainted
    ensures DataOk(sh', other)
  {
  }

  lemma PutOther(sh: Shared, t: Tid, th: Thread, u: Tid, other: Thread)
    requires NamesOk(sh) && t != u && LocksOk(sh, t, th) && DataOk(sh, th) && LocksOk(sh, u, other) && DataOk(sh, other)
    requires th.Read?
    ensures DataOk(Put(sh, th.id, th.ref, th.payload, th.existing), other)
  {
    NotBothHold(sh, t, th, u, other);
  }

  lemma NotBothHold(sh: Shared, t: Tid, th: Thread, u: Tid, other: Thread)
    requires t != u && LocksOk(sh, t, th) && LocksOk(sh, u, other)
    ensures Holding(th).Some? ==> Holding(other) != Holding(th)
    ensures !(IsWriter(th) && IsWriter(other))
    ensures sh.writer.Some? && sh.readers == {} ==> !(IsWriter(th) && IsReader(other))
  {
  }

  lemma TakeOther(sh: Shared, t: Tid, th: Thread, u: Tid, other: Thread)
    requires NamesOk(sh) && t != u && LocksOk(sh, t, th) && DataOk(sh, th) && LocksOk(sh, u, other) && DataOk(sh, other)
    requires th.DrainRead?
    ensures DataOk(Take(sh, th.ref, th.data), other)
  {
    NotBothHold(sh, t, th, u, other);
    match other
    case Read(id, ref, _, _) => TakeSpares(sh, th.ref, th.data, id, ref);
    case DrainRead(ref, _) =>
      if Owns(sh, sh.names[ref], ref) {
        TakeSpares(sh, th.ref, th.data, sh.names[ref], ref);
      }
    case _ =>
  }

  /** A drain leaves an untainted session of another handle its records. */
  lemma TakeSpares(sh: Shared, ref: Ref, data: seq<Rec>, x: Id, r: Ref)
    requires NamesOk(sh) && ref < |sh.names| && r != ref && Owns(sh, x, r)
    ensures r !in Take(sh, ref, data).tainted ==> Under(Take(sh, ref, data).db, x) == Under(sh.db, x)
    ensures sh.tainted <= Take(sh, ref, data).tainted
  {
    if x == sh.names[ref] {
      TaintedOwner(sh, x, ref, r, data);
    } else {
      TakeElsewhere(sh, ref, data, x, r);
    }
  }

  lemma HookOther(sh: Shared, t: Tid, th: Thread, u: Tid, other: Thread)
    requires NamesOk(sh) && t != u && LocksOk(sh, t, th) && DataOk(sh, th) && LocksOk(sh, u, other) && DataOk(sh, other)
    requires th.HookLocked?
    ensures DataOk(HookDelete(sh, th.id), other)
  {
    NotBothHold(sh, t, th, u, other);
  }

  lemma InsertOther(sh: Shared, t: Tid, th: Thread, u: Tid, other: Thread)
    requires SharedOk(sh) && t != u && LocksOk(sh, t, th) && DataOk(sh, th) && LocksOk(sh, u, other) && DataOk(sh, other)
    requires th.Cleaned?
    ensures DataOk(Insert(sh, th.id), other)
  {
    NotBothHold(sh, t, th, u, other);
  }

  lemma ProceedLocksOther(sh: Shared, t: Tid, th: Thread, u: Tid, other: Thread)
    requires t != u && LocksOk(sh, t, th) && LocksOk(sh, u, other)
    ensures LocksOk(Proceed(sh, t, th).0, u, other)
  {
  }

  lemma BeginOther(sh: Shared, t: Tid, move: Move, other: Thread)
    requires DataOk(sh, other)
    ensures DataOk(Begin(sh, t, move).0, other)
  {
  }

  lemma BeginLocksOther(sh: Shared, t: Tid, move: Move, u: Tid, other: Thread)
    requires t != u && LocksOk(sh, t, Idle) && LocksOk(sh, u, other)
    ensures LocksOk(Begin(sh, t, move).0, u, other)
  {
  }

  lemma WriteOther(sh: Shared, t: Tid, move: Move, u: Tid, other: Thread)
    requires SharedOk(sh) && t != u && LocksOk(sh, t, Writing) && DataOk(sh, Writing) && LocksOk(sh, u, other) && DataOk(sh, other)
    ensures LocksOk(Write(sh, t, move).0, u, other) && DataOk(Write(sh, t, move).0, other)
  {
    NotBothHold(sh, t, Writing, u, other);
    match move
    case BeginRemove(id) =>
      if id in sh.sessions {
        DetachShared(sh, id);
      }
    case BeginRegister(id) =>
      if id !in sh.sessions {
        CleanShared(sh, id);
      }
    case _ =>
  }

  // Steps and runs

  lemma StepInv(s: Sys, a: Action)
    requires Inv(s)
    ensures Inv(Step(s, a))
  {
    var s', th := Step(s, a), s.At(a.t);
    StepOwn(s, a);
    forall u ensures LocksOk(s'.sh, u, s'.At(u)) && DataOk(s'.sh, s'.At(u)) {
      if u != a.t {
        StepOther(s, a, u);
        assert s'.At(u) == s.At(u);
      }
    }
  }

  lemma StepOwn(s: Sys, a: Action)
    requires Inv(s)
    ensures var s' := Step(s, a); SharedOk(s'.sh) && LocksOk(s'.sh, a.t, s'.At(a.t)) && DataOk(s'.sh, s'.At(a.t))
  {
    var th := s.At(a.t);
    assert LocksOk(s.sh, a.t, th) && DataOk(s.sh, th);
    if th.Idle? {
      BeginOwn(s.sh, a.t, a.move);
      BeginLocks(s.sh, a.t, a.move);
    } else if th.Writing? {
      WriteOwn(s.sh, a.t, a.move);
      WriteLocks(s.sh, a.t, a.move);
    } else if a.move.Next? {
      ProceedOwn(s.sh, a.t, th);
      ProceedData(s.sh, a.t, th);
      ProceedLocks(s.sh, a.t, th);
    }
  }

  lemma StepOther(s: Sys, a: Action, u: Tid)
    requires Inv(s) && u != a.t
    ensures LocksOk(Step(s, a).sh, u, s.At(u)) && DataOk(Step(s, a).sh, s.At(u))
  {
    var th, other := s.At(a.t), s.At(u);
    assert LocksOk(s.sh, a.t, th) && DataOk(s.sh, th) && LocksOk(s.sh, u, other) && DataOk(s.sh, other);
    if th.Idle? {
      BeginOther(s.sh, a.t, a.move, other);
      BeginLocksOther(s.sh, a.t, a.move, u, other);
    } else if th.Writing? {
      WriteOther(s.sh, a.t, a.move, u, other);
    } else if a.move.Next? {
      ProceedOther(s.sh, a.t, th, u, other);
      ProceedLocksOther(s.sh, a.t, th, u, other);
    }
  }

  lemma StartInv()
    ensures Inv(Start())
  {
  }

  lemma {:induction false} AlwaysInv(acts: seq<Action>)
    ensures Inv(After(Start(), acts))
  {
    if acts == [] {
      StartInv();
    } else {
      AlwaysInv(acts[..|acts| - 1]);
      StepInv(After(Start(), acts[..|acts| - 1]), acts[|acts| - 1]);
    }
  }
}
