/** What every interleaving of the memory backend keeps. */
module MemoryInvariants {
  import opened Prelude
  import opened Store
  import opened StoreInvariants
  import opened MemorySteps

  /** Registered sessions have distinct identities, disjoint from removed ones. */
  ghost predicate RefsOk(sh: Shared) {
    && GensMatch(sh)
    && (forall a, b :: a in sh.gen && b in sh.gen && a != b ==> sh.gen[a] != sh.gen[b])
    && (forall a :: a in sh.gen ==> sh.gen[a] < sh.next && sh.gen[a] !in sh.lost)
    && (forall r :: r in sh.lost ==> r < sh.next)
  }

  /** Delivered batches followed by what is stored is the order of appending. */
  ghost predicate Balanced(sh: Shared, r: Ref, s: SessionState) {
    Under(sh.drained, r) + s.interactions == Under(sh.appended, r)
  }

  ghost predicate Fifo(sh: Shared) {
    && (forall id :: id in sh.gen && id in sh.st.sessions ==> Balanced(sh, sh.gen[id], sh.st.sessions[id]))
    && (forall r :: r in sh.lost ==> Balanced(sh, r, sh.lost[r]))
    && (forall r :: r in sh.appended || r in sh.drained ==> r < sh.next)
  }

  /** The session a thread goes on with still exists, registered or not. */
  predicate ThreadOk(sh: Shared, th: Thread) {
    match th
    case Validated(call, ref) => Exists(sh, call.id, ref)
    case Promoting(call, ref) => Exists(sh, call.id, ref)
    case Revalidated(call, ref) => Exists(sh, call.id, ref)
    case Pushing(call, ref) => Exists(sh, call.id, ref)
    case _ => true
  }

  ghost predicate StoreOk(p: Policy, sh: Shared) {
    Ok(p, sh.st, sh.deletes) && sh.clock < MAX_INT64
  }

  ghost predicate Inv(p: Policy, s: Sys) {
    && StoreOk(p, s.sh) && RefsOk(s.sh) && Fifo(s.sh)
    && forall t :: t in s.threads ==> ThreadOk(s.sh, s.threads[t])
  }

  predicate Proper(a: Action) {
    (a.RegisterNow? ==> a.id != "") && (a.Tick? ==> a.now < MAX_INT64)
  }

  /** Sessions are only ever moved out of the map, never forgotten. */
  ghost predicate Persists(before: Shared, after: Shared) {
    forall id, ref :: Exists(before, id, ref) ==> Exists(after, id, ref)
  }

  ghost predicate Good(p: Policy, sh: Shared) {
    StoreOk(p, sh) && RefsOk(sh) && Fifo(sh)
  }

  // Object updates

  /** Replacing one session object, and its share of the two logs. */
  lemma ReplaceGood(p: Policy, sh: Shared, id: Id, ref: Ref, s: SessionState,
                    appended: map<Ref, seq<Bytes>>, drained: map<Ref, seq<Bytes>>)
    requires Good(p, sh) && Exists(sh, id, ref) && (Current(sh, id, ref) ==> s.lastAccess < MAX_INT64)
    requires LogsSameBut(sh, Relog(sh, appended, drained), ref)
    requires Under(drained, ref) + s.interactions == Under(appended, ref)
    ensures var sh' := Relog(Replace(sh, id, ref, s), appended, drained);
            Good(p, sh') && Persists(sh, sh')
  {
    var sh' := Relog(Replace(sh, id, ref, s), appended, drained);
    ReplaceKeys(sh, id, ref, s);
    RefsSame(sh, sh');
    if Current(sh, id, ref) {
      SetOk(p, sh.st, id, s, sh.deletes);
      CurrentFifo(sh, sh', id, ref, s);
    } else {
      LostFifo(sh, sh', ref, s);
    }
  }

  lemma ReplaceKeys(sh: Shared, id: Id, ref: Ref, s: SessionState)
    requires Exists(sh, id, ref)
    ensures var sh' := Replace(sh, id, ref, s);
            && sh'.st.sessions.Keys == sh.st.sessions.Keys && sh'.lost.Keys == sh.lost.Keys
            && sh'.gen == sh.gen && sh'.next == sh.next && sh'.clock == sh.clock && sh'.deletes == sh.deletes
  {
  }

  lemma RefsSame(sh: Shared, sh': Shared)
    requires RefsOk(sh) && sh'.gen == sh.gen && sh'.next == sh.next
    requires sh'.st.sessions.Keys == sh.st.sessions.Keys && sh'.lost.Keys == sh.lost.Keys
    ensures RefsOk(sh') && Persists(sh, sh')
  {
    assert forall r :: r in sh'.lost <==> r in sh'.lost.Keys;
    assert forall r :: r in sh.lost <==> r in sh.lost.Keys;
  }

  ghost predicate LogsSameBut(sh: Shared, sh': Shared, ref: Ref) {
    && (forall r :: r != ref ==> Under(sh'.appended, r) == Under(sh.appended, r) && Under(sh'.drained, r) == Under(sh.drained, r))
    && sh'.appended.Keys <= sh.appended.Keys + {ref} && sh'.drained.Keys <= sh.drained.Keys + {ref}
  }

  lemma CurrentFifo(sh: Shared, sh': Shared, id: Id, ref: Ref, s: SessionState)
    requires RefsOk(sh) && Fifo(sh) && Current(sh, id, ref) && LogsSameBut(sh, sh', ref) && Balanced(sh', ref, s)
    requires sh'.st.sessions == sh.st.sessions[id := s] && sh'.gen == sh.gen && sh'.lost == sh.lost && sh'.next == sh.next
    ensures Fifo(sh')
  {
    forall x | x in sh'.gen && x in sh'.st.sessions ensures Balanced(sh', sh'.gen[x], sh'.st.sessions[x]) {
      if x != id {
        assert Balanced(sh, sh.gen[x], sh.st.sessions[x]);
      }
    }
    forall r | r in sh'.lost ensures Balanced(sh', r, sh'.lost[r]) {
      assert Balanced(sh, r, sh.lost[r]);
    }
  }

  lemma LostFifo(sh: Shared, sh': Shared, ref: Ref, s: SessionState)
    requires RefsOk(sh) && Fifo(sh) && ref in sh.lost && LogsSameBut(sh, sh', ref) && Balanced(sh', ref, s)
    requires sh'.st == sh.st && sh'.gen == sh.gen && sh'.lost == sh.lost[ref := s] && sh'.next == sh.next
    ensures Fifo(sh')
  {
    forall x | x in sh'.gen && x in sh'.st.sessions ensures Balanced(sh', sh'.gen[x], sh'.st.sessions[x]) {
      assert Balanced(sh, sh.gen[x], sh.st.sessions[x]);
    }
    forall r | r in sh'.lost ensures Balanced(sh', r, sh'.lost[r]) {
      assert r != ref ==> Balanced(sh, r, sh.lost[r]);
    }
  }

  lemma TouchGood(p: Policy, sh: Shared, id: Id, ref: Ref)
    requires Good(p, sh)
    ensures Good(p, TouchRef(p, sh, id, ref)) && Persists(sh, TouchRef(p, sh, id, ref))
  {
    if Exists(sh, id, ref) {
      var s := Object(sh, id, ref);
      ObjectBalanced(sh, id, ref);
      ReplaceGood(p, sh, id, ref, s.(lastAccess := sh.clock), sh.appended, sh.drained);
    }
  }

  lemma ObjectBalanced(sh: Shared, id: Id, ref: Ref)
    requires Fifo(sh) && Exists(sh, id, ref)
    ensures Balanced(sh, ref, Object(sh, id, ref))
  {
  }

  lemma PushGood(p: Policy, sh: Shared, id: Id, ref: Ref, e: Bytes)
    requires Good(p, sh)
    ensures Good(p, PushRef(sh, id, ref, e)) && Persists(sh, PushRef(sh, id, ref, e))
  {
    if Exists(sh, id, ref) {
      var s := Object(sh, id, ref);
      ObjectBalanced(sh, id, ref);
      PushLogs(sh, ref, s, e);
      ReplaceGood(p, sh, id, ref, s.(interactions := s.interactions + [e]), Pushed(sh, ref, e), sh.drained);
    }
  }

  lemma PushLogs(sh: Shared, ref: Ref, s: SessionState, e: Bytes)
    requires Balanced(sh, ref, s)
    ensures LogsSameBut(sh, Relog(sh, Pushed(sh, ref, e), sh.drained), ref)
    ensures Under(sh.drained, ref) + (s.interactions + [e]) == Under(Pushed(sh, ref, e), ref)
  {
    assert Under(sh.drained, ref) + (s.interactions + [e]) == (Under(sh.drained, ref) + s.interactions) + [e];
  }

  lemma DrainGood(p: Policy, sh: Shared, id: Id, ref: Ref)
    requires Good(p, sh)
    ensures Good(p, DrainRef(sh, id, ref)) && Persists(sh, DrainRef(sh, id, ref))
  {
    if Exists(sh, id, ref) {
      var s := Object(sh, id, ref);
      ObjectBalanced(sh, id, ref);
      DrainLogs(sh, ref, s);
      ReplaceGood(p, sh, id, ref, s.(interactions := []), sh.appended, Taken(sh, ref, s));
    }
  }

  lemma DrainLogs(sh: Shared, ref: Ref, s: SessionState)
    requires Balanced(sh, ref, s)
    ensures LogsSameBut(sh, Relog(sh, sh.appended, Taken(sh, ref, s)), ref)
    ensures Under(Taken(sh, ref, s), ref) + [] == Under(sh.appended, ref)
  {
  }

  // Removal and registration

  /** A removal that turns the session of `id` into a removed one. */
  lemma DetachGood(p: Policy, sh: Shared, id: Id, st: Store, deletes: nat)
    requires Good(p, sh) && id in sh.gen && Ok(p, st, deletes) && st.sessions == sh.st.sessions - {id}
    ensures var sh' := Detach(sh, id, st).(deletes := deletes);
            Good(p, sh') && Persists(sh, sh')
  {
    var sh' := Detach(sh, id, st).(deletes := deletes);
    var ref := sh.gen[id];
    assert id in sh.st.sessions;
    assert sh'.gen == sh.gen - {id} && sh'.lost == sh.lost[ref := sh.st.sessions[id]];
    DetachRefs(sh, sh', id);
    forall x | x in sh'.gen && x in sh'.st.sessions ensures Balanced(sh', sh'.gen[x], sh'.st.sessions[x]) {
      assert Balanced(sh, sh.gen[x], sh.st.sessions[x]);
    }
    forall r | r in sh'.lost ensures Balanced(sh', r, sh'.lost[r]) {
      assert Balanced(sh, ref, sh.st.sessions[id]);
      assert r != ref ==> Balanced(sh, r, sh.lost[r]);
    }
  }

  lemma DetachRefs(sh: Shared, sh': Shared, id: Id)
    requires RefsOk(sh) && id in sh.gen
    requires sh'.gen == sh.gen - {id} && sh'.st.sessions == sh.st.sessions - {id} && sh'.next == sh.next
    requires sh'.lost == sh.lost[sh.gen[id] := sh.st.sessions[id]]
    ensures RefsOk(sh') && Persists(sh, sh')
  {
    assert sh'.gen.Keys == sh'.st.sessions.Keys;
  }

  lemma EvictGood(p: Policy, sh: Shared, id: Id)
    requires Good(p, sh) && id in sh.gen
    ensures Good(p, EvictSection(sh, id)) && Persists(sh, EvictSection(sh, id))
  {
    RemovedOk(p, sh.st, id, sh.deletes);
    DetachGood(p, sh, id, Evicted(sh.st, id), sh.deletes);
  }

  lemma DeleteGood(p: Policy, sh: Shared, id: Id, secret: Text)
    requires Good(p, sh)
    ensures Good(p, DeleteSection(sh, id, secret)) && Persists(sh, DeleteSection(sh, id, secret))
  {
    DeleteOk(p, sh.st, id, secret, sh.deletes);
    DeleteSessions(sh.st, id, secret);
    var (st, r) := Delete(sh.st, id, secret);
    SettledGood(p, sh, id, st, r.Deleted?);
  }

  lemma SettledGood(p: Policy, sh: Shared, id: Id, st: Store, deleted: bool)
    requires Good(p, sh) && (deleted ==> id in sh.gen)
    requires Ok(p, st, if deleted then sh.deletes + 1 else sh.deletes)
    requires st.sessions == if deleted then sh.st.sessions - {id} else sh.st.sessions
    ensures Good(p, Settled(sh, id, st, deleted)) && Persists(sh, Settled(sh, id, st, deleted))
  {
    if deleted {
      DetachGood(p, sh, id, st, sh.deletes + 1);
    } else {
      KeptGood(p, sh, id, st);
    }
  }

  lemma KeptGood(p: Policy, sh: Shared, id: Id, st: Store)
    requires Good(p, sh) && Ok(p, st, sh.deletes) && st.sessions == sh.st.sessions
    ensures Good(p, Settled(sh, id, st, false)) && Persists(sh, Settled(sh, id, st, false))
  {
    StoreGood(p, sh, st);
  }

  lemma DeleteSessions(st: Store, id: Id, secret: Text)
    ensures var (st', r) := Delete(st, id, secret);
            st'.sessions == if r.Deleted? then st.sessions - {id} else st.sessions
    ensures Delete(st, id, secret).1.Deleted? ==> id in st.sessions
  {
  }

  /** Changing only the list, the counters and the times of access. */
  lemma StoreGood(p: Policy, sh: Shared, st: Store)
    requires Good(p, sh) && Ok(p, st, sh.deletes) && SameRecords(sh.st.sessions, st.sessions)
    ensures Good(p, sh.(st := st)) && Persists(sh, sh.(st := st))
  {
    RefsSame(sh, sh.(st := st));
    forall x | x in sh.gen && x in st.sessions ensures Balanced(sh.(st := st), sh.gen[x], st.sessions[x]) {
      assert Balanced(sh, sh.gen[x], sh.st.sessions[x]);
    }
    forall r | r in sh.lost ensures Balanced(sh.(st := st), r, sh.lost[r]) {
      assert Balanced(sh, r, sh.lost[r]);
    }
  }

  ghost predicate SameRecords(a: map<Id, SessionState>, b: map<Id, SessionState>) {
    a.Keys == b.Keys && forall id :: id in a ==> a[id].interactions == b[id].interactions
  }

  lemma HitKeepsRecords(p: Policy, st: Store, id: Id, now: int)
    requires id in st.sessions
    ensures SameRecords(st.sessions, Hit(p, st, id, now).sessions)
  {
    assert Hit(p, st, id, now).sessions == Touch(p, st.(hits := st.hits + 1), id, now).sessions;
  }

  lemma RoomGood(p: Policy, sh: Shared)
    requires Good(p, sh) && p.capacity > 0
    ensures var room := RoomSection(p, sh);
            && Good(p, room) && Persists(sh, room)
            && |room.st.sessions| < p.capacity && room.st.sessions.Keys <= sh.st.sessions.Keys
            && room.next == sh.next && room.clock == sh.clock
  {
    var missed := sh.(st := Missed(sh.st));
    StoreGood(p, sh, Missed(sh.st));
    RoomOk(p, sh.st, sh.deletes);
    RoomSectionIsMakeRoom(p, sh);
    if |missed.st.sessions| >= p.capacity {
      VictimIsLeastProbed(missed.st);
      EvictGood(p, missed, Victim(missed.st));
    }
  }

  lemma AddGood(p: Policy, sh: Shared, id: Id, q: Request)
    requires Good(p, sh) && id !in sh.st.sessions && id != "" && |sh.st.sessions| < p.capacity
    ensures Good(p, AddSection(sh, id, q)) && Persists(sh, AddSection(sh, id, q))
  {
    AddOk(p, sh.st, id, q, sh.clock, sh.deletes);
    if q.aesKey.Some? {
      var sh' := AddSection(sh, id, q);
      var s := sh'.st.sessions[id];
      assert sh'.st.sessions == sh.st.sessions[id := s] && s.interactions == [];
      AddRefs(sh, sh', id, s);
      AddFifo(sh, sh', id, s);
    }
  }

  lemma AddFifo(sh: Shared, sh': Shared, id: Id, s: SessionState)
    requires RefsOk(sh) && Fifo(sh) && id !in sh.gen && s.interactions == []
    requires sh'.gen == sh.gen[id := sh.next] && sh'.next == sh.next + 1 && sh'.lost == sh.lost
    requires sh'.st.sessions == sh.st.sessions[id := s] && sh'.appended == sh.appended && sh'.drained == sh.drained
    ensures Fifo(sh')
  {
    forall x | x in sh'.gen && x in sh'.st.sessions ensures Balanced(sh', sh'.gen[x], sh'.st.sessions[x]) {
      if x != id {
        assert Balanced(sh, sh.gen[x], sh.st.sessions[x]);
      }
    }
    forall r | r in sh'.lost ensures Balanced(sh', r, sh'.lost[r]) {
      assert Balanced(sh, r, sh.lost[r]);
    }
  }

  lemma AddRefs(sh: Shared, sh': Shared, id: Id, s: SessionState)
    requires RefsOk(sh) && id !in sh.gen
    requires sh'.gen == sh.gen[id := sh.next] && sh'.next == sh.next + 1 && sh'.lost == sh.lost
    requires sh'.st.sessions == sh.st.sessions[id := s]
    ensures RefsOk(sh') && Persists(sh, sh')
  {
  }

  lemma RegisterGood(p: Policy, sh: Shared, id: Id, q: Request)
    requires Good(p, sh) && p.capacity > 0 && id != ""
    ensures Good(p, RegisterSection(p, sh, id, q)) && Persists(sh, RegisterSection(p, sh, id, q))
  {
    if id !in sh.st.sessions {
      RegisterNewGood(p, sh, id, q);
    } else if IsExpired(p, sh.st.sessions[id], sh.clock) {
      EvictGood(p, sh, id);
      RegisterNewGood(p, EvictSection(sh, id), id, q);
    } else {
      KeepAliveGood(p, sh, id, q);
    }
  }

  lemma RegisterNewGood(p: Policy, sh: Shared, id: Id, q: Request)
    requires Good(p, sh) && p.capacity > 0 && id != "" && id !in sh.st.sessions
    ensures Good(p, AddSection(RoomSection(p, sh), id, q)) && Persists(sh, AddSection(RoomSection(p, sh), id, q))
  {
    RoomGood(p, sh);
    AddGood(p, RoomSection(p, sh), id, q);
  }

  lemma KeepAliveGood(p: Policy, sh: Shared, id: Id, q: Request)
    requires Good(p, sh) && id in sh.st.sessions
    ensures Good(p, KeepAliveSection(p, sh, id, q)) && Persists(sh, KeepAliveSection(p, sh, id, q))
  {
    KeepAliveOk(p, sh, id, q);
    StoreGood(p, sh, KeepAliveSection(p, sh, id, q).st);
  }

  lemma KeepAliveOk(p: Policy, sh: Shared, id: Id, q: Request)
    requires StoreOk(p, sh) && id in sh.st.sessions
    ensures var st := KeepAliveSection(p, sh, id, q).st;
            Ok(p, st, sh.deletes) && SameRecords(sh.st.sessions, st.sessions)
  {
    HitOk(p, sh.st, id, sh.clock, sh.deletes);
    HitKeepsRecords(p, sh.st, id, sh.clock);
  }

  lemma PromoteGood(p: Policy, sh: Shared, id: Id)
    requires Good(p, sh)
    ensures Good(p, sh.(st := Promote(sh.st, id))) && Persists(sh, sh.(st := Promote(sh.st, id)))
  {
    PromoteOk(sh.st, id);
    StoreGood(p, sh, Promote(sh.st, id));
  }

  // Steps and runs

  lemma FirstOk(p: Policy, sh: Shared, call: Call)
    ensures ThreadOk(sh, First(p, sh, call))
  {
  }

  lemma SecondGood(p: Policy, sh: Shared, call: Call)
    requires Good(p, sh)
    ensures var (sh', th) := Second(p, sh, call); Good(p, sh') && Persists(sh, sh') && ThreadOk(sh', th)
  {
    var id := call.id;
    if id in sh.st.sessions {
      if IsExpired(p, sh.st.sessions[id], sh.clock) {
        EvictGood(p, sh, id);
      } else if call.GetCall? {
        PromoteGood(p, sh, id);
      }
    }
  }

  lemma ProceedGood(p: Policy, sh: Shared, th: Thread)
    requires Good(p, sh) && ThreadOk(sh, th)
    ensures var (sh', th') := Proceed(p, sh, th); Good(p, sh') && Persists(sh, sh') && ThreadOk(sh', th')
  {
    match th
    case Idle =>
    case Validated(call, ref) => TouchGood(p, sh, call.id, ref);
    case Promoting(call, ref) => PromoteGood(p, sh, call.id);
    case Expired(call) => SecondGood(p, sh, call);
    case Revalidated(call, ref) => TouchGood(p, sh, call.id, ref);
    case Pushing(call, ref) =>
      if call.AppendCall? && call.encrypted.Some? {
        PushGood(p, sh, call.id, ref, call.encrypted.value);
      }
    case Done(_, _) =>
  }

  lemma ThreadKept(before: Shared, after: Shared, th: Thread)
    requires ThreadOk(before, th) && Persists(before, after)
    ensures ThreadOk(after, th)
  {
  }

  lemma SharedStep(p: Policy, s: Sys, a: Action)
    requires Inv(p, s) && Proper(a) && p.capacity > 0
    ensures Good(p, MemorySteps.Step(p, s, a).sh) && Persists(s.sh, MemorySteps.Step(p, s, a).sh)
  {
    match a
    case Begin(_, _) =>
    case Continue(t) => ProceedGood(p, s.sh, s.At(t));
    case Finish(_) =>
    case RegisterNow(id, q) => RegisterGood(p, s.sh, id, q);
    case DeleteNow(id, secret) => DeleteGood(p, s.sh, id, secret);
    case DrainNow(id, ref) => DrainGood(p, s.sh, id, ref);
    case Tick(now) => TickGood(p, s.sh, now);
  }

  lemma TickGood(p: Policy, sh: Shared, now: int)
    requires Good(p, sh) && now < MAX_INT64
    ensures Good(p, sh.(clock := now)) && Persists(sh, sh.(clock := now))
  {
    var sh' := sh.(clock := now);
    RefsSame(sh, sh');
    StoreGood(p, sh, sh.st);
    forall x | x in sh'.gen && x in sh'.st.sessions ensures Balanced(sh', sh'.gen[x], sh'.st.sessions[x]) {
      assert Balanced(sh, sh.gen[x], sh.st.sessions[x]);
    }
    forall r | r in sh'.lost ensures Balanced(sh', r, sh'.lost[r]) {
      assert Balanced(sh, r, sh.lost[r]);
    }
  }

  lemma StepInv(p: Policy, s: Sys, a: Action)
    requires Inv(p, s) && Proper(a) && p.capacity > 0
    ensures Inv(p, MemorySteps.Step(p, s, a))
  {
    var s' := MemorySteps.Step(p, s, a);
    SharedStep(p, s, a);
    forall t | t in s'.threads ensures ThreadOk(s'.sh, s'.threads[t]) {
      if a == Continue(t) {
        ProceedGood(p, s.sh, s.At(t));
      } else if a.Begin? && a.t == t && s.At(t).Idle? {
        FirstOk(p, s.sh, a.call);
      } else if t in s.threads && s'.threads[t] == s.threads[t] {
        ThreadKept(s.sh, s'.sh, s.threads[t]);
      }
    }
  }

  ghost predicate AllProper(acts: seq<Action>) {
    forall i :: 0 <= i < |acts| ==> Proper(acts[i])
  }

  /** Every state any interleaving reaches: between two sections the map and the
      list hold the same ids without duplicates, there are no more sessions than
      the capacity, and created = live + evicted + deleted. */
  lemma {:induction false} AlwaysInv(p: Policy, s: Sys, acts: seq<Action>)
    requires Inv(p, s) && AllProper(acts) && p.capacity > 0
    ensures Inv(p, After(p, s, acts))
  {
    if acts != [] {
      var init := acts[..|acts| - 1];
      assert forall i :: 0 <= i < |init| ==> init[i] == acts[i];
      AlwaysInv(p, s, init);
      StepInv(p, After(p, s, init), acts[|acts| - 1]);
    }
  }

  function Start(now: int): Sys {
    Sys(Shared(Empty(None), map[], map[], 0, now, 0, map[], map[]), map[])
  }

  /** Exactly-once delivery in order, from an empty store: at any moment and for
      any session, registered or removed, the batches drained so far followed by
      what it still holds are the interactions appended to it, in that order. */
  lemma DeliveredInOrder(p: Policy, now: int, acts: seq<Action>, id: Id, ref: Ref)
    requires AllProper(acts) && p.capacity > 0 && now < MAX_INT64
    requires Exists(After(p, Start(now), acts).sh, id, ref)
    ensures var sh := After(p, Start(now), acts).sh;
            Under(sh.drained, ref) + Object(sh, id, ref).interactions == Under(sh.appended, ref)
  {
    EmptyOk(p, None);
    assert Inv(p, Start(now));
    AlwaysInv(p, Start(now), acts);
    ObjectBalanced(After(p, Start(now), acts).sh, id, ref);
  }
}
