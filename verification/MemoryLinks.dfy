/** The LRU list and its index under concurrency: what every section of the
    memory backend does to them, and what they are in every state. */
module MemoryLinks {
  import opened Prelude
  import opened Store
  import opened StoreInvariants
  import opened MemorySteps
  import opened MemoryInvariants
  import L = LruLinks

  function RoomLinks(p: Policy, sh: Shared, l: L.Links): L.Links {
    if |sh.st.sessions| >= p.capacity && Victim(sh.st) != "" then L.Remove(l, Victim(sh.st)) else l
  }

  function AddLinks(id: Id, q: Request, l: L.Links): L.Links {
    if q.aesKey.None? then l else L.PushBack(l, id)
  }

  function RegisterLinks(p: Policy, sh: Shared, id: Id, q: Request, l: L.Links): L.Links {
    if id !in sh.st.sessions then AddLinks(id, q, RoomLinks(p, sh, l))
    else if IsExpired(p, sh.st.sessions[id], sh.clock)
    then AddLinks(id, q, RoomLinks(p, EvictSection(sh, id), L.Remove(l, id)))
    else if sh.st.sessions[id].secretKey != q.secret then l
    else L.MoveToBack(l, id)
  }

  function SecondLinks(p: Policy, sh: Shared, call: Call, l: L.Links): L.Links {
    var id := call.id;
    if id !in sh.st.sessions || id !in sh.gen then l
    else if IsExpired(p, sh.st.sessions[id], sh.clock) then L.Remove(l, id)
    else if call.GetCall? && sh.st.sessions[id].secretKey == call.secret then L.MoveToBack(l, id)
    else l
  }

  function ProceedLinks(p: Policy, sh: Shared, th: Thread, l: L.Links): L.Links {
    match th
    case Promoting(call, _) => L.MoveToBack(l, call.id)
    case Expired(call) => SecondLinks(p, sh, call, l)
    case _ => l
  }

  /** Only sections under the write lock touch them. */
  function LinksStep(p: Policy, s: Sys, a: Action, l: L.Links): L.Links {
    match a
    case Continue(t) => ProceedLinks(p, s.sh, s.At(t), l)
    case RegisterNow(id, q) => RegisterLinks(p, s.sh, id, q, l)
    case DeleteNow(id, secret) =>
      if id in s.sh.st.sessions && s.sh.st.sessions[id].secretKey == secret then L.Remove(l, id) else l
    case _ => l
  }

  function LinksAfter(p: Policy, s: Sys, acts: seq<Action>, l: L.Links): L.Links {
    if acts == [] then l
    else
      var init := acts[..|acts| - 1];
      LinksStep(p, After(p, s, init), acts[|acts| - 1], LinksAfter(p, s, init, l))
  }

  // Each section keeps them in step with the ids of the store's list

  lemma RoomHolds(p: Policy, sh: Shared, l: L.Links)
    requires L.Holds(l, sh.st.lru)
    ensures L.Holds(RoomLinks(p, sh, l), RoomSection(p, sh).st.lru)
    ensures forall id :: id in RoomSection(p, sh).st.lru ==> id in sh.st.lru
  {
    L.RemoveHolds(l, sh.st.lru, Victim(sh.st));
    forall id | id in Without(sh.st.lru, Victim(sh.st)) ensures id in sh.st.lru {
      WithoutIn(sh.st.lru, Victim(sh.st), id);
    }
  }

  lemma WithoutIn(lru: seq<Id>, id: Id, x: Id)
    ensures x in Without(lru, id) <==> x in lru && x != id
  {
    FilterElements((y: Id) => y != id, lru, x);
  }

  lemma AddHolds(sh: Shared, id: Id, q: Request, l: L.Links)
    requires L.Holds(l, sh.st.lru) && id !in sh.st.lru
    ensures L.Holds(AddLinks(id, q, l), AddSection(sh, id, q).st.lru)
  {
    L.PushBackHolds(l, sh.st.lru, id);
  }

  lemma EvictHolds(sh: Shared, id: Id, l: L.Links)
    requires L.Holds(l, sh.st.lru)
    ensures L.Holds(L.Remove(l, id), EvictSection(sh, id).st.lru) && id !in EvictSection(sh, id).st.lru
  {
    L.RemoveHolds(l, sh.st.lru, id);
    WithoutIn(sh.st.lru, id, id);
  }

  lemma RegisterHolds(p: Policy, sh: Shared, id: Id, q: Request, l: L.Links)
    requires L.Holds(l, sh.st.lru) && IndexOk(sh.st)
    ensures L.Holds(RegisterLinks(p, sh, id, q, l), RegisterSection(p, sh, id, q).st.lru)
  {
    if id !in sh.st.sessions {
      RoomHolds(p, sh, l);
      AddHolds(RoomSection(p, sh), id, q, RoomLinks(p, sh, l));
    } else if IsExpired(p, sh.st.sessions[id], sh.clock) {
      EvictHolds(sh, id, l);
      RoomHolds(p, EvictSection(sh, id), L.Remove(l, id));
      AddHolds(RoomSection(p, EvictSection(sh, id)), id, q, RoomLinks(p, EvictSection(sh, id), L.Remove(l, id)));
    } else {
      L.MoveToBackHolds(l, sh.st.lru, id);
    }
  }

  lemma SecondHolds(p: Policy, sh: Shared, call: Call, l: L.Links)
    requires L.Holds(l, sh.st.lru)
    ensures L.Holds(SecondLinks(p, sh, call, l), Second(p, sh, call).0.st.lru)
  {
    L.RemoveHolds(l, sh.st.lru, call.id);
    L.MoveToBackHolds(l, sh.st.lru, call.id);
  }

  lemma DeleteHolds(sh: Shared, id: Id, secret: Text, l: L.Links)
    requires L.Holds(l, sh.st.lru)
    ensures L.Holds(if id in sh.st.sessions && sh.st.sessions[id].secretKey == secret then L.Remove(l, id) else l,
                    DeleteSection(sh, id, secret).st.lru)
  {
    DeleteList(sh, id, secret);
    L.RemoveHolds(l, sh.st.lru, id);
  }

  lemma DeleteList(sh: Shared, id: Id, secret: Text)
    ensures DeleteSection(sh, id, secret).st.lru ==
            if id in sh.st.sessions && sh.st.sessions[id].secretKey == secret then Without(sh.st.lru, id) else sh.st.lru
  {
  }

  lemma TouchList(p: Policy, sh: Shared, id: Id, ref: Ref)
    ensures TouchRef(p, sh, id, ref).st.lru == sh.st.lru
  {
  }

  lemma PushList(sh: Shared, id: Id, ref: Ref, e: Bytes)
    ensures PushRef(sh, id, ref, e).st.lru == sh.st.lru
  {
  }

  lemma DrainList(sh: Shared, id: Id, ref: Ref)
    ensures DrainRef(sh, id, ref).st.lru == sh.st.lru
  {
  }

  lemma ProceedHolds(p: Policy, sh: Shared, th: Thread, l: L.Links)
    requires L.Holds(l, sh.st.lru)
    ensures L.Holds(ProceedLinks(p, sh, th, l), Proceed(p, sh, th).0.st.lru)
  {
    match th
    case Idle =>
    case Validated(call, ref) => TouchList(p, sh, call.id, ref);
    case Promoting(call, _) => L.MoveToBackHolds(l, sh.st.lru, call.id);
    case Expired(call) => SecondHolds(p, sh, call, l);
    case Revalidated(call, ref) => TouchList(p, sh, call.id, ref);
    case Pushing(call, ref) =>
      if call.AppendCall? && call.encrypted.Some? {
        PushList(sh, call.id, ref, call.encrypted.value);
      }
    case Done(_, _) =>
  }

  lemma StepHolds(p: Policy, s: Sys, a: Action, l: L.Links)
    requires L.Holds(l, s.sh.st.lru) && IndexOk(s.sh.st)
    ensures L.Holds(LinksStep(p, s, a, l), MemorySteps.Step(p, s, a).sh.st.lru)
  {
    match a
    case Continue(t) => ProceedHolds(p, s.sh, s.At(t), l);
    case RegisterNow(id, q) => RegisterHolds(p, s.sh, id, q, l);
    case DeleteNow(id, secret) => DeleteHolds(s.sh, id, secret, l);
    case DrainNow(id, ref) => DrainList(s.sh, id, ref);
    case Begin(_, _) =>
    case Finish(_) =>
    case Tick(_) =>
  }

  lemma {:induction false} AlwaysHolds(p: Policy, now: int, acts: seq<Action>)
    requires AllProper(acts) && p.capacity > 0 && now < MAX_INT64
    ensures L.Holds(LinksAfter(p, Start(now), acts, L.Links([], map[], 0)), After(p, Start(now), acts).sh.st.lru)
    ensures Inv(p, After(p, Start(now), acts))
  {
    EmptyOk(p, None);
    AlwaysInv(p, Start(now), acts);
    if acts != [] {
      var init := acts[..|acts| - 1];
      assert forall i :: 0 <= i < |init| ==> init[i] == acts[i];
      AlwaysHolds(p, now, init);
      StepHolds(p, After(p, Start(now), init), acts[|acts| - 1], LinksAfter(p, Start(now), init, L.Links([], map[], 0)));
    }
  }

  /** From an empty store, in every state any interleaving reaches: map, list and
      index hold the same ids, no element is in the list twice, every index entry
      leads to the element of the list that carries its id, the capacity holds,
      and every session created is registered, evicted or deleted. */
  lemma IndexAlways(p: Policy, now: int, acts: seq<Action>)
    requires AllProper(acts) && p.capacity > 0 && now < MAX_INT64
    ensures var sh := After(p, Start(now), acts).sh;
            var l := LinksAfter(p, Start(now), acts, L.Links([], map[], 0));
            && L.Ids(l.list) == sh.st.lru && NoDup(l.list) && NoDup(sh.st.lru)
            && l.index.Keys == sh.st.sessions.Keys && (forall id :: id in sh.st.lru <==> id in sh.st.sessions)
            && (forall id :: id in l.index ==> l.index[id] in l.list && l.index[id].correlationID == id)
            && |sh.st.sessions| <= p.capacity
            && sh.st.total == |sh.st.sessions| + sh.st.evictions + sh.deletes
  {
    AlwaysHolds(p, now, acts);
    var sh := After(p, Start(now), acts).sh;
    var l := LinksAfter(p, Start(now), acts, L.Links([], map[], 0));
    L.DistinctElements(l, sh.st.lru);
    forall id ensures id in l.index <==> id in sh.st.sessions {
      L.IndexedIds(l.list, l.index, id);
    }
  }
}
