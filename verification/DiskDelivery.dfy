/** What the interleavings of the disk backend deliver, and to whom. */
module DiskDelivery {
  import opened Prelude
  import opened RecordCodec
  import opened DiskSteps
  import opened DiskInvariants

  /** Whenever no writer is inside, the database has no key that is not
      registered, and every record under a key was appended to the session
      registered there now, never to a predecessor; stale handles included. */
  lemma RecordsBelongToTheirSession(acts: seq<Action>)
    requires After(Start(), acts).sh.writer.None?
    ensures var sh := After(Start(), acts).sh;
            && sh.db.Keys <= sh.sessions.Keys
            && forall id, i :: id in sh.db && 0 <= i < |sh.db[id]| ==> sh.db[id][i].owner == sh.sessions[id]
  {
    AlwaysInv(acts);
    var sh := After(Start(), acts).sh;
    forall id | id in sh.db ensures id in sh.sessions && OwnedBy(sh.db[id], sh.sessions[id]) {
      var ref :| Owns(sh, id, ref) && OwnedBy(sh.db[id], ref);
    }
  }

  /** The record lists stand for the stored bytes: a put appends one encoded
      record, and decoding gives the payloads back if and only if they fit. */
  lemma RecordsAreBytes(existing: seq<Rec>, r: Rec)
    ensures EncodeAll(Payloads(existing + [r])) == EncodeAll(Payloads(existing)) + EncodeRecord(r.payload)
    ensures Parse(EncodeAll(Payloads(existing))) == Payloads(existing) <==> forall p :: p in Payloads(existing) ==> Fits(p)
  {
    PayloadsAppend(existing, r);
    EncodeAllAppend(Payloads(existing), r.payload);
    RoundTrip(Payloads(existing));
  }

  // In-order delivery while the session stays registered

  /** If this step is the database read of a drain under `id`, then the
      handle's session is the one registered. */
  predicate Timely(s: Sys, a: Action, id: Id) {
    var th := s.At(a.t);
    th.DrainLocked? && a.move.Next? && th.ref < |s.sh.names| && s.sh.names[th.ref] == id ==> Registered(s.sh, id, th.ref)
  }

  /** Every drain under `id` is timely; drains under other ids are free. */
  predicate TimelyRun(acts: seq<Action>, id: Id) {
    acts == [] ||
    (TimelyRun(acts[..|acts| - 1], id) && Timely(After(Start(), acts[..|acts| - 1]), acts[|acts| - 1], id))
  }

  ghost predicate ReadOwn(sh: Shared, th: Thread, id: Id) {
    th.DrainRead? ==> th.ref < |sh.names| && (sh.names[th.ref] == id ==> Owns(sh, id, th.ref))
  }

  ghost predicate NoneTainted(sh: Shared, id: Id) {
    forall ref :: ref in sh.tainted ==> ref < |sh.names| && sh.names[ref] != id
  }

  ghost predicate Untouched(s: Sys, id: Id) {
    NoneTainted(s.sh, id) && forall t :: ReadOwn(s.sh, s.At(t), id)
  }

  /** Only the removal hook ends an ownership, and it waits for the drain. */
  lemma ReadOwnOther(sh: Shared, t: Tid, th: Thread, u: Tid, other: Thread, id: Id)
    requires t != u && LocksOk(sh, t, th) && DataOk(sh, th) && LocksOk(sh, u, other) && ReadOwn(sh, other, id)
    ensures ReadOwn(Proceed(sh, t, th).0, other, id)
  {
    if th.HookLocked? {
      NotBothHold(sh, t, th, u, other);
      ReadOwnHook(sh, th.id, th.ref, other, id);
    } else {
      ReadOwnQuiet(sh, t, th, other, id);
    }
  }

  lemma ReadOwnQuiet(sh: Shared, t: Tid, th: Thread, other: Thread, id: Id)
    requires !th.HookLocked? && (th.Cleaned? ==> th.id !in sh.sessions) && ReadOwn(sh, other, id)
    ensures ReadOwn(Proceed(sh, t, th).0, other, id)
  {
    if th.Cleaned? {
      ReadOwnInsert(sh, th.id, other, id);
    } else {
      ReadOwnSame(sh, Proceed(sh, t, th).0, other, id);
    }
  }

  lemma ReadOwnHook(sh: Shared, x: Id, r: Ref, other: Thread, id: Id)
    requires sh.removing == map[x := r] && Holding(other) != Some(r) && ReadOwn(sh, other, id)
    ensures ReadOwn(HookDelete(sh, x), other, id)
  {
  }

  lemma ReadOwnInsert(sh: Shared, x: Id, other: Thread, id: Id)
    requires x !in sh.sessions && ReadOwn(sh, other, id)
    ensures ReadOwn(Insert(sh, x), other, id)
  {
  }

  lemma ReadOwnSame(sh: Shared, sh': Shared, other: Thread, id: Id)
    requires sh'.sessions == sh.sessions && sh'.removing == sh.removing && sh'.names == sh.names && ReadOwn(sh, other, id)
    ensures ReadOwn(sh', other, id)
  {
  }

  lemma ReadOwnWrite(sh: Shared, t: Tid, move: Move, other: Thread, id: Id)
    requires ReadOwn(sh, other, id) && sh.removing == map[]
    ensures ReadOwn(Write(sh, t, move).0, other, id)
  {
  }

  lemma ReadOwnBegin(sh: Shared, t: Tid, move: Move, other: Thread, id: Id)
    requires ReadOwn(sh, other, id)
    ensures ReadOwn(Begin(sh, t, move).0, other, id)
  {
  }

  lemma TakeUntainted(sh: Shared, ref: Ref, data: seq<Rec>, id: Id)
    requires NamesOk(sh) && NoneTainted(sh, id) && ReadOwn(sh, DrainRead(ref, data), id)
    ensures NoneTainted(Take(sh, ref, data), id)
  {
  }

  lemma UntaintedStep(s: Sys, a: Action, id: Id)
    requires NamesOk(s.sh) && NoneTainted(s.sh, id) && ReadOwn(s.sh, s.At(a.t), id) && DataOk(s.sh, s.At(a.t))
    ensures NoneTainted(Step(s, a).sh, id)
  {
    var th := s.At(a.t);
    if th.Idle? {
      BeginUntainted(s.sh, a.t, a.move, id);
    } else if th.Writing? {
      WriteUntainted(s.sh, a.t, a.move, id);
    } else if a.move.Next? {
      ProceedUntainted(s.sh, a.t, th, id);
    }
  }

  lemma ProceedUntainted(sh: Shared, t: Tid, th: Thread, id: Id)
    requires NamesOk(sh) && NoneTainted(sh, id) && ReadOwn(sh, th, id)
    ensures NoneTainted(Proceed(sh, t, th).0, id)
  {
    match th
    case DrainRead(ref, data) => TakeUntainted(sh, ref, data, id);
    case Cleaned(x) => StaysUntainted(sh, Insert(sh, x), id);
    case _ =>
  }

  lemma BeginUntainted(sh: Shared, t: Tid, move: Move, id: Id)
    requires NoneTainted(sh, id)
    ensures NoneTainted(Begin(sh, t, move).0, id)
  {
  }

  lemma WriteUntainted(sh: Shared, t: Tid, move: Move, id: Id)
    requires NoneTainted(sh, id)
    ensures NoneTainted(Write(sh, t, move).0, id)
  {
  }

  lemma StaysUntainted(sh: Shared, sh': Shared, id: Id)
    requires NoneTainted(sh, id) && sh'.tainted == sh.tainted && sh.names <= sh'.names
    ensures NoneTainted(sh', id)
  {
    assert forall i :: 0 <= i < |sh.names| ==> sh'.names[i] == sh.names[i];
  }

  lemma UntouchedStep(s: Sys, a: Action, id: Id)
    requires Inv(s) && Untouched(s, id) && Timely(s, a, id)
    ensures Untouched(Step(s, a), id)
  {
    var s', th := Step(s, a), s.At(a.t);
    assert LocksOk(s.sh, a.t, th) && DataOk(s.sh, th) && ReadOwn(s.sh, th, id);
    UntaintedStep(s, a, id);
    UntouchedOwn(s, a, id);
    forall u ensures ReadOwn(s'.sh, s'.At(u), id) {
      if u != a.t {
        UntouchedOther(s, a, u, id);
      }
    }
  }

  lemma UntouchedOwn(s: Sys, a: Action, id: Id)
    requires Timely(s, a, id) && ReadOwn(s.sh, s.At(a.t), id) && DataOk(s.sh, s.At(a.t))
    ensures ReadOwn(Step(s, a).sh, Step(s, a).At(a.t), id)
  {
  }

  lemma UntouchedOther(s: Sys, a: Action, u: Tid, id: Id)
    requires Inv(s) && Untouched(s, id) && u != a.t
    ensures ReadOwn(Step(s, a).sh, s.At(u), id)
  {
    var th, other := s.At(a.t), s.At(u);
    assert LocksOk(s.sh, a.t, th) && DataOk(s.sh, th) && LocksOk(s.sh, u, other) && ReadOwn(s.sh, other, id);
    if th.Idle? {
      ReadOwnBegin(s.sh, a.t, a.move, other, id);
    } else if th.Writing? {
      ReadOwnWrite(s.sh, a.t, a.move, other, id);
    } else {
      ReadOwnOther(s.sh, a.t, th, u, other, id);
    }
  }

  lemma {:induction false} TimelyUntouched(acts: seq<Action>, id: Id)
    requires TimelyRun(acts, id)
    ensures Untouched(After(Start(), acts), id)
  {
    if acts != [] {
      var init := acts[..|acts| - 1];
      TimelyUntouched(init, id);
      AlwaysInv(init);
      UntouchedStep(After(Start(), init), acts[|acts| - 1], id);
    }
  }

  /** Exactly-once delivery in order, id by id: when the handles of one id are
      used while their session is registered, whatever other clients do, then
      what the registered session's handles drained followed by what is stored
      is the order of appending; and no session ever registered under that id
      delivers anything else than a prefix of it. */
  lemma DeliveredInOrder(acts: seq<Action>, id: Id, ref: Ref)
    requires TimelyRun(acts, id)
    ensures var sh := After(Start(), acts).sh;
            && (ref < |sh.names| && sh.names[ref] == id ==> Under(sh.drained, ref) <= Under(sh.appended, ref))
            && (Registered(sh, id, ref) ==>
                  Under(sh.drained, ref) + Payloads(Under(sh.db, id)) == Under(sh.appended, ref))
  {
    TimelyUntouched(acts, id);
    AlwaysInv(acts);
    var sh := After(Start(), acts).sh;
    if Registered(sh, id, ref) {
      assert Owns(sh, id, ref) && sh.names[ref] == id && Balanced(sh, id, ref);
    }
  }

  // Stale handles

  /** A drain through another session's handle breaks the delivery of the
      registered session exactly when there is something to take. */
  lemma StaleTakeBreaksIff(sh: Shared, id: Id, r: Ref, ref: Ref, data: seq<Rec>)
    requires Registered(sh, id, r) && ref < |sh.names| && sh.names[ref] == id && ref != r && Balanced(sh, id, r)
    ensures Balanced(Take(sh, ref, data), id, r) <==> Under(sh.db, id) == []
  {
    var d, p := Under(sh.drained, r), Payloads(Under(sh.db, id));
    assert Under(Take(sh, ref, data).db, id) == [];
    assert |d + p| == |d| + |p|;
    if Under(sh.db, id) != [] {
      assert |p| > 0;
    }
  }
}
