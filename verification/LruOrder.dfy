/** How close the bounded-probe eviction comes to true least-recently-used. */
module LruOrder {
  import opened Prelude
  import opened Store
  import opened StoreRuns
  import opened StoreInvariants

  /** History of a run: when each id was last moved to the back of the list,
      and which had an interaction appended since. */
  datatype Hist = Hist(promoted: map<Id, int>, appended: set<Id>)

  function Moved(h: Hist, id: Id, now: int): Hist {
    Hist(h.promoted[id := now], h.appended - {id})
  }

  function HistStep(p: Policy, st: Store, h: Hist, e: Event): Hist {
    var r := Step(p, st, e).1;
    if r.Registered? || r.Polled? then Moved(h, e.op.id, e.now)
    else if r.Appended? && e.op.id in st.sessions then h.(appended := h.appended + {e.op.id})
    else h
  }

  function HistRun(p: Policy, st: Store, h: Hist, es: seq<Event>): Hist
    decreases es
  {
    if es == [] then h else HistRun(p, Step(p, st, es[0]).0, HistStep(p, st, h, es[0]), es[1..])
  }

  ghost predicate Sorted(lru: seq<Id>, promoted: map<Id, int>) {
    && (forall i :: 0 <= i < |lru| ==> lru[i] in promoted)
    && (forall i, j :: 0 <= i < j < |lru| ==> promoted[lru[i]] <= promoted[lru[j]])
  }

  /** Under sliding expiry a session's lastAccess is never older than its place
      in the list, and equals it unless something was appended. */
  ghost predicate HistOk(sessions: map<Id, SessionState>, lru: seq<Id>, h: Hist, now: int) {
    && (forall id :: id in lru <==> id in sessions)
    && Sorted(lru, h.promoted)
    && (forall id :: id in h.promoted ==> h.promoted[id] <= now)
    && forall id :: id in sessions ==>
         && id in h.promoted
         && h.promoted[id] <= sessions[id].lastAccess <= now
         && (id !in h.appended ==> sessions[id].lastAccess == h.promoted[id])
  }

  lemma {:induction false} SortedWithout(lru: seq<Id>, promoted: map<Id, int>, id: Id)
    requires Sorted(lru, promoted)
    ensures Sorted(Without(lru, id), promoted)
  {
    if lru != [] {
      var rest := lru[1..];
      assert forall i :: 0 <= i < |rest| ==> rest[i] == lru[i + 1];
      SortedWithout(rest, promoted, id);
      var tail := Without(rest, id);
      if lru[0] == id {
        assert Without(lru, id) == tail;
      } else {
        assert Without(lru, id) == [lru[0]] + tail;
        forall j | 0 <= j < |tail| ensures promoted[lru[0]] <= promoted[tail[j]] {
          FilterElements((x: Id) => x != id, rest, tail[j]);
          var k :| 0 <= k < |rest| && rest[k] == tail[j];
          assert lru[k + 1] == tail[j];
        }
      }
    }
  }

  /** The back of the list is the place for the newest time. */
  lemma SortedBack(lru: seq<Id>, promoted: map<Id, int>, id: Id, now: int)
    requires Sorted(lru, promoted) && id !in lru
    requires forall x :: x in promoted ==> promoted[x] <= now
    ensures Sorted(lru + [id], promoted[id := now])
  {
  }

  lemma WithoutElements(lru: seq<Id>, id: Id)
    ensures forall x :: x in Without(lru, id) <==> x in lru && x != id
  {
    forall x ensures x in Without(lru, id) <==> x in lru && x != id {
      FilterElements((y: Id) => y != id, lru, x);
    }
  }

  lemma RemoveHist(sessions: map<Id, SessionState>, lru: seq<Id>, h: Hist, id: Id, now: int)
    requires HistOk(sessions, lru, h, now)
    ensures HistOk(sessions - {id}, Without(lru, id), h, now)
  {
    WithoutElements(lru, id);
    SortedWithout(lru, h.promoted, id);
  }

  lemma HitHist(p: Policy, st: Store, h: Hist, id: Id, now: int)
    requires HistOk(st.sessions, st.lru, h, now) && id in st.sessions && p.slidingTTL
    ensures var st' := Hit(p, st, id, now);
            HistOk(st'.sessions, st'.lru, Moved(h, id, now), now)
  {
    WithoutElements(st.lru, id);
    SortedWithout(st.lru, h.promoted, id);
    SortedBack(Without(st.lru, id), h.promoted, id, now);
  }

  lemma InsertHist(sessions: map<Id, SessionState>, lru: seq<Id>, h: Hist, id: Id, s: SessionState, now: int)
    requires HistOk(sessions, lru, h, now) && id !in sessions && s.lastAccess == now
    ensures HistOk(sessions[id := s], lru + [id], Moved(h, id, now), now)
  {
    SortedBack(lru, h.promoted, id, now);
  }

  lemma AddHist(st: Store, h: Hist, id: Id, q: Request, now: int)
    requires HistOk(st.sessions, st.lru, h, now) && id !in st.sessions
    ensures var (st', r) := Add(st, id, q, now);
            HistOk(st'.sessions, st'.lru, if r.Registered? then Moved(h, id, now) else h, now)
  {
    if q.aesKey.Some? {
      InsertHist(st.sessions, st.lru, h, id, SessionState(q.publicKey, q.aesKey.value, q.secret, q.response, now, now, []), now);
    }
  }

  lemma MakeRoomHist(p: Policy, st: Store, h: Hist, now: int)
    requires HistOk(st.sessions, st.lru, h, now)
    ensures var room := MakeRoom(p, st); HistOk(room.sessions, room.lru, h, now) && room.sessions.Keys <= st.sessions.Keys
  {
    RemoveHist(st.sessions, st.lru, h, Victim(st), now);
  }

  lemma RegisterNewHist(p: Policy, st: Store, h: Hist, id: Id, q: Request, now: int)
    requires HistOk(st.sessions, st.lru, h, now) && id !in st.sessions
    ensures var (st', r) := RegisterNew(p, st, id, q, now);
            HistOk(st'.sessions, st'.lru, if r.Registered? then Moved(h, id, now) else h, now)
  {
    var missed := Missed(st);
    MakeRoomHist(p, missed, h, now);
    AddHist(MakeRoom(p, missed), h, id, q, now);
  }

  lemma RegisterHist(p: Policy, st: Store, h: Hist, id: Id, q: Request, now: int)
    requires HistOk(st.sessions, st.lru, h, now) && p.slidingTTL
    ensures var (st', r) := Register(p, st, id, q, now);
            HistOk(st'.sessions, st'.lru, if r.Registered? then Moved(h, id, now) else h, now)
  {
    if id !in st.sessions {
      RegisterNewHist(p, st, h, id, q, now);
    } else if IsExpired(p, st.sessions[id], now) {
      RemoveHist(st.sessions, st.lru, h, id, now);
      RegisterNewHist(p, Evicted(st, id), h, id, q, now);
    } else {
      HitHist(p, st, h, id, now);
    }
  }

  lemma PollHist(p: Policy, st: Store, h: Hist, e: Event)
    requires HistOk(st.sessions, st.lru, h, e.now) && p.slidingTTL && e.op.PollOp?
    ensures var st' := Step(p, st, e).0; HistOk(st'.sessions, st'.lru, HistStep(p, st, h, e), e.now)
  {
    var id, now := e.op.id, e.now;
    var (got, r) := GetSession(p, st, id, e.op.secret, now);
    if r.Polled? {
      HitHist(p, st, h, id, now);
      DrainHist(got, Moved(h, id, now), id, now);
    } else {
      RemoveHist(st.sessions, st.lru, h, id, now);
    }
  }

  lemma DrainHist(st: Store, h: Hist, id: Id, now: int)
    requires HistOk(st.sessions, st.lru, h, now)
    ensures HistOk(Drain(st, id).0.sessions, Drain(st, id).0.lru, h, now)
  {
  }

  lemma AppendEffect(p: Policy, st: Store, id: Id, encrypted: Option<Bytes>, now: int)
    ensures var (st', r) := Append(p, st, id, encrypted, now);
            && r == Appended && st'.lru == st.lru && st'.sessions.Keys == st.sessions.Keys
            && (forall x :: x in st.sessions && x != id ==> st'.sessions[x] == st.sessions[x])
            && (id in st.sessions ==> st'.sessions[id].lastAccess in {now, st.sessions[id].lastAccess})
  {
  }

  lemma TimesHist(sessions: map<Id, SessionState>, sessions': map<Id, SessionState>, lru: seq<Id>, h: Hist, id: Id, now: int)
    requires HistOk(sessions, lru, h, now) && sessions'.Keys == sessions.Keys
    requires forall x :: x in sessions && x != id ==> sessions'[x] == sessions[x]
    requires id in sessions ==> sessions'[id].lastAccess in {now, sessions[id].lastAccess}
    ensures HistOk(sessions', lru, if id in sessions then h.(appended := h.appended + {id}) else h, now)
  {
  }

  lemma AppendHist(p: Policy, st: Store, h: Hist, e: Event)
    requires HistOk(st.sessions, st.lru, h, e.now) && p.slidingTTL && e.op.AppendOp?
    ensures var st' := Step(p, st, e).0; HistOk(st'.sessions, st'.lru, HistStep(p, st, h, e), e.now)
  {
    AppendEffect(p, st, e.op.id, e.op.encrypted, e.now);
    TimesHist(st.sessions, Step(p, st, e).0.sessions, st.lru, h, e.op.id, e.now);
  }

  lemma StepHist(p: Policy, st: Store, h: Hist, e: Event, now: int)
    requires HistOk(st.sessions, st.lru, h, now) && now <= e.now && p.slidingTTL
    ensures var st' := Step(p, st, e).0; HistOk(st'.sessions, st'.lru, HistStep(p, st, h, e), e.now)
  {
    assert HistOk(st.sessions, st.lru, h, e.now);
    match e.op
    case RegisterOp(id, q) =>
      RegisterResult(p, st, id, q, e.now);
      RegisterHist(p, st, h, id, q, e.now);
    case PollOp(_, _) => PollHist(p, st, h, e);
    case AppendOp(_, _) => AppendHist(p, st, h, e);
    case DeleteOp(_, _) => ShrinkHist(p, st, h, e);
    case HasOp(_) => ShrinkHist(p, st, h, e);
    case ResponseOp(_) =>
  }

  lemma RegisterResult(p: Policy, st: Store, id: Id, q: Request, now: int)
    ensures var r := Register(p, st, id, q, now).1; !r.Polled? && !r.Appended?
  {
  }

  lemma ShrinkHist(p: Policy, st: Store, h: Hist, e: Event)
    requires HistOk(st.sessions, st.lru, h, e.now) && (e.op.DeleteOp? || e.op.HasOp?)
    ensures var st' := Step(p, st, e).0; HistOk(st'.sessions, st'.lru, HistStep(p, st, h, e), e.now)
  {
    RemoveHist(st.sessions, st.lru, h, e.op.id, e.now);
  }

  function End(now: int, es: seq<Event>): int {
    if es == [] then now else es[|es| - 1].now
  }

  lemma {:induction false} RunHist(p: Policy, st: Store, h: Hist, es: seq<Event>, now: int)
    requires HistOk(st.sessions, st.lru, h, now) && p.slidingTTL && NonDecreasing(now, es)
    ensures var end := Run(p, st, es).0; HistOk(end.sessions, end.lru, HistRun(p, st, h, es), End(now, es))
    decreases es
  {
    if es != [] {
      StepHist(p, st, h, es[0], now);
      RunHist(p, Step(p, st, es[0]).0, HistStep(p, st, h, es[0]), es[1..], es[0].now);
      assert End(now, es) == End(es[0].now, es[1..]);
    }
  }

  ghost predicate GlobalMinimum(st: Store, v: Id) {
    v in st.sessions && forall x :: x in st.sessions ==> st.sessions[v].lastAccess <= st.sessions[x].lastAccess
  }

  /** The evicted session is a least recently used one exactly when one such
      session lies among the first eight list entries. */
  lemma ExactIffInWindow(st: Store)
    requires IndexOk(st) && Probeable(st) && st.sessions != map[]
    ensures GlobalMinimum(st, Victim(st)) <==> exists x :: x in ProbeWindow(st.lru) && GlobalMinimum(st, x)
  {
    VictimIsLeastProbed(st);
    var ids, v := ProbeWindow(st.lru), Victim(st);
    var k: nat :| LeastAt(st.sessions, ids, k) && ids[k] == v;
    assert v in ids;
    if x :| x in ids && GlobalMinimum(st, x) {
      var j :| 0 <= j < |ids| && ids[j] == x;
      assert st.sessions[v].lastAccess <= st.sessions[ids[j]].lastAccess;
    }
  }

  /** In every state a run under sliding expiry reaches: if one of the first
      eight list entries had no append since its last promotion, the session
      that eviction removes is a least recently used one. */
  lemma EvictionIsExact(p: Policy, es: seq<Event>, db: Option<map<Id, Bytes>>, now: int, x: Id)
    requires p.slidingTTL && p.capacity > 0 && NonDecreasing(now, es)
    requires db.Some? ==> db.value == map[]
    requires forall i :: 0 <= i < |es| ==> Proper(es[i])
    requires var st := Run(p, Empty(db), es).0;
             x in ProbeWindow(st.lru) && x !in HistRun(p, Empty(db), Hist(map[], {}), es).appended
    ensures var st := Run(p, Empty(db), es).0;
            GlobalMinimum(st, Victim(st)) && EvictLRU(st).sessions == st.sessions - {Victim(st)}
  {
    var st, h := Run(p, Empty(db), es).0, HistRun(p, Empty(db), Hist(map[], {}), es);
    RunHist(p, Empty(db), Hist(map[], {}), es, now);
    EmptyOk(p, db);
    RunOk(p, Empty(db), es, 0);
    var i :| 0 <= i < |ProbeWindow(st.lru)| && ProbeWindow(st.lru)[i] == x;
    assert st.lru[i] == x && x in st.lru;
    VictimIsLeastProbed(st);
    FreshInWindow(st, h, End(now, es), i);
  }

  /** Entries behind the window were promoted later than a fresh one in it. */
  lemma FreshInWindow(st: Store, h: Hist, now: int, i: nat)
    requires HistOk(st.sessions, st.lru, h, now) && IndexOk(st) && Probeable(st) && st.sessions != map[]
    requires i < |ProbeWindow(st.lru)| && st.lru[i] !in h.appended
    ensures GlobalMinimum(st, Victim(st))
  {
    VictimIsLeastProbed(st);
    var ids, v, x := ProbeWindow(st.lru), Victim(st), st.lru[i];
    var k: nat :| LeastAt(st.sessions, ids, k) && ids[k] == v;
    assert ids[i] == x && x in st.lru;
    forall y | y in st.sessions ensures st.sessions[v].lastAccess <= st.sessions[y].lastAccess {
      assert y in st.lru;
      var j :| 0 <= j < |st.lru| && st.lru[j] == y;
      if j < |ids| {
        assert ids[j] == y;
      } else {
        assert h.promoted[x] <= h.promoted[y];
        assert st.sessions[v].lastAccess <= st.sessions[ids[i]].lastAccess;
      }
    }
  }

  // Appends can hide the least recently used session from the window

  function Name(i: nat): Id {
    seq(i + 1, _ => 'a')
  }

  function Names(n: nat): (ids: seq<Id>)
    ensures |ids| == n && forall i :: 0 <= i < n ==> ids[i] == Name(i)
  {
    seq(n, i requires 0 <= i => Name(i))
  }

  lemma NamesDistinct(n: nat, i: nat)
    requires i <= n
    ensures Name(n) !in Names(i)
  {
    assert |Name(n)| == n + 1 && forall j :: 0 <= j < i ==> |Name(j)| == j + 1;
  }

  /** The names of `n` sessions registered one after the other, of which the
      first `m` were touched at 100. */
  ghost predicate Lined(st: Store, n: nat, m: nat) {
    && st.lru == Names(n) && st.db.None? && |st.sessions| == n
    && (forall id :: id in st.sessions <==> id in st.lru)
    && forall i :: 0 <= i < n ==> Name(i) in st.sessions && st.sessions[Name(i)].lastAccess == if i < m then 100 else i
  }

  /** The run: each session is registered at its number's instant, then all but
      the last have an interaction appended. */
  function Registering(q: Request, n: nat): seq<Event> {
    if n == 0 then [] else Registering(q, n - 1) + [Event(n - 1, RegisterOp(Name(n - 1), q))]
  }

  function Appending(e: Bytes, m: nat): seq<Event> {
    if m == 0 then [] else Appending(e, m - 1) + [Event(100, AppendOp(Name(m - 1), Some(e)))]
  }

  lemma AddLined(st: Store, q: Request, n: nat)
    requires q.aesKey.Some? && Lined(st, n, 0)
    ensures Lined(Insert(st, Name(n), SessionState(q.publicKey, q.aesKey.value, q.secret, q.response, n, n, [])), n + 1, 0)
  {
    NamesDistinct(n, n);
    var st' := Insert(st, Name(n), SessionState(q.publicKey, q.aesKey.value, q.secret, q.response, n, n, []));
    assert Names(n + 1) == Names(n) + [Name(n)];
    assert st'.sessions.Keys == st.sessions.Keys + {Name(n)};
  }

  lemma RegisterLined(p: Policy, st: Store, q: Request, n: nat)
    requires q.aesKey.Some? && Lined(st, n, 0) && n < p.capacity
    ensures Lined(Step(p, st, Event(n, RegisterOp(Name(n), q))).0, n + 1, 0)
  {
    NamesDistinct(n, n);
    AddLined(Missed(st), q, n);
  }

  lemma {:induction false} RegisteringLined(p: Policy, q: Request, n: nat)
    requires q.aesKey.Some? && n <= p.capacity
    ensures Lined(Run(p, Empty(None), Registering(q, n)).0, n, 0)
  {
    if n > 0 {
      RegisteringLined(p, q, n - 1);
      RunSnoc(p, Empty(None), Registering(q, n - 1), Event(n - 1, RegisterOp(Name(n - 1), q)));
      RegisterLined(p, Run(p, Empty(None), Registering(q, n - 1)).0, q, n - 1);
    }
  }

  lemma AppendLined(p: Policy, st: Store, n: nat, m: nat, e: Bytes)
    requires p.slidingTTL && m < n && Lined(st, n, m)
    ensures Lined(Step(p, st, Event(100, AppendOp(Name(m), Some(e)))).0, n, m + 1)
  {
    var st' := Append(p, st, Name(m), Some(e), 100).0;
    assert Name(m) in st.sessions && st'.sessions.Keys == st.sessions.Keys;
    forall i | 0 <= i < n
      ensures Name(i) in st'.sessions && st'.sessions[Name(i)].lastAccess == if i < m + 1 then 100 else i
    {
      assert |Name(i)| == i + 1 && |Name(m)| == m + 1;
    }
    assert |st'.sessions| == |st'.sessions.Keys| == |st.sessions.Keys|;
  }

  lemma {:induction false} AppendingLined(p: Policy, st: Store, n: nat, m: nat, e: Bytes)
    requires p.slidingTTL && m <= n && Lined(st, n, 0)
    ensures Lined(Run(p, st, Appending(e, m)).0, n, m)
  {
    if m > 0 {
      AppendingLined(p, st, n, m - 1, e);
      RunSnoc(p, st, Appending(e, m - 1), Event(100, AppendOp(Name(m - 1), Some(e))));
      AppendLined(p, Run(p, st, Appending(e, m - 1)).0, n, m - 1, e);
    }
  }

  /** A run from the empty store after which eviction removes a session used at
      100 while another was last used at 8: nine sessions, the first eight
      appended to. */
  lemma InexactEviction(q: Request, e: Bytes)
    requires q.aesKey.Some?
    ensures var p := Policy(1000, false, true, 9);
            var st := Run(p, Empty(None), Registering(q, 9) + Appending(e, 8)).0;
            && Victim(st) in st.sessions && EvictLRU(st).sessions == st.sessions - {Victim(st)}
            && st.sessions[Victim(st)].lastAccess == 100 && Name(8) in st.sessions && st.sessions[Name(8)].lastAccess == 8
            && !GlobalMinimum(st, Victim(st))
  {
    var p := Policy(1000, false, true, 9);
    RegisteringLined(p, q, 9);
    RunConcat(p, Empty(None), Registering(q, 9), Appending(e, 8));
    var st := Run(p, Empty(None), Registering(q, 9) + Appending(e, 8)).0;
    AppendingLined(p, Run(p, Empty(None), Registering(q, 9)).0, 9, 8, e);
    LinedVictim(st);
    assert Name(8) in st.sessions;
  }

  lemma LinedVictim(st: Store)
    requires Lined(st, 9, 8)
    ensures Victim(st) in st.sessions && Victim(st) != "" && st.sessions[Victim(st)].lastAccess == 100
  {
    var ids := ProbeWindow(st.lru);
    assert forall i :: 0 <= i < 8 ==> ids[i] == Name(i) && ids[i] in st.sessions;
    ProbeLeast(st.sessions, ids, "", MAX_INT64);
    assert Name(0) in st.sessions;
    assert forall id :: id in st.lru ==> id != "";
  }
}
