/** What the store keeps of what a capture hands over. An append answers the
    same whether or not it stored anything, so the server counts matches, which
    need not be stored interactions. */
module CaptureStorage {
  import opened Prelude
  import opened RecordCodec
  import opened Capture
  import opened SmtpCaptureModel
  import opened SessionView
  import opened Matcher
  import S = Store

  /** The ciphertexts of those whose encryption succeeded, in order. */
  function Encrypted<C>(xs: seq<Interaction<C>>, w: World<C>): seq<Bytes> {
    if xs == [] then []
    else Encrypted(xs[..|xs| - 1], w) + Ciphertext(w(xs[|xs| - 1]))
  }

  function Ciphertext(a: Attempt): seq<Bytes> {
    if a.encrypted.Some? then [a.encrypted.value] else []
  }

  /** What the capture has for one session. */
  function PayloadsFor<C>(xs: seq<Interaction<C>>, w: World<C>, id: Text): seq<Bytes> {
    Encrypted(OfSession(xs, id), w)
  }

  lemma PayloadsForLast<C>(xs: seq<Interaction<C>>, w: World<C>, id: Text)
    requires xs != []
    ensures var init, x := xs[..|xs| - 1], xs[|xs| - 1];
            PayloadsFor(xs, w, id) == PayloadsFor(init, w, id) + if x.uniqueID == id then Ciphertext(w(x)) else []
  {
    var init, x := xs[..|xs| - 1], xs[|xs| - 1];
    assert xs == init + [x];
    OfSessionConcat(init, [x], id);
    OfSessionOne(x, id);
    var own := OfSession(init, id);
    if x.uniqueID == id {
      assert (own + [x])[..|own|] == own;
    } else {
      assert own + [] == own;
    }
  }

  // One append

  /** Appending to one id, as the session of any id sees it. */
  lemma AppendHolds(p: S.Policy, st: S.Store, other: Text, encrypted: Option<Bytes>, now: int, id: Text, held: seq<Bytes>)
    requires id in st.sessions && Holding(st, id, held)
    requires st.db.Some? && other == id && encrypted.Some? ==> Fits(encrypted.value)
    ensures var st' := S.Append(p, st, other, encrypted, now).0;
            id in st'.sessions && Holding(st', id, if other == id && encrypted.Some? then held + [encrypted.value] else held)
  {
    if other != id {
      AppendSame(p, st, other, encrypted, now, id);
    } else {
      var s := st.sessions[id];
      var q := S.Request(s.publicKey, s.secretKey, s.response, Some(s.aesKey));
      var v := View(s.lastAccess, held);
      assert Shows(st, id, q, s.createdAt, v);
      if encrypted.Some? {
        AppendShows(p, st, id, encrypted.value, q, s.createdAt, v, now);
      } else {
        FailedShows(p, st, id, q, s.createdAt, v, now);
      }
    }
  }

  lemma AppendKeys(p: S.Policy, st: S.Store, id: Text, encrypted: Option<Bytes>, now: int)
    ensures S.Append(p, st, id, encrypted, now).0.sessions.Keys == st.sessions.Keys
    ensures S.Append(p, st, id, encrypted, now).0.db.Some? == st.db.Some?
  {
  }

  /** How much is stored for `id`: interactions in memory, bytes on disk. */
  function Amount(st: S.Store, id: Text): nat {
    match st.db
    case None => if id in st.sessions then |st.sessions[id].interactions| else 0
    case Some(db) => |Under(db, id)|
  }

  /** An append stores something exactly when its session is registered and the
      encryption succeeded, and then for that session alone; whatever it does,
      the answer is the same. */
  lemma AppendStoresIff(p: S.Policy, st: S.Store, other: Text, encrypted: Option<Bytes>, now: int, id: Text)
    ensures var (st', r) := S.Append(p, st, other, encrypted, now);
            && r == S.Appended && Amount(st, id) <= Amount(st', id)
            && (Amount(st, id) < Amount(st', id) <==> id == other && id in st.sessions && encrypted.Some?)
  {
  }

  // A whole capture with nobody else at the store

  predicate Quiet<C>(xs: seq<Interaction<C>>, w: World<C>) {
    forall i :: 0 <= i < |xs| ==> w(xs[i]).others == []
  }

  /** The record format can hold what the capture has for `id`. */
  predicate Fitting<C>(xs: seq<Interaction<C>>, w: World<C>, id: Text) {
    forall i :: 0 <= i < |xs| && xs[i].uniqueID == id && w(xs[i]).encrypted.Some? ==> Fits(w(xs[i]).encrypted.value)
  }

  lemma LastQuiet<C>(p: S.Policy, st: S.Store, xs: seq<Interaction<C>>, w: World<C>)
    requires xs != [] && Quiet(xs, w)
    ensures var init, x := xs[..|xs| - 1], xs[|xs| - 1];
            && Quiet(init, w)
            && AppendAll(p, st, xs, w) ==
               S.Append(p, AppendAll(p, st, init, w), x.uniqueID, w(x).encrypted, w(x).now).0
  {
    var init, x := xs[..|xs| - 1], xs[|xs| - 1];
    assert xs == init + [x] && w(xs[|xs| - 1]).others == [];
    assert forall i :: 0 <= i < |init| ==> init[i] == xs[i];
    AppendAllConcat(p, st, init, [x], w);
    AppendOne(p, AppendAll(p, st, init, w), x, w);
  }

  lemma {:induction false} QuietKeys<C>(p: S.Policy, st: S.Store, xs: seq<Interaction<C>>, w: World<C>)
    requires Quiet(xs, w)
    ensures AppendAll(p, st, xs, w).sessions.Keys == st.sessions.Keys && AppendAll(p, st, xs, w).db.Some? == st.db.Some?
  {
    if xs != [] {
      var init, x := xs[..|xs| - 1], xs[|xs| - 1];
      LastQuiet(p, st, xs, w);
      QuietKeys(p, st, init, w);
      AppendKeys(p, AppendAll(p, st, init, w), x.uniqueID, w(x).encrypted, w(x).now);
    }
  }

  /** Every registered session gains exactly its own payloads, in order, those
      whose encryption succeeded. */
  lemma {:induction false} RegisteredGains<C>(p: S.Policy, st: S.Store, xs: seq<Interaction<C>>, w: World<C>, id: Text,
                                              held: seq<Bytes>)
    requires Quiet(xs, w) && id in st.sessions && Holding(st, id, held) && (st.db.Some? ==> Fitting(xs, w, id))
    ensures var st' := AppendAll(p, st, xs, w); id in st'.sessions && Holding(st', id, held + PayloadsFor(xs, w, id))
  {
    if xs == [] {
      assert held + [] == held;
    } else {
      var init, x := xs[..|xs| - 1], xs[|xs| - 1];
      LastQuiet(p, st, xs, w);
      assert forall i :: 0 <= i < |init| ==> init[i] == xs[i];
      RegisteredGains(p, st, init, w, id, held);
      QuietKeys(p, st, init, w);
      PayloadsForLast(xs, w, id);
      AppendHolds(p, AppendAll(p, st, init, w), x.uniqueID, w(x).encrypted, w(x).now, id, held + PayloadsFor(init, w, id));
      Grouped(held, PayloadsFor(init, w, id), if x.uniqueID == id then Ciphertext(w(x)) else []);
    }
  }

  lemma Grouped(a: seq<Bytes>, b: seq<Bytes>, c: seq<Bytes>)
    ensures a + (b + c) == a + b + c && a + b + [] == a + b
  {
  }

  /** Something is stored for `id` exactly when it is registered and one of its
      encryptions succeeded; an id that is not registered gains nothing. */
  lemma {:induction false} StoredForIff<C>(p: S.Policy, st: S.Store, xs: seq<Interaction<C>>, w: World<C>, id: Text)
    requires Quiet(xs, w)
    ensures var st' := AppendAll(p, st, xs, w);
            && Amount(st, id) <= Amount(st', id)
            && (Amount(st, id) < Amount(st', id) <==> id in st.sessions && PayloadsFor(xs, w, id) != [])
  {
    if xs != [] {
      var init, x := xs[..|xs| - 1], xs[|xs| - 1];
      LastQuiet(p, st, xs, w);
      StoredForIff(p, st, init, w, id);
      QuietKeys(p, st, init, w);
      PayloadsForLast(xs, w, id);
      AppendStoresIff(p, AppendAll(p, st, init, w), x.uniqueID, w(x).encrypted, w(x).now, id);
    }
  }

  // A capture among other clients

  /** What others append to `id` meanwhile, and what the capture has for it. */
  predicate Undisturbed<C>(xs: seq<Interaction<C>>, w: World<C>, id: Text) {
    forall i :: 0 <= i < |xs| ==> Captures(w(xs[i]).others, id) == []
  }

  lemma {:induction false} CapturesConcat(a: seq<S.Event>, b: seq<S.Event>, id: Text)
    ensures Captures(a + b, id) == Captures(a, id) + Captures(b, id)
  {
    if a == [] {
      assert a + b == b;
    } else {
      assert (a + b)[0] == a[0] && (a + b)[1..] == a[1..] + b;
      CapturesConcat(a[1..], b, id);
      Associate(CapturesHere(a[0], id), Captures(a[1..], id), Captures(b, id));
    }
  }

  lemma CapturesOne(e: S.Event, id: Text)
    ensures Captures([e], id) == CapturesHere(e, id)
  {
    assert [e][1..] == [] && Captures([e][1..], id) == [];
  }

  /** If nobody else captures for `id` meanwhile, what its session sees arrive
      are its own payloads. */
  lemma {:induction false} CapturesAreOwn<C>(xs: seq<Interaction<C>>, w: World<C>, id: Text)
    requires Undisturbed(xs, w, id)
    ensures Captures(EventsOf(xs, w), id) == PayloadsFor(xs, w, id)
  {
    if xs != [] {
      var init, x := xs[..|xs| - 1], xs[|xs| - 1];
      var e := S.Event(w(x).now, S.AppendOp(x.uniqueID, w(x).encrypted));
      assert forall i :: 0 <= i < |init| ==> init[i] == xs[i];
      CapturesAreOwn(init, w, id);
      CapturesConcat(EventsOf(init, w), w(x).others + [e], id);
      CapturesConcat(w(x).others, [e], id);
      CapturesOne(e, id);
      PayloadsForLast(xs, w, id);
      assert Captures(w(xs[|xs| - 1]).others, id) == [];
      assert [] + CapturesHere(e, id) == CapturesHere(e, id);
    }
  }

  /** Whatever else goes on at the store, a session that is used in time and
      not evicted holds after the capture what was captured for it meanwhile. */
  lemma SessionGains<C>(p: S.Policy, st: S.Store, xs: seq<Interaction<C>>, w: World<C>, id: Text, q: S.Request, t0: int, v: View)
    requires Shows(st, id, q, t0, v) && UsedInTime(p, t0, v, EventsOf(xs, w), id, q, st.db.Some?)
    requires Stays(p, st, EventsOf(xs, w), id) && Unpolled(EventsOf(xs, w), id)
    ensures var v' := ViewRun(p, v, EventsOf(xs, w), id, q, st.db.Some?);
            && Shows(AppendAll(p, st, xs, w), id, q, t0, v')
            && v'.pending == v.pending + Captures(EventsOf(xs, w), id)
            && (Undisturbed(xs, w, id) ==> v'.pending == v.pending + PayloadsFor(xs, w, id))
  {
    ShowsRun(p, st, EventsOf(xs, w), id, q, t0, v);
    PendingGrows(p, v, EventsOf(xs, w), id, q, st.db.Some?);
    if Undisturbed(xs, w, id) {
      CapturesAreOwn(xs, w, id);
    }
  }

  // What the handlers store

  /** A DNS or HTTP capture, with nobody else at the store: each registered
      session gains its own copy if it is matched and the encryption succeeds,
      and nothing otherwise. */
  lemma InteractionStored<C>(cfg: Config, matchInput: Text, scanInput: Text, x: Interaction<C>, lookup: Text -> bool,
                             p: S.Policy, st: S.Store, w: World<C>, id: Text, held: seq<Bytes>)
    requires var xs := CopiesOf(MatchesFor(cfg, matchInput, scanInput, lookup), x);
             Quiet(xs, w) && (st.db.Some? ==> Fitting(xs, w, id))
    requires id in st.sessions && Holding(st, id, held)
    ensures var st' := AppendAll(p, st, CopiesOf(MatchesFor(cfg, matchInput, scanInput, lookup), x), w);
            && id in st'.sessions
            && Holding(st', id, held + if id in MatchedIds(cfg, matchInput, scanInput, lookup)
                                       then Ciphertext(w(Interaction(id, FullIDOf(cfg, matchInput, scanInput, id), x.content)))
                                       else [])
  {
    RegisteredGains(p, st, CopiesOf(MatchesFor(cfg, matchInput, scanInput, lookup), x), w, id, held);
    CopyPayload(cfg, matchInput, scanInput, x, lookup, w, id);
  }

  lemma CopyPayload<C>(cfg: Config, matchInput: Text, scanInput: Text, x: Interaction<C>, lookup: Text -> bool, w: World<C>, id: Text)
    ensures PayloadsFor(CopiesOf(MatchesFor(cfg, matchInput, scanInput, lookup), x), w, id) ==
            if id in MatchedIds(cfg, matchInput, scanInput, lookup)
            then Ciphertext(w(Interaction(id, FullIDOf(cfg, matchInput, scanInput, id), x.content))) else []
  {
    CopyOfSession(cfg, matchInput, scanInput, x, lookup, id);
    var copy := Interaction(id, FullIDOf(cfg, matchInput, scanInput, id), x.content);
    assert [copy][..0] == [] && Encrypted([copy][..0], w) == [];
    assert Encrypted([copy], w) == [] + Ciphertext(w(copy)) == Ciphertext(w(copy));
  }

  /** One DATA, with nobody else at the store: each registered session gains one
      ciphertext per distinct recipient that matches its id, in recipient order,
      those whose encryption succeeded; the body is in the first alone. */
  lemma MessageStored(cfg: Config, registry: Registry, m: Message, recipients: seq<Text>, p: S.Policy, st: S.Store,
                      w: World<Mail>, cid: Text, held: seq<Bytes>)
    requires var xs := Records(cfg, registry, m, Dedup(recipients)); Quiet(xs, w) && (st.db.Some? ==> Fitting(xs, w, cid))
    requires cid in st.sessions && Holding(st, cid, held)
    ensures var st' := AppendAll(p, st, Records(cfg, registry, m, Dedup(recipients)), w);
            && cid in st'.sessions
            && Holding(st', cid, held + Encrypted(Copies(cfg, m, cid, Matching(cfg, registry, Dedup(recipients), cid)), w))
  {
    RegisteredGains(p, st, Records(cfg, registry, m, Dedup(recipients)), w, cid, held);
    PerSession(cfg, registry, m, Dedup(recipients), cid);
  }

  // What the match counter counts

  /** The store as the last of the appends finds it. */
  function BeforeLast<C>(p: S.Policy, st: S.Store, xs: seq<Interaction<C>>, w: World<C>): S.Store
    requires xs != []
  {
    S.Run(p, AppendAll(p, st, xs[..|xs| - 1], w), w(xs[|xs| - 1]).others).0
  }

  /** At one of the appends what is stored for some id grew. */
  ghost predicate SomethingStored<C>(p: S.Policy, st: S.Store, xs: seq<Interaction<C>>, w: World<C>) {
    xs != [] &&
    (SomethingStored(p, st, xs[..|xs| - 1], w) ||
     exists id :: Amount(BeforeLast(p, st, xs, w), id) < Amount(AppendAll(p, st, xs, w), id))
  }

  /** One of the appends found its session registered, and its encryption
      succeeded. */
  predicate SomeKept<C>(p: S.Policy, st: S.Store, xs: seq<Interaction<C>>, w: World<C>) {
    xs != [] &&
    (SomeKept(p, st, xs[..|xs| - 1], w) ||
     (xs[|xs| - 1].uniqueID in BeforeLast(p, st, xs, w).sessions && w(xs[|xs| - 1]).encrypted.Some?))
  }

  lemma LastAppend<C>(p: S.Policy, st: S.Store, xs: seq<Interaction<C>>, w: World<C>)
    requires xs != []
    ensures var x := xs[|xs| - 1];
            AppendAll(p, st, xs, w) == S.Append(p, BeforeLast(p, st, xs, w), x.uniqueID, w(x).encrypted, w(x).now).0
  {
    var init, x := xs[..|xs| - 1], xs[|xs| - 1];
    assert xs == init + [x];
    AppendAllConcat(p, st, init, [x], w);
    AppendOne(p, AppendAll(p, st, init, w), x, w);
  }

  lemma {:induction false} SomethingStoredIff<C>(p: S.Policy, st: S.Store, xs: seq<Interaction<C>>, w: World<C>)
    ensures SomethingStored(p, st, xs, w) <==> SomeKept(p, st, xs, w)
  {
    if xs != [] {
      var x := xs[|xs| - 1];
      SomethingStoredIff(p, st, xs[..|xs| - 1], w);
      LastAppend(p, st, xs, w);
      forall id
        ensures Amount(BeforeLast(p, st, xs, w), id) < Amount(AppendAll(p, st, xs, w), id) <==>
                id == x.uniqueID && id in BeforeLast(p, st, xs, w).sessions && w(x).encrypted.Some?
      {
        AppendStoresIff(p, BeforeLast(p, st, xs, w), x.uniqueID, w(x).encrypted, w(x).now, id);
      }
    }
  }

  /** With nobody else at the store the condition is one on its start. */
  lemma {:induction false} QuietKeptIff<C>(p: S.Policy, st: S.Store, xs: seq<Interaction<C>>, w: World<C>)
    requires Quiet(xs, w)
    ensures SomeKept(p, st, xs, w) <==>
            exists i :: 0 <= i < |xs| && xs[i].uniqueID in st.sessions && w(xs[i]).encrypted.Some?
  {
    if xs != [] {
      var init := xs[..|xs| - 1];
      LastQuiet(p, st, xs, w);
      QuietKeptIff(p, st, init, w);
      QuietKeys(p, st, init, w);
      assert w(xs[|xs| - 1]).others == [];
      assert forall i :: 0 <= i < |init| ==> init[i] == xs[i];
    }
  }

  /** The counter of matched messages rises when something was handed over. It
      agrees with whether something was stored exactly when nothing matched or
      one of the appends was kept. */
  lemma CounterExactIff(cfg: Config, registry: Registry, m: Message, recipients: seq<Text>, p: S.Policy, st: S.Store, w: World<Mail>)
    ensures var xs := Records(cfg, registry, m, Dedup(recipients));
            (xs != [] <==> SomethingStored(p, st, xs, w)) <==> (CidsOf(cfg, registry, Dedup(recipients)) == [] || SomeKept(p, st, xs, w))
  {
    SomethingStoredIff(p, st, Records(cfg, registry, m, Dedup(recipients)), w);
    RecordCount(cfg, registry, m, Dedup(recipients));
  }

  /** It does agree when the registry speaks of the store that is appended to,
      nobody else is at it, and every encryption succeeds. */
  lemma CounterExact(cfg: Config, registry: Registry, m: Message, recipients: seq<Text>, p: S.Policy, st: S.Store, w: World<Mail>)
    requires forall rcpt, id :: registry(rcpt)(id) ==> id in st.sessions
    requires var xs := Records(cfg, registry, m, Dedup(recipients));
             Quiet(xs, w) && forall i :: 0 <= i < |xs| ==> w(xs[i]).encrypted.Some?
    ensures var xs := Records(cfg, registry, m, Dedup(recipients)); xs != [] <==> SomethingStored(p, st, xs, w)
  {
    var xs := Records(cfg, registry, m, Dedup(recipients));
    SomethingStoredIff(p, st, xs, w);
    QuietKeptIff(p, st, xs, w);
    if xs != [] {
      RecordRegistered(cfg, registry, m, Dedup(recipients), 0);
      assert xs[0].uniqueID in st.sessions && w(xs[0]).encrypted.Some?;
    }
  }

  /** Every copy is for an id the registry had while its recipient was handled. */
  lemma {:induction false} RecordRegistered(cfg: Config, registry: Registry, m: Message, rcpts: seq<Text>, i: nat)
    requires i < |Records(cfg, registry, m, rcpts)|
    ensures exists rcpt :: rcpt in rcpts && registry(rcpt)(Records(cfg, registry, m, rcpts)[i].uniqueID)
  {
    var init, r := rcpts[..|rcpts| - 1], rcpts[|rcpts| - 1];
    if i < |Records(cfg, registry, m, init)| {
      RecordRegistered(cfg, registry, m, init, i);
      var rcpt :| rcpt in init && registry(rcpt)(Records(cfg, registry, m, init)[i].uniqueID);
      assert rcpt in rcpts;
    } else {
      CidsNoDup(cfg, registry, r);
      OneRecipientDistinct(cfg, m, r, Cids(cfg, registry, r), CidsOf(cfg, registry, init));
      var cid := Records(cfg, registry, m, rcpts)[i].uniqueID;
      assert cid in Cids(cfg, registry, r);
      CidRegistered(cfg, registry, r, cid);
      assert r in rcpts;
    }
  }

  lemma CidRegistered(cfg: Config, registry: Registry, rcpt: Text, cid: Text)
    requires cid in Cids(cfg, registry, rcpt)
    ensures registry(rcpt)(cid)
  {
    var candidates := CandidateIds(RecipientHost(rcpt).value, cfg.cidLength);
    DedupElements(Filter(registry(rcpt), candidates), cid);
    FilterElements(registry(rcpt), candidates, cid);
  }
}
