/** Capturing one interaction: a wildcard copy for the domain's bucket, then one
    copy for every session the matcher finds, handed to the session store. */
module Capture {
  import opened Prelude
  import opened Matcher
  import opened FrontEnds
  import opened StoreRuns
  import S = Store

  datatype Config = Config(domains: seq<Text>, cidLength: nat, wildcard: bool, scanEverywhere: bool)

  /** What the server stores: two ids, and what the protocol handler recorded. */
  datatype Interaction<+C> = Interaction(uniqueID: Text, fullID: Text, content: C)

  /** A bucket stands for the log of what was appended to it. */
  type Buckets<C> = map<Text, seq<Interaction<C>>>

  // Which sessions, under which full ids

  predicate Everywhere(cfg: Config, scanInput: Text) {
    scanInput != "" && cfg.scanEverywhere
  }

  /** The ids an input matches, in match order. */
  function MatchedIds(cfg: Config, matchInput: Text, scanInput: Text, lookup: Text -> bool): seq<Text> {
    if Everywhere(cfg, scanInput) then EverywhereIds(ToLower(scanInput), cfg.cidLength, lookup)
    else MatchIds(ToLower(matchInput), cfg.cidLength, lookup)
  }

  /** The first of the windows that carries the id. */
  function FirstCarrying(id: Text, ws: seq<Text>, cidLength: nat): Text {
    if ws == [] then ""
    else if Head(ws[0], cidLength) == id then ws[0]
    else FirstCarrying(id, ws[1..], cidLength)
  }

  lemma {:induction false} FirstWindowIsFirstCarrying(m: Match, ws: seq<Text>, cidLength: nat)
    requires FirstWindow(m, ws, cidLength)
    ensures m.fullID == FirstCarrying(m.uniqueID, ws, cidLength)
  {
    var k :| 0 <= k < |ws| && ws[k] == m.fullID && Head(ws[k], cidLength) == m.uniqueID
             && forall j :: 0 <= j < k ==> Head(ws[j], cidLength) != m.uniqueID;
    if k > 0 {
      assert ws[1..][k - 1] == m.fullID;
      assert forall j :: 0 <= j < k - 1 ==> ws[1..][j] == ws[j + 1];
      FirstWindowIsFirstCarrying(m, ws[1..], cidLength);
    }
  }

  function FullIDOf(cfg: Config, matchInput: Text, scanInput: Text, id: Text): Text {
    if Everywhere(cfg, scanInput) then FirstCarrying(id, Windows(ToLower(scanInput), cfg.cidLength, 0), cfg.cidLength)
    else ExtractFullID(ToLower(matchInput), cfg.domains)
  }

  function MatchesFor(cfg: Config, matchInput: Text, scanInput: Text, lookup: Text -> bool): (ms: seq<Match>)
    ensures var ids := MatchedIds(cfg, matchInput, scanInput, lookup);
            |ms| == |ids|
            && forall k :: 0 <= k < |ids| ==> ms[k] == Match(ids[k], FullIDOf(cfg, matchInput, scanInput, ids[k]))
  {
    var ids := MatchedIds(cfg, matchInput, scanInput, lookup);
    seq(|ids|, k requires 0 <= k < |ids| => Match(ids[k], FullIDOf(cfg, matchInput, scanInput, ids[k])))
  }

  lemma MatchedIdsNoDup(cfg: Config, matchInput: Text, scanInput: Text, lookup: Text -> bool)
    ensures NoDup(MatchedIds(cfg, matchInput, scanInput, lookup))
  {
    DedupNoDup(Filter(lookup, WindowIds(ToLower(scanInput), cfg.cidLength)));
    DedupNoDup(Filter(lookup, CandidateIds(ToLower(matchInput), cfg.cidLength)));
  }

  // What is handed to the store

  function CopiesOf<C>(matches: seq<Match>, x: Interaction<C>): seq<Interaction<C>> {
    if matches == [] then []
    else
      var m := matches[|matches| - 1];
      CopiesOf(matches[..|matches| - 1], x) + [x.(uniqueID := m.uniqueID, fullID := m.fullID)]
  }

  lemma {:induction false} CopyAt<C>(matches: seq<Match>, x: Interaction<C>, i: nat)
    requires i < |matches|
    ensures |CopiesOf(matches, x)| == |matches|
    ensures CopiesOf(matches, x)[i] == Interaction(matches[i].uniqueID, matches[i].fullID, x.content)
  {
    var init := matches[..|matches| - 1];
    if i < |init| {
      CopyAt(init, x, i);
    } else if init != [] {
      CopyAt(init, x, 0);
    }
  }

  /** One call of AppendInteraction: what other clients do to the store before
      it, its instant, and the ciphertext, if encryption succeeds. */
  datatype Attempt = Attempt(others: seq<S.Event>, now: int, encrypted: Option<Bytes>)

  /** How the calls of one capture turn out. No capture hands over the same
      interaction twice (CopiesDistinct), so each may turn out differently. */
  type World<!C> = Interaction<C> -> Attempt

  function EventsOf<C>(xs: seq<Interaction<C>>, w: World<C>): seq<S.Event> {
    if xs == [] then []
    else
      var x := xs[|xs| - 1];
      EventsOf(xs[..|xs| - 1], w) + (w(x).others + [S.Event(w(x).now, S.AppendOp(x.uniqueID, w(x).encrypted))])
  }

  /** The store once all of them were handed over. */
  function AppendAll<C>(p: S.Policy, st: S.Store, xs: seq<Interaction<C>>, w: World<C>): S.Store {
    S.Run(p, st, EventsOf(xs, w)).0
  }

  lemma {:induction false} EventsConcat<C>(a: seq<Interaction<C>>, b: seq<Interaction<C>>, w: World<C>)
    ensures EventsOf(a + b, w) == EventsOf(a, w) + EventsOf(b, w)
  {
    if b == [] {
      assert a + b == a && EventsOf(a, w) + [] == EventsOf(a, w);
    } else {
      var init, x := b[..|b| - 1], b[|b| - 1];
      assert (a + b)[..|a + b| - 1] == a + init;
      EventsConcat(a, init, w);
      Associate(EventsOf(a, w), EventsOf(init, w), w(x).others + [S.Event(w(x).now, S.AppendOp(x.uniqueID, w(x).encrypted))]);
    }
  }

  lemma AppendAllConcat<C>(p: S.Policy, st: S.Store, a: seq<Interaction<C>>, b: seq<Interaction<C>>, w: World<C>)
    ensures AppendAll(p, st, a + b, w) == AppendAll(p, AppendAll(p, st, a, w), b, w)
  {
    EventsConcat(a, b, w);
    RunConcat(p, st, EventsOf(a, w), EventsOf(b, w));
  }

  /** One call, after what the others did. */
  lemma AppendOne<C>(p: S.Policy, st: S.Store, x: Interaction<C>, w: World<C>)
    ensures AppendAll(p, st, [x], w) ==
            S.Append(p, S.Run(p, st, w(x).others).0, x.uniqueID, w(x).encrypted, w(x).now).0
  {
    var e := S.Event(w(x).now, S.AppendOp(x.uniqueID, w(x).encrypted));
    assert [x][..0] == [] && EventsOf([x][..0], w) == [];
    assert EventsOf([x], w) == [] + (w(x).others + [e]) == w(x).others + [e];
    RunConcat(p, st, w(x).others, [e]);
    var mid := S.Run(p, st, w(x).others).0;
    assert [e][1..] == [] && S.Run(p, mid, [e]).0 == S.Step(p, mid, e).0;
  }

  function IsOf<C>(id: Text): Interaction<C> -> bool {
    (x: Interaction<C>) => x.uniqueID == id
  }

  /** The interactions for one session. */
  function OfSession<C>(xs: seq<Interaction<C>>, id: Text): seq<Interaction<C>> {
    Filter(IsOf(id), xs)
  }

  lemma OfSessionConcat<C>(a: seq<Interaction<C>>, b: seq<Interaction<C>>, id: Text)
    ensures OfSession(a + b, id) == OfSession(a, id) + OfSession(b, id)
  {
    FilterConcat(IsOf(id), a, b);
  }

  lemma OfSessionOne<C>(x: Interaction<C>, id: Text)
    ensures OfSession([x], id) == if x.uniqueID == id then [x] else []
  {
    FilterOne(IsOf(id), x);
  }

  /** The buckets after one wildcard capture; a domain without one drops it. */
  function Filed<C>(buckets: Buckets<C>, domain: Text, x: Interaction<C>): Buckets<C> {
    if domain in buckets then buckets[domain := buckets[domain] + [x]] else buckets
  }

  class Server<C> {
    const cfg: Config
    const policy: S.Policy
    /** The session store; MemoryStorageModel carries out the same operations. */
    var store: S.Store
    var buckets: Buckets<C>

    /** There is a bucket for each domain when the wildcard is on, and else none. */
    ghost predicate Valid()
      reads this
    {
      forall d :: d in buckets <==> cfg.wildcard && d in cfg.domains
    }

    constructor (cfg: Config, policy: S.Policy, store: S.Store)
      ensures this.cfg == cfg && this.policy == policy && this.store == store && Valid()
      ensures forall d :: d in buckets ==> buckets[d] == []
    {
      this.cfg, this.policy, this.store := cfg, policy, store;
      buckets := map d | d in cfg.domains && cfg.wildcard :: [];
    }

    /** The answer says nothing about whether the store kept it. */
    method AppendInteraction(x: Interaction<C>, w: World<C>) returns (r: S.Result)
      modifies `store
      ensures r == S.Appended && store == AppendAll(policy, old(store), [x], w)
    {
      AppendOne(policy, store, x, w);
      store := S.Run(policy, store, w(x).others).0;
      var (after, answer) := S.Append(policy, store, x.uniqueID, w(x).encrypted, w(x).now);
      store, r := after, answer;
    }

    method CaptureWildcard(domain: Text, x: Interaction<C>)
      requires Valid()
      modifies `buckets
      ensures Valid() && buckets == Filed(old(buckets), domain, x)
    {
      if !cfg.wildcard || domain !in buckets {
        return;
      }
      buckets := buckets[domain := buckets[domain] + [x]];
    }

    method StoreMatchedInteractions(matches: seq<Match>, x: Interaction<C>, w: World<C>)
      modifies `store
      ensures store == AppendAll(policy, old(store), CopiesOf(matches, x), w)
    {
      var interaction := x;
      for i := 0 to |matches|
        invariant store == AppendAll(policy, old(store), CopiesOf(matches[..i], x), w) && interaction.content == x.content
      {
        assert matches[..i + 1][..i] == matches[..i];
        interaction := interaction.(uniqueID := matches[i].uniqueID);
        interaction := interaction.(fullID := matches[i].fullID);
        AppendAllConcat(policy, old(store), CopiesOf(matches[..i], x), [interaction], w);
        var _ := AppendInteraction(interaction, w);
      }
      assert matches[..|matches|] == matches;
    }

    method FindMatches(matchInput: Text, scanInput: Text, lookup: Text -> bool) returns (matches: seq<Match>)
      ensures matches == MatchesFor(cfg, matchInput, scanInput, lookup)
    {
      if scanInput != "" && cfg.scanEverywhere {
        matches := MatchCorrelationIDEverywhere(scanInput, cfg.cidLength, lookup);
        forall m | m in matches ensures m.fullID == FullIDOf(cfg, matchInput, scanInput, m.uniqueID) {
          FirstWindowIsFirstCarrying(m, Windows(ToLower(scanInput), cfg.cidLength, 0), cfg.cidLength);
        }
      } else {
        matches := MatchCorrelationID(matchInput, cfg.cidLength, cfg.domains, lookup);
      }
      assert forall k :: 0 <= k < |matches| ==> matches[k].uniqueID == Ids(matches)[k];
    }

    /** For exactly the matched sessions a copy with its ids is handed over, each
        once, in match order; the answer tells whether there was any. */
    method CaptureInteraction(domain: Text, matchInput: Text, scanInput: Text, wildcardInteraction: Interaction<C>,
                              storeInteraction: Interaction<C>, lookup: Text -> bool, w: World<C>)
      returns (matched: bool)
      requires Valid()
      modifies this
      ensures Valid() && buckets == Filed(old(buckets), domain, wildcardInteraction)
      ensures store == AppendAll(policy, old(store), CopiesOf(MatchesFor(cfg, matchInput, scanInput, lookup), storeInteraction), w)
      ensures var ids := MatchedIds(cfg, matchInput, scanInput, lookup); NoDup(ids) && (matched <==> ids != [])
    {
      CaptureWildcard(domain, wildcardInteraction);
      var matches := FindMatches(matchInput, scanInput, lookup);
      StoreMatchedInteractions(matches, storeInteraction, w);
      matched := |matches| > 0;
      MatchedIdsNoDup(cfg, matchInput, scanInput, lookup);
    }
  }

  /** Every copy handed over, read off the input: the k-th matched id, the full
      id the input gives it, and the handler's content. */
  lemma CapturedAt<C>(cfg: Config, matchInput: Text, scanInput: Text, x: Interaction<C>, lookup: Text -> bool, k: nat)
    requires k < |MatchedIds(cfg, matchInput, scanInput, lookup)|
    ensures var id := MatchedIds(cfg, matchInput, scanInput, lookup)[k];
            var copies := CopiesOf(MatchesFor(cfg, matchInput, scanInput, lookup), x);
            k < |copies| && copies[k] == Interaction(id, FullIDOf(cfg, matchInput, scanInput, id), x.content)
  {
    CopyAt(MatchesFor(cfg, matchInput, scanInput, lookup), x, k);
  }

  /** No two copies are equal. */
  lemma CopiesDistinct<C>(cfg: Config, matchInput: Text, scanInput: Text, x: Interaction<C>, lookup: Text -> bool)
    ensures NoDup(CopiesOf(MatchesFor(cfg, matchInput, scanInput, lookup), x))
  {
    var ms := MatchesFor(cfg, matchInput, scanInput, lookup);
    var copies := CopiesOf(ms, x);
    MatchedIdsNoDup(cfg, matchInput, scanInput, lookup);
    if ms != [] {
      CopyAt(ms, x, 0);
    }
    forall i, j | 0 <= i < j < |copies| ensures copies[i] != copies[j] {
      CopyAt(ms, x, i);
      CopyAt(ms, x, j);
    }
  }

  lemma OfSessionLast<C>(ms: seq<Match>, x: Interaction<C>, id: Text)
    requires ms != []
    ensures var init, m := ms[..|ms| - 1], ms[|ms| - 1];
            OfSession(CopiesOf(ms, x), id) ==
            OfSession(CopiesOf(init, x), id) + if m.uniqueID == id then [Interaction(id, m.fullID, x.content)] else []
  {
    var init, m := ms[..|ms| - 1], ms[|ms| - 1];
    var copy := x.(uniqueID := m.uniqueID, fullID := m.fullID);
    OfSessionConcat(CopiesOf(init, x), [copy], id);
    OfSessionOne(copy, id);
  }

  ghost predicate Absent(ms: seq<Match>, id: Text) {
    forall i :: 0 <= i < |ms| ==> ms[i].uniqueID != id
  }

  ghost predicate OnlyAt(ms: seq<Match>, id: Text, k: nat) {
    k < |ms| && ms[k].uniqueID == id && forall i :: 0 <= i < |ms| && i != k ==> ms[i].uniqueID != id
  }

  lemma {:induction false} NoCopies<C>(ms: seq<Match>, x: Interaction<C>, id: Text)
    requires Absent(ms, id)
    ensures OfSession(CopiesOf(ms, x), id) == []
  {
    if ms != [] {
      NoCopies(ms[..|ms| - 1], x, id);
      OfSessionLast(ms, x, id);
    }
  }

  lemma {:induction false} OneCopy<C>(ms: seq<Match>, x: Interaction<C>, id: Text, k: nat)
    requires OnlyAt(ms, id, k)
    ensures OfSession(CopiesOf(ms, x), id) == [Interaction(id, ms[k].fullID, x.content)]
  {
    OfSessionLast(ms, x, id);
    if k == |ms| - 1 {
      NoCopies(ms[..k], x, id);
    } else {
      assert OnlyAt(ms[..|ms| - 1], id, k);
      OneCopy(ms[..|ms| - 1], x, id, k);
    }
  }

  /** A matched session is handed its copy, and no other session any. */
  lemma CopyOfSession<C>(cfg: Config, matchInput: Text, scanInput: Text, x: Interaction<C>, lookup: Text -> bool, id: Text)
    ensures OfSession(CopiesOf(MatchesFor(cfg, matchInput, scanInput, lookup), x), id) ==
            if id in MatchedIds(cfg, matchInput, scanInput, lookup)
            then [Interaction(id, FullIDOf(cfg, matchInput, scanInput, id), x.content)] else []
  {
    var ids, ms := MatchedIds(cfg, matchInput, scanInput, lookup), MatchesFor(cfg, matchInput, scanInput, lookup);
    MatchedIdsNoDup(cfg, matchInput, scanInput, lookup);
    if id in ids {
      var k :| 0 <= k < |ids| && ids[k] == id;
      assert OnlyAt(ms, id, k);
      OneCopy(ms, x, id, k);
    } else {
      assert Absent(ms, id);
      NoCopies(ms, x, id);
    }
  }
}
