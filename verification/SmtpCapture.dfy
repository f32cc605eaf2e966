/** Storing one SMTP message: repeated recipients, repeated domains and
    repeated correlation IDs must not multiply the stored copies. */
module SmtpCaptureModel {
  import opened Prelude
  import opened Matcher
  import opened FrontEnds
  import opened Names
  import opened Capture
  import S = Store

  /** The message, and what is recorded of it for one recipient. */
  datatype Message = Message(from: Text, body: Text)
  datatype Mail = Mail(body: Text, from: Text, to: Text)

  type Record = Interaction<Mail>
  datatype Entry = Entry(domain: Text, interaction: Record)

  /** The ids that are registered while each of the recipients is handled. */
  type Registry = Text -> (Text -> bool)

  // What one recipient is about

  /** The lower-cased text after the first '@'. */
  function RecipientHost(rcpt: Text): Option<Text> {
    var i := IndexOf(rcpt, '@');
    if i == |rcpt| then None else Some(ToLower(rcpt[i + 1..]))
  }

  function RecipientDomain(cfg: Config, rcpt: Text): Option<Text> {
    match RecipientHost(rcpt)
    case Some(host) => MatchedDomain(cfg.domains, host)
    case None => None
  }

  /** The sessions a recipient matches, in match order. */
  function Cids(cfg: Config, registry: Registry, rcpt: Text): seq<Text> {
    if RecipientDomain(cfg, rcpt).Some? then MatchIds(RecipientHost(rcpt).value, cfg.cidLength, registry(rcpt)) else []
  }

  function RecordFor(cfg: Config, m: Message, rcpt: Text, cid: Text, first: bool): Record {
    var fullID := match RecipientHost(rcpt) case Some(host) => ExtractFullID(host, cfg.domains) case None => "";
    Interaction(cid, fullID, Mail(if first then m.body else "", m.from, rcpt))
  }

  /** The wildcard copy: the recipient's host in place of both ids. */
  function WildcardFor(m: Message, rcpt: Text): Record {
    var host := match RecipientHost(rcpt) case Some(host) => host case None => "";
    Interaction(host, host, Mail(m.body, m.from, rcpt))
  }

  // The specification: over distinct recipients, in order

  function CidsOf(cfg: Config, registry: Registry, rcpts: seq<Text>): seq<Text> {
    if rcpts == [] then [] else CidsOf(cfg, registry, rcpts[..|rcpts| - 1]) + Cids(cfg, registry, rcpts[|rcpts| - 1])
  }

  function RecordsFor(cfg: Config, m: Message, rcpt: Text, cids: seq<Text>, seen: seq<Text>): seq<Record> {
    if cids == [] then []
    else
      var init, cid := cids[..|cids| - 1], cids[|cids| - 1];
      RecordsFor(cfg, m, rcpt, init, seen) + [RecordFor(cfg, m, rcpt, cid, cid !in seen)]
  }

  function Records(cfg: Config, registry: Registry, m: Message, rcpts: seq<Text>): seq<Record> {
    if rcpts == [] then []
    else
      var init, r := rcpts[..|rcpts| - 1], rcpts[|rcpts| - 1];
      Records(cfg, registry, m, init) + RecordsFor(cfg, m, r, Cids(cfg, registry, r), CidsOf(cfg, registry, init))
  }

  function DomainsOf(cfg: Config, rcpts: seq<Text>): seq<Text> {
    if rcpts == [] then []
    else
      match RecipientDomain(cfg, rcpts[|rcpts| - 1])
      case Some(d) => DomainsOf(cfg, rcpts[..|rcpts| - 1]) + [d]
      case None => DomainsOf(cfg, rcpts[..|rcpts| - 1])
  }

  function EntryFor(cfg: Config, m: Message, before: seq<Text>, rcpt: Text): seq<Entry> {
    match RecipientDomain(cfg, rcpt)
    case Some(d) => if d !in DomainsOf(cfg, before) then [Entry(d, WildcardFor(m, rcpt))] else []
    case None => []
  }

  /** One entry per matched domain, from its first recipient. */
  function Entries(cfg: Config, m: Message, rcpts: seq<Text>): seq<Entry> {
    if rcpts == [] then []
    else
      var init, r := rcpts[..|rcpts| - 1], rcpts[|rcpts| - 1];
      Entries(cfg, m, init) + EntryFor(cfg, m, init, r)
  }

  /** The buckets once all the entries went to theirs. */
  function FileAll(buckets: Buckets<Mail>, entries: seq<Entry>): Buckets<Mail> {
    if entries == [] then buckets
    else
      var e := entries[|entries| - 1];
      Filed(FileAll(buckets, entries[..|entries| - 1]), e.domain, e.interaction)
  }

  // The code

  class CaptureSet {
    var recipients: set<Text>
    var domains: set<Text>
    var cids: set<Text>

    constructor ()
      ensures recipients == {} && domains == {} && cids == {}
    {
      recipients, domains, cids := {}, {}, {};
    }
  }

  /** A set of the code holds the elements of a list of the specification. */
  ghost predicate Seen(seen: set<Text>, done: seq<Text>) {
    forall c :: c in seen <==> c in done
  }

  /** The SMTP part of the server. */
  class Smtp {
    const server: Server<Mail>
    var smtpCount: nat
    var smtpMatched: nat

    constructor (server: Server<Mail>)
      ensures this.server == server && smtpCount == 0 && smtpMatched == 0
    {
      this.server := server;
      smtpCount, smtpMatched := 0, 0;
    }

    function Cfg(): Config { server.cfg }

    /** One matched session: its copy has the body unless one before had it. */
    method StoreOne(m: Message, rcpt: Text, match0: Match, w: World<Mail>, seen: CaptureSet, ghost before: seq<Text>,
                    ghost ids: seq<Text>)
      returns (r: S.Result)
      requires RecipientHost(rcpt).Some? && Seen(seen.cids, before + ids) && match0.uniqueID !in ids
      requires match0.fullID == ExtractFullID(RecipientHost(rcpt).value, Cfg().domains)
      modifies server`store, seen`cids
      ensures r == S.Appended
      ensures server.store ==
              AppendAll(server.policy, old(server.store), [RecordFor(Cfg(), m, rcpt, match0.uniqueID, match0.uniqueID !in before)], w)
      ensures Seen(seen.cids, before + ids + [match0.uniqueID])
    {
      var interaction := Interaction(match0.uniqueID, match0.fullID, Mail(m.body, m.from, rcpt));
      if match0.uniqueID in seen.cids {
        interaction := interaction.(content := interaction.content.(body := ""));
      } else {
        seen.cids := seen.cids + {match0.uniqueID};
      }
      r := server.AppendInteraction(interaction, w);
    }

    method StoreMatches(m: Message, rcpt: Text, matches: seq<Match>, w: World<Mail>, seen: CaptureSet, ghost before: seq<Text>)
      returns (stored: bool)
      requires RecipientHost(rcpt).Some? && NoDup(Ids(matches)) && Seen(seen.cids, before)
      requires forall x :: x in matches ==> x.fullID == ExtractFullID(RecipientHost(rcpt).value, Cfg().domains)
      modifies server`store, seen`cids
      ensures server.store == AppendAll(server.policy, old(server.store), RecordsFor(Cfg(), m, rcpt, Ids(matches), before), w)
      ensures Seen(seen.cids, before + Ids(matches)) && (stored <==> matches != [])
    {
      stored := false;
      ghost var ids := Ids(matches);
      for i := 0 to |matches|
        invariant server.store == AppendAll(server.policy, old(server.store), RecordsFor(Cfg(), m, rcpt, ids[..i], before), w)
        invariant Seen(seen.cids, before + ids[..i]) && (stored <==> i > 0)
      {
        assert ids[..i + 1][..i] == ids[..i] && ids[i] == matches[i].uniqueID;
        NextRecord(server.policy, old(server.store), Cfg(), m, rcpt, ids, i, before, w);
        var r := StoreOne(m, rcpt, matches[i], w, seen, before, ids[..i]);
        AppendSeen(before, ids, i);
        if r.Appended? {
          stored := true;
        }
      }
      assert ids[..|matches|] == ids;
    }

    /** The first recipient of a domain leaves the wildcard copy. */
    method StoreWildcard(m: Message, rcpt: Text, host: Text, domain: Text, seen: CaptureSet, ghost done: seq<Text>)
      requires server.Valid() && Seen(seen.domains, DomainsOf(Cfg(), done))
      requires RecipientHost(rcpt) == Some(host) && RecipientDomain(Cfg(), rcpt) == Some(domain)
      modifies server`buckets, seen`domains
      ensures server.Valid() && server.buckets == FileAll(old(server.buckets), EntryFor(Cfg(), m, done, rcpt))
      ensures Seen(seen.domains, DomainsOf(Cfg(), done + [rcpt]))
    {
      assert (done + [rcpt])[..|done|] == done;
      FileOne(server.buckets, Entry(domain, WildcardFor(m, rcpt)));
      if domain !in seen.domains {
        seen.domains := seen.domains + {domain};
        server.CaptureWildcard(domain, Interaction(host, host, Mail(m.body, m.from, rcpt)));
      }
    }

    method CaptureSMTPInteraction(registry: Registry, w: World<Mail>, m: Message, rcpt: Text, seen: CaptureSet, ghost done: seq<Text>)
      returns (stored: bool)
      requires server.Valid() && Seen(seen.cids, CidsOf(Cfg(), registry, done)) && Seen(seen.domains, DomainsOf(Cfg(), done))
      modifies server, seen`cids, seen`domains
      ensures server.Valid()
      ensures server.store == AppendAll(server.policy, old(server.store),
                RecordsFor(Cfg(), m, rcpt, Cids(Cfg(), registry, rcpt), CidsOf(Cfg(), registry, done)), w)
      ensures server.buckets == FileAll(old(server.buckets), EntryFor(Cfg(), m, done, rcpt))
      ensures Seen(seen.cids, CidsOf(Cfg(), registry, done + [rcpt])) && Seen(seen.domains, DomainsOf(Cfg(), done + [rcpt]))
      ensures stored <==> Cids(Cfg(), registry, rcpt) != []
    {
      assert (done + [rcpt])[..|done|] == done;
      var at := IndexOf(rcpt, '@');
      if at == |rcpt| {
        return false;
      }
      var host := ToLower(rcpt[at + 1..]);
      var domain := MatchedDomain(Cfg().domains, host);
      if domain.None? {
        return false;
      }
      StoreWildcard(m, rcpt, host, domain.value, seen, done);
      var matches := MatchCorrelationID(host, Cfg().cidLength, Cfg().domains, registry(rcpt));
      LowerTwice(rcpt[at + 1..]);
      DedupNoDup(Filter(registry(rcpt), CandidateIds(host, Cfg().cidLength)));
      stored := StoreMatches(m, rcpt, matches, w, seen, CidsOf(Cfg(), registry, done));
    }

    /** The capture set reflects the distinct recipients handled so far. */
    ghost predicate Synced(registry: Registry, seen: CaptureSet, done: seq<Text>)
      reads seen
    {
      && Seen(seen.recipients, done)
      && Seen(seen.cids, CidsOf(Cfg(), registry, done))
      && Seen(seen.domains, DomainsOf(Cfg(), done))
    }

    /** ... and so does what has been stored beyond what was there at the start. */
    ghost predicate Stored(registry: Registry, w: World<Mail>, m: Message, done: seq<Text>, store0: S.Store,
                           buckets0: Buckets<Mail>, matched: bool)
      reads server
    {
      && server.store == AppendAll(server.policy, store0, Records(Cfg(), registry, m, done), w)
      && server.buckets == FileAll(buckets0, Entries(Cfg(), m, done))
      && (matched <==> CidsOf(Cfg(), registry, done) != [])
    }

    method CaptureDistinct(registry: Registry, w: World<Mail>, m: Message, rcpt: Text, seen: CaptureSet, ghost done: seq<Text>,
                           ghost store0: S.Store, ghost buckets0: Buckets<Mail>, ghost matched: bool)
      returns (stored: bool)
      requires server.Valid() && Synced(registry, seen, done) && Stored(registry, w, m, done, store0, buckets0, matched)
      modifies server, seen
      ensures server.Valid()
      ensures var next := if rcpt in done then done else done + [rcpt];
              Synced(registry, seen, next) && Stored(registry, w, m, next, store0, buckets0, matched || stored)
    {
      stored := false;
      if rcpt !in seen.recipients {
        seen.recipients := seen.recipients + {rcpt};
        stored := CaptureSMTPInteraction(registry, w, m, rcpt, seen, done);
        RecordsStep(server.policy, Cfg(), registry, w, m, done, rcpt, store0);
        EntriesStep(Cfg(), m, done, rcpt, buckets0);
      }
    }

    /** One DATA: what is handed to the store is the specification over the
        distinct recipients; the match counter rises iff that is something. */
    method OnSMTPData(registry: Registry, w: World<Mail>, m: Message, recipients: seq<Text>)
      requires server.Valid()
      modifies this, server
      ensures server.Valid()
      ensures server.store == AppendAll(server.policy, old(server.store), Records(Cfg(), registry, m, Dedup(recipients)), w)
      ensures server.buckets == FileAll(old(server.buckets), Entries(Cfg(), m, Dedup(recipients)))
      ensures smtpCount == old(smtpCount) + 1
      ensures smtpMatched == old(smtpMatched) + if Records(Cfg(), registry, m, Dedup(recipients)) != [] then 1 else 0
    {
      smtpCount := smtpCount + 1;
      var matched := CaptureAll(registry, w, m, recipients);
      RecordCount(Cfg(), registry, m, Dedup(recipients));
      if matched {
        smtpMatched := smtpMatched + 1;
      }
    }

    method CaptureAll(registry: Registry, w: World<Mail>, m: Message, recipients: seq<Text>) returns (matched: bool)
      requires server.Valid()
      modifies server
      ensures server.Valid()
      ensures Stored(registry, w, m, Dedup(recipients), old(server.store), old(server.buckets), matched)
    {
      var seen := new CaptureSet();
      matched := false;
      ghost var done := [];
      assert Stored(registry, w, m, [], server.store, server.buckets, false);
      for i := 0 to |recipients|
        invariant done == Dedup(recipients[..i]) && fresh(seen) && server.Valid()
        invariant Synced(registry, seen, done) && Stored(registry, w, m, done, old(server.store), old(server.buckets), matched)
      {
        var stored := CaptureDistinct(registry, w, m, recipients[i], seen, done, old(server.store), old(server.buckets), matched);
        matched := matched || stored;
        DedupStep(recipients, i);
        done := if recipients[i] in done then done else done + [recipients[i]];
      }
      assert recipients[..|recipients|] == recipients;
    }
  }

  lemma FileOne(buckets: Buckets<Mail>, e: Entry)
    ensures FileAll(buckets, [e]) == Filed(buckets, e.domain, e.interaction)
  {
    assert [e][..0] == [];
  }

  lemma {:induction false} FileConcat(buckets: Buckets<Mail>, a: seq<Entry>, b: seq<Entry>)
    ensures FileAll(buckets, a + b) == FileAll(FileAll(buckets, a), b)
  {
    if b == [] {
      assert a + b == a;
    } else {
      assert (a + b)[..|a + b| - 1] == a + b[..|b| - 1];
      FileConcat(buckets, a, b[..|b| - 1]);
    }
  }

  lemma {:induction false} NextRecord(p: S.Policy, st: S.Store, cfg: Config, m: Message, rcpt: Text, ids: seq<Text>, i: nat, before: seq<Text>,
                   w: World<Mail>)
    requires i < |ids|
    ensures AppendAll(p, st, RecordsFor(cfg, m, rcpt, ids[..i + 1], before), w) ==
            AppendAll(p, AppendAll(p, st, RecordsFor(cfg, m, rcpt, ids[..i], before), w),
                      [RecordFor(cfg, m, rcpt, ids[i], ids[i] !in before)], w)
  {
    assert ids[..i + 1][..i] == ids[..i];
    AppendAllConcat(p, st, RecordsFor(cfg, m, rcpt, ids[..i], before), [RecordFor(cfg, m, rcpt, ids[i], ids[i] !in before)], w);
  }

  lemma RecordsStep(p: S.Policy, cfg: Config, registry: Registry, w: World<Mail>, m: Message, done: seq<Text>, rcpt: Text,
                    store: S.Store)
    ensures AppendAll(p, store, Records(cfg, registry, m, done + [rcpt]), w) ==
            AppendAll(p, AppendAll(p, store, Records(cfg, registry, m, done), w),
                      RecordsFor(cfg, m, rcpt, Cids(cfg, registry, rcpt), CidsOf(cfg, registry, done)), w)
    ensures CidsOf(cfg, registry, done + [rcpt]) == CidsOf(cfg, registry, done) + Cids(cfg, registry, rcpt)
  {
    RecordsLast(cfg, registry, m, done, rcpt);
    AppendAllConcat(p, store, Records(cfg, registry, m, done),
                    RecordsFor(cfg, m, rcpt, Cids(cfg, registry, rcpt), CidsOf(cfg, registry, done)), w);
  }

  lemma RecordsLast(cfg: Config, registry: Registry, m: Message, done: seq<Text>, rcpt: Text)
    ensures Records(cfg, registry, m, done + [rcpt]) ==
            Records(cfg, registry, m, done) + RecordsFor(cfg, m, rcpt, Cids(cfg, registry, rcpt), CidsOf(cfg, registry, done))
    ensures CidsOf(cfg, registry, done + [rcpt]) == CidsOf(cfg, registry, done) + Cids(cfg, registry, rcpt)
  {
    assert (done + [rcpt])[..|done|] == done;
  }

  lemma EntriesStep(cfg: Config, m: Message, done: seq<Text>, rcpt: Text, buckets: Buckets<Mail>)
    ensures FileAll(buckets, Entries(cfg, m, done + [rcpt])) ==
            FileAll(FileAll(buckets, Entries(cfg, m, done)), EntryFor(cfg, m, done, rcpt))
  {
    assert (done + [rcpt])[..|done|] == done;
    FileConcat(buckets, Entries(cfg, m, done), EntryFor(cfg, m, done, rcpt));
  }

  lemma DedupStep(s: seq<Text>, i: nat)
    requires i < |s|
    ensures Dedup(s[..i + 1]) == if s[i] in Dedup(s[..i]) then Dedup(s[..i]) else Dedup(s[..i]) + [s[i]]
  {
    assert s[..i + 1][..i] == s[..i];
  }

  lemma AppendSeen(before: seq<Text>, ids: seq<Text>, i: nat)
    requires i < |ids|
    ensures before + ids[..i] + [ids[i]] == before + ids[..i + 1]
  {
  }

  lemma LowerTwice(s: Text)
    ensures ToLower(ToLower(s)) == ToLower(s)
  {
  }

  lemma {:induction false} RecordCount(cfg: Config, registry: Registry, m: Message, rcpts: seq<Text>)
    ensures |Records(cfg, registry, m, rcpts)| == |CidsOf(cfg, registry, rcpts)|
  {
    if rcpts != [] {
      var init, r := rcpts[..|rcpts| - 1], rcpts[|rcpts| - 1];
      RecordCount(cfg, registry, m, init);
      CopyCount(cfg, m, r, Cids(cfg, registry, r), CidsOf(cfg, registry, init));
    }
  }

  lemma {:induction false} CopyCount(cfg: Config, m: Message, rcpt: Text, cids: seq<Text>, seen: seq<Text>)
    ensures |RecordsFor(cfg, m, rcpt, cids, seen)| == |cids|
  {
    if cids != [] {
      CopyCount(cfg, m, rcpt, cids[..|cids| - 1], seen);
    }
  }

  // What one session gets

  function Matches(cfg: Config, registry: Registry, cid: Text): Text -> bool {
    (rcpt: Text) => cid in Cids(cfg, registry, rcpt)
  }

  /** The recipients that match a session. */
  function Matching(cfg: Config, registry: Registry, rcpts: seq<Text>, cid: Text): seq<Text> {
    Filter(Matches(cfg, registry, cid), rcpts)
  }

  /** One copy per recipient in `rs`; only the first carries the body. */
  function Copies(cfg: Config, m: Message, cid: Text, rs: seq<Text>): (copies: seq<Record>)
    ensures |copies| == |rs|
    ensures forall k :: 0 <= k < |rs| ==> copies[k] == RecordFor(cfg, m, rs[k], cid, k == 0)
  {
    seq(|rs|, k requires 0 <= k < |rs| => RecordFor(cfg, m, rs[k], cid, k == 0))
  }

  lemma MatchingConcat(cfg: Config, registry: Registry, a: seq<Text>, b: seq<Text>, cid: Text)
    ensures Matching(cfg, registry, a + b, cid) == Matching(cfg, registry, a, cid) + Matching(cfg, registry, b, cid)
  {
    FilterConcat(Matches(cfg, registry, cid), a, b);
  }

  lemma MatchingOne(cfg: Config, registry: Registry, r: Text, cid: Text)
    ensures Matching(cfg, registry, [r], cid) == if cid in Cids(cfg, registry, r) then [r] else []
  {
    FilterOne(Matches(cfg, registry, cid), r);
  }

  lemma MatchingLast(cfg: Config, registry: Registry, rcpts: seq<Text>, cid: Text)
    requires rcpts != []
    ensures var init, r := rcpts[..|rcpts| - 1], rcpts[|rcpts| - 1];
            Matching(cfg, registry, rcpts, cid) ==
            Matching(cfg, registry, init, cid) + if cid in Cids(cfg, registry, r) then [r] else []
  {
    var init, r := rcpts[..|rcpts| - 1], rcpts[|rcpts| - 1];
    assert rcpts == init + [r];
    MatchingConcat(cfg, registry, init, [r], cid);
    MatchingOne(cfg, registry, r, cid);
  }

  lemma LastApart(cids: seq<Text>, cid: Text)
    requires cids != [] && NoDup(cids)
    ensures NoDup(cids[..|cids| - 1]) && cids[|cids| - 1] !in cids[..|cids| - 1]
    ensures cid in cids <==> cid in cids[..|cids| - 1] || cid == cids[|cids| - 1]
  {
    assert cids == cids[..|cids| - 1] + [cids[|cids| - 1]];
  }

  lemma {:induction false} OneRecipient(cfg: Config, m: Message, rcpt: Text, cids: seq<Text>, seen: seq<Text>, cid: Text)
    requires NoDup(cids)
    ensures OfSession(RecordsFor(cfg, m, rcpt, cids, seen), cid) ==
            if cid in cids then [RecordFor(cfg, m, rcpt, cid, cid !in seen)] else []
  {
    if cids != [] {
      var init, last := cids[..|cids| - 1], cids[|cids| - 1];
      OneRecipient(cfg, m, rcpt, init, seen, cid);
      var r := RecordFor(cfg, m, rcpt, last, last !in seen);
      OfSessionConcat(RecordsFor(cfg, m, rcpt, init, seen), [r], cid);
      OfSessionOne(r, cid);
      LastApart(cids, cid);
    }
  }

  lemma CidsNoDup(cfg: Config, registry: Registry, rcpt: Text)
    ensures NoDup(Cids(cfg, registry, rcpt))
  {
    if RecipientDomain(cfg, rcpt).Some? {
      DedupNoDup(Filter(registry(rcpt), CandidateIds(RecipientHost(rcpt).value, cfg.cidLength)));
    }
  }

  lemma {:induction false} MatchedBefore(cfg: Config, registry: Registry, rcpts: seq<Text>, cid: Text)
    ensures cid in CidsOf(cfg, registry, rcpts) <==> Matching(cfg, registry, rcpts, cid) != []
  {
    if rcpts != [] {
      var init, r := rcpts[..|rcpts| - 1], rcpts[|rcpts| - 1];
      MatchedBefore(cfg, registry, init, cid);
      MatchingLast(cfg, registry, rcpts, cid);
    }
  }

  /** One DATA hands over for a session exactly one copy per distinct recipient
      that matches its id, in recipient order, and only the first has the body. */
  lemma {:induction false} PerSession(cfg: Config, registry: Registry, m: Message, rcpts: seq<Text>, cid: Text)
    ensures OfSession(Records(cfg, registry, m, rcpts), cid) == Copies(cfg, m, cid, Matching(cfg, registry, rcpts, cid))
  {
    if rcpts != [] {
      var init, r := rcpts[..|rcpts| - 1], rcpts[|rcpts| - 1];
      PerSession(cfg, registry, m, init, cid);
      MatchingLast(cfg, registry, rcpts, cid);
      MatchedBefore(cfg, registry, init, cid);
      CidsNoDup(cfg, registry, r);
      OneRecipient(cfg, m, r, Cids(cfg, registry, r), CidsOf(cfg, registry, init), cid);
      OfSessionConcat(Records(cfg, registry, m, init), RecordsFor(cfg, m, r, Cids(cfg, registry, r), CidsOf(cfg, registry, init)), cid);
    }
  }

  ghost predicate AllTo(xs: seq<Record>, rcpts: seq<Text>) {
    forall i :: 0 <= i < |xs| ==> xs[i].content.to in rcpts
  }

  ghost predicate AllFor(xs: seq<Record>, cids: seq<Text>) {
    forall i :: 0 <= i < |xs| ==> xs[i].uniqueID in cids
  }

  /** No two of the copies of one DATA are equal. */
  lemma {:induction false} RecordsDistinct(cfg: Config, registry: Registry, m: Message, rcpts: seq<Text>)
    requires NoDup(rcpts)
    ensures NoDup(Records(cfg, registry, m, rcpts))
    ensures AllTo(Records(cfg, registry, m, rcpts), rcpts)
  {
    if rcpts != [] {
      var init, r := rcpts[..|rcpts| - 1], rcpts[|rcpts| - 1];
      assert rcpts == init + [r] && r !in init;
      RecordsDistinct(cfg, registry, m, init);
      CidsNoDup(cfg, registry, r);
      OneRecipientDistinct(cfg, m, r, Cids(cfg, registry, r), CidsOf(cfg, registry, init));
      ApartNoDup(Records(cfg, registry, m, init), RecordsFor(cfg, m, r, Cids(cfg, registry, r), CidsOf(cfg, registry, init)));
    }
  }

  lemma ApartNoDup<T>(a: seq<T>, b: seq<T>)
    requires NoDup(a) && NoDup(b) && forall i, j :: 0 <= i < |a| && 0 <= j < |b| ==> a[i] != b[j]
    ensures NoDup(a + b)
  {
  }

  lemma {:induction false} OneRecipientDistinct(cfg: Config, m: Message, rcpt: Text, cids: seq<Text>, seen: seq<Text>)
    requires NoDup(cids)
    ensures NoDup(RecordsFor(cfg, m, rcpt, cids, seen))
    ensures AllTo(RecordsFor(cfg, m, rcpt, cids, seen), [rcpt]) && AllFor(RecordsFor(cfg, m, rcpt, cids, seen), cids)
  {
    if cids != [] {
      var init, cid := cids[..|cids| - 1], cids[|cids| - 1];
      OneRecipientDistinct(cfg, m, rcpt, init, seen);
      LastApart(cids, cid);
      ApartNoDup(RecordsFor(cfg, m, rcpt, init, seen), [RecordFor(cfg, m, rcpt, cid, cid !in seen)]);
    }
  }

  // What one wildcard bucket gets

  function OfDomain(entries: seq<Entry>, domain: Text): seq<Record> {
    if entries == [] then []
    else
      var e := entries[|entries| - 1];
      OfDomain(entries[..|entries| - 1], domain) + if e.domain == domain then [e.interaction] else []
  }

  lemma {:induction false} BucketGrows(buckets: Buckets<Mail>, entries: seq<Entry>, domain: Text)
    ensures FileAll(buckets, entries).Keys == buckets.Keys
    ensures domain in buckets ==> FileAll(buckets, entries)[domain] == buckets[domain] + OfDomain(entries, domain)
  {
    if entries != [] {
      var init, e := entries[..|entries| - 1], entries[|entries| - 1];
      BucketGrows(buckets, init, domain);
      if domain in buckets {
        Associate(buckets[domain], OfDomain(init, domain), if e.domain == domain then [e.interaction] else []);
        assert OfDomain(init, domain) + [] == OfDomain(init, domain);
      }
    } else if domain in buckets {
      assert buckets[domain] + [] == buckets[domain];
    }
  }

  lemma {:induction false} OfDomainConcat(a: seq<Entry>, b: seq<Entry>, domain: Text)
    ensures OfDomain(a + b, domain) == OfDomain(a, domain) + OfDomain(b, domain)
  {
    if b == [] {
      assert a + b == a && OfDomain(a, domain) + [] == OfDomain(a, domain);
    } else {
      var init, e := b[..|b| - 1], b[|b| - 1];
      assert (a + b)[..|a + b| - 1] == a + init;
      OfDomainConcat(a, init, domain);
      Associate(OfDomain(a, domain), OfDomain(init, domain), if e.domain == domain then [e.interaction] else []);
    }
  }

  function IsAt(cfg: Config, domain: Text): Text -> bool {
    (rcpt: Text) => RecipientDomain(cfg, rcpt) == Some(domain)
  }

  /** The recipients of a domain, in order. */
  function RecipientsAt(cfg: Config, rcpts: seq<Text>, domain: Text): seq<Text> {
    Filter(IsAt(cfg, domain), rcpts)
  }

  lemma RecipientsAtLast(cfg: Config, rcpts: seq<Text>, domain: Text)
    requires rcpts != []
    ensures var init, r := rcpts[..|rcpts| - 1], rcpts[|rcpts| - 1];
            RecipientsAt(cfg, rcpts, domain) ==
            RecipientsAt(cfg, init, domain) + if RecipientDomain(cfg, r) == Some(domain) then [r] else []
  {
    var init, r := rcpts[..|rcpts| - 1], rcpts[|rcpts| - 1];
    assert rcpts == init + [r];
    FilterConcat(IsAt(cfg, domain), init, [r]);
    FilterOne(IsAt(cfg, domain), r);
  }

  lemma {:induction false} DomainReached(cfg: Config, rcpts: seq<Text>, domain: Text)
    ensures domain in DomainsOf(cfg, rcpts) <==> RecipientsAt(cfg, rcpts, domain) != []
  {
    if rcpts != [] {
      DomainReached(cfg, rcpts[..|rcpts| - 1], domain);
      RecipientsAtLast(cfg, rcpts, domain);
    }
  }

  lemma EntryAt(cfg: Config, m: Message, before: seq<Text>, rcpt: Text, domain: Text)
    ensures OfDomain(EntryFor(cfg, m, before, rcpt), domain) ==
            if RecipientDomain(cfg, rcpt) == Some(domain) && domain !in DomainsOf(cfg, before) then [WildcardFor(m, rcpt)] else []
  {
    var es := EntryFor(cfg, m, before, rcpt);
    if es != [] {
      assert es[..0] == [];
      assert OfDomain(es, domain) == OfDomain(es[..0], domain) + if es[0].domain == domain then [es[0].interaction] else [];
    }
  }

  /** What a domain's bucket is given: the copy of the domain's first recipient. */
  function FirstCopy(cfg: Config, m: Message, rcpts: seq<Text>, domain: Text): seq<Record> {
    var rs := RecipientsAt(cfg, rcpts, domain);
    if rs == [] then [] else [WildcardFor(m, rs[0])]
  }

  lemma {:induction false} EntriesAt(cfg: Config, m: Message, rcpts: seq<Text>, domain: Text)
    ensures OfDomain(Entries(cfg, m, rcpts), domain) == FirstCopy(cfg, m, rcpts, domain)
  {
    if rcpts != [] {
      var init, r := rcpts[..|rcpts| - 1], rcpts[|rcpts| - 1];
      EntriesAt(cfg, m, init, domain);
      OfDomainConcat(Entries(cfg, m, init), EntryFor(cfg, m, init, r), domain);
      EntryAt(cfg, m, init, r, domain);
      DomainReached(cfg, init, domain);
      RecipientsAtLast(cfg, rcpts, domain);
    }
  }

  /** One DATA adds to a domain's bucket exactly one copy, that of the domain's
      first recipient, if there is one, and nothing otherwise. */
  lemma OncePerDomain(cfg: Config, m: Message, rcpts: seq<Text>, buckets: Buckets<Mail>, domain: Text)
    requires domain in buckets
    ensures var after := FileAll(buckets, Entries(cfg, m, rcpts));
            domain in after && after[domain] == buckets[domain] + FirstCopy(cfg, m, rcpts, domain)
  {
    BucketGrows(buckets, Entries(cfg, m, rcpts), domain);
    EntriesAt(cfg, m, rcpts, domain);
  }
}
