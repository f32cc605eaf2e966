/** The components together: what a client registers, a payload domain finds,
    and what is captured for it, the client's next poll returns, whatever other
    clients do meanwhile. */
module EndToEnd {
  import opened Prelude
  import opened RecordCodec
  import opened Matcher
  import opened Names
  import opened ClientId
  import opened Agreement
  import opened Capture
  import opened CaptureStorage
  import opened SmtpCaptureModel
  import opened StoreRuns
  import opened SessionView
  import S = Store

  /** The matcher's lookup: HasCorrelationID on the store at one instant. */
  function Registered(p: S.Policy, st: S.Store, now: int): Text -> bool {
    (id: Text) => S.HasCorrelationID(p, st, id, now).1 == S.Present(true)
  }

  lemma RegisteredShows(p: S.Policy, st: S.Store, id: Text, q: S.Request, now: int)
    requires id !in st.sessions && q.aesKey.Some?
    ensures var (st', r) := S.Register(p, st, id, q, now);
            && r == S.Registered(q.aesKey.value, true) && Shows(st', id, q, now, View(now, []))
            && st'.db.Some? == st.db.Some? && |st'.sessions| <= |st.sessions| + 1
  {
    var e := S.Event(now, S.RegisterOp(id, q));
    AddedShows(S.MakeRoom(p, S.Missed(st)), id, q, now);
    StepKind(p, st, e);
    StepSize(p, st, e);
  }

  lemma AddedShows(st: S.Store, id: Text, q: S.Request, now: int)
    requires q.aesKey.Some?
    ensures var (st', r) := S.Add(st, id, q, now);
            r == S.Registered(q.aesKey.value, true) && Shows(st', id, q, now, View(now, []))
  {
    assert EncodeAll([]) == [] && Parse([]) == [];
  }

  lemma FoundInTime(p: S.Policy, st: S.Store, id: Text, q: S.Request, t0: int, v: View, now: int)
    requires Shows(st, id, q, t0, v) && InTime(p, t0, v, now)
    ensures Registered(p, st, now)(id)
  {
  }

  // Any run between registration and poll

  /** The client registered at `t0` and polls at `t2`; in between `es` happens,
      in which whatever looks at its session comes in time and does not poll. */
  predicate GoodUse(p: S.Policy, id: Text, q: S.Request, disk: bool, t0: int, es: seq<S.Event>, t2: int) {
    && UsedInTime(p, t0, View(t0, []), es, id, q, disk) && Unpolled(es, id)
    && InTime(p, t0, ViewRun(p, View(t0, []), es, id, q, disk), t2)
  }

  /** The poll returns all that was captured for the session, in order. */
  lemma PolledAfter(p: S.Policy, st: S.Store, id: Text, q: S.Request, t0: int, es: seq<S.Event>, t2: int)
    requires Shows(st, id, q, t0, View(t0, [])) && GoodUse(p, id, q, st.db.Some?, t0, es, t2)
    requires |st.sessions| + Registrations(es) <= p.capacity
    ensures S.Poll(p, S.Run(p, st, es).0, id, q.secret, t2).1 == S.Polled(q.aesKey.value, q.publicKey, Captures(es, id))
  {
    var v0, disk := View(t0, []), st.db.Some?;
    RoomStays(p, st, es, id, q, t0, v0);
    ShowsRun(p, st, es, id, q, t0, v0);
    PendingGrows(p, v0, es, id, q, disk);
    assert [] + Captures(es, id) == Captures(es, id);
    PollShows(p, S.Run(p, st, es).0, id, q, t0, ViewRun(p, v0, es, id, q, disk), t2);
  }

  lemma {:induction false} UsedBefore(p: S.Policy, t0: int, v: View, a: seq<S.Event>, b: seq<S.Event>, id: Text, q: S.Request,
                                      disk: bool)
    requires UsedInTime(p, t0, v, a + b, id, q, disk)
    ensures UsedInTime(p, t0, v, a, id, q, disk)
    decreases a
  {
    if a != [] {
      assert (a + b)[0] == a[0] && (a + b)[1..] == a[1..] + b;
      UsedBefore(p, t0, ViewStep(p, v, a[0], id, q, disk), a[1..], b, id, q, disk);
    }
  }

  lemma {:induction false} RegistrationsConcat(a: seq<S.Event>, b: seq<S.Event>)
    ensures Registrations(a + b) == Registrations(a) + Registrations(b)
  {
    if a == [] {
      assert a + b == b;
    } else {
      assert (a + b)[0] == a[0] && (a + b)[1..] == a[1..] + b;
      RegistrationsConcat(a[1..], b);
    }
  }

  /** At the moment of a capture the session is found. */
  lemma FoundAfter(p: S.Policy, st: S.Store, id: Text, q: S.Request, t0: int, before: seq<S.Event>, rest: seq<S.Event>, t1: int)
    requires Shows(st, id, q, t0, View(t0, [])) && UsedInTime(p, t0, View(t0, []), before + rest, id, q, st.db.Some?)
    requires |st.sessions| + Registrations(before + rest) <= p.capacity
    requires InTime(p, t0, ViewRun(p, View(t0, []), before, id, q, st.db.Some?), t1)
    ensures Registered(p, S.Run(p, st, before).0, t1)(id)
  {
    var v0 := View(t0, []);
    UsedBefore(p, t0, v0, before, rest, id, q, st.db.Some?);
    RegistrationsConcat(before, rest);
    RoomStays(p, st, before, id, q, t0, v0);
    ShowsRun(p, st, before, id, q, t0, v0);
    FoundInTime(p, S.Run(p, st, before).0, id, q, t0, ViewRun(p, v0, before, id, q, st.db.Some?), t1);
  }

  /** A run with a capture in the middle, and what it brings one session. */
  lemma MiddleRun<C>(p: S.Policy, st: S.Store, before: seq<S.Event>, xs: seq<Interaction<C>>, w: World<C>, after: seq<S.Event>, id: Text)
    ensures S.Run(p, st, before + EventsOf(xs, w) + after).0 ==
            S.Run(p, AppendAll(p, S.Run(p, st, before).0, xs, w), after).0
    ensures Undisturbed(xs, w, id) ==>
              Captures(before + EventsOf(xs, w) + after, id) ==
              Captures(before, id) + PayloadsFor(xs, w, id) + Captures(after, id)
  {
    RunConcat(p, st, before + EventsOf(xs, w), after);
    RunConcat(p, st, before, EventsOf(xs, w));
    CapturesConcat(before + EventsOf(xs, w), after, id);
    CapturesConcat(before, EventsOf(xs, w), id);
    if Undisturbed(xs, w, id) {
      CapturesAreOwn(xs, w, id);
    }
  }

  /** What happens around a capture of `xs` at `t1`: `before` it, between its
      appends, and `after` it until the client polls at `t2`, with room for every
      registration beside the `size` sessions there were. */
  predicate GoodRun<C>(p: S.Policy, id: Text, q: S.Request, disk: bool, size: nat, t0: int, before: seq<S.Event>, t1: int,
                       xs: seq<Interaction<C>>, w: World<C>, after: seq<S.Event>, t2: int) {
    && GoodUse(p, id, q, disk, t0, before + EventsOf(xs, w) + after, t2)
    && InTime(p, t0, ViewRun(p, View(t0, []), before, id, q, disk), t1)
    && size + Registrations(before + EventsOf(xs, w) + after) <= p.capacity
  }

  /** The client's poll returns all that was captured for it, in order, which is
      `own` of this capture if nobody else captures for it meanwhile. */
  ghost predicate PollReturns<C>(p: S.Policy, st: S.Store, id: Text, q: S.Request, before: seq<S.Event>, xs: seq<Interaction<C>>,
                                 w: World<C>, after: seq<S.Event>, t2: int, own: seq<Bytes>)
    requires q.aesKey.Some?
  {
    var all := Captures(before + EventsOf(xs, w) + after, id);
    && S.Poll(p, S.Run(p, AppendAll(p, S.Run(p, st, before).0, xs, w), after).0, id, q.secret, t2).1 ==
       S.Polled(q.aesKey.value, q.publicKey, all)
    && (Undisturbed(xs, w, id) ==> all == Captures(before, id) + own + Captures(after, id))
  }

  lemma CapturedIsPolled<C>(p: S.Policy, st: S.Store, id: Text, q: S.Request, t0: int, before: seq<S.Event>, t1: int,
                            xs: seq<Interaction<C>>, w: World<C>, after: seq<S.Event>, t2: int)
    requires Shows(st, id, q, t0, View(t0, []))
    requires GoodRun(p, id, q, st.db.Some?, |st.sessions|, t0, before, t1, xs, w, after, t2)
    ensures Registered(p, S.Run(p, st, before).0, t1)(id)
    ensures PollReturns(p, st, id, q, before, xs, w, after, t2, PayloadsFor(xs, w, id))
  {
    Associate(before, EventsOf(xs, w), after);
    FoundAfter(p, st, id, q, t0, before, EventsOf(xs, w) + after, t1);
    PolledAfter(p, st, id, q, t0, before + EventsOf(xs, w) + after, t2);
    MiddleRun(p, st, before, xs, w, after, id);
  }

  lemma RoomLater<C>(p: S.Policy, id: Text, q: S.Request, disk: bool, size: nat, less: nat, t0: int, before: seq<S.Event>, t1: int,
                     xs: seq<Interaction<C>>, w: World<C>, after: seq<S.Event>, t2: int)
    requires GoodRun(p, id, q, disk, size, t0, before, t1, xs, w, after, t2) && less <= size
    ensures GoodRun(p, id, q, disk, less, t0, before, t1, xs, w, after, t2)
  {
  }

  /** From a new registration on. */
  lemma NewClientPolls<C>(p: S.Policy, st: S.Store, id: Text, q: S.Request, t0: int, before: seq<S.Event>, t1: int,
                          xs: seq<Interaction<C>>, w: World<C>, after: seq<S.Event>, t2: int)
    requires id !in st.sessions && q.aesKey.Some?
    requires GoodRun(p, id, q, st.db.Some?, |st.sessions| + 1, t0, before, t1, xs, w, after, t2)
    ensures var registered := S.Register(p, st, id, q, t0).0;
            && Registered(p, S.Run(p, registered, before).0, t1)(id)
            && PollReturns(p, registered, id, q, before, xs, w, after, t2, PayloadsFor(xs, w, id))
  {
    var registered := S.Register(p, st, id, q, t0).0;
    RegisteredShows(p, st, id, q, t0);
    RoomLater(p, id, q, st.db.Some?, |st.sessions| + 1, |registered.sessions|, t0, before, t1, xs, w, after, t2);
    CapturedIsPolled(p, registered, id, q, t0, before, t1, xs, w, after, t2);
  }

  // A DNS or HTTP payload

  /** What the server hands over for one of the client's payload domains. */
  function PayloadCopies<C>(cfg: Config, cid: Text, random: Octets, host: Text, lookup: Text -> bool, x: Interaction<C>)
    : seq<Interaction<C>>
  {
    CopiesOf(MatchesFor(cfg, Domain(cid, random, host), "", lookup), x)
  }

  predicate GoodClient(cfg: Config, cid: Text, random: Octets, host: Text) {
    && IsCIDBase32(cid) && 0 < cfg.cidLength <= |cid| && |cid| + |random| >= cfg.cidLength + MIN_NONCE_LENGTH
    && ToLower(host) in cfg.domains
  }

  lemma PayloadCopiesFirst<C>(cfg: Config, cid: Text, random: Octets, host: Text, lookup: Text -> bool, x: Interaction<C>, w: World<C>)
    requires GoodClient(cfg, cid, random, host) && LongestFirst(cfg.domains) && lookup(cid[..cfg.cidLength])
    ensures RegisterId(cid, cfg.cidLength) == PollId(cid, cfg.cidLength) == Some(cid[..cfg.cidLength])
    ensures var xs := PayloadCopies(cfg, cid, random, host, lookup, x);
            var copy := Interaction(cid[..cfg.cidLength], cid + Nonce(random), x.content);
            xs != [] && xs[0] == copy && PayloadsFor(xs, w, cid[..cfg.cidLength]) == Ciphertext(w(copy))
  {
    PayloadMatchesClient(cid, random, host, cfg.cidLength, cfg.domains, lookup);
    CapturedAt(cfg, Domain(cid, random, host), "", x, lookup, 0);
    CopyPayload(cfg, Domain(cid, random, host), "", x, lookup, w, cid[..cfg.cidLength]);
  }

  /** A client registers, one of its payload domains is hit, the client polls.
      Before, between the appends of the capture, and after it any operations
      run on any ids, as long as the client's own come in time and there is room
      for every registration. The first match is the session registered, under
      id plus nonce as full id, and the poll returns what was captured for it,
      in order, on either backend. */
  lemma PayloadReachesItsClient<C>(p: S.Policy, st: S.Store, cfg: Config, cid: Text, random: Octets, host: Text, q: S.Request,
                                   t0: int, before: seq<S.Event>, t1: int, x: Interaction<C>, w: World<C>,
                                   after: seq<S.Event>, t2: int)
    requires GoodClient(cfg, cid, random, host) && LongestFirst(cfg.domains)
    requires cid[..cfg.cidLength] !in st.sessions && q.aesKey.Some?
    requires var id := cid[..cfg.cidLength];
             var lookup := Registered(p, S.Run(p, S.Register(p, st, id, q, t0).0, before).0, t1);
             GoodRun(p, id, q, st.db.Some?, |st.sessions| + 1, t0, before, t1,
                     PayloadCopies(cfg, cid, random, host, lookup, x), w, after, t2)
    ensures RegisterId(cid, cfg.cidLength) == PollId(cid, cfg.cidLength) == Some(cid[..cfg.cidLength])
    ensures var id := cid[..cfg.cidLength];
            var registered := S.Register(p, st, id, q, t0).0;
            var xs := PayloadCopies(cfg, cid, random, host, Registered(p, S.Run(p, registered, before).0, t1), x);
            var copy := Interaction(id, cid + Nonce(random), x.content);
            xs != [] && xs[0] == copy && PollReturns(p, registered, id, q, before, xs, w, after, t2, Ciphertext(w(copy)))
  {
    var id := cid[..cfg.cidLength];
    var lookup := Registered(p, S.Run(p, S.Register(p, st, id, q, t0).0, before).0, t1);
    NewClientPolls(p, st, id, q, t0, before, t1, PayloadCopies(cfg, cid, random, host, lookup, x), w, after, t2);
    PayloadCopiesFirst(cfg, cid, random, host, lookup, x, w);
  }

  // A payload address

  function Address(user: Text, cid: Text, random: Octets, host: Text): Text {
    user + "@" + Domain(cid, random, host)
  }

  lemma HostOfAddress(user: Text, name: Text)
    requires '@' !in user
    ensures RecipientHost(user + "@" + name) == Some(ToLower(name))
  {
    var rcpt := user + "@" + name;
    assert rcpt[|user|] == '@' && forall i :: 0 <= i < |user| ==> rcpt[i] == user[i];
    assert IndexOf(rcpt, '@') == |user| && rcpt[|user| + 1..] == name;
  }

  lemma {:induction false} BelowSome(front: Text, host: Text, domains: seq<Text>)
    requires host in domains
    ensures MatchedDomain(domains, front + "." + host).Some?
  {
    var qname := front + "." + host;
    if domains[0] == host {
      assert qname[|front|..] == "." + host;
    } else {
      BelowSome(front, host, domains[1..]);
    }
  }

  lemma LowerConcat(a: Text, b: Text)
    ensures ToLower(a + b) == ToLower(a) + ToLower(b)
  {
  }

  /** Mail to a payload address matches the client's session first. */
  lemma AddressMatches(cfg: Config, registry: Registry, user: Text, cid: Text, random: Octets, host: Text)
    requires GoodClient(cfg, cid, random, host) && LongestFirst(cfg.domains) && '@' !in user
    requires registry(Address(user, cid, random, host))(cid[..cfg.cidLength])
    ensures var cids := Cids(cfg, registry, Address(user, cid, random, host)); cids != [] && cids[0] == cid[..cfg.cidLength]
  {
    var rcpt := Address(user, cid, random, host);
    HostOfAddress(user, Domain(cid, random, host));
    var front := cid + Nonce(random);
    LowerConcat(front + ".", host);
    LowerConcat(front, ".");
    BelowSome(ToLower(front), ToLower(host), cfg.domains);
    assert ToLower(".") == ".";
    PayloadMatchesClient(cid, random, host, cfg.cidLength, cfg.domains, registry(rcpt));
  }

  lemma MatchingHas(cfg: Config, registry: Registry, recipients: seq<Text>, rcpt: Text, id: Text)
    requires rcpt in recipients && id in Cids(cfg, registry, rcpt)
    ensures rcpt in Matching(cfg, registry, Dedup(recipients), id)
  {
    DedupElements(recipients, rcpt);
    FilterElements(Matches(cfg, registry, id), Dedup(recipients), rcpt);
  }

  function Snapshot(lookup: Text -> bool): Registry {
    (rcpt: Text) => lookup
  }

  /** The copies of one message. */
  function MailCopies(cfg: Config, lookup: Text -> bool, m: Message, recipients: seq<Text>): seq<Record> {
    Records(cfg, Snapshot(lookup), m, Dedup(recipients))
  }

  /** The recipients of a message that match one session. */
  function MailRecipients(cfg: Config, lookup: Text -> bool, recipients: seq<Text>, id: Text): seq<Text> {
    Matching(cfg, Snapshot(lookup), Dedup(recipients), id)
  }

  lemma MailPayloads(cfg: Config, lookup: Text -> bool, m: Message, recipients: seq<Text>, w: World<Mail>, id: Text)
    ensures PayloadsFor(MailCopies(cfg, lookup, m, recipients), w, id) ==
            Encrypted(Copies(cfg, m, id, MailRecipients(cfg, lookup, recipients, id)), w)
  {
    PerSession(cfg, Snapshot(lookup), m, Dedup(recipients), id);
  }

  lemma AddressIsRecipient(cfg: Config, lookup: Text -> bool, user: Text, cid: Text, random: Octets, host: Text, recipients: seq<Text>)
    requires GoodClient(cfg, cid, random, host) && LongestFirst(cfg.domains) && '@' !in user && lookup(cid[..cfg.cidLength])
    requires Address(user, cid, random, host) in recipients
    ensures Address(user, cid, random, host) in MailRecipients(cfg, lookup, recipients, cid[..cfg.cidLength])
  {
    AddressMatches(cfg, Snapshot(lookup), user, cid, random, host);
    MatchingHas(cfg, Snapshot(lookup), recipients, Address(user, cid, random, host), cid[..cfg.cidLength]);
  }

  /** The same for a message to one of the client's payload addresses among any
      recipients: the poll returns one copy for every distinct recipient that
      matches the client's session, the address among them. */
  lemma MailReachesItsClient(p: S.Policy, st: S.Store, cfg: Config, user: Text, cid: Text, random: Octets, host: Text, q: S.Request,
                             t0: int, before: seq<S.Event>, t1: int, m: Message, recipients: seq<Text>, w: World<Mail>,
                             after: seq<S.Event>, t2: int)
    requires GoodClient(cfg, cid, random, host) && LongestFirst(cfg.domains) && '@' !in user
    requires Address(user, cid, random, host) in recipients
    requires cid[..cfg.cidLength] !in st.sessions && q.aesKey.Some?
    requires var id := cid[..cfg.cidLength];
             var lookup := Registered(p, S.Run(p, S.Register(p, st, id, q, t0).0, before).0, t1);
             GoodRun(p, id, q, st.db.Some?, |st.sessions| + 1, t0, before, t1,
                     MailCopies(cfg, lookup, m, recipients), w, after, t2)
    ensures var id := cid[..cfg.cidLength];
            var registered := S.Register(p, st, id, q, t0).0;
            var lookup := Registered(p, S.Run(p, registered, before).0, t1);
            var rcpts := MailRecipients(cfg, lookup, recipients, id);
            && Address(user, cid, random, host) in rcpts
            && PollReturns(p, registered, id, q, before, MailCopies(cfg, lookup, m, recipients), w, after, t2,
                           Encrypted(Copies(cfg, m, id, rcpts), w))
  {
    var id := cid[..cfg.cidLength];
    var lookup := Registered(p, S.Run(p, S.Register(p, st, id, q, t0).0, before).0, t1);
    NewClientPolls(p, st, id, q, t0, before, t1, MailCopies(cfg, lookup, m, recipients), w, after, t2);
    AddressIsRecipient(cfg, lookup, user, cid, random, host, recipients);
    MailPayloads(cfg, lookup, m, recipients, w, id);
  }

  // A message counted as matched of which nothing is stored

  /** The copies for a store that holds the client's session alone. */
  lemma OnlyItsCopies(p: S.Policy, db: Option<map<S.Id, Bytes>>, cfg: Config, user: Text, cid: Text, random: Octets, host: Text,
                      q: S.Request, m: Message, now: int)
    requires GoodClient(cfg, cid, random, host) && LongestFirst(cfg.domains) && '@' !in user && q.aesKey.Some?
    requires p.ttl >= 0 || p.noEviction
    ensures var st := S.Register(p, S.Empty(db), cid[..cfg.cidLength], q, now).0;
            var xs := MailCopies(cfg, Registered(p, st, now), m, [Address(user, cid, random, host)]);
            xs != [] && AllFor(xs, [cid[..cfg.cidLength]]) && Shows(st, cid[..cfg.cidLength], q, now, View(now, []))
  {
    var id, rcpt := cid[..cfg.cidLength], Address(user, cid, random, host);
    var st := S.Register(p, S.Empty(db), id, q, now).0;
    var lookup := Registered(p, st, now);
    RegisteredShows(p, S.Empty(db), id, q, now);
    FoundInTime(p, st, id, q, now, View(now, []), now);
    AddressIsRecipient(cfg, lookup, user, cid, random, host, [rcpt]);
    var xs := MailCopies(cfg, lookup, m, [rcpt]);
    PerSession(cfg, Snapshot(lookup), m, Dedup([rcpt]), id);
    assert OfSession(xs, id) != [];
    forall i | 0 <= i < |xs| ensures xs[i].uniqueID in [id] {
      RecordRegistered(cfg, Snapshot(lookup), m, Dedup([rcpt]), i);
      AloneRegistered(p, db, id, q, now, xs[i].uniqueID);
    }
  }

  lemma AloneRegistered(p: S.Policy, db: Option<map<S.Id, Bytes>>, id: Text, q: S.Request, now: int, other: Text)
    requires Registered(p, S.Register(p, S.Empty(db), id, q, now).0, now)(other)
    ensures other == id
  {
    StepModerate(p, S.Empty(db), S.Event(now, S.RegisterOp(id, q)));
  }

  function Failing(now: int): World<Mail> {
    (x: Record) => Attempt([], now, None)
  }

  function Removing(now: int, id: Text, secret: Text, e: Bytes): World<Mail> {
    (x: Record) => Attempt([S.Event(now, S.DeleteOp(id, secret))], now, Some(e))
  }

  /** A registered client's payload address is written to. If the encryption
      fails, or the client deregisters between the match and the append, there
      was something to hand over, so that the match counter rises, and nothing
      is stored for anyone. */
  lemma CountedButNotStored(p: S.Policy, db: Option<map<S.Id, Bytes>>, cfg: Config, user: Text, cid: Text, random: Octets, host: Text,
                            q: S.Request, m: Message, now: int, e: Bytes)
    requires GoodClient(cfg, cid, random, host) && LongestFirst(cfg.domains) && '@' !in user && q.aesKey.Some?
    requires p.ttl >= 0 || p.noEviction
    ensures var id := cid[..cfg.cidLength];
            var st := S.Register(p, S.Empty(db), id, q, now).0;
            var xs := MailCopies(cfg, Registered(p, st, now), m, [Address(user, cid, random, host)]);
            && xs != []
            && !SomethingStored(p, st, xs, Failing(now))
            && !SomethingStored(p, st, xs, Removing(now, id, q.secret, e))
  {
    var id := cid[..cfg.cidLength];
    var st := S.Register(p, S.Empty(db), id, q, now).0;
    var xs := MailCopies(cfg, Registered(p, st, now), m, [Address(user, cid, random, host)]);
    OnlyItsCopies(p, db, cfg, user, cid, random, host, q, m, now);
    SomethingStoredIff(p, st, xs, Failing(now));
    SomethingStoredIff(p, st, xs, Removing(now, id, q.secret, e));
    NoneEncrypted(p, st, xs, now);
    NoneRegistered(p, st, xs, now, id, q.secret, e);
  }

  lemma {:induction false} NoneEncrypted(p: S.Policy, st: S.Store, xs: seq<Record>, now: int)
    ensures !SomeKept(p, st, xs, Failing(now))
  {
    if xs != [] {
      NoneEncrypted(p, st, xs[..|xs| - 1], now);
    }
  }

  predicate Secured(st: S.Store, id: Text, secret: Text) {
    id in st.sessions ==> st.sessions[id].secretKey == secret
  }

  lemma {:induction false} NoneRegistered(p: S.Policy, st: S.Store, xs: seq<Record>, now: int, id: Text, secret: Text, e: Bytes)
    requires AllFor(xs, [id]) && Secured(st, id, secret)
    ensures !SomeKept(p, st, xs, Removing(now, id, secret, e)) && Secured(AppendAll(p, st, xs, Removing(now, id, secret, e)), id, secret)
  {
    var w := Removing(now, id, secret, e);
    if xs != [] {
      var init := xs[..|xs| - 1];
      assert forall i :: 0 <= i < |init| ==> init[i] == xs[i];
      NoneRegistered(p, st, init, now, id, secret, e);
      LastAppend(p, st, xs, w);
      Deleted(p, AppendAll(p, st, init, w), id, secret, now);
      assert xs[|xs| - 1].uniqueID == id;
      AppendKeys(p, BeforeLast(p, st, xs, w), id, Some(e), now);
    }
  }

  lemma Deleted(p: S.Policy, st: S.Store, id: Text, secret: Text, now: int)
    requires Secured(st, id, secret)
    ensures id !in S.Run(p, st, [S.Event(now, S.DeleteOp(id, secret))]).0.sessions
  {
    var d := S.Event(now, S.DeleteOp(id, secret));
    assert [d][1..] == [] && S.Run(p, st, [d]).0 == S.Step(p, st, d).0;
  }

  /** The same with every text written out. */
  lemma MiscountedMessage(key: Bytes, e: Bytes)
    ensures var p := S.Policy(10, false, true, 1);
            var cfg := Config(["d"], 3, false, false);
            var q := S.Request("", "s", None, Some(key));
            var st := S.Register(p, S.Empty(None), "aaa", q, 0).0;
            var xs := MailCopies(cfg, Registered(p, st, 0), Message("f", "b"), [Address("u", "aaa", [0, 0, 0], "d")]);
            xs != [] && !SomethingStored(p, st, xs, Failing(0)) && !SomethingStored(p, st, xs, Removing(0, "aaa", "s", e))
  {
    assert "aaa"[..3] == "aaa" && ToLower("d") == "d";
    CountedButNotStored(S.Policy(10, false, true, 1), None, Config(["d"], 3, false, false), "u", "aaa", [0, 0, 0], "d",
                        S.Request("", "s", None, Some(key)), Message("f", "b"), 0, e);
  }
}
