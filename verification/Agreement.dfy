/** A client's payload domain and the server that has to recognise it. */
module Agreement {
  import opened Prelude
  import opened Matcher
  import opened FrontEnds
  import opened MatcherTheorems
  import opened Names
  import opened ClientId

  // The client

  /** zbase32 of the random bytes, cut to as many characters as bytes. */
  function Nonce(data: Octets): Text {
    var encoded := seq((8 * |data| + 4) / 5, i requires 0 <= i => ZBASE32_ALPHABET[Quintet(data, 5 * i) as int]);
    if |encoded| > |data| then encoded[..|data|] else encoded
  }

  function Domain(correlationID: Text, random: Octets, host: Text): Text {
    correlationID + Nonce(random) + "." + host
  }

  // Agreement

  lemma ZBase32IsAlphanumeric(k: nat)
    requires k < 32
    ensures IsAlnumChar(ZBASE32_ALPHABET[k])
  {
  }

  lemma NonceAlphanumeric(data: Octets)
    ensures |Nonce(data)| == |data|
    ensures forall i :: 0 <= i < |data| ==> IsAlnumChar(Nonce(data)[i])
  {
    forall i: nat ensures IsAlnumChar(ZBASE32_ALPHABET[Quintet(data, 5 * i) as int]) {
      ZBase32IsAlphanumeric(Quintet(data, 5 * i) as int);
    }
  }

  lemma LowerAlnum(s: Text)
    requires forall i :: 0 <= i < |s| ==> IsAlnumChar(s[i])
    ensures ToLower(s) == s
  {
  }

  /** `host` stands at `k` and nowhere before it. */
  ghost predicate FirstAt(domains: seq<Text>, host: Text, k: nat) {
    k < |domains| && domains[k] == host && forall j :: 0 <= j < k ==> domains[j] != host
  }

  lemma DotInjective(a: Text, b: Text)
    ensures "." + a == "." + b <==> a == b
  {
    assert ("." + a)[1..] == a && ("." + b)[1..] == b;
  }

  /** Below `host` the text ends in `.d` for another domain `d` exactly when
      `host` itself does. */
  lemma SuffixBelow(front: Text, host: Text, d: Text)
    requires '.' !in front && d != host
    ensures HasSuffix(front + "." + host, "." + d) <==> HasSuffix(host, "." + d)
    ensures HasSuffix(host, "." + d) ==> |front + "." + host| - |"." + d| > |front|
  {
    var input, suffix := front + "." + host, "." + d;
    assert input[|front|..] == "." + host && input[|front| + 1..] == host;
    DotInjective(d, host);
    if HasSuffix(input, suffix) {
      var at := |input| - |suffix|;
      assert input[at] == input[at..][0] == '.';
      assert forall i :: 0 <= i < |front| ==> input[i] == front[i] && front[i] in front;
      assert host[|host| - |suffix|..] == input[at..];
    }
    if HasSuffix(host, suffix) {
      assert input[|input| - |suffix|..] == host[|host| - |suffix|..];
    }
  }

  /** The full id of a text below `host` is the text's front if and only if no
      domain tried before `host` is a proper dot-suffix of it. */
  lemma {:induction false} FullIDIsFrontIff(front: Text, host: Text, domains: seq<Text>, k: nat)
    requires '.' !in front && FirstAt(domains, host, k)
    ensures ExtractFullID(front + "." + host, domains) == front <==>
            forall j :: 0 <= j < k ==> !HasSuffix(host, "." + domains[j])
  {
    var input, suffix := front + "." + host, "." + domains[0];
    if k == 0 {
      assert input[|front|..] == suffix && input[..|front|] == front;
    } else {
      SuffixBelow(front, host, domains[0]);
      if !HasSuffix(host, suffix) {
        assert FirstAt(domains[1..], host, k - 1);
        FullIDIsFrontIff(front, host, domains[1..], k - 1);
        assert forall j :: 0 < j < k ==> domains[j] == domains[1..][j - 1];
      }
    }
  }

  lemma {:induction false} FirstPosition(domains: seq<Text>, host: Text) returns (k: nat)
    requires host in domains
    ensures FirstAt(domains, host, k)
  {
    if domains[0] == host {
      k := 0;
    } else {
      k := FirstPosition(domains[1..], host);
      k := k + 1;
    }
  }

  /** Among nested domains listed longest first, the one the text really ends
      in is the one cut off. */
  lemma FullIDIsFront(front: Text, host: Text, domains: seq<Text>)
    requires '.' !in front && host in domains && LongestFirst(domains)
    ensures ExtractFullID(front + "." + host, domains) == front
  {
    var k := FirstPosition(domains, host);
    FullIDIsFrontIff(front, host, domains, k);
  }

  /** The payload's first label is matched exactly when id and nonce together
      are long enough for one window. */
  lemma WindowFits(front: Text, rest: Text, cidLength: nat)
    requires 0 < cidLength <= |front| && forall i :: 0 <= i < |front| ==> IsAlnumChar(front[i])
    requires IsCIDBase32(front[..cidLength])
    ensures OccursAt(front + "." + rest, cidLength, front[..cidLength], 0) <==> |front| >= cidLength + MIN_NONCE_LENGTH
  {
    var s, w := front + "." + rest, cidLength + MIN_NONCE_LENGTH;
    if |front| >= w {
      assert s[0..w] == front[..w] && s[0..cidLength] == front[..cidLength];
      assert front[..w][..cidLength] == front[..cidLength];
      assert IsWindow(front[..w], cidLength);
    } else {
      assert s[|front|] == '.';
      NoWindowAcross(s, cidLength, |front|, 0);
    }
  }

  lemma FirstWindowFirst(s: Text, cidLength: nat, lookup: Text -> bool)
    requires WindowAt(s, cidLength, 0) && lookup(s[..cidLength])
    ensures MatchIds(s, cidLength, lookup) != [] && MatchIds(s, cidLength, lookup)[0] == s[..cidLength]
  {
    var id := s[..cidLength];
    CandidateHead(s, cidLength);
    var cs := CandidateIds(s, cidLength);
    assert cs == [id] + cs[1..];
    FilterHead(lookup, id, cs[1..]);
    DedupHead(Filter(lookup, cs));
  }

  lemma CandidateHead(s: Text, cidLength: nat)
    requires WindowAt(s, cidLength, 0)
    ensures CandidateIds(s, cidLength) != [] && CandidateIds(s, cidLength)[0] == s[..cidLength]
  {
    WindowIdsStep(s, cidLength, 0);
    assert s[0..cidLength] == s[..cidLength];
    assert WindowIds(s, cidLength)[0] == s[..cidLength];
  }

  lemma FilterHead(lookup: Text -> bool, id: Text, tail: seq<Text>)
    requires lookup(id)
    ensures Filter(lookup, [id] + tail) == [id] + Filter(lookup, tail)
  {
    assert ([id] + tail)[1..] == tail;
  }

  /** Every payload domain of a client whose id is registered is matched first
      to the very id that registration, polling and deregistration use, and is
      reported with exactly the client's id and nonce in front. */
  lemma PayloadMatchesClient(cid: Text, random: Octets, host: Text, cidLength: nat, domains: seq<Text>, lookup: Text -> bool)
    requires IsCIDBase32(cid) && 0 < cidLength <= |cid| && |cid| + |random| >= cidLength + MIN_NONCE_LENGTH
    requires ToLower(host) in domains && LongestFirst(domains)
    requires lookup(cid[..cidLength])
    ensures RegisterId(cid, cidLength) == PollId(cid, cidLength) == Some(cid[..cidLength])
    ensures var input := ToLower(Domain(cid, random, host));
            && MatchIds(input, cidLength, lookup) != []
            && MatchIds(input, cidLength, lookup)[0] == cid[..cidLength]
            && ExtractFullID(input, domains) == cid + Nonce(random)
  {
    var front := cid + Nonce(random);
    NonceAlphanumeric(random);
    LowerAlnum(front);
    var input := ToLower(Domain(cid, random, host));
    assert input == front + "." + ToLower(host);
    assert front[..cidLength] == cid[..cidLength] == input[..cidLength];
    WindowFits(front, ToLower(host), cidLength);
    FirstWindowFirst(input, cidLength, lookup);
    FullIDIsFront(front, ToLower(host), domains);
  }

  /** Among nested domains listed longest first, a name one label below a
      configured domain belongs to that domain. */
  lemma {:induction false} MatchedIsHost(front: Text, host: Text, domains: seq<Text>)
    requires '.' !in front && host in domains && LongestFirst(domains) && front + "." + host !in domains
    ensures MatchedDomain(domains, front + "." + host) == Some(host)
  {
    var qname := front + "." + host;
    var d := domains[0];
    var k :| 0 <= k < |domains| && domains[k] == host;
    assert |d| >= |host| && qname != d;
    assert qname[|front|..] == "." + host;
    if HasSuffix(qname, "." + d) {
      var at := |qname| - |"." + d|;
      assert qname[at] == qname[at..][0] == '.';
      assert forall i :: 0 <= i < |front| ==> qname[i] == front[i] && front[i] in front;
      DotInjective(d, host);
    } else {
      MatchedIsHost(front, host, domains[1..]);
    }
  }

  lemma {:induction false} NoCut(front: Text, domains: seq<Text>)
    requires '.' !in front
    ensures ExtractFullID(front, domains) == front
  {
    if domains != [] {
      var suffix := "." + domains[0];
      if |suffix| <= |front| {
        assert front[|front| - |suffix|] in front && front[|front| - |suffix|..][0] == front[|front| - |suffix|];
      }
      NoCut(front, domains[1..]);
    }
  }

  /** The DNS handler matches only what is left of the configured domain; it
      comes to the same id and full id as the whole name does. */
  lemma DnsMatchesClient(cid: Text, random: Octets, host: Text, cidLength: nat, domains: seq<Text>, lookup: Text -> bool)
    requires IsCIDBase32(cid) && 0 < cidLength <= |cid| && |cid| + |random| >= cidLength + MIN_NONCE_LENGTH
    requires ToLower(host) in domains && LongestFirst(domains) && lookup(cid[..cidLength])
    requires ToLower(Domain(cid, random, host)) !in domains
    ensures var qname := ToLower(Domain(cid, random, host));
            && MatchedDomain(domains, qname) == Some(ToLower(host))
            && var subdomain := ExtractSubdomain(qname, ToLower(host));
               && MatchIds(ToLower(subdomain), cidLength, lookup) != []
               && MatchIds(ToLower(subdomain), cidLength, lookup)[0] == cid[..cidLength]
               && ExtractFullID(ToLower(subdomain), domains) == cid + Nonce(random)
  {
    var front, h := cid + Nonce(random), ToLower(host);
    NonceAlphanumeric(random);
    LowerAlnum(front);
    assert ToLower(Domain(cid, random, host)) == front + "." + h;
    assert front[..cidLength] == cid[..cidLength];
    NoDots(front);
    MatchedIsHost(front, h, domains);
    CutDomain(front, h);
    FrontMatches(front, cidLength, lookup);
    NoCut(front, domains);
  }

  lemma NoDots(front: Text)
    requires forall i :: 0 <= i < |front| ==> IsAlnumChar(front[i])
    ensures '.' !in front
  {
  }

  lemma CutDomain(front: Text, host: Text)
    ensures ExtractSubdomain(front + "." + host, host) == front
  {
    var qname := front + "." + host;
    assert qname[|front|..] == "." + host && qname[..|front|] == front;
  }

  lemma FrontMatches(front: Text, cidLength: nat, lookup: Text -> bool)
    requires 0 < cidLength && |front| >= cidLength + MIN_NONCE_LENGTH && forall i :: 0 <= i < |front| ==> IsAlnumChar(front[i])
    requires IsCIDBase32(front[..cidLength]) && lookup(front[..cidLength])
    ensures MatchIds(front, cidLength, lookup) != [] && MatchIds(front, cidLength, lookup)[0] == front[..cidLength]
  {
    var w := front[..cidLength + MIN_NONCE_LENGTH];
    assert front[0..cidLength + MIN_NONCE_LENGTH] == w && w[..cidLength] == front[..cidLength];
    assert IsWindow(w, cidLength);
    FirstWindowFirst(front, cidLength, lookup);
  }
}
