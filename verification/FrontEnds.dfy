/** The three matching functions built on the scanner. */
module FrontEnds {
  import opened Prelude
  import opened Matcher
  import opened Scanner

  function Ids(ms: seq<Match>): (ids: seq<Text>)
    ensures |ids| == |ms| && forall i :: 0 <= i < |ms| ==> ids[i] == ms[i].uniqueID
  {
    seq(|ms|, i requires 0 <= i < |ms| => ms[i].uniqueID)
  }

  predicate MatchesContain(ms: seq<Match>, id: Text) {
    exists i :: 0 <= i < |ms| && ms[i].uniqueID == id
  }

  predicate HasSuffix(s: Text, suffix: Text) {
    |suffix| <= |s| && s[|s| - |suffix|..] == suffix
  }

  function CutSuffix(s: Text, suffix: Text): Option<Text> {
    if HasSuffix(s, suffix) then Some(s[..|s| - |suffix|]) else None
  }

  function ExtractFullID(input: Text, domains: seq<Text>): Text {
    if domains == [] then input
    else
      match CutSuffix(input, "." + domains[0])
      case Some(front) => front
      case None => ExtractFullID(input, domains[1..])
  }

  function SetFullID(ms: seq<Match>, fullID: Text): (r: seq<Match>)
    ensures |r| == |ms| && forall i :: 0 <= i < |ms| ==> r[i] == Match(ms[i].uniqueID, fullID)
  {
    seq(|ms|, i requires 0 <= i < |ms| => Match(ms[i].uniqueID, fullID))
  }

  method AssignFullID(ms: seq<Match>, fullID: Text) returns (r: seq<Match>)
    ensures r == SetFullID(ms, fullID)
  {
    r := ms;
    for i := 0 to |r|
      invariant |r| == |ms|
      invariant forall k :: 0 <= k < i ==> r[k] == Match(ms[k].uniqueID, fullID)
      invariant forall k :: i <= k < |r| ==> r[k] == ms[k]
    {
      r := r[i := r[i].(fullID := fullID)];
    }
  }

  // Hits and candidates

  lemma {:induction false} Tier1Candidates(labels: seq<Text>, cidLength: nat)
    ensures Candidates(Tier1(labels, cidLength)) == Heads(AllWindows(labels, cidLength), cidLength)
  {
    if labels != [] {
      Tier1Candidates(labels[1..], cidLength);
      var h, t := HitsFrom(labels[0], cidLength, 0), Tier1(labels[1..], cidLength);
      var w, v := Windows(labels[0], cidLength, 0), AllWindows(labels[1..], cidLength);
      assert Candidates(h + t) == Candidates(h) + Candidates(t);
      assert Heads(w + v, cidLength) == Heads(w, cidLength) + Heads(v, cidLength);
      assert Candidates(h) == Heads(w, cidLength);
    }
  }

  lemma {:induction false} Tier2Candidates(labels: seq<Text>, cidLength: nat)
    ensures Candidates(Tier2(labels, cidLength)) == BareLabels(labels, cidLength)
  {
    if labels != [] {
      Tier2Candidates(labels[1..], cidLength);
      var t := Tier2(labels[1..], cidLength);
      var l := labels[0];
      if |l| == cidLength && IsCIDBase32(l) {
        assert Candidates([Hit(l, l)] + t) == [l] + Candidates(t);
      }
    }
  }

  lemma HitCandidates(input: Text, cidLength: nat)
    ensures Candidates(Hits(input, cidLength)) == CandidateIds(input, cidLength)
  {
    var labels := Labels(input);
    Tier1Candidates(labels, cidLength);
    Tier2Candidates(labels, cidLength);
    LabelWindows(input, cidLength);
    var a, b := Tier1(labels, cidLength), Tier2(labels, cidLength);
    assert Candidates(a + b) == Candidates(a) + Candidates(b);
  }

  // MatchCorrelationID

  function CollectLookup(lookup: Text -> bool): Lookup<seq<Match>> {
    (ms: seq<Match>, c: Text) => lookup(c)
  }

  function CollectMatch(): OnMatch<seq<Match>> {
    (ms: seq<Match>, c: Text, l: Text) => if MatchesContain(ms, c) then (ms, true) else (ms + [Match(c, "")], true)
  }

  lemma IdsAppend(ms: seq<Match>, m: Match)
    ensures Ids(ms + [m]) == Ids(ms) + [m.uniqueID]
  {
  }

  lemma ContainsIds(ms: seq<Match>, id: Text)
    ensures MatchesContain(ms, id) <==> id in Ids(ms)
  {
    if MatchesContain(ms, id) {
      var i :| 0 <= i < |ms| && ms[i].uniqueID == id;
      assert Ids(ms)[i] == id;
    }
  }

  lemma CandidatesCons(hits: seq<Hit>, lookup: Text -> bool)
    requires hits != []
    ensures Filter(lookup, Candidates(hits)) ==
            (if lookup(hits[0].candidate) then [hits[0].candidate] else []) + Filter(lookup, Candidates(hits[1..]))
  {
    assert Candidates(hits)[1..] == Candidates(hits[1..]);
  }

  lemma {:induction false} CollectFold(hits: seq<Hit>, lookup: Text -> bool, ms: seq<Match>)
    requires Dedup(Ids(ms)) == Ids(ms)
    ensures Ids(Fold(hits, CollectLookup(lookup), CollectMatch(), ms).0) ==
            Dedup(Ids(ms) + Filter(lookup, Candidates(hits)))
  {
    if hits == [] {
      assert Ids(ms) + [] == Ids(ms);
    } else {
      var c, rest := hits[0].candidate, Filter(lookup, Candidates(hits[1..]));
      CandidatesCons(hits, lookup);
      if !lookup(c) {
        CollectFold(hits[1..], lookup, ms);
        assert [] + rest == rest;
      } else {
        var ms' := CollectMatch()(ms, c, hits[0].lbl).0;
        CollectStep(ms, c, hits[0].lbl);
        CollectFold(hits[1..], lookup, ms');
        ShiftOne(Ids(ms), c, rest);
      }
    }
  }

  lemma CollectStep(ms: seq<Match>, c: Text, lbl: Text)
    requires Dedup(Ids(ms)) == Ids(ms)
    ensures CollectMatch()(ms, c, lbl).1
    ensures var ids := Ids(CollectMatch()(ms, c, lbl).0); ids == Dedup(Ids(ms) + [c]) && Dedup(ids) == ids
  {
    ContainsIds(ms, c);
    IdsAppend(ms, Match(c, ""));
    DedupAppend(Ids(ms), c);
    DedupIdempotent(Ids(ms) + [c]);
  }

  lemma ShiftOne(a: seq<Text>, x: Text, b: seq<Text>)
    ensures Dedup(Dedup(a + [x]) + b) == Dedup(a + ([x] + b))
  {
    DedupOfDedup(a + [x], b);
    assert a + [x] + b == a + ([x] + b);
  }

  method MatchCorrelationID(input: Text, cidLength: nat, domains: seq<Text>, lookup: Text -> bool)
    returns (matches: seq<Match>)
    ensures Ids(matches) == MatchIds(ToLower(input), cidLength, lookup)
    ensures forall m :: m in matches ==> m.fullID == ExtractFullID(ToLower(input), domains)
  {
    var lower := ToLower(input);
    matches := ScanLabels(lower, cidLength, CollectLookup(lookup), CollectMatch(), []);
    HitCandidates(lower, cidLength);
    CollectFold(Hits(lower, cidLength), lookup, []);
    assert [] + Filter(lookup, CandidateIds(lower, cidLength)) == Filter(lookup, CandidateIds(lower, cidLength));
    ghost var ids := Ids(matches);
    var fullID := ExtractFullID(lower, domains);
    matches := AssignFullID(matches, fullID);
    assert Ids(matches) == ids;
  }

  // The early-stopping scan of the HTTP handler

  function StopLookup(lookup: Text -> bool): Lookup<Option<Hit>> {
    (s: Option<Hit>, c: Text) => lookup(c)
  }

  function StopMatch(): OnMatch<Option<Hit>> {
    (s: Option<Hit>, c: Text, l: Text) => (Some(Hit(c, l)), false)
  }

  /** `h` is the first of the hits whose candidate is registered. */
  ghost predicate FirstHit(h: Hit, hits: seq<Hit>, lookup: Text -> bool) {
    exists k :: 0 <= k < |hits| && hits[k] == h && lookup(h.candidate)
                && forall j :: 0 <= j < k ==> !lookup(hits[j].candidate)
  }

  lemma FirstHitLater(h: Hit, hits: seq<Hit>, lookup: Text -> bool)
    requires hits != [] && !lookup(hits[0].candidate) && FirstHit(h, hits[1..], lookup)
    ensures FirstHit(h, hits, lookup)
  {
    var k :| 0 <= k < |hits[1..]| && hits[1..][k] == h && lookup(h.candidate)
             && forall j :: 0 <= j < k ==> !lookup(hits[1..][j].candidate);
    assert hits[k + 1] == h;
    forall j | 0 <= j < k + 1 ensures !lookup(hits[j].candidate) {
      assert j > 0 ==> hits[1..][j - 1] == hits[j];
    }
  }

  lemma {:induction false} StopFold(hits: seq<Hit>, lookup: Text -> bool)
    ensures var r := Fold(hits, StopLookup(lookup), StopMatch(), None).0;
            var found := Filter(lookup, Candidates(hits));
            if found == [] then r == None else r.Some? && r.value.candidate == found[0] && FirstHit(r.value, hits, lookup)
  {
    if hits != [] {
      CandidatesCons(hits, lookup);
      if !lookup(hits[0].candidate) {
        StopFold(hits[1..], lookup);
        if Filter(lookup, Candidates(hits)) != [] {
          FirstHitLater(Fold(hits, StopLookup(lookup), StopMatch(), None).0.value, hits, lookup);
        }
      }
    }
  }

  /** The id the HTTP handler answers for is the head of the full match list,
      and the label it reflects is where the scan first met that id. */
  method FirstMatch(hostname: Text, cidLength: nat, lookup: Text -> bool) returns (found: Option<Hit>)
    ensures found.None? <==> MatchIds(hostname, cidLength, lookup) == []
    ensures found.Some? ==> found.value.candidate == MatchIds(hostname, cidLength, lookup)[0]
    ensures found.Some? ==> FirstHit(found.value, Hits(hostname, cidLength), lookup)
  {
    found := ScanLabels(hostname, cidLength, StopLookup(lookup), StopMatch(), None);
    HitCandidates(hostname, cidLength);
    StopFold(Hits(hostname, cidLength), lookup);
    DedupHead(Filter(lookup, CandidateIds(hostname, cidLength)));
  }

  // MatchCorrelationIDEverywhere

  function ScanDelimiter(): char -> bool {
    (c: char) => c == '.' || c == '\n' || c == '\t' || c == '"' || c == '\''
  }

  /** `m` reports the first of the windows `ws` that carries its id. */
  ghost predicate FirstWindow(m: Match, ws: seq<Text>, cidLength: nat) {
    exists k :: 0 <= k < |ws| && ws[k] == m.fullID && Head(ws[k], cidLength) == m.uniqueID
                && forall j :: 0 <= j < k ==> Head(ws[j], cidLength) != m.uniqueID
  }

  /** The loop state once the windows `done` have been looked at. */
  ghost predicate Collected(matches: seq<Match>, seen: set<Text>, done: seq<Text>, cidLength: nat, lookup: Text -> bool) {
    && Ids(matches) == Dedup(Filter(lookup, Heads(done, cidLength)))
    && (forall id :: id in seen <==> id in Ids(matches))
    && forall m :: m in matches ==> FirstWindow(m, done, cidLength)
  }

  lemma FirstWindowLater(m: Match, done: seq<Text>, w: Text, cidLength: nat)
    requires FirstWindow(m, done, cidLength)
    ensures FirstWindow(m, done + [w], cidLength)
  {
    var k :| 0 <= k < |done| && done[k] == m.fullID && Head(done[k], cidLength) == m.uniqueID
             && forall j :: 0 <= j < k ==> Head(done[j], cidLength) != m.uniqueID;
    assert (done + [w])[k] == done[k];
  }

  lemma CollectWindow(matches: seq<Match>, seen: set<Text>, done: seq<Text>, w: Text, cidLength: nat, lookup: Text -> bool)
    requires Collected(matches, seen, done, cidLength, lookup)
    ensures var c := Head(w, cidLength);
            if c !in seen && lookup(c) then Collected(matches + [Match(c, w)], seen + {c}, done + [w], cidLength, lookup)
            else Collected(matches, seen, done + [w], cidLength, lookup)
  {
    var c, hs := Head(w, cidLength), Heads(done, cidLength);
    assert Heads(done + [w], cidLength) == hs + [c];
    FilterConcat(lookup, hs, [c]);
    assert Filter(lookup, [c]) == if lookup(c) then [c] else [];
    assert Filter(lookup, hs) + [] == Filter(lookup, hs);
    DedupAppend(Filter(lookup, hs), c);
    IdsAppend(matches, Match(c, w));
    forall m | m in matches ensures FirstWindow(m, done + [w], cidLength) {
      FirstWindowLater(m, done, w, cidLength);
    }
    if c !in seen && lookup(c) {
      DedupElements(Filter(lookup, hs), c);
      FilterElements(lookup, hs, c);
      forall j | 0 <= j < |done| ensures Head((done + [w])[j], cidLength) != c {
        assert hs[j] in hs;
      }
      assert (done + [w])[|done|] == w;
      assert FirstWindow(Match(c, w), done + [w], cidLength);
    }
  }

  lemma PastWindow(chunk: Text, cidLength: nat, pos: nat, past: seq<Text>)
    requires pos + cidLength + MIN_NONCE_LENGTH <= |chunk|
    ensures past + Windows(chunk, cidLength, pos) == (past + WindowHere(chunk, cidLength, pos)) + Windows(chunk, cidLength, pos + 1)
    ensures past + [] == past
  {
    Associate(past, WindowHere(chunk, cidLength, pos), Windows(chunk, cidLength, pos + 1));
  }

  /** One candidate window: a hit is collected unless its id was seen. */
  method ScanWindow(window: Text, cidLength: nat, lookup: Text -> bool, ms: seq<Match>, sn: set<Text>, ghost past: seq<Text>)
    returns (matches: seq<Match>, seen: set<Text>)
    requires |window| == cidLength + MIN_NONCE_LENGTH && Collected(ms, sn, past, cidLength, lookup)
    ensures Collected(matches, seen, if IsWindow(window, cidLength) then past + [window] else past, cidLength, lookup)
  {
    matches, seen := ms, sn;
    var candidate := window[..cidLength];
    if !IsCIDBase32(candidate) || !IsAlphanumeric(window[cidLength..]) {
      return;
    }
    CollectWindow(matches, seen, past, window, cidLength, lookup);
    if candidate !in seen && lookup(candidate) {
      seen := seen + {candidate};
      matches := matches + [Match(candidate, window)];
    }
  }

  method ScanChunk(chunk: Text, cidLength: nat, lookup: Text -> bool, ms: seq<Match>, sn: set<Text>, ghost done: seq<Text>)
    returns (matches: seq<Match>, seen: set<Text>)
    requires Collected(ms, sn, done, cidLength, lookup)
    ensures Collected(matches, seen, done + Windows(chunk, cidLength, 0), cidLength, lookup)
  {
    var windowSize := cidLength + MIN_NONCE_LENGTH;
    matches, seen := ms, sn;
    if |chunk| < windowSize {
      assert done + [] == done;
      return;
    }
    var pos := 0;
    ghost var past := done;
    while pos <= |chunk| - windowSize
      invariant pos <= |chunk| - windowSize + 1
      invariant past + Windows(chunk, cidLength, pos) == done + Windows(chunk, cidLength, 0)
      invariant Collected(matches, seen, past, cidLength, lookup)
    {
      PastWindow(chunk, cidLength, pos, past);
      matches, seen := ScanWindow(chunk[pos..pos + windowSize], cidLength, lookup, matches, seen, past);
      past := past + WindowHere(chunk, cidLength, pos);
      pos := pos + 1;
    }
    assert past + [] == past;
  }

  /** Splits on five delimiters instead of dots, and still finds exactly the
      windows of the whole text. */
  method MatchCorrelationIDEverywhere(input: Text, cidLength: nat, lookup: Text -> bool) returns (matches: seq<Match>)
    ensures Ids(matches) == EverywhereIds(ToLower(input), cidLength, lookup)
    ensures forall m :: m in matches ==> FirstWindow(m, Windows(ToLower(input), cidLength, 0), cidLength)
  {
    var lower := ToLower(input);
    var chunks := Fields(lower, ScanDelimiter());
    var seen: set<Text> := {};
    matches := [];
    ghost var done := [];
    for i := 0 to |chunks|
      invariant done + AllWindows(chunks[i..], cidLength) == AllWindows(chunks, cidLength)
      invariant Collected(matches, seen, done, cidLength, lookup)
    {
      ghost var here, rest := Windows(chunks[i], cidLength, 0), AllWindows(chunks[i + 1..], cidLength);
      assert AllWindows(chunks[i..], cidLength) == here + rest by { assert chunks[i..][1..] == chunks[i + 1..]; }
      Associate(done, here, rest);
      matches, seen := ScanChunk(chunks[i], cidLength, lookup, matches, seen, done);
      done := done + here;
    }
    assert done + [] == done;
    FieldWindows(lower, ScanDelimiter(), 0, cidLength);
  }

  // MatchLDAPCorrelationID

  function LdapDelimiter(): char -> bool {
    (c: char) => c == '=' || c == ','
  }

  predicate IsSpace(c: char) { c == ' ' || '\t' <= c <= '\r' }

  function TrimLeft(s: Text): Text {
    if s != [] && IsSpace(s[0]) then TrimLeft(s[1..]) else s
  }

  function TrimRight(s: Text): Text {
    if s != [] && IsSpace(s[|s| - 1]) then TrimRight(s[..|s| - 1]) else s
  }

  function TrimSpace(s: Text): Text { TrimRight(TrimLeft(s)) }

  function LdapPart(field: Text): Text { ToLower(TrimSpace(field)) }

  function PartIds(part: Text, cidLength: nat, lookup: Text -> bool): seq<Text> {
    Filter(lookup, CandidateIds(part, cidLength))
  }

  function PartLists(fields: seq<Text>, cidLength: nat, lookup: Text -> bool): (r: seq<seq<Text>>)
    ensures |r| == |fields|
    ensures forall k :: 0 <= k < |r| ==> r[k] == PartIds(LdapPart(fields[k]), cidLength, lookup)
  {
    seq(|fields|, i requires 0 <= i < |fields| => PartIds(LdapPart(fields[i]), cidLength, lookup))
  }

  function AllPartIds(fields: seq<Text>, cidLength: nat, lookup: Text -> bool): seq<Text> {
    Flatten(PartLists(fields, cidLength, lookup))
  }

  lemma AllPartIdsAppend(fields: seq<Text>, f: Text, cidLength: nat, lookup: Text -> bool)
    ensures AllPartIds(fields + [f], cidLength, lookup) ==
            AllPartIds(fields, cidLength, lookup) + PartIds(LdapPart(f), cidLength, lookup)
  {
    var lists := PartLists(fields + [f], cidLength, lookup);
    assert lists[..|fields|] == PartLists(fields, cidLength, lookup);
  }

  /** `m` carries the full id of the first part its id occurs in. */
  ghost predicate CreditedToFirst(m: Match, fields: seq<Text>, cidLength: nat, domains: seq<Text>, lookup: Text -> bool) {
    exists k :: 0 <= k < |fields|
                && m.uniqueID in PartIds(LdapPart(fields[k]), cidLength, lookup)
                && m.fullID == ExtractFullID(LdapPart(fields[k]), domains)
                && forall j :: 0 <= j < k ==> m.uniqueID !in PartIds(LdapPart(fields[j]), cidLength, lookup)
  }

  function LdapLookup(matches: seq<Match>, lookup: Text -> bool): Lookup<seq<Match>> {
    (part: seq<Match>, c: Text) => !MatchesContain(matches, c) && !MatchesContain(part, c) && lookup(c)
  }

  function LdapMatch(): OnMatch<seq<Match>> {
    (part: seq<Match>, c: Text, l: Text) => (part + [Match(c, "")], true)
  }

  lemma {:induction false} LdapFold(hits: seq<Hit>, lookup: Text -> bool, matches: seq<Match>, part: seq<Match>)
    requires Dedup(Ids(matches + part)) == Ids(matches + part)
    ensures var r := Fold(hits, LdapLookup(matches, lookup), LdapMatch(), part).0;
            Ids(matches + r) == Dedup(Ids(matches + part) + Filter(lookup, Candidates(hits)))
  {
    var ids := Ids(matches + part);
    if hits == [] {
      assert ids + [] == ids;
    } else {
      var c, rest := hits[0].candidate, Filter(lookup, Candidates(hits[1..]));
      CandidatesCons(hits, lookup);
      if !lookup(c) {
        LdapFold(hits[1..], lookup, matches, part);
        assert [] + rest == rest;
      } else {
        LdapStep(lookup, matches, part, c);
        LdapFold(hits[1..], lookup, matches, if LdapLookup(matches, lookup)(part, c) then part + [Match(c, "")] else part);
        ShiftOne(ids, c, rest);
        DedupOfDedup(ids, [c] + rest);
      }
    }
  }

  lemma LdapStep(lookup: Text -> bool, matches: seq<Match>, part: seq<Match>, c: Text)
    requires Dedup(Ids(matches + part)) == Ids(matches + part) && lookup(c)
    ensures var part' := if LdapLookup(matches, lookup)(part, c) then part + [Match(c, "")] else part;
            Ids(matches + part') == Dedup(Ids(matches + part) + [c])
            && Dedup(Ids(matches + part')) == Ids(matches + part')
  {
    var ids := Ids(matches + part);
    DedupAppend(ids, c);
    DedupIdempotent(ids + [c]);
    ContainsEither(matches, part, c);
    if LdapLookup(matches, lookup)(part, c) {
      Associate(matches, part, [Match(c, "")]);
      IdsAppend(matches + part, Match(c, ""));
    }
  }

  lemma ContainsEither(a: seq<Match>, b: seq<Match>, c: Text)
    ensures c in Ids(a + b) <==> MatchesContain(a, c) || MatchesContain(b, c)
  {
    ContainsIds(a, c);
    ContainsIds(b, c);
    assert Ids(a + b) == Ids(a) + Ids(b);
  }

  /** The matches of one part that no earlier part had. */
  method MatchPart(part: Text, cidLength: nat, domains: seq<Text>, lookup: Text -> bool, matches: seq<Match>)
    returns (partMatches: seq<Match>)
    requires Dedup(Ids(matches)) == Ids(matches)
    ensures Ids(matches + partMatches) == Dedup(Ids(matches) + PartIds(part, cidLength, lookup))
    ensures forall m :: m in partMatches ==> m.fullID == ExtractFullID(part, domains)
  {
    partMatches := ScanLabels(part, cidLength, LdapLookup(matches, lookup), LdapMatch(), []);
    HitCandidates(part, cidLength);
    assert matches + [] == matches;
    LdapFold(Hits(part, cidLength), lookup, matches, []);
    ghost var before := Ids(matches + partMatches);
    var fullID := ExtractFullID(part, domains);
    partMatches := AssignFullID(partMatches, fullID);
    assert Ids(matches + partMatches) == before;
  }

  lemma CreditedLater(m: Match, fields: seq<Text>, f: Text, cidLength: nat, domains: seq<Text>, lookup: Text -> bool)
    requires CreditedToFirst(m, fields, cidLength, domains, lookup)
    ensures CreditedToFirst(m, fields + [f], cidLength, domains, lookup)
  {
    var k :| 0 <= k < |fields|
             && m.uniqueID in PartIds(LdapPart(fields[k]), cidLength, lookup)
             && m.fullID == ExtractFullID(LdapPart(fields[k]), domains)
             && forall j :: 0 <= j < k ==> m.uniqueID !in PartIds(LdapPart(fields[j]), cidLength, lookup);
    assert (fields + [f])[k] == fields[k];
  }

  /** What the last part adds is credited to it. */
  lemma CreditedNow(matches: seq<Match>, partMatches: seq<Match>, m: Match, fields: seq<Text>, f: Text,
                    cidLength: nat, domains: seq<Text>, lookup: Text -> bool)
    requires Ids(matches) == Dedup(AllPartIds(fields, cidLength, lookup))
    requires Ids(matches + partMatches) == Dedup(Ids(matches) + PartIds(LdapPart(f), cidLength, lookup))
    requires m in partMatches && m.fullID == ExtractFullID(LdapPart(f), domains)
    ensures CreditedToFirst(m, fields + [f], cidLength, domains, lookup)
  {
    var id, all := m.uniqueID, matches + partMatches;
    DedupNoDup(Ids(matches) + PartIds(LdapPart(f), cidLength, lookup));
    var i :| 0 <= i < |partMatches| && partMatches[i] == m;
    assert Ids(all)[|matches| + i] == id;
    forall k | 0 <= k < |matches| ensures Ids(matches)[k] != id {
      assert Ids(all)[k] == Ids(matches)[k];
    }
    assert id in Ids(all) && id !in Ids(matches);
    DedupElements(Ids(matches) + PartIds(LdapPart(f), cidLength, lookup), id);
    DedupElements(AllPartIds(fields, cidLength, lookup), id);
    FlattenElements(PartLists(fields, cidLength, lookup), id);
    forall j | 0 <= j < |fields| ensures id !in PartIds(LdapPart(fields[j]), cidLength, lookup) {
      assert PartLists(fields, cidLength, lookup)[j] == PartIds(LdapPart(fields[j]), cidLength, lookup);
    }
    assert (fields + [f])[|fields|] == f;
    assert forall j :: 0 <= j < |fields| ==> (fields + [f])[j] == fields[j];
  }

  /** The ids of the parts so far, once each and in order, each credited to the
      first part that has it. */
  ghost predicate Reported(matches: seq<Match>, fields: seq<Text>, cidLength: nat, domains: seq<Text>, lookup: Text -> bool) {
    && Ids(matches) == Dedup(AllPartIds(fields, cidLength, lookup))
    && forall m :: m in matches ==> CreditedToFirst(m, fields, cidLength, domains, lookup)
  }

  /** One round of the loop. */
  method MatchField(field: Text, cidLength: nat, domains: seq<Text>, lookup: Text -> bool, before: seq<Match>, ghost fields: seq<Text>)
    returns (matches: seq<Match>)
    requires Reported(before, fields, cidLength, domains, lookup)
    ensures Reported(matches, fields + [field], cidLength, domains, lookup)
  {
    ghost var ids, earlier := PartIds(LdapPart(field), cidLength, lookup), AllPartIds(fields, cidLength, lookup);
    AllPartIdsAppend(fields, field, cidLength, lookup);
    DedupIdempotent(earlier);
    DedupOfDedup(earlier, ids);
    matches := before;
    var part := LdapPart(field);
    if part == "" {
      assert ids == [] && earlier + [] == earlier;
    } else {
      var partMatches := MatchPart(part, cidLength, domains, lookup, matches);
      forall m | m in partMatches ensures CreditedToFirst(m, fields + [field], cidLength, domains, lookup) {
        CreditedNow(before, partMatches, m, fields, field, cidLength, domains, lookup);
      }
      matches := matches + partMatches;
    }
    forall m | m in before ensures CreditedToFirst(m, fields + [field], cidLength, domains, lookup) {
      CreditedLater(m, fields, field, cidLength, domains, lookup);
    }
  }

  method MatchLDAPCorrelationID(baseDN: Text, cidLength: nat, domains: seq<Text>, lookup: Text -> bool)
    returns (matches: seq<Match>)
    ensures Reported(matches, Fields(baseDN, LdapDelimiter()), cidLength, domains, lookup)
  {
    var fields := Fields(baseDN, LdapDelimiter());
    matches := [];
    assert fields[..0] == [];
    for i := 0 to |fields|
      invariant Reported(matches, fields[..i], cidLength, domains, lookup)
    {
      matches := MatchField(fields[i], cidLength, domains, lookup, matches, fields[..i]);
      assert fields[..i + 1] == fields[..i] + [fields[i]];
    }
    assert fields[..|fields|] == fields;
  }
}
