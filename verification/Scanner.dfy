/** The scanning loops of the matcher. A callback that updates captured
    variables is modelled as a function from the captured state to the next. */
module Scanner {
  import opened Prelude
  import opened Matcher

  datatype Hit = Hit(candidate: Text, lbl: Text)

  function HitsFrom(lbl: Text, cidLength: nat, pos: nat): (hs: seq<Hit>)
    ensures |hs| == |Windows(lbl, cidLength, pos)|
    ensures forall i :: 0 <= i < |hs| ==> hs[i] == Hit(Head(Windows(lbl, cidLength, pos)[i], cidLength), lbl)
  {
    var ws := Windows(lbl, cidLength, pos);
    seq(|ws|, i requires 0 <= i < |ws| => Hit(Head(ws[i], cidLength), lbl))
  }

  function Tier1(labels: seq<Text>, cidLength: nat): seq<Hit> {
    if labels == [] then [] else HitsFrom(labels[0], cidLength, 0) + Tier1(labels[1..], cidLength)
  }

  function Tier2(labels: seq<Text>, cidLength: nat): seq<Hit> {
    if labels == [] then []
    else
      var l := labels[0];
      (if |l| == cidLength && IsCIDBase32(l) then [Hit(l, l)] else []) + Tier2(labels[1..], cidLength)
  }

  function Hits(input: Text, cidLength: nat): seq<Hit> {
    Tier1(Labels(input), cidLength) + Tier2(Labels(input), cidLength)
  }

  function Candidates(hits: seq<Hit>): (cs: seq<Text>)
    ensures |cs| == |hits| && forall i :: 0 <= i < |hits| ==> cs[i] == hits[i].candidate
  {
    seq(|hits|, i requires 0 <= i < |hits| => hits[i].candidate)
  }

  type Lookup<!S> = (S, Text) -> bool
  type OnMatch<!S> = (S, Text, Text) -> (S, bool)

  /** The callback's state after the hits that pass the lookup, in order, and
      whether the scan ran to the end rather than being stopped. */
  function Fold<S>(hits: seq<Hit>, lookup: Lookup<S>, onMatch: OnMatch<S>, s: S): (S, bool) {
    if hits == [] then (s, true)
    else if !lookup(s, hits[0].candidate) then Fold(hits[1..], lookup, onMatch, s)
    else
      var (s', more) := onMatch(s, hits[0].candidate, hits[0].lbl);
      if more then Fold(hits[1..], lookup, onMatch, s') else (s', false)
  }

  lemma FoldCons<S>(h: Hit, rest: seq<Hit>, lookup: Lookup<S>, onMatch: OnMatch<S>, s: S)
    ensures Fold([h] + rest, lookup, onMatch, s) ==
            if !lookup(s, h.candidate) then Fold(rest, lookup, onMatch, s)
            else if onMatch(s, h.candidate, h.lbl).1 then Fold(rest, lookup, onMatch, onMatch(s, h.candidate, h.lbl).0)
            else (onMatch(s, h.candidate, h.lbl).0, false)
  {
    assert ([h] + rest)[1..] == rest;
  }

  /** One step of the window loop. */
  lemma HitsFromStep(lbl: Text, cidLength: nat, pos: nat)
    requires pos + cidLength + MIN_NONCE_LENGTH <= |lbl|
    ensures var w := lbl[pos..pos + cidLength + MIN_NONCE_LENGTH];
            HitsFrom(lbl, cidLength, pos) ==
            (if IsWindow(w, cidLength) then [Hit(w[..cidLength], lbl)] else []) + HitsFrom(lbl, cidLength, pos + 1)
  {
    var w := lbl[pos..pos + cidLength + MIN_NONCE_LENGTH];
    var here := if IsWindow(w, cidLength) then [w] else [];
    assert Windows(lbl, cidLength, pos) == here + Windows(lbl, cidLength, pos + 1);
  }

  lemma {:induction false} FoldConcat<S>(a: seq<Hit>, b: seq<Hit>, lookup: Lookup<S>, onMatch: OnMatch<S>, s: S)
    ensures var (s', more) := Fold(a, lookup, onMatch, s);
            Fold(a + b, lookup, onMatch, s) == if more then Fold(b, lookup, onMatch, s') else (s', false)
  {
    if a == [] {
      assert a + b == b;
    } else {
      assert a + b == [a[0]] + (a[1..] + b) && a == [a[0]] + a[1..];
      FoldCons(a[0], a[1..] + b, lookup, onMatch, s);
      if !lookup(s, a[0].candidate) {
        FoldConcat(a[1..], b, lookup, onMatch, s);
      } else {
        FoldConcat(a[1..], b, lookup, onMatch, onMatch(s, a[0].candidate, a[0].lbl).0);
      }
    }
  }

  /** One candidate window of a label; `more` is what the callback answers. */
  method ScanWindow<S>(lbl: Text, cidLength: nat, pos: nat, lookup: Lookup<S>, onMatch: OnMatch<S>, start: S)
    returns (s: S, more: bool)
    requires pos + cidLength + MIN_NONCE_LENGTH <= |lbl|
    ensures Fold(HitsFrom(lbl, cidLength, pos), lookup, onMatch, start) ==
            if more then Fold(HitsFrom(lbl, cidLength, pos + 1), lookup, onMatch, s) else (s, false)
  {
    var window := lbl[pos..pos + cidLength + MIN_NONCE_LENGTH];
    var candidate := window[..cidLength];
    s, more := start, true;
    HitsFromStep(lbl, cidLength, pos);
    if !IsCIDBase32(candidate) || !IsAlphanumeric(window[cidLength..]) {
      assert HitsFrom(lbl, cidLength, pos) == HitsFrom(lbl, cidLength, pos + 1);
      return;
    }
    FoldCons(Hit(candidate, lbl), HitsFrom(lbl, cidLength, pos + 1), lookup, onMatch, s);
    if lookup(s, candidate) {
      var (s', go) := onMatch(s, candidate, lbl);
      s, more := s', go;
    }
  }

  /** The window loop over one label. */
  method ScanWindows<S>(lbl: Text, cidLength: nat, lookup: Lookup<S>, onMatch: OnMatch<S>, start: S)
    returns (s: S, more: bool)
    ensures (s, more) == Fold(HitsFrom(lbl, cidLength, 0), lookup, onMatch, start)
  {
    var windowSize := cidLength + MIN_NONCE_LENGTH;
    s, more := start, true;
    if |lbl| < windowSize {
      return;
    }
    var pos := 0;
    while pos <= |lbl| - windowSize
      invariant pos <= |lbl| - windowSize + 1
      invariant Fold(HitsFrom(lbl, cidLength, pos), lookup, onMatch, s) ==
                Fold(HitsFrom(lbl, cidLength, 0), lookup, onMatch, start)
      invariant more
    {
      s, more := ScanWindow(lbl, cidLength, pos, lookup, onMatch, s);
      if !more {
        return;
      }
      pos := pos + 1;
    }
  }

  /** strings.Cut at the first dot; `rest` is empty when there is none. */
  method CutLabel(remaining: Text) returns (lbl: Text, rest: Text)
    requires remaining != ""
    ensures Labels(remaining) == [lbl] + Labels(rest)
    ensures |rest| < |remaining|
  {
    var dot := IndexOf(remaining, '.');
    LabelsCut(remaining);
    assert Labels("") == [];
    assert dot == |remaining| ==> remaining[..dot] == remaining;
    lbl, rest := remaining[..dot], if dot < |remaining| then remaining[dot + 1..] else "";
  }

  lemma TierCons(lbl: Text, labels: seq<Text>, cidLength: nat)
    ensures Tier1([lbl] + labels, cidLength) == HitsFrom(lbl, cidLength, 0) + Tier1(labels, cidLength)
    ensures Tier2([lbl] + labels, cidLength) ==
            if |lbl| == cidLength && IsCIDBase32(lbl) then [Hit(lbl, lbl)] + Tier2(labels, cidLength)
            else Tier2(labels, cidLength)
  {
    assert ([lbl] + labels)[1..] == labels;
  }

  /** First tier: windows, label by label. */
  method ScanTier1<S>(input: Text, cidLength: nat, lookup: Lookup<S>, onMatch: OnMatch<S>, start: S)
    returns (s: S, more: bool)
    ensures (s, more) == Fold(Tier1(Labels(input), cidLength), lookup, onMatch, start)
  {
    s, more := start, true;
    var remaining := input;
    while remaining != ""
      invariant Fold(Tier1(Labels(remaining), cidLength), lookup, onMatch, s) ==
                Fold(Tier1(Labels(input), cidLength), lookup, onMatch, start)
      invariant more
      decreases |remaining|
    {
      var lbl, rest := CutLabel(remaining);
      TierCons(lbl, Labels(rest), cidLength);
      FoldConcat(HitsFrom(lbl, cidLength, 0), Tier1(Labels(rest), cidLength), lookup, onMatch, s);
      s, more := ScanWindows(lbl, cidLength, lookup, onMatch, s);
      if !more {
        return;
      }
      remaining := rest;
    }
  }

  /** Second tier: labels that are exactly an id. */
  method ScanTier2<S>(input: Text, cidLength: nat, lookup: Lookup<S>, onMatch: OnMatch<S>, start: S)
    returns (s: S, more: bool)
    ensures (s, more) == Fold(Tier2(Labels(input), cidLength), lookup, onMatch, start)
  {
    s, more := start, true;
    var remaining := input;
    while remaining != ""
      invariant Fold(Tier2(Labels(remaining), cidLength), lookup, onMatch, s) ==
                Fold(Tier2(Labels(input), cidLength), lookup, onMatch, start)
      invariant more
      decreases |remaining|
    {
      var lbl, rest := CutLabel(remaining);
      TierCons(lbl, Labels(rest), cidLength);
      remaining := rest;
      if |lbl| != cidLength || !IsCIDBase32(lbl) {
        continue;
      }
      FoldCons(Hit(lbl, lbl), Tier2(Labels(rest), cidLength), lookup, onMatch, s);
      if lookup(s, lbl) {
        var (s', go) := onMatch(s, lbl, lbl);
        s, more := s', go;
        if !more {
          return;
        }
      }
    }
  }

  method ScanLabels<S>(input: Text, cidLength: nat, lookup: Lookup<S>, onMatch: OnMatch<S>, start: S) returns (s: S)
    ensures s == Fold(Hits(input, cidLength), lookup, onMatch, start).0
  {
    var more;
    FoldConcat(Tier1(Labels(input), cidLength), Tier2(Labels(input), cidLength), lookup, onMatch, start);
    s, more := ScanTier1(input, cidLength, lookup, onMatch, start);
    if !more {
      return;
    }
    s, more := ScanTier2(input, cidLength, lookup, onMatch, s);
  }
}
