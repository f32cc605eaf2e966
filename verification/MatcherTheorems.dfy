/** What the matcher promises, stated by positions of the input text alone. */
module MatcherTheorems {
  import opened Prelude
  import opened Matcher
  import opened FrontEnds

  /** `id` stands at `pos`, followed by three alphanumeric characters. */
  predicate OccursAt(s: Text, cidLength: nat, id: Text, pos: nat) {
    WindowAt(s, cidLength, pos) && s[pos..pos + cidLength] == id
  }

  /** `id` fills the space between two dots, or an end of the text. */
  predicate LabelAt(s: Text, id: Text, pos: nat) {
    && pos + |id| <= |s| && s[pos..pos + |id|] == id
    && (pos == 0 || s[pos - 1] == '.')
    && (pos + |id| == |s| || s[pos + |id|] == '.')
  }

  // Soundness and completeness

  lemma {:induction false} WindowElements(s: Text, cidLength: nat, pos: nat, id: Text)
    ensures id in Heads(Windows(s, cidLength, pos), cidLength) <==> exists p: nat :: p >= pos && OccursAt(s, cidLength, id, p)
    decreases |s| - pos
  {
    if pos + cidLength + MIN_NONCE_LENGTH <= |s| {
      WindowElements(s, cidLength, pos + 1, id);
      WindowIdsStep(s, cidLength, pos);
      if id in Heads(Windows(s, cidLength, pos), cidLength) && id !in Heads(Windows(s, cidLength, pos + 1), cidLength) {
        assert OccursAt(s, cidLength, id, pos);
      }
    }
  }

  lemma WindowIdsStep(s: Text, cidLength: nat, pos: nat)
    requires pos + cidLength + MIN_NONCE_LENGTH <= |s|
    ensures Heads(Windows(s, cidLength, pos), cidLength) ==
            (if WindowAt(s, cidLength, pos) then [s[pos..pos + cidLength]] else [])
            + Heads(Windows(s, cidLength, pos + 1), cidLength)
  {
    var w := s[pos..pos + cidLength + MIN_NONCE_LENGTH];
    var rest := Windows(s, cidLength, pos + 1);
    assert Heads([w] + rest, cidLength) == [w[..cidLength]] + Heads(rest, cidLength);
    assert w[..cidLength] == s[pos..pos + cidLength];
    assert [] + rest == rest && [] + Heads(rest, cidLength) == Heads(rest, cidLength);
  }

  lemma LabelShift(s: Text, i: nat, id: Text, pos: nat)
    requires i < |s| && s[i] == '.' && i < pos
    ensures LabelAt(s, id, pos) <==> LabelAt(s[i + 1..], id, pos - i - 1)
  {
    var t, q := s[i + 1..], pos - i - 1;
    if pos + |id| <= |s| {
      assert s[pos..pos + |id|] == t[q..q + |id|];
    }
  }

  lemma {:induction false} LabelElements(s: Text, id: Text)
    requires id != "" && '.' !in id
    ensures id in Labels(s) <==> exists pos: nat :: LabelAt(s, id, pos)
  {
    if s != "" {
      var i := IndexOf(s, '.');
      if i < |s| {
        LabelElements(s[i + 1..], id);
        CutLabels(s, s[i + 1..], i, id);
      } else {
        OnlyLabel(s, id);
      }
    }
  }

  /** The labels of a text with a dot: the first one and those of the rest. */
  lemma CutLabels(s: Text, t: Text, i: nat, id: Text)
    requires id != "" && '.' !in id && i == IndexOf(s, '.') < |s| && t == s[i + 1..]
    requires id in Labels(t) <==> exists q: nat :: LabelAt(t, id, q)
    ensures id in Labels(s) <==> exists pos: nat :: LabelAt(s, id, pos)
  {
    LabelsCut(s);
    InCons(id, s[..i], Labels(t));
    if id == s[..i] {
      HeadLabel(s, id);
    } else if id in Labels(t) {
      var q: nat :| LabelAt(t, id, q);
      LabelShift(s, i, id, q + i + 1);
    }
    if pos: nat :| LabelAt(s, id, pos) {
      if pos == 0 {
        FirstLabel(s, id);
      } else {
        LaterLabel(s, id, pos);
      }
    }
  }

  lemma OnlyLabel(s: Text, id: Text)
    requires s != "" && id != "" && '.' !in id && IndexOf(s, '.') == |s|
    ensures id in Labels(s) <==> exists pos: nat :: LabelAt(s, id, pos)
  {
    LabelsCut(s);
    InCons(id, s, []);
    if id == s {
      HeadLabel(s, id);
    }
    if pos: nat :| LabelAt(s, id, pos) {
      FirstLabel(s, id);
      assert s[..|s|] == s;
    }
  }

  lemma InCons(x: Text, first: Text, rest: seq<Text>)
    ensures x in [first] + rest <==> x == first || x in rest
  {
  }

  lemma HeadLabel(s: Text, id: Text)
    requires id == s[..IndexOf(s, '.')]
    ensures LabelAt(s, id, 0)
  {
  }

  lemma LaterLabel(s: Text, id: Text, pos: nat)
    requires pos > 0 && LabelAt(s, id, pos)
    ensures var i := IndexOf(s, '.'); i < pos && i < |s| && LabelAt(s[i + 1..], id, pos - i - 1)
  {
    LabelShift(s, IndexOf(s, '.'), id, pos);
  }

  lemma FirstLabel(s: Text, id: Text)
    requires id != "" && '.' !in id && LabelAt(s, id, 0)
    ensures id == s[..IndexOf(s, '.')]
  {
    var i := IndexOf(s, '.');
    assert forall k :: 0 <= k < |id| ==> s[k] == id[k];
  }

  /** MatchCorrelationID is sound, complete and free of duplicates: its ids are
      exactly the registered ones that occur in the text, in base32, before
      three alphanumeric characters or as a whole label of exact length. */
  lemma MatchSoundComplete(s: Text, cidLength: nat, lookup: Text -> bool, id: Text)
    ensures id in MatchIds(s, cidLength, lookup) <==>
            lookup(id) && ((exists pos: nat :: OccursAt(s, cidLength, id, pos))
                           || (|id| == cidLength && IsCIDBase32(id) && exists pos: nat :: LabelAt(s, id, pos)))
    ensures NoDup(MatchIds(s, cidLength, lookup))
  {
    var isBare := (l: Text) => |l| == cidLength && IsCIDBase32(l);
    DedupNoDup(Filter(lookup, CandidateIds(s, cidLength)));
    DedupElements(Filter(lookup, CandidateIds(s, cidLength)), id);
    FilterElements(lookup, CandidateIds(s, cidLength), id);
    FilterElements(isBare, Labels(s), id);
    WindowElements(s, cidLength, 0, id);
    if isBare(id) {
      LabelElements(s, id);
    }
    BareElements(s, cidLength, id);
  }

  lemma BareElements(s: Text, cidLength: nat, id: Text)
    ensures id in BareLabels(Labels(s), cidLength) <==> id in Labels(s) && |id| == cidLength && IsCIDBase32(id)
  {
    FilterElements((l: Text) => |l| == cidLength && IsCIDBase32(l), Labels(s), id);
  }

  // The front end that splits on other delimiters

  /** MatchCorrelationIDEverywhere lists precisely the first part of what
      MatchCorrelationID lists on the same text; what follows are the
      registered labels of exact length that no window carried. */
  lemma EverywhereIsFirstPart(s: Text, cidLength: nat, lookup: Text -> bool)
    ensures var bare := Dedup(Filter(lookup, BareLabels(Labels(s), cidLength)));
            MatchIds(s, cidLength, lookup) ==
            EverywhereIds(s, cidLength, lookup)
            + Filter((x: Text) => x !in Filter(lookup, WindowIds(s, cidLength)), bare)
  {
    FilterConcat(lookup, WindowIds(s, cidLength), BareLabels(Labels(s), cidLength));
    DedupConcat(Filter(lookup, WindowIds(s, cidLength)), Filter(lookup, BareLabels(Labels(s), cidLength)));
  }

  // Order

  /** `x` occurs in `t`, and no `y` before it. */
  predicate FirstBefore(t: seq<Text>, x: Text, y: Text) {
    t != [] && (t[0] == x || (t[0] != y && FirstBefore(t[1..], x, y)))
  }

  lemma {:induction false} FirstBeforeAppend(t: seq<Text>, z: Text, x: Text, y: Text)
    requires FirstBefore(t, x, y) || (x in t && y !in t)
    ensures FirstBefore(t + [z], x, y)
  {
    assert (t + [z])[0] == t[0] && (t + [z])[1..] == t[1..] + [z];
    if t[0] != x {
      assert t == [t[0]] + t[1..];
      FirstBeforeAppend(t[1..], z, x, y);
    }
  }

  lemma {:induction false} DedupOrder(t: seq<Text>, i: nat, j: nat)
    requires i < j < |Dedup(t)|
    ensures FirstBefore(t, Dedup(t)[i], Dedup(t)[j])
  {
    var t', z := t[..|t| - 1], t[|t| - 1];
    var x, y := Dedup(t)[i], Dedup(t)[j];
    assert t == t' + [z];
    DedupAppend(t', z);
    if j < |Dedup(t')| {
      DedupOrder(t', i, j);
    } else {
      DedupElements(t', x);
    }
    FirstBeforeAppend(t', z, x, y);
  }

  lemma {:induction false} FirstBeforeFilter(lookup: Text -> bool, t: seq<Text>, x: Text, y: Text)
    requires lookup(x) && lookup(y) && FirstBefore(Filter(lookup, t), x, y)
    ensures FirstBefore(t, x, y)
  {
    var rest := Filter(lookup, t[1..]);
    if !lookup(t[0]) {
      assert Filter(lookup, t) == rest;
      FirstBeforeFilter(lookup, t[1..], x, y);
    } else if t[0] != x {
      assert ([t[0]] + rest)[1..] == rest;
      FirstBeforeFilter(lookup, t[1..], x, y);
    }
  }

  lemma {:induction false} FirstBeforePosition(s: Text, cidLength: nat, pos: nat, bare: seq<Text>, x: Text, y: Text, q: nat)
    requires FirstBefore(Heads(Windows(s, cidLength, pos), cidLength) + bare, x, y)
    requires x != y && q >= pos && OccursAt(s, cidLength, y, q)
    ensures exists p: nat :: pos <= p < q && OccursAt(s, cidLength, x, p)
    decreases |s| - pos
  {
    WindowIdsStep(s, cidLength, pos);
    var all := Heads(Windows(s, cidLength, pos), cidLength) + bare;
    var t := Heads(Windows(s, cidLength, pos + 1), cidLength) + bare;
    if WindowAt(s, cidLength, pos) {
      assert all == [s[pos..pos + cidLength]] + t;
      assert all[1..] == t;
      if all[0] == x {
        assert OccursAt(s, cidLength, x, pos);
      } else {
        FirstBeforePosition(s, cidLength, pos + 1, bare, x, y, q);
      }
    } else {
      assert all == t;
      FirstBeforePosition(s, cidLength, pos + 1, bare, x, y, q);
    }
  }

  /** Scan order: of two matched ids, the earlier one first occurs to the left
      of every window that carries the later one. */
  lemma MatchOrder(s: Text, cidLength: nat, lookup: Text -> bool, i: nat, j: nat, q: nat)
    requires i < j < |MatchIds(s, cidLength, lookup)|
    requires OccursAt(s, cidLength, MatchIds(s, cidLength, lookup)[j], q)
    ensures exists p: nat :: p < q && OccursAt(s, cidLength, MatchIds(s, cidLength, lookup)[i], p)
  {
    var ids := MatchIds(s, cidLength, lookup);
    var found := Filter(lookup, CandidateIds(s, cidLength));
    DedupOrder(found, i, j);
    forall k | 0 <= k < |ids| ensures lookup(ids[k]) {
      DedupElements(found, ids[k]);
      FilterElements(lookup, CandidateIds(s, cidLength), ids[k]);
    }
    DedupNoDup(found);
    FirstBeforeFilter(lookup, CandidateIds(s, cidLength), ids[i], ids[j]);
    FirstBeforePosition(s, cidLength, 0, BareLabels(Labels(s), cidLength), ids[i], ids[j], q);
  }

  // LDAP

  /** The LDAP front end reports the union over the trimmed parts of the DN of
      what MatchCorrelationID finds in each, once each. */
  lemma LdapIsUnion(baseDN: Text, cidLength: nat, lookup: Text -> bool, id: Text)
    ensures var fields := Fields(baseDN, LdapDelimiter());
            var ids := Dedup(AllPartIds(fields, cidLength, lookup));
            && NoDup(ids)
            && (id in ids <==> exists k :: 0 <= k < |fields| && id in MatchIds(LdapPart(fields[k]), cidLength, lookup))
  {
    var fields := Fields(baseDN, LdapDelimiter());
    DedupNoDup(AllPartIds(fields, cidLength, lookup));
    DedupElements(AllPartIds(fields, cidLength, lookup), id);
    FlattenElements(PartLists(fields, cidLength, lookup), id);
    forall k | 0 <= k < |fields|
      ensures id in MatchIds(LdapPart(fields[k]), cidLength, lookup) <==> id in PartIds(LdapPart(fields[k]), cidLength, lookup)
    {
      DedupElements(PartIds(LdapPart(fields[k]), cidLength, lookup), id);
    }
  }
}
