/** Correlation-id matching: the two-tier sliding-window scanner and its three
    front ends, proved against a definition by positions of the input text. */
module Matcher {
  import opened Prelude

  const MIN_NONCE_LENGTH := 3

  /** One match: the correlation id, and the text reported in front of it. */
  datatype Match = Match(uniqueID: Text, fullID: Text)

  predicate IsCIDChar(c: char) { '0' <= c <= '9' || 'a' <= c <= 'v' }

  predicate IsAlnumChar(c: char) { '0' <= c <= '9' || 'a' <= c <= 'z' }

  predicate IsCIDBase32(s: Text) {
    s != [] && forall i :: 0 <= i < |s| ==> IsCIDChar(s[i])
  }

  predicate IsAlphanumeric(s: Text) {
    s != [] && forall i :: 0 <= i < |s| ==> IsAlnumChar(s[i])
  }

  function LowerChar(c: char): char {
    if 'A' <= c <= 'Z' then ((c as int) + 32) as char else c
  }

  function ToLower(s: Text): (r: Text)
    ensures |r| == |s| && forall i :: 0 <= i < |s| ==> r[i] == LowerChar(s[i])
  {
    seq(|s|, i requires 0 <= i < |s| => LowerChar(s[i]))
  }

  // Splitting

  /** Index of the first `sep` in `s`, or |s|. */
  function IndexOf(s: Text, sep: char): (i: nat)
    ensures i <= |s| && (forall k :: 0 <= k < i ==> s[k] != sep) && (i < |s| ==> s[i] == sep)
  {
    if s == [] || s[0] == sep then 0 else 1 + IndexOf(s[1..], sep)
  }

  /** The dot-separated labels, as repeated strings.Cut produces them: an empty
      remainder ends the loop, so a trailing dot adds no label. */
  function Labels(s: Text): seq<Text> {
    if s == [] then []
    else
      var i := IndexOf(s, '.');
      [s[..i]] + if i < |s| then Labels(s[i + 1..]) else []
  }

  /** The maximal runs of characters that are not delimiters. */
  function Fields(s: Text, isDelim: char -> bool): seq<Text> {
    FieldsFrom(s, isDelim, 0)
  }

  /** Fields of `s`, of which the first `n` characters are already known to be
      free of delimiters. */
  function FieldsFrom(s: Text, isDelim: char -> bool, n: nat): seq<Text>
    requires n <= |s|
    decreases |s|, |s| - n
  {
    if n == |s| then (if s == [] then [] else [s])
    else if isDelim(s[n]) then
      (if n == 0 then [] else [s[..n]]) + FieldsFrom(s[n + 1..], isDelim, 0)
    else FieldsFrom(s, isDelim, n + 1)
  }

  // Windows

  /** An id in the base32 alphabet followed by three nonce characters. */
  predicate IsWindow(w: Text, cidLength: nat) {
    |w| == cidLength + MIN_NONCE_LENGTH && IsCIDBase32(w[..cidLength]) && IsAlphanumeric(w[cidLength..])
  }

  predicate WindowAt(s: Text, cidLength: nat, pos: nat) {
    pos + cidLength + MIN_NONCE_LENGTH <= |s| && IsWindow(s[pos..pos + cidLength + MIN_NONCE_LENGTH], cidLength)
  }

  /** The window at one position, if there is one. */
  function WindowHere(s: Text, cidLength: nat, pos: nat): seq<Text> {
    if WindowAt(s, cidLength, pos) then [s[pos..pos + cidLength + MIN_NONCE_LENGTH]] else []
  }

  /** The windows of `s` at `pos` and later, left to right. */
  function Windows(s: Text, cidLength: nat, pos: nat): seq<Text>
    decreases |s| - pos
  {
    if pos + cidLength + MIN_NONCE_LENGTH > |s| then []
    else WindowHere(s, cidLength, pos) + Windows(s, cidLength, pos + 1)
  }

  function Head(w: Text, cidLength: nat): Text {
    if cidLength <= |w| then w[..cidLength] else w
  }

  function Heads(ws: seq<Text>, cidLength: nat): (ids: seq<Text>)
    ensures |ids| == |ws| && forall i :: 0 <= i < |ws| ==> ids[i] == Head(ws[i], cidLength)
  {
    seq(|ws|, i requires 0 <= i < |ws| => Head(ws[i], cidLength))
  }

  function WindowIds(s: Text, cidLength: nat): seq<Text> {
    Heads(Windows(s, cidLength, 0), cidLength)
  }

  function AllWindows(parts: seq<Text>, cidLength: nat): seq<Text> {
    if parts == [] then [] else Windows(parts[0], cidLength, 0) + AllWindows(parts[1..], cidLength)
  }

  /** What the second tier looks at: labels that are an id and nothing more. */
  function BareLabels(labels: seq<Text>, cidLength: nat): seq<Text> {
    Filter((l: Text) => |l| == cidLength && IsCIDBase32(l), labels)
  }

  function CandidateIds(s: Text, cidLength: nat): seq<Text> {
    WindowIds(s, cidLength) + BareLabels(Labels(s), cidLength)
  }

  function MatchIds(s: Text, cidLength: nat, lookup: Text -> bool): seq<Text> {
    Dedup(Filter(lookup, CandidateIds(s, cidLength)))
  }

  function EverywhereIds(s: Text, cidLength: nat, lookup: Text -> bool): seq<Text> {
    Dedup(Filter(lookup, WindowIds(s, cidLength)))
  }

  // A delimiter outside the alphanumeric alphabet cannot change the windows.

  lemma WindowHereAfter(s: Text, cidLength: nat, i: nat, pos: nat)
    requires i < |s| && i < pos && pos + cidLength + MIN_NONCE_LENGTH <= |s|
    ensures WindowHere(s, cidLength, pos) == WindowHere(s[i + 1..], cidLength, pos - i - 1)
  {
    var t, w, q := s[i + 1..], cidLength + MIN_NONCE_LENGTH, pos - i - 1;
    assert s[pos..pos + w] == t[q..q + w];
  }

  lemma {:induction false} WindowsAfter(s: Text, cidLength: nat, i: nat, pos: nat)
    requires i < |s| && i < pos
    ensures Windows(s, cidLength, pos) == Windows(s[i + 1..], cidLength, pos - i - 1)
    decreases |s| - pos
  {
    if pos + cidLength + MIN_NONCE_LENGTH <= |s| {
      WindowHereAfter(s, cidLength, i, pos);
      WindowsAfter(s, cidLength, i, pos + 1);
    }
  }

  lemma WindowIsAlphanumeric(w: Text, cidLength: nat, k: nat)
    requires IsWindow(w, cidLength) && k < |w|
    ensures IsAlnumChar(w[k])
  {
    assert w[k] == if k < cidLength then w[..cidLength][k] else w[cidLength..][k - cidLength];
  }

  lemma NoWindowAcross(s: Text, cidLength: nat, i: nat, pos: nat)
    requires pos <= i < |s| && i < pos + cidLength + MIN_NONCE_LENGTH && !IsAlnumChar(s[i])
    ensures !WindowAt(s, cidLength, pos)
  {
    if WindowAt(s, cidLength, pos) {
      WindowIsAlphanumeric(s[pos..pos + cidLength + MIN_NONCE_LENGTH], cidLength, i - pos);
    }
  }

  lemma WindowHerePrefix(s: Text, cidLength: nat, i: nat, pos: nat)
    requires i < |s| && pos + cidLength + MIN_NONCE_LENGTH <= i
    ensures WindowHere(s[..i], cidLength, pos) == WindowHere(s, cidLength, pos)
  {
    var w := cidLength + MIN_NONCE_LENGTH;
    assert s[..i][pos..pos + w] == s[pos..pos + w];
  }

  lemma WindowsBefore(s: Text, cidLength: nat, i: nat, pos: nat)
    requires i < |s| && pos + cidLength + MIN_NONCE_LENGTH <= i
    requires Windows(s, cidLength, pos + 1) == Windows(s[..i], cidLength, pos + 1) + Windows(s[i + 1..], cidLength, 0)
    ensures Windows(s, cidLength, pos) == Windows(s[..i], cidLength, pos) + Windows(s[i + 1..], cidLength, 0)
  {
    WindowHerePrefix(s, cidLength, i, pos);
    Associate(WindowHere(s, cidLength, pos), Windows(s[..i], cidLength, pos + 1), Windows(s[i + 1..], cidLength, 0));
  }

  lemma {:induction false} WindowsSplit(s: Text, cidLength: nat, i: nat, pos: nat)
    requires pos <= i < |s| && !IsAlnumChar(s[i])
    ensures Windows(s, cidLength, pos) == Windows(s[..i], cidLength, pos) + Windows(s[i + 1..], cidLength, 0)
    decreases i - pos
  {
    if pos < i {
      WindowsSplit(s, cidLength, i, pos + 1);
    } else if pos + cidLength + MIN_NONCE_LENGTH <= |s| {
      WindowsAfter(s, cidLength, i, pos + 1);
    }
    if pos + cidLength + MIN_NONCE_LENGTH <= i {
      WindowsBefore(s, cidLength, i, pos);
    } else {
      WindowsAcross(s, cidLength, i, pos);
    }
  }

  /** Where a window would have to reach across the delimiter. */
  lemma WindowsAcross(s: Text, cidLength: nat, i: nat, pos: nat)
    requires pos <= i < |s| && !IsAlnumChar(s[i]) && i < pos + cidLength + MIN_NONCE_LENGTH
    requires pos < i ==> Windows(s, cidLength, pos + 1) == Windows(s[..i], cidLength, pos + 1) + Windows(s[i + 1..], cidLength, 0)
    requires pos == i && pos + cidLength + MIN_NONCE_LENGTH <= |s| ==> Windows(s, cidLength, pos + 1) == Windows(s[i + 1..], cidLength, 0)
    ensures Windows(s, cidLength, pos) == Windows(s[..i], cidLength, pos) + Windows(s[i + 1..], cidLength, 0)
  {
    var rest := Windows(s[i + 1..], cidLength, 0);
    NoWindowAcross(s, cidLength, i, pos);
    assert Windows(s[..i], cidLength, pos) == [] && [] + rest == rest;
    if pos + cidLength + MIN_NONCE_LENGTH > |s| {
      assert rest == [];
    } else {
      assert pos < i ==> Windows(s[..i], cidLength, pos + 1) == [];
    }
  }

  lemma AllWindowsCons(p: Text, parts: seq<Text>, cidLength: nat)
    ensures AllWindows([p] + parts, cidLength) == Windows(p, cidLength, 0) + AllWindows(parts, cidLength)
  {
    assert ([p] + parts)[1..] == parts;
  }

  lemma {:induction false} LabelWindows(s: Text, cidLength: nat)
    ensures AllWindows(Labels(s), cidLength) == Windows(s, cidLength, 0)
  {
    if s != [] {
      var i := IndexOf(s, '.');
      LabelsCut(s);
      if i < |s| {
        LabelWindows(s[i + 1..], cidLength);
        LabelWindowsStep(s, s[..i], s[i + 1..], i, cidLength);
      } else {
        AllWindowsCons(s, [], cidLength);
      }
    }
  }

  lemma LabelWindowsStep(s: Text, first: Text, rest: Text, i: nat, cidLength: nat)
    requires i < |s| && s[i] == '.' && first == s[..i] && rest == s[i + 1..]
    requires AllWindows(Labels(rest), cidLength) == Windows(rest, cidLength, 0)
    ensures AllWindows([first] + Labels(rest), cidLength) == Windows(s, cidLength, 0)
  {
    WindowsSplit(s, cidLength, i, 0);
    AllWindowsCons(first, Labels(rest), cidLength);
  }

  /** One round of strings.Cut. */
  lemma LabelsCut(s: Text)
    requires s != []
    ensures var i := IndexOf(s, '.');
            Labels(s) == if i < |s| then [s[..i]] + Labels(s[i + 1..]) else [s] + []
  {
    if IndexOf(s, '.') == |s| {
      assert s[..|s|] == s;
    }
  }

  lemma {:induction false} FieldWindows(s: Text, isDelim: char -> bool, n: nat, cidLength: nat)
    requires n <= |s| && forall c :: isDelim(c) ==> !IsAlnumChar(c)
    ensures AllWindows(FieldsFrom(s, isDelim, n), cidLength) == Windows(s, cidLength, 0)
    decreases |s|, |s| - n
  {
    if n < |s| {
      if isDelim(s[n]) {
        WindowsSplit(s, cidLength, n, 0);
        FieldWindows(s[n + 1..], isDelim, 0, cidLength);
        var rest := FieldsFrom(s[n + 1..], isDelim, 0);
        if n == 0 {
          assert Windows(s[..n], cidLength, 0) == [] && FieldsFrom(s, isDelim, n) == rest;
        } else {
          AllWindowsCons(s[..n], rest, cidLength);
        }
      } else {
        FieldWindows(s, isDelim, n + 1, cidLength);
      }
    } else if s != [] {
      AllWindowsCons(s, [], cidLength);
    }
  }
}
