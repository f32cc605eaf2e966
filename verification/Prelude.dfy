/** Types and sequence facts shared by the other modules. */
module Prelude {
  datatype Option<+T> = None | Some(value: T)

  newtype byte = b: int | 0 <= b < 256

  type Bytes = seq<byte>

  /** Correlation ids, secrets and every other text the server handles. */
  type Text = string

  /** The list a map holds under a key, empty if the key is absent. */
  function Under<K, T>(m: map<K, seq<T>>, k: K): seq<T> {
    if k in m then m[k] else []
  }

  ghost predicate NoDup<T>(s: seq<T>) {
    forall i, j :: 0 <= i < j < |s| ==> s[i] != s[j]
  }

  lemma Associate<T>(a: seq<T>, b: seq<T>, c: seq<T>)
    ensures (a + b) + c == a + (b + c)
  {
  }

  /** The elements of `s` that satisfy `p`, in order. */
  function Filter<T>(p: T -> bool, s: seq<T>): seq<T> {
    if s == [] then [] else (if p(s[0]) then [s[0]] else []) + Filter(p, s[1..])
  }

  lemma {:induction false} FilterConcat<T>(p: T -> bool, a: seq<T>, b: seq<T>)
    ensures Filter(p, a + b) == Filter(p, a) + Filter(p, b)
  {
    if a == [] {
      assert a + b == b;
    } else {
      assert (a + b)[0] == a[0] && (a + b)[1..] == a[1..] + b;
      FilterConcat(p, a[1..], b);
      Associate(if p(a[0]) then [a[0]] else [], Filter(p, a[1..]), Filter(p, b));
    }
  }

  lemma FilterOne<T>(p: T -> bool, x: T)
    ensures Filter(p, [x]) == if p(x) then [x] else []
  {
    assert [x][1..] == [];
    assert Filter(p, [x][1..]) == [];
  }

  function Flatten<T>(ss: seq<seq<T>>): seq<T> {
    if ss == [] then [] else Flatten(ss[..|ss| - 1]) + ss[|ss| - 1]
  }

  lemma {:induction false} FlattenElements<T>(ss: seq<seq<T>>, x: T)
    ensures x in Flatten(ss) <==> exists k :: 0 <= k < |ss| && x in ss[k]
  {
    if ss != [] {
      var init := ss[..|ss| - 1];
      FlattenElements(init, x);
      assert forall k :: 0 <= k < |init| ==> init[k] == ss[k];
    }
  }

  /** `s` without later repetitions: each value is kept where it first occurs. */
  function Dedup<T(==)>(s: seq<T>): seq<T> {
    if s == [] then []
    else
      var r := Dedup(s[..|s| - 1]);
      var x := s[|s| - 1];
      if x in r then r else r + [x]
  }

  lemma {:induction false} FilterElements<T>(p: T -> bool, s: seq<T>, x: T)
    ensures x in Filter(p, s) <==> x in s && p(x)
  {
    if s != [] {
      FilterElements(p, s[1..], x);
      assert x in s <==> x == s[0] || x in s[1..];
    }
  }

  lemma {:induction false} DedupElements<T>(s: seq<T>, x: T)
    ensures x in Dedup(s) <==> x in s
  {
    if s != [] {
      DedupElements(s[..|s| - 1], x);
      DedupElements(s[..|s| - 1], s[|s| - 1]);
      assert s == s[..|s| - 1] + [s[|s| - 1]];
    }
  }

  lemma {:induction false} DedupNoDup<T>(s: seq<T>)
    ensures NoDup(Dedup(s))
  {
    if s != [] {
      DedupNoDup(s[..|s| - 1]);
    }
  }

  lemma DedupAppend<T>(a: seq<T>, x: T)
    ensures Dedup(a + [x]) == if x in a then Dedup(a) else Dedup(a) + [x]
  {
    assert (a + [x])[..|a + [x]| - 1] == a;
    DedupElements(a, x);
  }

  lemma {:induction false} DedupIdempotent<T>(a: seq<T>)
    ensures Dedup(Dedup(a)) == Dedup(a)
  {
    if a != [] {
      var a', x := a[..|a| - 1], a[|a| - 1];
      DedupIdempotent(a');
      assert a == a' + [x];
      DedupAppend(a', x);
      DedupElements(a', x);
      DedupAppend(Dedup(a'), x);
    }
  }

  lemma {:induction false} DedupOfDedup<T>(a: seq<T>, b: seq<T>)
    ensures Dedup(Dedup(a) + b) == Dedup(a + b)
  {
    if b == [] {
      assert a + b == a && Dedup(a) + b == Dedup(a);
      DedupIdempotent(a);
    } else {
      var b', x := b[..|b| - 1], b[|b| - 1];
      DedupOfDedup(a, b');
      assert a + b == (a + b') + [x] && Dedup(a) + b == (Dedup(a) + b') + [x];
      DedupAppend(a + b', x);
      DedupAppend(Dedup(a) + b', x);
      DedupElements(a, x);
    }
  }

  lemma {:induction false} DedupHead<T>(s: seq<T>)
    ensures Dedup(s) == [] <==> s == []
    ensures s != [] ==> Dedup(s)[0] == s[0]
  {
    if |s| > 1 {
      DedupHead(s[..|s| - 1]);
    }
  }

  /** Deduplicating a concatenation appends only what the first part lacks. */
  lemma {:induction false} DedupConcat<T>(a: seq<T>, b: seq<T>)
    ensures Dedup(a + b) == Dedup(a) + Filter((x: T) => x !in a, Dedup(b))
  {
    if b == [] {
      assert a + b == a;
    } else {
      var b', x := b[..|b| - 1], b[|b| - 1];
      var isNew := (x: T) => x !in a;
      assert a + b == (a + b') + [x] && b == b' + [x];
      DedupAppend(a + b', x);
      DedupAppend(b', x);
      DedupConcat(a, b');
      FilterConcat(isNew, Dedup(b'), [x]);
      assert Filter(isNew, [x]) == if isNew(x) then [x] else [];
    }
  }
}
