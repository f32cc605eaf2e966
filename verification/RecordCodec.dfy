/** The value stored under one LevelDB key: interactions as records of a
    four-byte big-endian length followed by the payload. */
module RecordCodec {
  import opened Prelude

  const UINT32_RANGE := 0x1_0000_0000

  predicate Fits(p: Bytes) {
    |p| < UINT32_RANGE
  }

  /** uint32(n), written most significant byte first. */
  function PutUint32(n: nat): (r: Bytes)
    ensures |r| == 4
  {
    var m := n % UINT32_RANGE;
    [(m / 0x100_0000) as byte, (m / 0x1_0000 % 0x100) as byte, (m / 0x100 % 0x100) as byte, (m % 0x100) as byte]
  }

  function Uint32(d: Bytes): (n: nat)
    requires |d| == 4
    ensures n < UINT32_RANGE
  {
    d[0] as int * 0x100_0000 + d[1] as int * 0x1_0000 + d[2] as int * 0x100 + d[3] as int
  }

  lemma Uint32RoundTrip(n: nat)
    ensures Uint32(PutUint32(n)) == n % UINT32_RANGE
  {
    var m := n % UINT32_RANGE;
    assert m == m / 0x100 * 0x100 + m % 0x100;
    assert m / 0x100 == m / 0x1_0000 * 0x100 + m / 0x100 % 0x100;
    assert m / 0x1_0000 == m / 0x100_0000 * 0x100 + m / 0x1_0000 % 0x100;
  }

  function EncodeRecord(p: Bytes): Bytes {
    PutUint32(|p|) + p
  }

  function EncodeAll(ps: seq<Bytes>): Bytes {
    if ps == [] then [] else EncodeRecord(ps[0]) + EncodeAll(ps[1..])
  }

  /** What the decoder reads: whole records from the front, stopping at the
      first length field that is incomplete or points past the end. */
  function Parse(data: Bytes): seq<Bytes>
    decreases |data|
  {
    if |data| < 4 then []
    else
      var n := Uint32(data[..4]);
      if 4 + n > |data| then [] else [data[4..4 + n]] + Parse(data[4 + n..])
  }

  method ParseRecords(data: Bytes) returns (interactions: seq<Bytes>)
    ensures interactions == Parse(data)
  {
    interactions := [];
    var off := 0;
    while off + 4 <= |data|
      invariant 0 <= off <= |data|
      invariant interactions + Parse(data[off..]) == Parse(data)
      decreases |data| - off
    {
      ParseStep(data, off, interactions);
      var n := Uint32(data[off..off + 4]);
      off := off + 4;
      if off + n > |data| {
        break;
      }
      interactions := interactions + [data[off..off + n]];
      off := off + n;
    }
  }

  /** One round of the decoder's loop. */
  lemma ParseStep(data: Bytes, off: nat, done: seq<Bytes>)
    requires off + 4 <= |data|
    ensures var n := Uint32(data[off..off + 4]);
            done + Parse(data[off..]) ==
            if off + 4 + n > |data| then done else (done + [data[off + 4..off + 4 + n]]) + Parse(data[off + 4 + n..])
  {
    var rest, n := data[off..], Uint32(data[off..off + 4]);
    assert rest[..4] == data[off..off + 4];
    if off + 4 + n <= |data| {
      assert rest[4..4 + n] == data[off + 4..off + 4 + n] && rest[4 + n..] == data[off + 4 + n..];
      Associate(done, [data[off + 4..off + 4 + n]], Parse(data[off + 4 + n..]));
    } else {
      assert done + [] == done;
    }
  }

  lemma {:induction false} EncodeAllAppend(ps: seq<Bytes>, p: Bytes)
    ensures EncodeAll(ps + [p]) == EncodeAll(ps) + EncodeRecord(p)
  {
    if ps != [] {
      assert (ps + [p])[1..] == ps[1..] + [p];
      EncodeAllAppend(ps[1..], p);
    }
  }

  /** One record in front of anything is read back; an oversized payload is
      cut to its length modulo 2^32 and the rest is read as further records. */
  lemma ParseRecord(p: Bytes, rest: Bytes)
    ensures var n := |p| % UINT32_RANGE;
            Parse(EncodeRecord(p) + rest) == [p[..n]] + Parse(p[n..] + rest)
  {
    var d, n := EncodeRecord(p) + rest, |p| % UINT32_RANGE;
    Uint32RoundTrip(|p|);
    assert d[..4] == PutUint32(|p|);
    assert d[4..4 + n] == p[..n];
    assert d[4 + n..] == p[n..] + rest;
  }

  lemma ParseFitting(p: Bytes, rest: Bytes)
    requires Fits(p)
    ensures Parse(EncodeRecord(p) + rest) == [p] + Parse(rest)
  {
    var d := EncodeRecord(p) + rest;
    Uint32RoundTrip(|p|);
    RecordParts(PutUint32(|p|), p, rest);
    assert Uint32(d[..4]) == |p|;
  }

  lemma RecordParts(prefix: Bytes, p: Bytes, rest: Bytes)
    requires |prefix| == 4
    ensures var d := prefix + p + rest; d[..4] == prefix && d[4..4 + |p|] == p && d[4 + |p|..] == rest
  {
  }

  lemma {:induction false} ParseEncodeAll(ps: seq<Bytes>, rest: Bytes)
    requires forall p :: p in ps ==> Fits(p)
    ensures Parse(EncodeAll(ps) + rest) == ps + Parse(rest)
  {
    if ps == [] {
      assert EncodeAll(ps) + rest == rest;
    } else {
      var p, tail := ps[0], EncodeAll(ps[1..]) + rest;
      assert EncodeAll(ps) + rest == EncodeRecord(p) + tail;
      assert Parse(EncodeRecord(p) + tail) == [p] + Parse(tail) by { ParseFitting(p, tail); }
      ParseEncodeAll(ps[1..], rest);
    }
  }

  /** Round trip, with its exact condition: a list of payloads comes back if
      and only if every length is representable in the four-byte field. */
  lemma {:induction false} RoundTrip(ps: seq<Bytes>)
    ensures Parse(EncodeAll(ps)) == ps <==> forall p :: p in ps ==> Fits(p)
  {
    if forall p :: p in ps ==> Fits(p) {
      ParseEncodeAll(ps, []);
      assert EncodeAll(ps) + [] == EncodeAll(ps);
    } else {
      ParseRecord(ps[0], EncodeAll(ps[1..]));
      if Fits(ps[0]) {
        ParseFitting(ps[0], EncodeAll(ps[1..]));
        RoundTrip(ps[1..]);
      }
    }
  }

  /** On arbitrary bytes: what was read re-encodes to a prefix of the data, and
      no list of representable payloads encodes to a longer one. */
  lemma {:induction false} ParseLongestPrefix(data: Bytes, qs: seq<Bytes>)
    requires forall q :: q in qs ==> Fits(q)
    ensures EncodeAll(Parse(data)) <= data
    ensures forall p :: p in Parse(data) ==> Fits(p)
    ensures EncodeAll(qs) <= data ==> qs <= Parse(data)
    decreases |data|
  {
    if EncodeAll(qs) <= data {
      ParseEncodeAll(qs, data[|EncodeAll(qs)|..]);
      assert EncodeAll(qs) + data[|EncodeAll(qs)|..] == data;
    }
    if |data| >= 4 && 4 + Uint32(data[..4]) <= |data| {
      ParseLongestPrefix(data[4 + Uint32(data[..4])..], []);
      RecordPrefix(data);
    }
  }

  lemma RecordPrefix(data: Bytes)
    requires |data| >= 4 && 4 + Uint32(data[..4]) <= |data|
    requires var rest := data[4 + Uint32(data[..4])..];
             EncodeAll(Parse(rest)) <= rest && forall p :: p in Parse(rest) ==> Fits(p)
    ensures EncodeAll(Parse(data)) <= data && forall p :: p in Parse(data) ==> Fits(p)
  {
    var n := Uint32(data[..4]);
    var p, r := data[4..4 + n], Parse(data[4 + n..]);
    PutUint32Uint32(data[..4]);
    assert Parse(data) == [p] + r && ([p] + r)[1..] == r;
    assert EncodeRecord(p) == data[..4] + p;
    PrefixJoin(data, n, EncodeAll(r));
  }

  lemma PrefixJoin(data: Bytes, n: nat, e: Bytes)
    requires 4 + n <= |data| && e <= data[4 + n..]
    ensures data[..4] + data[4..4 + n] + e <= data
  {
  }

  lemma PutUint32Uint32(d: Bytes)
    requires |d| == 4
    ensures PutUint32(Uint32(d)) == d
  {
    var n := Uint32(d);
    assert n / 0x100_0000 == d[0] as int;
    assert n / 0x1_0000 == d[0] as int * 0x100 + d[1] as int;
    assert n / 0x100 == d[0] as int * 0x1_0000 + d[1] as int * 0x100 + d[2] as int;
  }

  lemma {:induction false} EncodeAllMonotone(ps: seq<Bytes>, m: nat)
    requires m <= |ps|
    ensures EncodeAll(ps[..m]) <= EncodeAll(ps)
  {
    if m > 0 {
      assert ps[..m][1..] == ps[1..][..m - 1];
      EncodeAllMonotone(ps[1..], m - 1);
    }
  }

  /** A truncated value yields exactly the records that lie whole before the
      cut, in order. */
  lemma Truncation(ps: seq<Bytes>, k: nat)
    requires forall p :: p in ps ==> Fits(p)
    requires k <= |EncodeAll(ps)|
    ensures var r := Parse(EncodeAll(ps)[..k]);
            r <= ps && |EncodeAll(r)| <= k && (|r| < |ps| ==> k < |EncodeAll(ps[..|r| + 1])|)
  {
    var all := EncodeAll(ps);
    var cut := all[..k];
    var r := Parse(cut);
    ParseLongestPrefix(cut, []);
    ParseLongestPrefix(all, r);
    ParseEncodeAll(ps, []);
    assert all + [] == all;
    assert EncodeAll(r) <= all by { assert cut <= all; }
    if |r| < |ps| && |EncodeAll(ps[..|r| + 1])| <= k {
      var longer := ps[..|r| + 1];
      EncodeAllMonotone(ps, |r| + 1);
      assert EncodeAll(longer) <= cut;
      ParseLongestPrefix(cut, longer);
      assert false;
    }
  }
}
