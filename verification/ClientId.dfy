/** The client's correlation-id encoder: base32hex digits (section 7 of
    RFC 4648, lower case) over twelve bytes whose top bits are a timestamp. */
module ClientId {
  import opened Prelude
  import opened Matcher

  const CID_ENCODING_ALPHABET: Text := "0123456789abcdefghijklmnopqrstuv"
  const ZBASE32_ALPHABET: Text := "ybndrfg8ejkmcpqxot1uwisza345h769"

  type Octets = seq<bv8>

  /** Bit `j` of one byte, the highest first. */
  predicate BitOf(b: bv8, j: nat)
    requires j < 8
  {
    (b >> (7 - j)) & 1 == 1
  }

  /** Bit `k` of the bytes read as one big-endian number; 0 past the end. */
  predicate Bit(raw: Octets, k: nat) {
    k / 8 < |raw| && BitOf(raw[k / 8], k % 8)
  }

  function FromBits(b0: bool, b1: bool, b2: bool, b3: bool, b4: bool): (v: bv8)
    ensures v < 32
  {
    (if b0 then 16 else 0) | (if b1 then 8 else 0) | (if b2 then 4 else 0) | (if b3 then 2 else 0) | (if b4 then 1 else 0)
  }

  /** The five-bit number whose digits, high to low, are bits k..k+4. */
  function Quintet(raw: Octets, k: nat): (v: bv8)
    ensures v < 32
  {
    FromBits(Bit(raw, k), Bit(raw, k + 1), Bit(raw, k + 2), Bit(raw, k + 3), Bit(raw, k + 4))
  }

  function Symbol(v: bv8): char
    requires v < 32
  {
    CID_ENCODING_ALPHABET[v as int]
  }

  function Low5(b: bv8): (v: bv8)
    ensures v < 32
  {
    b & 0x1F
  }

  /** The twelve random bytes with the top 20 bits of the time stamped over
      them, and the zero byte the encoder may read past the end. */
  function Stamped(random: Octets, ts: bv32): (raw: Octets)
    requires |random| == 12
    ensures |raw| == 13
  {
    [((ts >> 24) & 0xFF) as bv8, ((ts >> 16) & 0xFF) as bv8, (random[2] & 0x0F) | (((ts >> 8) & 0xFF) as bv8 & 0xF0)]
    + random[3..] + [0]
  }

  /** The id: one alphabet entry per five bits, then one per extra byte. */
  function CorrelationId(raw: Octets, extra: Octets, length: nat): (id: Text)
    requires length > 20 ==> |extra| == length - 20
    ensures |id| == length
  {
    seq(length, i requires 0 <= i < length => if i < 20 then Symbol(Quintet(raw, 5 * i)) else Symbol(Low5(extra[i - 20])))
  }

  /** The encoder's shifts and masks over two neighbouring bytes. */
  function Group(a: bv8, b: bv8, bitIdx: nat): (v: bv8)
    requires bitIdx < 8
  {
    if bitIdx <= 3 then Low5(a >> (3 - bitIdx)) else Low5((a << (bitIdx - 3)) | (b >> (11 - bitIdx)))
  }

  predicate PairBit(a: bv8, b: bv8, t: nat)
    requires t < 16
  {
    if t < 8 then BitOf(a, t) else BitOf(b, t - 8)
  }

  lemma AllBelow5(j: nat)
    requires j < 5
    ensures j == 0 || j == 1 || j == 2 || j == 3 || j == 4
  {
  }

  lemma GroupBit(a: bv8, b: bv8, t: nat, j: nat)
    requires t < 8 && j < 5
    ensures BitOf(Group(a, b, t), 3 + j) == PairBit(a, b, t + j)
  {
    AllBelow5(j);
    if t == 0 {
    } else if t == 1 {
    } else if t == 2 {
    } else if t == 3 {
    } else if t == 4 {
    } else if t == 5 {
    } else if t == 6 {
    } else {
    }
  }

  lemma FromItsBits(v: bv8)
    requires v < 32
    ensures v == FromBits(BitOf(v, 3), BitOf(v, 4), BitOf(v, 5), BitOf(v, 6), BitOf(v, 7))
  {
  }

  lemma BitAcross(raw: Octets, k: nat, j: nat)
    requires |raw| == 13 && k < 100 && j < 5
    ensures Bit(raw, k + j) == PairBit(raw[k / 8], Following(raw, k / 8), k % 8 + j)
  {
    var t := k % 8 + j;
    assert k + j == k / 8 * 8 + t;
    if t < 8 {
      assert (k + j) / 8 == k / 8 && (k + j) % 8 == t;
    } else {
      assert (k + j) / 8 == k / 8 + 1 && (k + j) % 8 == t - 8;
    }
  }

  function Following(raw: Octets, i: nat): bv8 {
    if i + 1 < |raw| then raw[i + 1] else 0
  }

  lemma GroupSmall(a: bv8, b: bv8, t: nat)
    requires t < 8
    ensures Group(a, b, t) < 32
  {
  }

  predicate SameBit(v: bv8, raw: Octets, k: nat, j: nat)
    requires j < 5
  {
    BitOf(v, 3 + j) == Bit(raw, k + j)
  }

  /** The low five bits of `v` are those of the number from bit `k` on. */
  ghost predicate HasBits(v: bv8, raw: Octets, k: nat) {
    forall j: nat :: j < 5 ==> SameBit(v, raw, k, j)
  }

  lemma GroupHasBits(raw: Octets, k: nat)
    requires |raw| == 13 && k < 100
    ensures HasBits(Group(raw[k / 8], Following(raw, k / 8), k % 8), raw, k)
  {
    forall j: nat | j < 5 ensures SameBit(Group(raw[k / 8], Following(raw, k / 8), k % 8), raw, k, j) {
      GroupBitAt(raw, k, j);
    }
  }

  /** ... pick out five consecutive bits of the big-endian number. */
  lemma ShiftedGroup(raw: Octets, k: nat)
    requires |raw| == 13 && k < 100
    ensures Group(raw[k / 8], Following(raw, k / 8), k % 8) == Quintet(raw, k)
  {
    GroupSmall(raw[k / 8], Following(raw, k / 8), k % 8);
    GroupHasBits(raw, k);
    IsQuintet(raw, k, Group(raw[k / 8], Following(raw, k / 8), k % 8));
  }

  lemma GroupBitAt(raw: Octets, k: nat, j: nat)
    requires |raw| == 13 && k < 100 && j < 5
    ensures BitOf(Group(raw[k / 8], Following(raw, k / 8), k % 8), 3 + j) == Bit(raw, k + j)
  {
    GroupBit(raw[k / 8], Following(raw, k / 8), k % 8, j);
    BitAcross(raw, k, j);
  }

  lemma IsQuintet(raw: Octets, k: nat, v: bv8)
    requires v < 32 && HasBits(v, raw, k)
    ensures v == Quintet(raw, k)
  {
    assert SameBit(v, raw, k, 0) && SameBit(v, raw, k, 1) && SameBit(v, raw, k, 2);
    assert SameBit(v, raw, k, 3) && SameBit(v, raw, k, 4);
    FromItsBits(v);
  }

  method GenerateCorrelationID(length: nat, random: Octets, ts: bv32, extra: Octets) returns (id: Text)
    requires |random| == 12
    requires length > 20 ==> |extra| == length - 20
    ensures id == CorrelationId(Stamped(random, ts), extra, length)
  {
    var raw := Stamp(random, ts);
    ghost var digits := Digits(raw[..]);
    DigitGroups(raw[..]);
    id := Encode(raw, length, extra, digits);
    assert id == CorrelationId(raw[..], extra, length);
  }

  method Stamp(random: Octets, ts: bv32) returns (raw: array<bv8>)
    requires |random| == 12
    ensures raw[..] == Stamped(random, ts)
  {
    raw := new bv8[13](k => 0);
    for k := 0 to 12
      invariant raw[..k] == random[..k]
      invariant raw[12] == 0
    {
      raw[k] := random[k];
    }
    ghost var copied := raw[..];
    assert copied == random + [0];
    StampedIs(random, ts);
    raw[0] := ((ts >> 24) & 0xFF) as bv8;
    raw[1] := ((ts >> 16) & 0xFF) as bv8;
    raw[2] := (raw[2] & 0x0F) | (((ts >> 8) & 0xFF) as bv8 & 0xF0);
    assert raw[..] == copied[0 := raw[0]][1 := raw[1]][2 := raw[2]];
  }

  lemma StampedIs(random: Octets, ts: bv32)
    requires |random| == 12
    ensures var raw := Stamped(random, ts); (random + [0])[0 := raw[0]][1 := raw[1]][2 := raw[2]] == raw
  {
  }

  /** The digits of the first twenty characters. */
  function Digits(raw: Octets): (ds: seq<bv8>)
    ensures |ds| == 20 && forall i :: 0 <= i < 20 ==> ds[i] == Quintet(raw, 5 * i) && ds[i] < 32
  {
    seq(20, i requires 0 <= i < 20 => Quintet(raw, 5 * i))
  }

  ghost predicate AreGroups(raw: Octets, ds: seq<bv8>)
    requires |raw| == 13
  {
    |ds| == 20 && forall i :: 0 <= i < 20 ==>
      ds[i] < 32 && ds[i] == Group(raw[5 * i / 8], Following(raw, 5 * i / 8), 5 * i % 8)
  }

  lemma DigitGroups(raw: Octets)
    requires |raw| == 13
    ensures AreGroups(raw, Digits(raw))
  {
    forall i | 0 <= i < 20
      ensures Digits(raw)[i] == Group(raw[5 * i / 8], Following(raw, 5 * i / 8), 5 * i % 8)
    {
      ShiftedGroup(raw, 5 * i);
    }
  }

  /** One five-bit group, from at most two bytes. */
  method ExtractGroup(raw: array<bv8>, i: nat) returns (v: bv8)
    requires raw.Length == 13 && i < 20
    ensures v == Group(raw[..][5 * i / 8], Following(raw[..], 5 * i / 8), 5 * i % 8)
  {
    var bitOff := i * 5;
    var byteIdx, bitIdx := bitOff / 8, bitOff % 8;
    v := Group(raw[byteIdx], raw[byteIdx + 1], bitIdx);
  }

  method Encode(raw: array<bv8>, length: nat, extra: Octets, ghost digits: seq<bv8>) returns (id: Text)
    requires raw.Length == 13 && AreGroups(raw[..], digits)
    requires length > 20 ==> |extra| == length - 20
    ensures |id| == length
    ensures forall i :: 0 <= i < length ==> id[i] == Symbol(if i < 20 then digits[i] else Low5(extra[i - 20]))
  {
    var buf := new char[length];
    var n := if length < 20 then length else 20;
    for i := 0 to n
      invariant forall k :: 0 <= k < i ==> buf[k] == Symbol(digits[k])
    {
      var v := ExtractGroup(raw, i);
      buf[i] := Symbol(v);
    }
    if length > 20 {
      for i := 0 to length - 20
        invariant forall k :: 0 <= k < 20 ==> buf[k] == Symbol(digits[k])
        invariant forall k :: 20 <= k < 20 + i ==> buf[k] == Symbol(Low5(extra[k - 20]))
      {
        buf[20 + i] := Symbol(Low5(extra[i]));
      }
    }
    id := buf[..];
  }

  // The alphabet

  lemma SymbolValue(k: nat)
    requires k < 32
    ensures CID_ENCODING_ALPHABET[k] as int == if k < 10 then '0' as int + k else 'a' as int + k - 10
  {
  }

  lemma BvOrder(v: bv8, w: bv8)
    ensures v < w <==> (v as int) < (w as int)
  {
  }

  lemma SymbolOrder(v: bv8, w: bv8)
    requires v < 32 && w < 32
    ensures Symbol(v) < Symbol(w) <==> v < w
    ensures Symbol(v) == Symbol(w) <==> v == w
    ensures IsCIDChar(Symbol(v))
  {
    BvOrder(v, w);
    BvOrder(w, v);
    SymbolValue(v as int);
    SymbolValue(w as int);
  }

  /** Every character, at any length, is in the alphabet the server accepts. */
  lemma StaysInAlphabet(raw: Octets, extra: Octets, length: nat)
    requires length > 20 ==> |extra| == length - 20
    ensures length > 0 ==> IsCIDBase32(CorrelationId(raw, extra, length))
  {
    forall i | 0 <= i < length ensures IsCIDChar(CorrelationId(raw, extra, length)[i]) {
      var v := if i < 20 then Quintet(raw, 5 * i) else Low5(extra[i - 20]);
      SymbolOrder(v, v);
    }
  }

  // Twenty characters determine all 96 bits

  lemma FromBitsInjective(a0: bool, a1: bool, a2: bool, a3: bool, a4: bool, b0: bool, b1: bool, b2: bool, b3: bool, b4: bool)
    requires FromBits(a0, a1, a2, a3, a4) == FromBits(b0, b1, b2, b3, b4)
    ensures a0 == b0 && a1 == b1 && a2 == b2 && a3 == b3 && a4 == b4
  {
  }

  lemma QuintetBit(r: Octets, s: Octets, k: nat, j: nat)
    requires Quintet(r, k) == Quintet(s, k) && j < 5
    ensures Bit(r, k + j) == Bit(s, k + j)
  {
    QuintetBits(r, s, k);
    AllBelow5(j);
  }

  lemma QuintetBits(r: Octets, s: Octets, k: nat)
    requires Quintet(r, k) == Quintet(s, k)
    ensures Bit(r, k) == Bit(s, k) && Bit(r, k + 1) == Bit(s, k + 1) && Bit(r, k + 2) == Bit(s, k + 2)
    ensures Bit(r, k + 3) == Bit(s, k + 3) && Bit(r, k + 4) == Bit(s, k + 4)
  {
    FromBitsInjective(Bit(r, k), Bit(r, k + 1), Bit(r, k + 2), Bit(r, k + 3), Bit(r, k + 4),
                      Bit(s, k), Bit(s, k + 1), Bit(s, k + 2), Bit(s, k + 3), Bit(s, k + 4));
  }

  lemma ByteFromBits(a: bv8, b: bv8)
    requires BitOf(a, 0) == BitOf(b, 0) && BitOf(a, 1) == BitOf(b, 1) && BitOf(a, 2) == BitOf(b, 2)
    requires BitOf(a, 3) == BitOf(b, 3) && BitOf(a, 4) == BitOf(b, 4) && BitOf(a, 5) == BitOf(b, 5)
    requires BitOf(a, 6) == BitOf(b, 6) && BitOf(a, 7) == BitOf(b, 7)
    ensures a == b
  {
  }

  lemma BitIndex(r: Octets, m: nat, j: nat)
    requires m < |r| && j < 8
    ensures Bit(r, 8 * m + j) == BitOf(r[m], j)
  {
    assert (8 * m + j) / 8 == m && (8 * m + j) % 8 == j;
  }

  lemma EqualByte(r: Octets, s: Octets, m: nat)
    requires m < 12 && |r| == |s| == 13
    requires forall i :: 0 <= i < 20 ==> Digits(r)[i] == Digits(s)[i]
    ensures r[m] == s[m]
  {
    forall j: nat | j < 8 ensures BitOf(r[m], j) == BitOf(s[m], j) {
      EqualBit(r, s, 8 * m + j);
      BitIndex(r, m, j);
      BitIndex(s, m, j);
    }
    ByteFromBits(r[m], s[m]);
  }

  lemma EqualBit(r: Octets, s: Octets, k: nat)
    requires k < 100
    requires forall i :: 0 <= i < 20 ==> Digits(r)[i] == Digits(s)[i]
    ensures Bit(r, k) == Bit(s, k)
  {
    var i := k / 5;
    assert Digits(r)[i] == Digits(s)[i];
    QuintetBit(r, s, 5 * i, k % 5);
  }

  /** Two ids of at least twenty characters agree on the first twenty exactly
      when they were made from the same twelve bytes. */
  lemma Injective(r: Octets, s: Octets, extra: Octets, extra': Octets, length: nat)
    requires |r| == |s| == 13 && r[12] == s[12] == 0
    requires length >= 20 && (length > 20 ==> |extra| == |extra'| == length - 20)
    ensures CorrelationId(r, extra, length)[..20] == CorrelationId(s, extra', length)[..20] <==> r == s
  {
    var a, b := CorrelationId(r, extra, length), CorrelationId(s, extra', length);
    if a[..20] == b[..20] {
      forall i | 0 <= i < 20 ensures Digits(r)[i] == Digits(s)[i] {
        assert a[i] == a[..20][i] == b[..20][i] == b[i];
        SymbolOrder(Digits(r)[i], Digits(s)[i]);
      }
      forall m | 0 <= m < 12 ensures r[m] == s[m] {
        EqualByte(r, s, m);
      }
      assert r == s;
    }
  }

  // Ids sort by time

  /** The four five-bit digits of ts >> 12. */
  function Digit0(ts: bv32): (v: bv8) { ((ts >> 27) & 31) as bv8 }

  function Digit1(ts: bv32): (v: bv8) { ((ts >> 22) & 31) as bv8 }

  function Digit2(ts: bv32): (v: bv8) { ((ts >> 17) & 31) as bv8 }

  function Digit3(ts: bv32): (v: bv8) { ((ts >> 12) & 31) as bv8 }

  /** The stamp puts them, whatever the random bits, into the first 20 bits. */
  lemma StampedBytes(ts: bv32, low: bv8, r0: bv8, r1: bv8, r2: bv8)
    requires r0 == ((ts >> 24) & 0xFF) as bv8 && r1 == ((ts >> 16) & 0xFF) as bv8
    requires r2 == (low & 0x0F) | (((ts >> 8) & 0xFF) as bv8 & 0xF0)
    ensures Low5(r0 >> 3) == Digit0(ts) && Low5((r0 << 2) | (r1 >> 6)) == Digit1(ts)
    ensures Low5(r1 >> 1) == Digit2(ts) && Low5((r1 << 4) | (r2 >> 4)) == Digit3(ts)
  {
  }

  lemma GroupShifts(a: bv8, b: bv8)
    ensures Group(a, b, 0) == Low5(a >> 3) && Group(a, b, 5) == Low5((a << 2) | (b >> 6))
    ensures Group(a, b, 2) == Low5(a >> 1) && Group(a, b, 7) == Low5((a << 4) | (b >> 4))
  {
  }

  lemma GroupAt(raw: Octets, d: seq<bv8>, i: nat, byteIdx: nat, bitIdx: nat)
    requires |raw| == 13 && AreGroups(raw, d) && i < 4 && 5 * i == 8 * byteIdx + bitIdx && bitIdx < 8
    ensures d[i] == Group(raw[byteIdx], raw[byteIdx + 1], bitIdx)
  {
    assert 5 * i / 8 == byteIdx && 5 * i % 8 == bitIdx;
  }

  lemma TopGroups(raw: Octets, d: seq<bv8>)
    requires |raw| == 13 && d == Digits(raw)
    ensures d[0] == Low5(raw[0] >> 3) && d[1] == Low5((raw[0] << 2) | (raw[1] >> 6))
    ensures d[2] == Low5(raw[1] >> 1) && d[3] == Low5((raw[1] << 4) | (raw[2] >> 4))
  {
    DigitGroups(raw);
    GroupShifts(raw[0], raw[1]);
    GroupShifts(raw[1], raw[2]);
    GroupAt(raw, d, 0, 0, 0);
    GroupAt(raw, d, 1, 0, 5);
    GroupAt(raw, d, 2, 1, 2);
    GroupAt(raw, d, 3, 1, 7);
  }

  lemma TopDigits(ts: bv32, low: bv8, raw: Octets, d: seq<bv8>)
    requires |raw| == 13 && d == Digits(raw)
    requires raw[0] == ((ts >> 24) & 0xFF) as bv8 && raw[1] == ((ts >> 16) & 0xFF) as bv8
    requires raw[2] == (low & 0x0F) | (((ts >> 8) & 0xFF) as bv8 & 0xF0)
    ensures d[0] == Digit0(ts) && d[1] == Digit1(ts) && d[2] == Digit2(ts) && d[3] == Digit3(ts)
  {
    TopGroups(raw, d);
    StampedBytes(ts, low, raw[0], raw[1], raw[2]);
  }

  lemma Less0(t: bv32, u: bv32)
    requires Digit0(t) < Digit0(u)
    ensures t >> 12 < u >> 12
  {
  }

  lemma Less1(t: bv32, u: bv32)
    requires Digit0(t) == Digit0(u) && Digit1(t) < Digit1(u)
    ensures t >> 12 < u >> 12
  {
  }

  lemma Less2(t: bv32, u: bv32)
    requires Digit0(t) == Digit0(u) && Digit1(t) == Digit1(u) && Digit2(t) < Digit2(u)
    ensures t >> 12 < u >> 12
  {
  }

  lemma Less3(t: bv32, u: bv32)
    requires Digit0(t) == Digit0(u) && Digit1(t) == Digit1(u) && Digit2(t) == Digit2(u) && Digit3(t) < Digit3(u)
    ensures t >> 12 < u >> 12
  {
  }

  lemma Equal(t: bv32, u: bv32)
    requires Digit0(t) == Digit0(u) && Digit1(t) == Digit1(u) && Digit2(t) == Digit2(u) && Digit3(t) == Digit3(u)
    ensures t >> 12 == u >> 12
  {
  }

  /** Everything one call of the generator consumes. */
  datatype Draw = Draw(random: Octets, ts: bv32, extra: Octets, length: nat) {
    predicate Ok() {
      |random| == 12 && length >= 4 && (length > 20 ==> |extra| == length - 20)
    }

    function Id(): (id: Text)
      requires Ok()
      ensures |id| == length
    {
      CorrelationId(Stamped(random, ts), extra, length)
    }
  }

  /** The characters that stand for ts >> 12. */
  function TimePrefix(ts: bv32): (r: Text)
    ensures |r| == 4
  {
    DigitsBelow32(ts);
    [Symbol(Digit0(ts)), Symbol(Digit1(ts)), Symbol(Digit2(ts)), Symbol(Digit3(ts))]
  }

  lemma DigitsBelow32(ts: bv32)
    ensures Digit0(ts) < 32 && Digit1(ts) < 32 && Digit2(ts) < 32 && Digit3(ts) < 32
  {
  }

  lemma TopChars(d: Draw)
    requires d.Ok()
    ensures d.Id()[..4] == TimePrefix(d.ts)
  {
    var raw := Stamped(d.random, d.ts);
    var ds := Digits(raw);
    TopDigits(d.ts, d.random[2], raw, ds);
    LeadingDigits(d.Id(), raw, d.extra, d.length, ds);
    FourChars(d.Id(), ds, d.ts);
  }

  lemma LeadingDigits(id: Text, raw: Octets, extra: Octets, length: nat, ds: seq<bv8>)
    requires length >= 4 && (length > 20 ==> |extra| == length - 20)
    requires id == CorrelationId(raw, extra, length) && ds == Digits(raw)
    ensures id[0] == Symbol(ds[0]) && id[1] == Symbol(ds[1]) && id[2] == Symbol(ds[2]) && id[3] == Symbol(ds[3])
  {
  }

  lemma FourChars(id: Text, ds: seq<bv8>, ts: bv32)
    requires |id| >= 4 && |ds| == 20 && ds[0] < 32 && ds[1] < 32 && ds[2] < 32 && ds[3] < 32
    requires id[0] == Symbol(ds[0]) && id[1] == Symbol(ds[1]) && id[2] == Symbol(ds[2]) && id[3] == Symbol(ds[3])
    requires ds[0] == Digit0(ts) && ds[1] == Digit1(ts) && ds[2] == Digit2(ts) && ds[3] == Digit3(ts)
    ensures id[..4] == TimePrefix(ts)
  {
  }

  /** Lexicographic order on the first four characters. */
  predicate PrefixLess(a: Text, b: Text)
    requires |a| >= 4 && |b| >= 4
  {
    a[0] < b[0] || (a[0] == b[0] && (a[1] < b[1] || (a[1] == b[1] && (a[2] < b[2] || (a[2] == b[2] && a[3] < b[3])))))
  }

  /** The leading characters of `a` and `b` compare as the digits of the times. */
  ghost predicate Tracks(a: Text, b: Text, t: bv32, u: bv32)
    requires |a| >= 4 && |b| >= 4
  {
    && (a[0] < b[0] <==> Digit0(t) < Digit0(u)) && (a[0] == b[0] <==> Digit0(t) == Digit0(u))
    && (a[1] < b[1] <==> Digit1(t) < Digit1(u)) && (a[1] == b[1] <==> Digit1(t) == Digit1(u))
    && (a[2] < b[2] <==> Digit2(t) < Digit2(u)) && (a[2] == b[2] <==> Digit2(t) == Digit2(u))
    && (a[3] < b[3] <==> Digit3(t) < Digit3(u)) && (a[3] == b[3] <==> Digit3(t) == Digit3(u))
  }

  lemma PrefixesTrack(t: bv32, u: bv32)
    ensures Tracks(TimePrefix(t), TimePrefix(u), t, u)
  {
    DigitsBelow32(t);
    DigitsBelow32(u);
    SymbolOrder(Digit0(t), Digit0(u));
    SymbolOrder(Digit1(t), Digit1(u));
    SymbolOrder(Digit2(t), Digit2(u));
    SymbolOrder(Digit3(t), Digit3(u));
  }

  lemma LessForward(a: Text, b: Text, t: bv32, u: bv32)
    requires |a| >= 4 && |b| >= 4 && Tracks(a, b, t, u) && PrefixLess(a, b)
    ensures t >> 12 < u >> 12
  {
    if a[0] < b[0] {
      Less0(t, u);
    } else if a[1] < b[1] {
      Less1(t, u);
    } else if a[2] < b[2] {
      Less2(t, u);
    } else {
      Less3(t, u);
    }
  }

  lemma NotLess(a: Text, b: Text, t: bv32, u: bv32)
    requires |a| >= 4 && |b| >= 4 && Tracks(b, a, u, t) && PrefixLess(b, a)
    ensures !(t >> 12 < u >> 12)
  {
    LessForward(b, a, u, t);
    Asymmetry(u >> 12, t >> 12);
  }

  lemma Asymmetry(t: bv32, u: bv32)
    requires t < u
    ensures !(u < t)
  {
  }

  lemma EqualPrefix(a: Text, b: Text, t: bv32, u: bv32)
    requires |a| >= 4 && |b| >= 4 && Tracks(a, b, t, u)
    requires a[0] == b[0] && a[1] == b[1] && a[2] == b[2] && a[3] == b[3]
    ensures !(t >> 12 < u >> 12)
  {
    Equal(t, u);
  }

  lemma PrefixTotal(a: Text, b: Text)
    requires |a| >= 4 && |b| >= 4 && !PrefixLess(a, b) && !PrefixLess(b, a)
    ensures a[0] == b[0] && a[1] == b[1] && a[2] == b[2] && a[3] == b[3]
  {
  }

  lemma TracksSorts(a: Text, b: Text, t: bv32, u: bv32)
    requires |a| >= 4 && |b| >= 4 && Tracks(a, b, t, u) && Tracks(b, a, u, t)
    ensures PrefixLess(a, b) <==> t >> 12 < u >> 12
  {
    if PrefixLess(a, b) {
      LessForward(a, b, t, u);
    } else if PrefixLess(b, a) {
      NotLess(a, b, t, u);
    } else {
      PrefixTotal(a, b);
      EqualPrefix(a, b, t, u);
    }
  }

  lemma PrefixSorts(t: bv32, u: bv32)
    ensures PrefixLess(TimePrefix(t), TimePrefix(u)) <==> t >> 12 < u >> 12
  {
    PrefixesTrack(t, u);
    PrefixesTrack(u, t);
    TracksSorts(TimePrefix(t), TimePrefix(u), t, u);
  }

  /** Ids of four or more characters sort by time, at a granularity of 2^12
      seconds and whatever their random parts are. */
  lemma SortsByTime(d: Draw, e: Draw)
    requires d.Ok() && e.Ok()
    ensures PrefixLess(d.Id()[..4], e.Id()[..4]) <==> d.ts >> 12 < e.ts >> 12
  {
    PrefixSorts(d.ts, e.ts);
    TopChars(d);
    TopChars(e);
  }
}
