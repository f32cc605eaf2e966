/** SharedBucket: a buffer trimmed in batches, with one read offset per
    consumer, proved against an unbounded log with absolute cursors. */
module SharedBucketModel {
  import opened Prelude

  const CLEANUP_INTERVAL := 60_000_000_000 // one minute, in nanoseconds

  function Max(a: int, b: int): int { if a < b then b else a }

  function Min(a: int, b: int): int { if a < b then a else b }

  /** The specification. `log` holds every interaction ever appended; entries
      before `base` have been discarded; a cursor is the length of the log at
      the consumer's last read. `copied` counts elements moved by trimming. */
  datatype Log = Log(log: seq<Bytes>, base: nat, copied: nat, cursors: map<Text, nat>,
                     lastSeen: map<Text, int>, lastCleanup: int)
  {
    /** Where the consumer stands; one never seen, or cleaned up, is at 0. */
    function Cursor(c: Text): nat {
      if c in cursors then cursors[c] else 0
    }

    function Retained(): nat {
      if base <= |log| then |log| - base else 0
    }

    ghost predicate Wf(maxBuffer: int) {
      && base <= |log| && copied == base
      && (maxBuffer <= 0 ==> base == 0)
      && (maxBuffer > 0 ==> Min(|log|, maxBuffer) <= Retained() < 2 * maxBuffer)
      && cursors.Keys == lastSeen.Keys
      && forall c :: c in cursors ==> cursors[c] <= |log|
    }

    function Append(x: Bytes, maxBuffer: int): Log {
      var grown := this.(log := log + [x]);
      if maxBuffer > 0 && grown.Retained() >= 2 * maxBuffer
      then grown.(base := base + maxBuffer, copied := copied + Max(0, grown.Retained() - maxBuffer))
      else grown
    }

    /** The consumers a cleanup at `now` keeps. */
    function Kept(now: int, ttl: int): set<Text> {
      set c | c in lastSeen && (now - lastCleanup < CLEANUP_INTERVAL || now - lastSeen[c] <= ttl)
    }

    function Cleanup(now: int, ttl: int): Log {
      var kept := Kept(now, ttl);
      this.(cursors := map c | c in cursors && c in kept :: cursors[c],
            lastSeen := map c | c in kept :: lastSeen[c],
            lastCleanup := if now - lastCleanup < CLEANUP_INTERVAL then lastCleanup else now)
    }

    function Advance(c: Text, now: int): Log {
      this.(cursors := cursors[c := |log|], lastSeen := lastSeen[c := now])
    }

    function Read(c: Text, now: int, ttl: int): Log {
      Advance(c, now).Cleanup(now, ttl)
    }

    /** The still-retained entries appended since the consumer's last read. */
    function Unread(c: Text): seq<Bytes>
      requires base <= |log|
    {
      log[Min(Max(Cursor(c), base), |log|)..]
    }
  }

  /** What one append does to the retained part of the log. */
  lemma RetainedAfter(s: Log, x: Bytes, maxBuffer: int)
    requires s.Wf(maxBuffer)
    ensures var kept, s' := s.log[s.base..] + [x], s.Append(x, maxBuffer);
            && s'.Wf(maxBuffer) && s'.cursors == s.cursors && s'.lastSeen == s.lastSeen && s'.lastCleanup == s.lastCleanup
            && if maxBuffer > 0 && |kept| >= 2 * maxBuffer
               then s'.base == s.base + maxBuffer && s'.log[s'.base..] == kept[maxBuffer..]
               else s'.base == s.base && s'.log[s'.base..] == kept
  {
    assert (s.log + [x])[s.base..] == s.log[s.base..] + [x];
  }

  class SharedBucket {
    var interactions: seq<Bytes>
    const maxBuffer: int
    var offsets: map<Text, int>
    var lastSeen: map<Text, int>
    const evictionTTL: int
    var lastCleanup: int
    ghost var spec: Log

    ghost predicate Valid()
      reads this
    {
      && spec.Wf(maxBuffer)
      && interactions == spec.log[spec.base..]
      && offsets.Keys == spec.cursors.Keys
      && (forall c :: c in offsets ==> offsets[c] == Max(0, spec.cursors[c] - spec.base))
      && lastSeen == spec.lastSeen && lastCleanup == spec.lastCleanup
    }

    constructor (maxBuffer: int, evictionTTL: int, now: int)
      ensures Valid() && this.maxBuffer == maxBuffer && this.evictionTTL == evictionTTL
      ensures spec == Log([], 0, 0, map[], map[], now)
    {
      this.maxBuffer, this.evictionTTL := maxBuffer, evictionTTL;
      interactions, offsets, lastSeen, lastCleanup := [], map[], map[], now;
      spec := Log([], 0, 0, map[], map[], now);
    }

    method Append(interaction: Bytes)
      requires Valid()
      modifies this
      ensures Valid() && spec == old(spec).Append(interaction, maxBuffer)
      ensures maxBuffer > 0 ==> |interactions| < 2 * maxBuffer
    {
      ghost var after := spec.Append(interaction, maxBuffer);
      RetainedAfter(spec, interaction, maxBuffer);
      interactions := interactions + [interaction];
      if maxBuffer > 0 && |interactions| >= 2 * maxBuffer {
        interactions := interactions[maxBuffer..];
        ShiftOffsets();
      }
      spec := after;
    }

    /** The loop that moves every offset down by one trimmed batch. */
    method ShiftOffsets()
      modifies `offsets
      ensures offsets.Keys == old(offsets).Keys
      ensures forall c :: c in offsets ==> offsets[c] == Max(0, old(offsets)[c] - maxBuffer)
    {
      var todo := offsets.Keys;
      while todo != {}
        invariant offsets.Keys == old(offsets).Keys && todo <= offsets.Keys
        invariant forall c :: c in offsets ==>
          offsets[c] == if c in todo then old(offsets)[c] else Max(0, old(offsets)[c] - maxBuffer)
        decreases todo
      {
        var c :| c in todo;
        offsets := offsets[c := Max(0, offsets[c] - maxBuffer)];
        todo := todo - {c};
      }
    }

    /** The result is what the log holds past the consumer's cursor, less what
        trimming has discarded. */
    method ReadFrom(consumer: Text, now: int) returns (result: seq<Bytes>)
      requires Valid()
      modifies this
      ensures Valid() && interactions == old(interactions)
      ensures spec == old(spec).Read(consumer, now, evictionTTL)
      ensures result == old(spec).Unread(consumer)
    {
      var offset := if consumer in offsets then offsets[consumer] else 0;
      if offset >= |interactions| {
        result := [];
      } else {
        result := interactions[offset..];
      }
      assert result == spec.Unread(consumer) by {
        assert offset == Max(0, spec.Cursor(consumer) - spec.base);
      }
      Advance(consumer, now);
      CleanupStaleLocked(now);
    }

    method Advance(consumer: Text, now: int)
      requires Valid()
      modifies this
      ensures Valid() && spec == old(spec).Advance(consumer, now)
      ensures interactions == old(interactions)
    {
      offsets := offsets[consumer := |interactions|];
      lastSeen := lastSeen[consumer := now];
      spec := spec.Advance(consumer, now);
    }

    method CleanupStaleLocked(now: int)
      requires Valid()
      modifies this
      ensures Valid() && spec == old(spec).Cleanup(now, evictionTTL)
      ensures interactions == old(interactions)
    {
      ghost var after := spec.Cleanup(now, evictionTTL);
      if now - lastCleanup < CLEANUP_INTERVAL {
        assert after == spec;
        return;
      }
      DropStale(now);
      lastCleanup := now;
      spec := after;
    }

    /** The loop that forgets every consumer last seen more than the TTL ago. */
    method DropStale(now: int)
      requires offsets.Keys == lastSeen.Keys
      modifies `offsets, `lastSeen
      ensures offsets.Keys == lastSeen.Keys
      ensures forall c :: c in lastSeen <==> c in old(lastSeen) && now - old(lastSeen)[c] <= evictionTTL
      ensures forall c :: c in lastSeen ==> lastSeen[c] == old(lastSeen)[c] && offsets[c] == old(offsets)[c]
    {
      var todo := lastSeen.Keys;
      while todo != {}
        invariant offsets.Keys == lastSeen.Keys <= old(lastSeen).Keys
        invariant todo <= lastSeen.Keys
        invariant forall c :: c in old(lastSeen) ==>
          (c in lastSeen <==> c in todo || now - old(lastSeen)[c] <= evictionTTL)
        invariant forall c :: c in lastSeen ==> lastSeen[c] == old(lastSeen)[c] && offsets[c] == old(offsets)[c]
        decreases todo
      {
        var c :| c in todo;
        if now - lastSeen[c] > evictionTTL {
          offsets := offsets - {c};
          lastSeen := lastSeen - {c};
        }
        todo := todo - {c};
      }
    }
  }

  // Whole runs

  datatype Op = Append(x: Bytes) | Read(consumer: Text, now: int)

  function Step(s: Log, op: Op, maxBuffer: int, ttl: int): Log {
    match op
    case Append(x) => s.Append(x, maxBuffer)
    case Read(c, now) => s.Read(c, now, ttl)
  }

  function Run(s: Log, ops: seq<Op>, maxBuffer: int, ttl: int): Log
    decreases ops
  {
    if ops == [] then s else Run(Step(s, ops[0], maxBuffer, ttl), ops[1..], maxBuffer, ttl)
  }

  /** All that `c` was given over a run, batch after batch. */
  function Delivered(s: Log, ops: seq<Op>, c: Text, maxBuffer: int, ttl: int): seq<Bytes>
    decreases ops
  {
    if ops == [] then []
    else
      (if Reads(ops[0], c) && s.base <= |s.log| then s.Unread(c) else [])
      + Delivered(Step(s, ops[0], maxBuffer, ttl), ops[1..], c, maxBuffer, ttl)
  }

  predicate Reads(op: Op, c: Text) {
    op.Read? && op.consumer == c
  }

  /** What a step that does not forget `c` does to the log and its cursor. */
  lemma CursorStep(s: Log, op: Op, c: Text, maxBuffer: int, ttl: int)
    requires c in s.cursors || Reads(op, c) ==> c in Step(s, op, maxBuffer, ttl).cursors
    ensures var s' := Step(s, op, maxBuffer, ttl);
            && s'.log == s.log + (if op.Append? then [op.x] else [])
            && s'.Cursor(c) == if Reads(op, c) then |s.log| else s.Cursor(c)
  {
  }

  /** Along the run `c` is never cleaned up as stale. */
  predicate NeverStale(s: Log, ops: seq<Op>, c: Text, maxBuffer: int, ttl: int)
    decreases ops
  {
    ops != [] ==>
      var s' := Step(s, ops[0], maxBuffer, ttl);
      && (c in s.cursors || (Reads(ops[0], c)) ==> c in s'.cursors)
      && NeverStale(s', ops[1..], c, maxBuffer, ttl)
  }

  /** No entry is discarded while `c` has yet to read it. */
  predicate NeverOverrun(s: Log, ops: seq<Op>, c: Text, maxBuffer: int, ttl: int)
    decreases ops
  {
    ops != [] ==>
      && (Reads(ops[0], c) ==> s.base <= s.Cursor(c))
      && NeverOverrun(Step(s, ops[0], maxBuffer, ttl), ops[1..], c, maxBuffer, ttl)
  }

  lemma StepWf(s: Log, op: Op, maxBuffer: int, ttl: int)
    requires s.Wf(maxBuffer)
    ensures Step(s, op, maxBuffer, ttl).Wf(maxBuffer)
    ensures s.log <= Step(s, op, maxBuffer, ttl).log
  {
  }

  /** In every reachable state at least the newest min(appended, maxBuffer)
      entries are retained, fewer than 2 * maxBuffer are held, and trimming has
      moved no more elements than were appended. */
  lemma {:induction false} RunWf(s: Log, ops: seq<Op>, maxBuffer: int, ttl: int)
    requires s.Wf(maxBuffer)
    ensures var r := Run(s, ops, maxBuffer, ttl);
            && s.log <= r.log && r.copied <= |r.log|
            && (maxBuffer > 0 ==> Min(|r.log|, maxBuffer) <= r.Retained() < 2 * maxBuffer)
            && r.Wf(maxBuffer)
    decreases ops
  {
    if ops != [] {
      StepWf(s, ops[0], maxBuffer, ttl);
      RunWf(Step(s, ops[0], maxBuffer, ttl), ops[1..], maxBuffer, ttl);
    }
  }

  /** Exactly-once, in order: what `c` is given over a run is precisely the
      stretch of the log between its first and last cursor if and only if
      nothing it had yet to read was discarded under it. */
  lemma {:induction false} DeliveredExactlyOnce(s: Log, ops: seq<Op>, c: Text, maxBuffer: int, ttl: int)
    requires s.Wf(maxBuffer) && NeverStale(s, ops, c, maxBuffer, ttl)
    ensures DeliveredIff(s, Run(s, ops, maxBuffer, ttl), c, Delivered(s, ops, c, maxBuffer, ttl),
                         NeverOverrun(s, ops, c, maxBuffer, ttl))
    decreases ops
  {
    if ops != [] {
      var s', r := Step(s, ops[0], maxBuffer, ttl), Run(s, ops, maxBuffer, ttl);
      var rest := Delivered(s', ops[1..], c, maxBuffer, ttl);
      StepWf(s, ops[0], maxBuffer, ttl);
      CursorStep(s, ops[0], c, maxBuffer, ttl);
      DeliveredExactlyOnce(s', ops[1..], c, maxBuffer, ttl);
      if Reads(ops[0], c) {
        ReadDelivers(s, s', r, c, rest, NeverOverrun(s', ops[1..], c, maxBuffer, ttl));
      } else {
        assert [] + rest == rest;
      }
    }
  }

  /** `given`, handed to `c` between `s` and `r`, is no more than the stretch of
      the log between its cursors there, and all of it exactly when `all`. */
  ghost predicate DeliveredIff(s: Log, r: Log, c: Text, given: seq<Bytes>, all: bool) {
    && s.Cursor(c) <= r.Cursor(c) <= |r.log| && s.log <= r.log
    && |given| <= r.Cursor(c) - s.Cursor(c)
    && (given == r.log[s.Cursor(c)..r.Cursor(c)] <==> all)
  }

  lemma ReadDelivers(s: Log, s': Log, r: Log, c: Text, rest: seq<Bytes>, all: bool)
    requires s.base <= |s.log| && s.Cursor(c) <= |s.log| && s'.log == s.log && s'.Cursor(c) == |s.log|
    requires DeliveredIff(s', r, c, rest, all)
    ensures DeliveredIff(s, r, c, s.Unread(c) + rest, s.base <= s.Cursor(c) && all)
  {
    FirstBatch(s, c, r.log, r.Cursor(c), rest);
  }

  /** One batch in front of the rest of a delivery. */
  lemma FirstBatch(s: Log, c: Text, log: seq<Bytes>, to: nat, rest: seq<Bytes>)
    requires s.base <= |s.log| && s.Cursor(c) <= |s.log| <= to <= |log| && s.log <= log
    requires |rest| <= to - |s.log|
    ensures |s.Unread(c) + rest| <= to - s.Cursor(c)
    ensures s.Unread(c) + rest == log[s.Cursor(c)..to] <==> s.base <= s.Cursor(c) && rest == log[|s.log|..to]
  {
    var from, mid := s.Cursor(c), |s.log|;
    assert log[from..to] == log[from..mid] + log[mid..to];
    assert log[from..mid] == s.log[from..];
    assert |s.Unread(c)| == mid - Max(from, s.base);
    if s.Unread(c) + rest == log[from..to] {
      assert rest == (s.Unread(c) + rest)[mid - from..];
    }
  }

  /** A consumer no more than maxBuffer entries behind misses nothing. */
  lemma KeepsUp(s: Log, c: Text, maxBuffer: int)
    requires s.Wf(maxBuffer)
    requires maxBuffer <= 0 || |s.log| - s.Cursor(c) <= maxBuffer
    ensures s.base <= s.Cursor(c) && s.Unread(c) == s.log[s.Cursor(c)..]
  {
  }

  /** How far behind `c` is after one operation, if it is not forgotten. */
  function Behind(n: nat, op: Op, c: Text): nat {
    if Reads(op, c) then 0 else if op.Append? then n + 1 else n
  }

  /** At most maxBuffer appends between one read of `c` and the next, `n` of
      them already done. A buffer without a limit asks for nothing. */
  predicate Paced(n: nat, ops: seq<Op>, c: Text, maxBuffer: int)
    decreases ops
  {
    ops != [] ==>
      && (Reads(ops[0], c) && maxBuffer > 0 ==> n <= maxBuffer)
      && Paced(Behind(n, ops[0], c), ops[1..], c, maxBuffer)
  }

  lemma BehindStep(s: Log, op: Op, c: Text, n: nat, maxBuffer: int, ttl: int)
    requires s.Wf(maxBuffer) && n == |s.log| - s.Cursor(c)
    requires c in s.cursors || Reads(op, c) ==> c in Step(s, op, maxBuffer, ttl).cursors
    ensures var s' := Step(s, op, maxBuffer, ttl); s'.Wf(maxBuffer) && Behind(n, op, c) == |s'.log| - s'.Cursor(c)
  {
    StepWf(s, op, maxBuffer, ttl);
    CursorStep(s, op, c, maxBuffer, ttl);
  }

  lemma PacedReads(s: Log, ops: seq<Op>, c: Text, n: nat, maxBuffer: int)
    requires s.Wf(maxBuffer) && n == |s.log| - s.Cursor(c) && ops != [] && Paced(n, ops, c, maxBuffer)
    ensures (Reads(ops[0], c) ==> s.base <= s.Cursor(c)) && Paced(Behind(n, ops[0], c), ops[1..], c, maxBuffer)
  {
    if Reads(ops[0], c) {
      KeepsUp(s, c, maxBuffer);
    }
  }

  lemma {:induction false} PacedNeverOverrun(s: Log, ops: seq<Op>, c: Text, n: nat, maxBuffer: int, ttl: int)
    requires s.Wf(maxBuffer) && NeverStale(s, ops, c, maxBuffer, ttl)
    requires n == |s.log| - s.Cursor(c) && Paced(n, ops, c, maxBuffer)
    ensures NeverOverrun(s, ops, c, maxBuffer, ttl)
    decreases ops
  {
    if ops != [] {
      BehindStep(s, ops[0], c, n, maxBuffer, ttl);
      PacedReads(s, ops, c, n, maxBuffer);
      PacedNeverOverrun(Step(s, ops[0], maxBuffer, ttl), ops[1..], c, Behind(n, ops[0], c), maxBuffer, ttl);
    }
  }

  /** Nobody reads later than `ttl` after the last read of `c`, which was at
      `last`, unless `c` reads itself: it need only read that often. */
  predicate Attentive(last: Option<int>, ops: seq<Op>, c: Text, ttl: int)
    decreases ops
  {
    ops != [] ==>
      if Reads(ops[0], c) then Attentive(Some(ops[0].now), ops[1..], c, ttl)
      else (ops[0].Read? && last.Some? ==> ops[0].now - last.value <= ttl) && Attentive(last, ops[1..], c, ttl)
  }

  function LastSeen(s: Log, c: Text): Option<int> {
    if c in s.lastSeen then Some(s.lastSeen[c]) else None
  }

  lemma SeenStep(s: Log, op: Op, c: Text, maxBuffer: int, ttl: int)
    requires s.cursors.Keys == s.lastSeen.Keys && ttl >= 0
    requires op.Read? && op.consumer != c && c in s.lastSeen ==> op.now - s.lastSeen[c] <= ttl
    ensures var s' := Step(s, op, maxBuffer, ttl);
            && LastSeen(s', c) == (if Reads(op, c) then Some(op.now) else LastSeen(s, c))
            && (c in s.cursors || Reads(op, c) ==> c in s'.cursors)
  {
  }

  lemma {:induction false} AttentiveNeverStale(s: Log, ops: seq<Op>, c: Text, maxBuffer: int, ttl: int)
    requires s.Wf(maxBuffer) && ttl >= 0 && Attentive(LastSeen(s, c), ops, c, ttl)
    ensures NeverStale(s, ops, c, maxBuffer, ttl)
    decreases ops
  {
    if ops != [] {
      StepWf(s, ops[0], maxBuffer, ttl);
      SeenStep(s, ops[0], c, maxBuffer, ttl);
      AttentiveNeverStale(Step(s, ops[0], maxBuffer, ttl), ops[1..], c, maxBuffer, ttl);
    }
  }

  /** What a consumer has to do to miss nothing, in terms of the calls alone: if
      it reads at least every maxBuffer appends and at least every `ttl`, it is
      given every entry exactly once and in order. */
  lemma PacedConsumerMissesNothing(s: Log, ops: seq<Op>, c: Text, maxBuffer: int, ttl: int)
    requires s.Wf(maxBuffer) && ttl >= 0 && Attentive(LastSeen(s, c), ops, c, ttl)
    requires Paced(|s.log| - s.Cursor(c), ops, c, maxBuffer)
    ensures var r := Run(s, ops, maxBuffer, ttl);
            && s.Cursor(c) <= r.Cursor(c) <= |r.log|
            && Delivered(s, ops, c, maxBuffer, ttl) == r.log[s.Cursor(c)..r.Cursor(c)]
  {
    AttentiveNeverStale(s, ops, c, maxBuffer, ttl);
    PacedNeverOverrun(s, ops, c, |s.log| - s.Cursor(c), maxBuffer, ttl);
    DeliveredExactlyOnce(s, ops, c, maxBuffer, ttl);
  }
}
