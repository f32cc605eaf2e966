/** A run in which the handle of a removed session takes the record of its
    successor: one thread, every lock and database step spelled out. */
module DiskStaleHandle {
  import opened Prelude
  import opened DiskSteps
  import opened DiskInvariants

  /** Some run brings the shared state to `sh` and thread 0 to `th`. */
  ghost predicate Reaches(sh: Shared, th: Thread) {
    exists acts :: After(Start(), acts).sh == sh && After(Start(), acts).At(0) == th
  }

  function Moved(sh: Shared, th: Thread, move: Move): (Shared, Thread) {
    if th.Idle? then Begin(sh, 0, move)
    else if th.Writing? then Write(sh, 0, move)
    else if move.Next? then Proceed(sh, 0, th)
    else (sh, th)
  }

  lemma Do(sh: Shared, th: Thread, move: Move)
    requires Reaches(sh, th)
    ensures Reaches(Moved(sh, th, move).0, Moved(sh, th, move).1)
  {
    var acts :| After(Start(), acts).sh == sh && After(Start(), acts).At(0) == th;
    var a := Action(0, move);
    assert (acts + [a])[..|acts|] == acts;
    assert After(Start(), acts + [a]) == Step(After(Start(), acts), a);
    SoloStep(After(Start(), acts), move);
  }

  lemma SoloStep(s: Sys, move: Move)
    ensures var s', moved := Step(s, Action(0, move)), Moved(s.sh, s.At(0), move);
            s'.sh == moved.0 && s'.At(0) == moved.1
  {
  }

  function Moves(sh: Shared, th: Thread, moves: seq<Move>): (Shared, Thread)
    decreases |moves|
  {
    if moves == [] then (sh, th) else Moves(Moved(sh, th, moves[0]).0, Moved(sh, th, moves[0]).1, moves[1..])
  }

  lemma {:induction false} DoAll(sh: Shared, th: Thread, moves: seq<Move>)
    requires Reaches(sh, th)
    ensures Reaches(Moves(sh, th, moves).0, Moves(sh, th, moves).1)
    decreases |moves|
  {
    if moves != [] {
      Do(sh, th, moves[0]);
      DoAll(Moved(sh, th, moves[0]).0, Moved(sh, th, moves[0]).1, moves[1..]);
    }
  }

  lemma Then(sh: Shared, th: Thread, move: Move, sh': Shared, th': Thread, rest: seq<Move>)
    requires Moved(sh, th, move) == (sh', th')
    ensures Moves(sh, th, [move] + rest) == Moves(sh', th', rest)
  {
    assert ([move] + rest)[1..] == rest;
  }

  /** Nobody is inside. */
  predicate Calm(sh: Shared) {
    sh.writer.None? && sh.readers == {} && sh.removing == map[] && sh.locked == map[]
  }

  function Registering(id: Id): seq<Move> {
    [BeginWrite] + ([BeginRegister(id)] + ([Next] + ([EndWrite] + [])))
  }

  lemma RegisterPhase(sh: Shared, id: Id)
    requires Calm(sh) && id !in sh.sessions
    ensures Moves(sh, Idle, Registering(id)) == (Insert(sh.(db := sh.db - {id}), id), Idle)
  {
    var a := sh.(writer := Some(0));
    var b := a.(db := a.db - {id});
    var c := Insert(b, id);
    var d := c.(writer := None);
    Then(sh, Idle, BeginWrite, a, Writing, [BeginRegister(id)] + ([Next] + ([EndWrite] + [])));
    Then(a, Writing, BeginRegister(id), b, Cleaned(id), [Next] + ([EndWrite] + []));
    Then(b, Cleaned(id), Next, c, Writing, [EndWrite] + []);
    Then(c, Writing, EndWrite, d, Idle, []);
  }

  function Removal(id: Id): seq<Move> {
    [BeginWrite] + ([BeginRemove(id)] + ([Next] + ([Next] + ([Next] + ([EndWrite] + [])))))
  }

  function Removed(sh: Shared, id: Id): Shared {
    sh.(sessions := sh.sessions - {id}, db := sh.db - {id})
  }

  lemma RemovePhase(sh: Shared, id: Id)
    requires Calm(sh) && id in sh.sessions
    ensures Moves(sh, Idle, Removal(id)) == (Removed(sh, id), Idle)
  {
    var ref := sh.sessions[id];
    var a := sh.(writer := Some(0));
    var b := Detach(a, id);
    var c := Lock(b, 0, ref);
    Then(sh, Idle, BeginWrite, a, Writing, [BeginRemove(id)] + ([Next] + ([Next] + ([Next] + ([EndWrite] + [])))));
    Then(a, Writing, BeginRemove(id), b, Removing(id, ref), [Next] + ([Next] + ([Next] + ([EndWrite] + []))));
    Then(b, Removing(id, ref), Next, c, HookLocked(id, ref), [Next] + ([Next] + ([EndWrite] + [])));
    HookPhase(sh, id, c);
  }

  lemma HookPhase(sh: Shared, id: Id, c: Shared)
    requires Calm(sh) && id in sh.sessions && c == Lock(Detach(sh.(writer := Some(0)), id), 0, sh.sessions[id])
    ensures Moves(c, HookLocked(id, sh.sessions[id]), [Next] + ([Next] + ([EndWrite] + []))) == (Removed(sh, id), Idle)
  {
    var ref := sh.sessions[id];
    var d := HookDelete(c, id);
    var e := Unlock(d, ref);
    assert e.locked == sh.locked && e.removing == sh.removing && Removed(sh, id) == e.(writer := None);
    Then(c, HookLocked(id, ref), Next, d, HookDeleted(ref), [Next] + ([EndWrite] + []));
    Then(d, HookDeleted(ref), Next, e, Writing, [EndWrite] + []);
    Then(e, Writing, EndWrite, Removed(sh, id), Idle, []);
  }

  function Appending(id: Id, e: Bytes): seq<Move> {
    [BeginAppend(id, e)] + ([Next] + ([Next] + ([Next] + ([Next] + ([Next] + [])))))
  }

  lemma AppendPhase(sh: Shared, id: Id, e: Bytes)
    requires Calm(sh) && id in sh.sessions
    ensures Moves(sh, Idle, Appending(id, e)) == (Put(sh, id, sh.sessions[id], e, Under(sh.db, id)), Idle)
  {
    var ref, before := sh.sessions[id], Under(sh.db, id);
    var a := sh.(readers := sh.readers + {0});
    var b := Lock(a, 0, ref);
    var c := Put(b, id, ref, e, before);
    var d := Unlock(c, ref);
    assert d.locked == sh.locked && d.readers - {0} == sh.readers;
    var f := d.(readers := d.readers - {0});
    Then(sh, Idle, BeginAppend(id, e), a, Found(id, ref, e), [Next] + ([Next] + ([Next] + ([Next] + ([Next] + [])))));
    Then(a, Found(id, ref, e), Next, b, Locked(id, ref, e), [Next] + ([Next] + ([Next] + ([Next] + []))));
    Then(b, Locked(id, ref, e), Next, b, Read(id, ref, e, before), [Next] + ([Next] + ([Next] + [])));
    Then(b, Read(id, ref, e, before), Next, c, Written(id, ref), [Next] + ([Next] + []));
    Then(c, Written(id, ref), Next, d, Leaving, [Next] + []);
    Then(d, Leaving, Next, f, Idle, []);
  }

  function Draining(ref: Ref): seq<Move> {
    [BeginDrain(ref)] + ([Next] + ([Next] + ([Next] + [])))
  }

  lemma DrainPhase(sh: Shared, ref: Ref)
    requires Calm(sh) && ref < |sh.names| && sh.names[ref] in sh.db
    ensures Moves(sh, Idle, Draining(ref)) == (Take(sh, ref, sh.db[sh.names[ref]]), Idle)
  {
    var data := sh.db[sh.names[ref]];
    var a := Lock(sh, 0, ref);
    var b := Take(a, ref, data);
    var c := Unlock(b, ref);
    assert c.locked == sh.locked;
    Then(sh, Idle, BeginDrain(ref), a, DrainLocked(ref), [Next] + ([Next] + ([Next] + [])));
    Then(a, DrainLocked(ref), Next, a, DrainRead(ref, data), [Next] + ([Next] + []));
    Then(a, DrainRead(ref, data), Next, b, Drained(ref), [Next] + []);
    Then(b, Drained(ref), Next, c, Idle, []);
  }

  function Twice(): Shared {
    Start().sh.(sessions := map["a" := 1], names := ["a", "a"])
  }

  lemma RegisteredTwice()
    ensures Reaches(Twice(), Idle)
  {
    var s0 := Start().sh;
    var s1 := s0.(sessions := map["a" := 0], names := ["a"]);
    var s2 := s0.(names := ["a"]);
    assert After(Start(), []).sh == s0;
    RegisterPhase(s0, "a");
    assert Insert(s0.(db := s0.db - {"a"}), "a") == s1;
    DoAll(s0, Idle, Registering("a"));
    RemovePhase(s1, "a");
    assert Removed(s1, "a") == s2;
    DoAll(s1, Idle, Removal("a"));
    RegisterPhase(s2, "a");
    assert Insert(s2.(db := s2.db - {"a"}), "a") == Twice();
    DoAll(s2, Idle, Registering("a"));
  }

  function OneRecord(e: Bytes): Shared {
    Put(Twice(), "a", 1, e, [])
  }

  lemma RecordStored(e: Bytes)
    ensures Reaches(OneRecord(e), Idle)
  {
    RegisteredTwice();
    AppendPhase(Twice(), "a", e);
    DoAll(Twice(), Idle, Appending("a", e));
  }

  /** The whole story in one run of one thread: "a" is registered, removed and
      registered again; the second session gets a record; the handle of the
      first drains it. A memory handle would have drained its own, empty list. */
  lemma StaleHandleRun(e: Bytes)
    ensures exists acts :: StolenFrom(After(Start(), acts).sh, e)
  {
    var before := OneRecord(e);
    assert before.db["a"] == [] + [Rec(1, e)];
    RecordStored(e);
    DrainPhase(before, 0);
    DoAll(before, Idle, Draining(0));
    PayloadsAppend([], Rec(1, e));
    assert StolenFrom(Take(before, 0, before.db["a"]), e);
  }

  /** `e` was appended to the registered session 1 and only session 0 got it. */
  predicate StolenFrom(sh: Shared, e: Bytes) {
    && sh.writer.None? && Registered(sh, "a", 1) && Under(sh.appended, 1) == [e]
    && Under(sh.drained, 1) == [] && Under(sh.db, "a") == [] && Under(sh.drained, 0) == [e]
  }
}
