/** The lock of the identity service as the code takes it: a call holds the write
    lock, and a miss asks for the read lock of the same, non-reentrant lock. */
module LockedRead {
  import opened Common

  /** A call hits or misses once it has the lock. */
  datatype Pc = Waiting | Holding | WantsRead | Fetching | Returned

  /** The call inside the write lock, whether the cache has ever been filled, and
      where every call is. The read of the name takes and releases the read lock in
      one step. Only a finished fetch fills the cache, which a hit needs. */
  datatype System = System(writer: Option<nat>, filled: bool, calls: seq<Pc>)

  datatype Step = Arrive | Lock(c: nat) | Hit(c: nat) | Miss(c: nat) | ReadName(c: nat) | Finish(c: nat)

  ghost predicate Enabled(s: System, step: Step) {
    match step
    case Arrive => true
    case Lock(c) => c < |s.calls| && s.calls[c].Waiting? && s.writer.None?
    case Hit(c) => c < |s.calls| && s.calls[c].Holding? && s.filled
    case Miss(c) => c < |s.calls| && s.calls[c].Holding?
    case ReadName(c) => c < |s.calls| && s.calls[c].WantsRead? && s.writer.None?
    case Finish(c) => c < |s.calls| && s.calls[c].Fetching?
  }

  ghost function Do(s: System, step: Step): System
    requires Enabled(s, step)
  {
    match step
    case Arrive => s.(calls := s.calls + [Waiting])
    case Lock(c) => s.(writer := Some(c), calls := s.calls[c := Holding])
    case Hit(c) => s.(writer := None, calls := s.calls[c := Returned])
    case Miss(c) => s.(calls := s.calls[c := WantsRead])
    case ReadName(c) => s.(calls := s.calls[c := Fetching])
    case Finish(c) => s.(writer := None, filled := true, calls := s.calls[c := Returned])
  }

  ghost predicate ValidRun(s: System, run: seq<Step>)
    decreases |run|
  {
    run != [] ==> Enabled(s, run[0]) && ValidRun(Do(s, run[0]), run[1..])
  }

  ghost function After(s: System, run: seq<Step>): System
    requires ValidRun(s, run)
    decreases |run|
  {
    if run == [] then s else After(Do(s, run[0]), run[1..])
  }

  const INIT: System := System(None, false, [])

  ghost predicate Owned(s: System) {
    forall c: nat :: c < |s.calls| ==>
      !s.calls[c].Fetching? && (s.calls[c].Holding? || s.calls[c].WantsRead? <==> s.writer == Some(c))
  }

  /** Some call has missed. */
  ghost predicate Missed(s: System, c: nat) {
    c < |s.calls| && s.calls[c].WantsRead?
  }

  lemma {:induction false} RunKeepsOwned(s: System, run: seq<Step>)
    requires Owned(s) && (s.writer.Some? ==> s.writer.value < |s.calls|) && ValidRun(s, run)
    ensures Owned(After(s, run))
    decreases |run|
  {
    if run != [] {
      RunKeepsOwned(Do(s, run[0]), run[1..]);
    }
  }

  /** After a miss nothing moves again: the call that missed waits for itself, and
      every other call, now or later, waits for it. */
  lemma {:induction false} MissBlocksForever(s: System, run: seq<Step>, c: nat)
    requires Owned(s) && ValidRun(s, run) && Missed(s, c)
    ensures Missed(After(s, run), c) && After(s, run).writer == Some(c)
    ensures |s.calls| <= |After(s, run).calls|
    ensures forall d: nat :: d < |s.calls| ==> After(s, run).calls[d] == s.calls[d]
    ensures forall d: nat :: |s.calls| <= d < |After(s, run).calls| ==> After(s, run).calls[d].Waiting?
    decreases |run|
  {
    if run != [] {
      assert run[0].Arrive?;
      MissBlocksForever(Do(s, run[0]), run[1..], c);
    }
  }

  /** The cache starts empty and only a finished fetch would fill it, so the first
      call that gets the lock misses: in no run does any call ever return. */
  lemma {:induction false} NothingReturns(s: System, run: seq<Step>, c: nat)
    requires Owned(s) && (s.writer.Some? ==> s.writer.value < |s.calls|) && ValidRun(s, run)
    requires !s.filled && forall d :: 0 <= d < |s.calls| ==> !s.calls[d].Returned?
    ensures !After(s, run).filled
    ensures c < |After(s, run).calls| ==> !After(s, run).calls[c].Returned?
    decreases |run|
  {
    if run != [] {
      NothingReturns(Do(s, run[0]), run[1..], c);
    }
  }

  lemma NoCallEverReturns(run: seq<Step>, c: nat)
    requires ValidRun(INIT, run) && c < |After(INIT, run).calls|
    ensures !After(INIT, run).calls[c].Returned?
  {
    NothingReturns(INIT, run, c);
  }

  /** A warm cache would let calls return by hits, and by nothing else. */
  lemma {:induction false} OnlyHitsReturn(s: System, run: seq<Step>, i: nat)
    requires Owned(s) && (s.writer.Some? ==> s.writer.value < |s.calls|)
    requires ValidRun(s, run) && i < |run|
    ensures !run[i].ReadName? && !run[i].Finish?
  {
    RunSplits(s, run, i);
    RunKeepsOwned(s, run[..i]);
    assert Enabled(After(s, run[..i]), run[i]);
  }

  lemma Prepend(s: System, step: Step, rest: seq<Step>) returns (run: seq<Step>)
    requires Enabled(s, step) && ValidRun(Do(s, step), rest)
    ensures ValidRun(s, run) && After(s, run) == After(Do(s, step), rest)
  {
    run := [step] + rest;
    assert run[1..] == rest;
  }

  /** And they do: from a filled cache and a free lock the next call can return. */
  lemma WarmCallReturns(s: System) returns (run: seq<Step>)
    requires s.filled && s.writer.None?
    ensures ValidRun(s, run) && After(s, run) == System(None, true, s.calls + [Returned])
  {
    var c := |s.calls|;
    var arrived := Do(s, Arrive);
    var locked := Do(arrived, Lock(c));
    assert Do(locked, Hit(c)).calls == s.calls + [Returned];
    run := Prepend(locked, Hit(c), []);
    run := Prepend(arrived, Lock(c), run);
    run := Prepend(s, Arrive, run);
  }

  lemma {:induction false} RunSplits(s: System, run: seq<Step>, i: nat)
    requires ValidRun(s, run) && i < |run|
    ensures ValidRun(s, run[..i]) && Enabled(After(s, run[..i]), run[i])
    decreases i
  {
    if i > 0 {
      RunSplits(Do(s, run[0]), run[1..], i - 1);
      assert run[..i][1..] == run[1..][..i - 1];
    }
  }
}
