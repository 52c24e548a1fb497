/** Two ways to lose sub-jobs.  A crash between the flush and the move to running_sub_jobs: the parent
    is queued again, and when its second run buffers nothing it is marked done and the sub-jobs of
    the first run are deleted without having run.  And a claim that fails. */
module DispatcherExamples {
  import opened DispatcherRuns
  import opened Dispatchers
  import opened JobTables
  import opened Options

  const P: Spec := Spec("p", None, None)
  const C: Spec := Spec("c", None, None)
  const ENTRY: QueuedJob := QueuedJob(1, "p")

  ghost predicate Chain(states: seq<State>, steps: seq<Step>) {
    |states| == |steps| + 1 && forall k | 0 <= k < |steps| :: Does(states[k], steps[k], states[k + 1])
  }

  lemma ChainConcat(a: seq<State>, f: seq<Step>, b: seq<State>, g: seq<Step>)
    requires Chain(a, f) && Chain(b, g) && a[|f|] == b[0]
    ensures Chain(a + b[1..], f + g) && (a + b[1..])[0] == a[0] && (a + b[1..])[|f| + |g|] == b[|g|]
  {
    var all, steps := a + b[1..], f + g;
    forall k | 0 <= k < |steps|
      ensures Does(all[k], steps[k], all[k + 1])
    {
      if k >= |f| {
        assert all[k] == b[k - |f|] && all[k + 1] == b[k - |f| + 1] && steps[k] == g[k - |f|];
      }
    }
  }

  ghost function Fresh(): State {
    State(map[], 1, [], {}, map[], false, Idle, 1, multiset{}, multiset{}, {}, Ledger(map[], map[], map[], {}), {}, {},
          0)
  }

  /** Row 1 is picked for the first time. */
  ghost function FirstPick(): State {
    Fresh().(rows := map[1 := Job(P, Queued, None, 0)], nextId := 2, handlers := map["p" := Meta(true, 1)],
             phase := Picked(ENTRY))
  }

  /** Row 2 has been written for row 1, whose flush is complete. */
  ghost function Written(): State {
    FirstPick().(rows := map[1 := Job(P, Running, None, 1), 2 := Job(C, Queued, Some(1), 0)], nextId := 3,
                 phase := Flushing(1, [], 1), invoked := multiset{1}, runs := multiset{1},
                 ledger := Ledger(map[1 := [C]], map[1 := [C]], map[1 := [2]], {}))
  }

  /** After the crash and the restart: row 1 is picked again. */
  ghost function SecondPick(): State {
    Written().(rows := map[1 := Job(P, Queued, None, 1), 2 := Job(C, Queued, Some(1), 0)], phase := Picked(ENTRY),
               invoked := multiset{}, crashes := 1)
  }

  lemma ToFirstPick() returns (states: seq<State>, steps: seq<Step>)
    ensures Chain(states, steps) && states[0] == Fresh() && states[|steps|] == FirstPick()
  {
    var s1 := Fresh().(handlers := map["p" := Meta(true, 1)]);
    var s2 := s1.(rows := map[1 := Job(P, Queued, None, 0)], nextId := 2, unappended := {ENTRY});
    var s3 := s2.(queue := [ENTRY], unappended := {});
    assert InsertJob(s1, P, true, s2);
    assert AppendJob(s2, ENTRY, s3);
    assert PickJob(s3, 0, FirstPick());
    states := [Fresh(), s1, s2, s3, FirstPick()];
    steps := [SRegisterType("p", Meta(true, 1)), SInsertJob(P, true), SAppendJob(ENTRY), SPickJob(0)];
  }

  /** The handler of row 1 has returned with one sub-job. */
  ghost function Returned(): State {
    FirstPick().(rows := map[1 := Job(P, Running, None, 0)], phase := Flushing(1, [C], 0), invoked := multiset{1},
                 runs := multiset{1}, ledger := Ledger(map[1 := [C]], map[1 := []], map[1 := []], {}))
  }

  lemma ToReturned() returns (states: seq<State>, steps: seq<Step>)
    ensures Chain(states, steps) && states[0] == FirstPick() && states[|steps|] == Returned()
  {
    var s5 := FirstPick().(rows := map[1 := Job(P, Running, None, 0)], phase := Starting(1));
    var s6 := s5.(phase := Handling(1), invoked := multiset{1}, runs := multiset{1});
    assert Start(FirstPick(), 1, s5);
    assert StartHandler(s5, 1, s6);
    OpensFirst(s6);
    states := [FirstPick(), s5, s6, Returned()];
    steps := [SStart(1), SStartHandler(1), SHandlerReturned(1, [C])];
  }

  lemma OpensFirst(s: State)
    requires s == Returned().(phase := Handling(1), ledger := Fresh().ledger)
    ensures HandlerReturned(s, 1, [C], Returned())
  {
    assert [] + [C] == [C];
  }

  lemma ToWritten() returns (states: seq<State>, steps: seq<Step>)
    ensures Chain(states, steps) && states[0] == FirstPick() && states[|steps|] == Written()
  {
    var a, f := ToReturned();
    WriteC(Returned());
    states, steps := Extend(a, f, SFlushBatch(1), Written());
  }

  lemma Extend(a: seq<State>, f: seq<Step>, step: Step, s: State) returns (states: seq<State>, steps: seq<Step>)
    requires Chain(a, f) && Does(a[|f|], step, s)
    ensures Chain(states, steps) && states == a + [s] && steps == f + [step]
  {
    states, steps := a + [s], f + [step];
  }

  lemma ThreeSteps(s0: State, a: Step, s1: State, b: Step, s2: State, c: Step, s3: State)
    returns (states: seq<State>, steps: seq<Step>)
    requires Does(s0, a, s1) && Does(s1, b, s2) && Does(s2, c, s3)
    ensures Chain(states, steps) && states == [s0, s1, s2, s3] && steps == [a, b, c]
  {
    states, steps := Extend([s0], [], a, s1);
    states, steps := Extend(states, steps, b, s2);
    states, steps := Extend(states, steps, c, s3);
  }

  lemma WriteC(s: State)
    requires s == Returned()
    ensures FlushBatch(s, 1, Written())
  {
    assert [C][..1] == [C] && [C][1..] == [] && [C][..0] == [];
    assert Ids(2, 1) == [2];
    assert InsertedChildren(s.rows, 2, 1, []) == s.rows;
    assert InsertedChildren(s.rows, 2, 1, [C]) == InsertedChild(s.rows, 2, 1, C) == Written().rows;
    assert s.ledger.kids[1] + Ids(2, 1) == [2] && s.ledger.sent[1] + [C] == [C];
    assert Written().ledger.sent == s.ledger.sent[1 := [C]] && Written().ledger.kids == s.ledger.kids[1 := [2]];
  }

  lemma ToRestarted() returns (states: seq<State>, steps: seq<Step>)
    ensures Chain(states, steps) && states[0] == Written() && states[|steps|] == SecondPick().(phase := Idle)
  {
    var t0 := SecondPick().(handlers := map[], phase := Idle);
    assert Crash(Written(), t0) by { assert StuckReset(Written().rows) == t0.rows; }
    states := [Written(), t0, SecondPick().(phase := Idle)];
    steps := [SCrash, SRegisterType("p", Meta(true, 1))];
  }

  lemma ToLoading() returns (states: seq<State>, steps: seq<Step>)
    ensures Chain(states, steps) && states[0] == SecondPick().(phase := Idle)
    ensures states[|steps|] == SecondPick().(phase := Loading([ENTRY]))
  {
    var t1, t2 := SecondPick().(phase := Idle), SecondPick().(phase := Loading([ENTRY]));
    assert LoadQuery(t1, [ENTRY], t2) by { assert [ENTRY][0].id == 1; }
    states, steps := [t1, t2], [SLoadQuery([ENTRY])];
  }

  lemma ToSecondPick() returns (states: seq<State>, steps: seq<Step>)
    ensures Chain(states, steps) && states[0] == SecondPick().(phase := Loading([ENTRY]))
    ensures states[|steps|] == SecondPick()
  {
    var t2 := SecondPick().(phase := Loading([ENTRY]));
    var t3 := SecondPick().(phase := Idle, queue := [ENTRY]);
    assert LoadAppend(t2, t3) by {
      assert [ENTRY][..0] == [];
      assert Absent([], [ENTRY]) == [ENTRY];
    }
    assert PickJob(t3, 0, SecondPick());
    states := [t2, t3, SecondPick()];
    steps := [SLoadAppend, SPickJob(0)];
  }

  /** The second run of the handler has returned with nothing. */
  ghost function ReturnedAgain(): State {
    SecondPick().(rows := map[1 := Job(P, Running, None, 1), 2 := Job(C, Queued, Some(1), 0)],
                  phase := Flushing(1, [], 0), invoked := multiset{1}, runs := multiset{1, 1})
  }

  lemma ToReturnedAgain() returns (states: seq<State>, steps: seq<Step>)
    ensures Chain(states, steps) && states[0] == SecondPick() && states[|steps|] == ReturnedAgain()
  {
    var s := SecondPick();
    var t5 := s.(rows := ReturnedAgain().rows, phase := Starting(1));
    var t6 := t5.(phase := Handling(1), invoked := multiset{1}, runs := multiset{1, 1});
    StartsAgain(s, t5, t6);
    OpensAgain(t6);
    states, steps := ThreeSteps(s, SStart(1), t5, SStartHandler(1), t6, SHandlerReturned(1, []), ReturnedAgain());
  }

  lemma StartsAgain(s: State, t5: State, t6: State)
    requires s == SecondPick() && t5 == s.(rows := ReturnedAgain().rows, phase := Starting(1))
    requires t6 == t5.(phase := Handling(1), invoked := multiset{1}, runs := multiset{1, 1})
    ensures Start(s, 1, t5) && StartHandler(t5, 1, t6)
  {
  }

  lemma OpensAgain(s: State)
    requires s == ReturnedAgain().(phase := Handling(1))
    ensures HandlerReturned(s, 1, [], ReturnedAgain())
  {
    assert [C] + [] == [C];
    assert Opened(s.ledger, 1, []) == s.ledger;
  }

  ghost function DoneAgain(): State {
    ReturnedAgain().(rows := map[1 := Job(P, Done, None, 1)], phase := Idle, lost := {1})
  }

  lemma LosesC()
    ensures FlushToDone(ReturnedAgain(), 1, DoneAgain())
  {
    assert MarkedDone(ReturnedAgain().rows, 1) == DoneAgain().rows;
    assert 2 in QueuedChildren(ReturnedAgain().rows, 1);
  }

  lemma ToDone() returns (states: seq<State>, steps: seq<Step>)
    ensures Chain(states, steps) && states[0] == SecondPick() && states[|steps|] == DoneAgain()
  {
    var a, f := ToReturnedAgain();
    LosesC();
    states, steps := Extend(a, f, SFlushToDone(1), DoneAgain());
  }

  /** An execution in which a parent whose type supports sub-jobs ends done although the handler of
      a sub-job written for it never ran. */
  lemma CrashWhileFlushingLosesSubJobs() returns (states: seq<State>, steps: seq<Step>, written: nat)
    ensures Execution(states, steps) && written <= |steps|
    ensures states[written] == Written() && Written().rows[2].parent == Some(1)
    ensures var s := states[|steps|];
            && 1 in s.rows && s.rows[1].status == Done && SupportsSubjobs(s, 1)
            && 2 !in s.rows && s.runs[2] == 0
  {
    var a, f := ToFirstPick();
    var b, g := ToWritten();
    ChainConcat(a, f, b, g);
    a, f := a + b[1..], f + g;
    written := |f|;
    ghost var first := a;
    b, g := ToRestarted();
    ChainConcat(a, f, b, g);
    a, f := a + b[1..], f + g;
    assert a[written] == first[written];
    first := a;
    b, g := ToLoading();
    ChainConcat(a, f, b, g);
    a, f := a + b[1..], f + g;
    assert a[written] == first[written];
    first := a;
    b, g := ToSecondPick();
    ChainConcat(a, f, b, g);
    a, f := a + b[1..], f + g;
    assert a[written] == first[written];
    first := a;
    b, g := ToDone();
    ChainConcat(a, f, b, g);
    states, steps := a + b[1..], f + g;
    assert states[written] == first[written];
  }

  /** An execution without any crash in which the claim fails and the sub-job is deleted likewise. */
  lemma FailingClaimLosesSubJobs() returns (states: seq<State>, steps: seq<Step>)
    ensures Execution(states, steps) && states[|steps|].crashes == 0
    ensures var s := states[|steps|]; s.rows == map[1 := Job(P, Done, None, 1)] && s.runs == multiset{1} && 1 in s.lost
  {
    var a, f := ToFirstPick();
    var b, g := ToWritten();
    ChainConcat(a, f, b, g);
    a, f := a + b[1..], f + g;
    b, g := ToFailedClaim();
    ChainConcat(a, f, b, g);
    states, steps := a + b[1..], f + g;
  }

  ghost function Drains(): State {
    Written().(rows := map[1 := Job(P, RunningSubJobs, None, 1), 2 := Job(C, Queued, Some(1), 0)], phase := Draining(1))
  }

  ghost function ClaimFailed(): State {
    Drains().(rows := map[1 := Job(P, Done, None, 1)], phase := Idle, lost := {1})
  }

  lemma LosesCToClaim()
    ensures ClaimFails(Drains(), 1, ClaimFailed())
  {
    assert MarkedDone(Drains().rows, 1) == ClaimFailed().rows;
    assert 2 in QueuedChildren(Drains().rows, 1);
  }

  lemma ToFailedClaim() returns (states: seq<State>, steps: seq<Step>)
    ensures Chain(states, steps) && states[0] == Written() && states[|steps|] == ClaimFailed()
  {
    StartsDraining();
    LosesCToClaim();
    states, steps := Extend([Written(), Drains()], [SFlushToDrain(1)], SClaimFails(1), ClaimFailed());
  }

  lemma StartsDraining()
    ensures FlushToDrain(Written(), 1, Drains())
  {
  }
}
