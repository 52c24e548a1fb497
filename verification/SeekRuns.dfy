/** Seeks of one session that overlap: a served request and the proactive gap fill after another
    may both be restarting ffmpeg.  The lock is held only while a seek decides, kills or publishes. */
module SeekRuns {
  import opened Options
  import opened Streaming

  /** A seek that has decided on its target, given what was available then; that has killed the
      published process; or that has started its own. */
  datatype Seek = Decided(target: int, seen: set<int>) | Killed(target: int, seen: set<int>) | Started(proc: int)

  /** The field orphans is history: processes whose successor was published while they were running. */
  datatype System = System(available: set<int>, cmd: Option<int>, running: map<int, Encode>, nextProc: int,
                           seeks: map<int, Seek>, orphans: set<int>)

  datatype Move = Decide(r: int, target: int) | Kill(r: int) | Start(r: int, plan: Encode) | StartFails(r: int)
    | Publish(r: int) | Mark(n: int) | Exit(p: int)

  ghost predicate Init(s: System) {
    s == System({}, Some(0), map[0 := Encode(0, 0, 0)], 1, map[], {})
  }

  /** The plan writes exactly the segments from target up to the next one that was available. */
  ghost predicate PlansGap(seen: set<int>, target: int, e: Encode) {
    forall m :: Writes(e, m) <==> target <= m && forall k | target <= k <= m :: k !in seen
  }

  ghost predicate Enabled(s: System, m: Move) {
    match m
    case Decide(r, target) => r !in s.seeks && target !in s.available
    case Kill(r) => r in s.seeks && s.seeks[r].Decided?
    case Start(r, plan) => r in s.seeks && s.seeks[r].Killed? && PlansGap(s.seeks[r].seen, s.seeks[r].target, plan)
    case StartFails(r) => r in s.seeks && s.seeks[r].Killed?
    case Publish(r) => r in s.seeks && s.seeks[r].Started?
    case Mark(_) => true
    case Exit(p) => p in s.running
  }

  function Alive(s: System): set<int> {
    if s.cmd.Some? && s.cmd.value in s.running then {s.cmd.value} else {}
  }

  function After(s: System, m: Move): System
    requires Enabled(s, m)
  {
    match m
    case Decide(r, target) => s.(seeks := s.seeks[r := Decided(target, s.available)])
    case Kill(r) =>
      s.(running := s.running - Alive(s), cmd := None,
         seeks := s.seeks[r := Killed(s.seeks[r].target, s.seeks[r].seen)])
    case Start(r, plan) =>
      s.(running := s.running[s.nextProc := plan], nextProc := s.nextProc + 1,
         seeks := s.seeks[r := Started(s.nextProc)])
    case StartFails(r) => s.(seeks := s.seeks - {r})
    case Publish(r) => s.(cmd := Some(s.seeks[r].proc), orphans := s.orphans + Alive(s), seeks := s.seeks - {r})
    case Mark(n) => s.(available := s.available + {n})
    case Exit(p) => s.(running := s.running - {p})
  }

  /** The process of a seek that has not published it yet. */
  predicate Unpublished(s: System, p: int) {
    exists r :: r in s.seeks && s.seeks[r] == Started(p)
  }

  /** Every running process is the published one, about to be published, or an orphan. */
  ghost predicate Accounted(s: System) {
    && (forall p | p in s.running :: p < s.nextProc && (s.cmd == Some(p) || Unpublished(s, p) || p in s.orphans))
    && (forall r | r in s.seeks && s.seeks[r].Started? :: s.seeks[r].proc < s.nextProc)
    && (forall q, r | q in s.seeks && r in s.seeks && q != r && s.seeks[q].Started? :: s.seeks[q] != s.seeks[r])
    && (forall p | p in s.orphans || s.cmd == Some(p) :: p < s.nextProc && !Unpublished(s, p))
    && (s.cmd.Some? ==> s.cmd.value !in s.orphans)
  }

  lemma MoveKeeps(s: System, m: Move)
    requires Accounted(s) && Enabled(s, m)
    ensures Accounted(After(s, m))
  {
    var s' := After(s, m);
    forall p | p in s'.running
      ensures p < s'.nextProc && (s'.cmd == Some(p) || Unpublished(s', p) || p in s'.orphans)
    {
      StaysAccounted(s, m, p);
    }
  }

  lemma StaysAccounted(s: System, m: Move, p: int)
    requires Accounted(s) && Enabled(s, m) && p in After(s, m).running
    ensures var s' := After(s, m); p < s'.nextProc && (s'.cmd == Some(p) || Unpublished(s', p) || p in s'.orphans)
  {
    var s' := After(s, m);
    if m.Start? && p == s.nextProc {
      assert s'.seeks[m.r] == Started(p);
    } else if r :| r in s.seeks && s.seeks[r] == Started(p) {
      assert m != Publish(r) ==> s'.seeks[r] == Started(p);
    }
  }

  ghost predicate Execution(states: seq<System>, moves: seq<Move>) {
    && |states| == |moves| + 1 && Init(states[0])
    && forall k | 0 <= k < |moves| :: Enabled(states[k], moves[k]) && states[k + 1] == After(states[k], moves[k])
  }

  lemma {:induction false} ReachableAccounted(states: seq<System>, moves: seq<Move>, k: nat)
    requires Execution(states, moves) && k <= |moves|
    ensures Accounted(states[k])
  {
    if k == 0 {
    } else {
      ReachableAccounted(states, moves, k - 1);
      MoveKeeps(states[k - 1], moves[k - 1]);
    }
  }

  /** When no seek is under way, nothing but the published encoder runs if and only if no orphan is
      still running. */
  lemma OneEncoderExactlyWhen(states: seq<System>, moves: seq<Move>)
    requires Execution(states, moves) && states[|moves|].seeks == map[]
    ensures var s := states[|moves|]; s.running.Keys == Alive(s) <==> forall p | p in s.running :: p !in s.orphans
  {
    var s := states[|moves|];
    ReachableAccounted(states, moves, |moves|);
    if forall p | p in s.running :: p !in s.orphans {
      assert forall p :: p in s.running.Keys <==> p in Alive(s);
    } else {
      assert forall p | p in s.orphans :: p !in Alive(s);
    }
  }

  /** Between moves i and k some seek has published and no kill has followed. */
  ghost predicate PublishedSince(moves: seq<Move>, i: int, k: int)
    requires k <= |moves|
  {
    exists j :: i < j < k && j >= 0 && moves[j].Publish? && forall l | j < l < k :: !moves[l].Kill?
  }

  lemma {:induction false} PublishedAfterKill(states: seq<System>, moves: seq<Move>, i: nat, k: nat)
    requires Execution(states, moves) && i < k <= |moves| && moves[i].Kill?
    ensures states[k].cmd.Some? <==> PublishedSince(moves, i, k)
  {
    var m := moves[k - 1];
    if k == i + 1 {
    } else {
      PublishedAfterKill(states, moves, i, k - 1);
      if PublishedSince(moves, i, k - 1) && !m.Kill? {
        var j :| i < j < k - 1 && moves[j].Publish? && forall l | j < l < k - 1 :: !moves[l].Kill?;
        assert forall l | j < l < k :: !moves[l].Kill?;
        assert PublishedSince(moves, i, k);
      }
    }
    assert m.Publish? && k - 1 > i ==> PublishedSince(moves, i, k);
  }

  /** The seek that killed at move i publishes at move k.  This orphans an encoder exactly when
      another seek has published since, no kill has followed, and its encoder is still running. */
  lemma OrphansExactlyWhen(states: seq<System>, moves: seq<Move>, i: nat, k: nat)
    requires Execution(states, moves) && i < k < |moves| && moves[i].Kill? && moves[k].Publish?
    ensures Alive(states[k]) != {} <==>
              PublishedSince(moves, i, k) && states[k].cmd.Some? && states[k].cmd.value in states[k].running
    ensures states[k + 1].orphans == states[k].orphans + Alive(states[k])
    ensures Alive(states[k]) !! states[k].orphans
  {
    PublishedAfterKill(states, moves, i, k);
    ReachableAccounted(states, moves, k);
  }

  /** Past its kill and not yet published: a seek that may orphan what another one publishes. */
  predicate Exposed(s: System, r: int) {
    r in s.seeks && !s.seeks[r].Decided?
  }

  /** Two seeks are never past their kill at the same time. */
  ghost predicate Serial(states: seq<System>) {
    forall k, q, r | 0 <= k < |states| && Exposed(states[k], q) && Exposed(states[k], r) :: q == r
  }

  /** Then there are no orphans. */
  lemma {:induction false} SerialSeeksOrphanNothing(states: seq<System>, moves: seq<Move>, k: nat)
    requires Execution(states, moves) && Serial(states) && k <= |moves|
    ensures states[k].orphans == {}
    ensures (exists r :: Exposed(states[k], r)) ==> states[k].cmd == None
  {
    if k > 0 {
      SerialSeeksOrphanNothing(states, moves, k - 1);
      var s, m := states[k - 1], moves[k - 1];
      assert m.Publish? ==> Exposed(s, m.r);
      if r :| Exposed(states[k], r) {
        assert m.Publish? || Exposed(s, r) || m == Kill(r);
        assert m.Publish? ==> Exposed(s, r);
      }
    }
  }

  /** Both have killed and started, and neither has published. */
  ghost function BothStarted(): System {
    System({}, None, map[1 := Encode(30, 5, 0), 2 := Encode(60, 10, 0)], 3, map[1 := Started(1), 2 := Started(2)], {})
  }

  ghost function BothKilled(): System {
    System({}, None, map[], 1, map[1 := Killed(5, {}), 2 := Killed(10, {})], {})
  }

  lemma ToBothKilled() returns (states: seq<System>, moves: seq<Move>)
    ensures Execution(states, moves) && states[|moves|] == BothKilled()
  {
    var s0 := System({}, Some(0), map[0 := Encode(0, 0, 0)], 1, map[], {});
    var s1 := s0.(seeks := map[1 := Decided(5, {})]);
    var s2 := s0.(seeks := map[1 := Decided(5, {}), 2 := Decided(10, {})]);
    var s3 := s2.(cmd := None, running := map[], seeks := map[1 := Killed(5, {}), 2 := Decided(10, {})]);
    assert After(s0, Decide(1, 5)) == s1 && After(s1, Decide(2, 10)) == s2;
    assert After(s2, Kill(1)) == s3 && After(s3, Kill(2)) == BothKilled();
    states, moves := [s0, s1, s2, s3, BothKilled()], [Decide(1, 5), Decide(2, 10), Kill(1), Kill(2)];
  }

  lemma Extend(a: seq<System>, f: seq<Move>, m: Move) returns (states: seq<System>, moves: seq<Move>)
    requires Execution(a, f) && Enabled(a[|f|], m)
    ensures Execution(states, moves) && moves == f + [m] && states == a + [After(a[|f|], m)]
  {
    states, moves := a + [After(a[|f|], m)], f + [m];
  }

  lemma ToBothStarted() returns (states: seq<System>, moves: seq<Move>)
    ensures Execution(states, moves) && states[|moves|] == BothStarted()
  {
    var a, f := ToBothKilled();
    a, f := Extend(a, f, Start(1, Encode(30, 5, 0)));
    states, moves := Extend(a, f, Start(2, Encode(60, 10, 0)));
  }

  /** Two overlapping seeks of a new session leave two encoders running. */
  lemma TwoEncoders() returns (states: seq<System>, moves: seq<Move>)
    ensures Execution(states, moves) && states[|moves|].seeks == map[]
    ensures 1 in states[|moves|].running && 2 in states[|moves|].running && states[|moves|].cmd == Some(2)
  {
    var a, f := ToBothStarted();
    a, f := Extend(a, f, Publish(1));
    states, moves := Extend(a, f, Publish(2));
  }

  /** Whatever overlaps, a run that is started writes nothing that was available when its seek
      decided; it overwrites exactly what has been marked in its window since. */
  lemma StartedRunOverwrites(s: System, r: int, plan: Encode)
    requires Enabled(s, Start(r, plan))
    ensures (exists m :: Writes(plan, m) && m in s.available)
            <==> exists m :: Writes(plan, m) && m in s.available - s.seeks[r].seen
  {
    if m :| Writes(plan, m) && m in s.available {
      assert m !in s.seeks[r].seen;
    }
  }
}
