/** On-the-fly HLS sessions: when ffmpeg is restarted and which segments the new run writes. */
module Streaming {
  import opened Options
  import opened SegmentNames
  import opened SegmentSets

  const SEGMENT_DURATION: int := 6
  const TRANSCODE_SEEK_RESTART_THRESHOLD: int := 18
  const REMUX_SEEK_RESTART_THRESHOLD: int := 600

  /** One ffmpeg run: -ss offsetSecs, -hls_start_number startNum, -t durationSecs when non-zero. */
  datatype Encode = Encode(offsetSecs: int, startNum: int, durationSecs: int)

  /** The run produces segment m. */
  ghost predicate Writes(e: Encode, m: int) {
    && e.startNum <= m
    && (e.durationSecs != 0 ==> (m - e.startNum) * SEGMENT_DURATION < e.durationSecs)
  }

  /** The manifest file is the one clients are served, not the one used after a seek. */
  predicate UsesServedManifest(e: Encode) {
    !(e.offsetSecs != 0 || e.durationSecs != 0)
  }

  /** e writes exactly the missing segments from target up to the next available one, each at
      the time its number stands for. */
  ghost predicate IsGapPlan(rs: seq<SegRange>, target: int, e: Encode) {
    && e.startNum == target
    && e.offsetSecs == target * SEGMENT_DURATION
    && e.durationSecs >= 0 && e.durationSecs % SEGMENT_DURATION == 0
    && forall m :: Writes(e, m) <==> target <= m && forall k | target <= k <= m :: !Available(rs, k)
  }

  /** after denotes the set of before together with marked. */
  ghost predicate MarksAdded(before: seq<SegRange>, marked: seq<int>, after: seq<SegRange>) {
    && Canonical(after)
    && forall m :: Available(after, m) <==> Available(before, m) || m in marked
  }

  /** What other goroutines do while the lock is free: segments they mark available, and the
      segment that the watcher last saw being created. */
  datatype Meanwhile = Meanwhile(marked: seq<int>, current: Option<int>)

  function Watched(current: int, m: Meanwhile): int {
    if m.current.Some? then m.current.value else current
  }

  datatype Outcome = InvalidName | Served | NotReady

  class Session {
    const segments: SegmentSet
    const isRemux: bool
    var currentSegment: int
    var cmd: Option<Encode>

    ghost predicate Valid()
      reads this, segments
    {
      segments.Valid()
    }

    /** A new session encodes the whole file from segment 0. */
    constructor (isRemux: bool)
      ensures Valid() && fresh(segments) && segments.ranges == []
      ensures this.isRemux == isRemux && currentSegment == 0
      ensures cmd.Some? && IsGapPlan([], 0, cmd.value) && UsesServedManifest(cmd.value)
    {
      this.segments := new SegmentSet();
      this.isRemux := isRemux;
      this.currentSegment := 0;
      this.cmd := Some(Encode(0, 0, 0));
    }

    function LookaheadSegs(): int {
      (if isRemux then REMUX_SEEK_RESTART_THRESHOLD else TRANSCODE_SEEK_RESTART_THRESHOLD) / SEGMENT_DURATION
    }

    /** The encoder will come to segment n by itself. */
    predicate WithinReach(n: int)
      reads this
    {
      currentSegment <= n <= currentSegment + LookaheadSegs()
    }

    method WhileUnlocked(m: Meanwhile)
      requires Valid()
      modifies this`currentSegment, segments
      ensures Valid() && MarksAdded(old(segments.ranges), m.marked, segments.ranges)
      ensures currentSegment == Watched(old(currentSegment), m)
    {
      for i := 0 to |m.marked|
        invariant Valid() && MarksAdded(old(segments.ranges), m.marked[..i], segments.ranges)
        invariant currentSegment == old(currentSegment)
      {
        segments.Add(m.marked[i]);
        assert m.marked[..i + 1] == m.marked[..i] + [m.marked[i]];
      }
      assert m.marked[..|m.marked|] == m.marked;
      currentSegment := Watched(currentSegment, m);
    }

    /** Waits until the current segment is available or a deadline has passed, then kills ffmpeg. */
    method KillAfterCurrentSegment(m: Meanwhile)
      requires Valid()
      modifies this`cmd, this`currentSegment, segments
      ensures Valid() && cmd == None
      ensures MarksAdded(old(segments.ranges), m.marked, segments.ranges)
      ensures currentSegment == Watched(old(currentSegment), m)
    {
      WhileUnlocked(m);
      cmd := None;
    }

    /** m is what happens between the decision and the restart; starts says whether ffmpeg could be
        started. */
    method SeekTo(targetSeg: int, m: Meanwhile, starts: bool) returns (ok: bool)
      requires Valid()
      modifies this, segments
      ensures Valid()
      ensures old(Available(segments.ranges, targetSeg)) ==>
                ok && segments.ranges == old(segments.ranges) && cmd == old(cmd)
                  && currentSegment == old(currentSegment)
      ensures !old(Available(segments.ranges, targetSeg)) ==>
                && ok == starts
                && MarksAdded(old(segments.ranges), m.marked, segments.ranges)
                && (ok ==>
                      currentSegment == targetSeg && cmd.Some? && IsGapPlan(old(segments.ranges), targetSeg, cmd.value))
                && (ok ==> cmd.value.startNum == targetSeg && cmd.value.offsetSecs == targetSeg * 6)
                && (ok && cmd.value.durationSecs == 0 ==>
                      forall m | m >= targetSeg :: !old(Available(segments.ranges, m)))
                && (ok && cmd.value.durationSecs != 0 ==>
                      exists next :: targetSeg < next && cmd.value.durationSecs == (next - targetSeg) * 6
                                     && old(Available(segments.ranges, next))
                                     && forall m | targetSeg <= m < next :: !old(Available(segments.ranges, m)))
                && (!ok ==> cmd == None && currentSegment == Watched(old(currentSegment), m))
    {
      var have := segments.Contains(targetSeg, 1);
      assert have <==> Available(segments.ranges, targetSeg) by {
        assert have ==> exists n :: targetSeg <= n <= targetSeg && Available(segments.ranges, n);
      }
      if have {
        return true;
      }
      var firstMissing := targetSeg;
      var nextAvailable, hasNext := segments.FirstAvailableAfter(firstMissing);
      ghost var before := segments.ranges;
      KillAfterCurrentSegment(m);

      var offsetSecs := firstMissing * SEGMENT_DURATION;
      var durationSecs := 0;
      if hasNext {
        durationSecs := (nextAvailable - firstMissing) * SEGMENT_DURATION;
      }
      if !starts {
        return false;
      }
      PlanIsGap(before, targetSeg, nextAvailable, hasNext);
      GapBounds(before, targetSeg, nextAvailable, hasNext);
      cmd := Some(Encode(offsetSecs, firstMissing, durationSecs));
      currentSegment := firstMissing;
      return true;
    }

    /** What to seek to after serving the segment before nextSeg; None for nothing. */
    method ProactiveGapFill(nextSeg: int) returns (target: Option<int>)
      requires Valid()
      ensures target == None <==>
                || (Available(segments.ranges, nextSeg) && Available(segments.ranges, nextSeg + 1))
                || WithinReach(nextSeg)
      ensures target == None <==>
                || (Available(segments.ranges, nextSeg) && Available(segments.ranges, nextSeg + 1))
                || currentSegment <= nextSeg <= currentSegment + if isRemux then 100 else 3
      ensures target.Some? ==> var t := target.value;
                && nextSeg <= t <= nextSeg + 1
                && !Available(segments.ranges, t)
                && forall k | nextSeg <= k < t :: Available(segments.ranges, k)
    {
      var lookaheadOK := segments.Contains(nextSeg, 2);
      if lookaheadOK {
        assert Available(segments.ranges, nextSeg) && Available(segments.ranges, nextSeg + 1);
        return None;
      }
      var lookaheadOK1 := segments.Contains(nextSeg, 1);
      var lookaheadOK2 := segments.Contains(nextSeg + 1, 1);
      if nextSeg >= currentSegment && nextSeg <= currentSegment + LookaheadSegs() {
        return None;
      }
      if lookaheadOK1 && !lookaheadOK2 {
        return Some(nextSeg + 1);
      }
      return Some(nextSeg);
    }

    /** beforeSeek, duringSeek and duringWait are what happens while the lock is free before a restart,
        during it, and during the wait for the segment.  A miss seeks the requested segment exactly
        when the encoder will not come to it by itself; that restarts ffmpeg unless the segment has
        become available in the meantime. */
    method ServeSegment(segName: string, beforeSeek: Meanwhile, duringSeek: Meanwhile, duringWait: Meanwhile,
                        starts: bool)
        returns (outcome: Outcome, sought: bool, followUp: Option<int>)
      requires Valid()
      modifies this, segments
      ensures Valid()
      ensures outcome == InvalidName <==> !IsValidSegmentName(segName)
      ensures outcome == InvalidName ==> segments.ranges == old(segments.ranges) && cmd == old(cmd)
      ensures var n := ParseSegmentNumber(segName);
              && (sought <==> outcome != InvalidName && !old(Available(segments.ranges, n)) && !old(WithinReach(n)))
              && (sought <==> outcome != InvalidName && !old(Available(segments.ranges, n))
                              && (n < old(currentSegment) || n > old(currentSegment) + if isRemux then 100 else 3))
              && (outcome == Served <==> outcome != InvalidName && Available(segments.ranges, n))
              && (sought && n in beforeSeek.marked ==>
                    currentSegment == Watched(Watched(old(currentSegment), beforeSeek), duringWait) && cmd == old(cmd))
              && (sought && n !in beforeSeek.marked && starts ==>
                    && currentSegment == Watched(n, duringWait) && cmd.Some?
                    && exists seen :: MarksAdded(old(segments.ranges), beforeSeek.marked, seen)
                                      && IsGapPlan(seen, n, cmd.value))
              && (sought && n !in beforeSeek.marked && !starts ==>
                    && currentSegment
                       == Watched(Watched(Watched(old(currentSegment), beforeSeek), duringSeek), duringWait)
                    && cmd == None)
              && (!sought ==> cmd == old(cmd))
              && (!sought && outcome != InvalidName && !old(Available(segments.ranges, n)) ==>
                    currentSegment == Watched(old(currentSegment), duringWait))
              && (outcome == InvalidName || old(Available(segments.ranges, n))
                  ==> currentSegment == old(currentSegment))
              && (followUp == None <==>
                    || outcome != Served
                    || (Available(segments.ranges, n + 1) && Available(segments.ranges, n + 2))
                    || WithinReach(n + 1))
      ensures followUp.Some? ==> !Available(segments.ranges, followUp.value)
    {
      sought, followUp := false, None;
      if !IsValidSegmentName(segName) {
        return InvalidName, false, None;
      }
      var requestedNum := ParseSegmentNumber(segName);
      var available := segments.Contains(requestedNum, 1);
      assert available <==> Available(segments.ranges, requestedNum) by {
        assert available ==> exists m :: requestedNum <= m <= requestedNum && Available(segments.ranges, m);
      }
      if available {
        followUp := ProactiveGapFill(requestedNum + 1);
        return Served, false, followUp;
      }
      if requestedNum > currentSegment + LookaheadSegs() || requestedNum < currentSegment {
        sought := true;
        WhileUnlocked(beforeSeek);
        ghost var seen := segments.ranges;
        assert MarksAdded(old(segments.ranges), beforeSeek.marked, seen);
        var _ := SeekTo(requestedNum, duringSeek, starts);
      }
      WhileUnlocked(duringWait);
      available := segments.Contains(requestedNum, 1);
      assert available <==> Available(segments.ranges, requestedNum) by {
        assert available ==> exists m :: requestedNum <= m <= requestedNum && Available(segments.ranges, m);
      }
      if !available {
        return NotReady, sought, None;
      }
      followUp := ProactiveGapFill(requestedNum + 1);
      return Served, sought, followUp;
    }
  }

  /** What FirstAvailableAfter answers for a missing target bounds the gap on the right. */
  lemma PlanIsGap(rs: seq<SegRange>, target: int, next: int, found: bool)
    requires !Available(rs, target) && IsNextRun(rs, target, next, found)
    ensures IsGapPlan(rs, target,
                      Encode(target * SEGMENT_DURATION, target, if found then (next - target) * SEGMENT_DURATION
                             else 0))
  {
    var e := Encode(target * SEGMENT_DURATION, target, if found then (next - target) * SEGMENT_DURATION else 0);
    GapBounds(rs, target, next, found);
    assert forall m :: Writes(e, m) <==> target <= m && (found ==> m < next);
  }

  lemma GapBounds(rs: seq<SegRange>, target: int, next: int, found: bool)
    requires !Available(rs, target) && IsNextRun(rs, target, next, found)
    ensures forall m | target <= m && (found ==> m < next) :: !Available(rs, m)
  {
    forall m | target <= m && (found ==> m < next)
      ensures !Available(rs, m)
    {
      MissingUpwards(rs, target, m);
    }
  }

  lemma {:induction false} MissingUpwards(rs: seq<SegRange>, target: int, m: int)
    requires !Available(rs, target) && target <= m
    requires forall k | target < k <= m && Available(rs, k) :: Available(rs, k - 1)
    ensures !Available(rs, m)
    decreases m - target
  {
    if target >= m {
    } else {
      MissingUpwards(rs, target, m - 1);
    }
  }

  /** A plan is a pure function of the set and the target. */
  lemma GapPlanUnique(rs: seq<SegRange>, target: int, e: Encode, e': Encode)
    requires IsGapPlan(rs, target, e) && IsGapPlan(rs, target, e')
    requires !Available(rs, target)
    ensures e == e'
  {
    PlanBound(rs, target, e, e');
    PlanBound(rs, target, e', e);
  }

  lemma PlanBound(rs: seq<SegRange>, target: int, e: Encode, e': Encode)
    requires IsGapPlan(rs, target, e) && IsGapPlan(rs, target, e')
    ensures e'.durationSecs != 0 ==> 0 < e.durationSecs <= e'.durationSecs
  {
    if e'.durationSecs != 0 {
      var m := target + e'.durationSecs / SEGMENT_DURATION;
      assert !Writes(e', m);
      assert !Writes(e, m);
    }
  }

  /** "Existing segments are never overwritten": at the moment the new run starts this holds
      exactly when nothing in its window was marked available during the wait for the kill. */
  lemma RestartOverwritesNothing(before: seq<SegRange>, target: int, e: Encode, marked: seq<int>,
                                 atStart: seq<SegRange>)
    requires IsGapPlan(before, target, e) && MarksAdded(before, marked, atStart)
    ensures (forall m | Writes(e, m) :: !Available(atStart, m)) <==> (forall m | m in marked :: !Writes(e, m))
  {
  }

  /** So an available segment is overwritten exactly when one marked in the meantime lies at or after
      the target with nothing available before it in the gap. */
  lemma SeekOverwritesExactlyWhen(before: seq<SegRange>, target: int, e: Encode, marked: seq<int>,
                                  atStart: seq<SegRange>)
    requires IsGapPlan(before, target, e) && MarksAdded(before, marked, atStart)
    ensures (exists m :: Writes(e, m) && Available(atStart, m))
            <==> exists m :: m in marked && target <= m && forall k | target <= k <= m :: !Available(before, k)
  {
    RestartOverwritesNothing(before, target, e, marked, atStart);
  }

  /** What can be checked before the call: the encoder that is running and the planned one write a
      common segment exactly when both write the later of their starts.  If not, nothing that is
      marked for the running one is overwritten.  Others that may be marked are strays: the watcher
      marks the segment before the one being created, and after an exit the highest one there is. */
  lemma SafeFromRunning(before: seq<SegRange>, target: int, e: Encode, running: Encode, strays: set<int>,
                        marked: seq<int>, atStart: seq<SegRange>)
    requires IsGapPlan(before, target, e) && MarksAdded(before, marked, atStart)
    requires forall m | m in marked :: Writes(running, m) || m in strays
    ensures var top := if running.startNum > target then running.startNum else target;
            && ((exists m :: Writes(running, m) && Writes(e, m)) <==> Writes(running, top) && Writes(e, top))
            && (!(Writes(running, top) && Writes(e, top)) && (forall m | m in strays :: !Writes(e, m)) ==>
                  forall m | Writes(e, m) :: !Available(atStart, m))
  {
    RestartOverwritesNothing(before, target, e, marked, atStart);
  }

  /** The first missing segment at or before target. */
  ghost predicate IsGapStart(rs: seq<SegRange>, target: int, g: int) {
    && 0 <= g <= target && (forall k | g <= k <= target :: !Available(rs, k))
    && (g == 0 || Available(rs, g - 1))
  }

  lemma {:induction false} GapStart(rs: seq<SegRange>, target: int) returns (g: int)
    requires 0 <= target && !Available(rs, target)
    ensures IsGapStart(rs, target, g)
    decreases target
  {
    if target == 0 || Available(rs, target - 1) {
      g := target;
    } else {
      g := GapStart(rs, target - 1);
      assert forall k | g <= k <= target :: !Available(rs, k);
    }
  }

  /** A seek is documented to start at the first missing segment at or before the target.  It does so
      exactly when that is the target itself, and otherwise leaves those before the target missing. */
  lemma StartsGapExactlyWhen(rs: seq<SegRange>, target: int, e: Encode) returns (g: int)
    requires 0 <= target && IsGapPlan(rs, target, e) && !Available(rs, target)
    ensures IsGapStart(rs, target, g)
    ensures e.startNum == g <==> target == 0 || Available(rs, target - 1)
    ensures forall k | g <= k < target :: !Available(rs, k) && !Writes(e, k)
  {
    g := GapStart(rs, target);
  }

  /** A new session seeks to 5 and then back to 2; segment 5 is marked while the run that writes it
      is being stopped.  The run then started writes segment 5 again. */
  method SeekBackOverwrites() returns (s: Session)
    ensures s.Valid() && s.cmd.Some? && Writes(s.cmd.value, 5) && Available(s.segments.ranges, 5)
  {
    s := new Session(false);
    var _ := s.SeekTo(5, Meanwhile([], None), true);
    ghost var before := s.segments.ranges;
    var _ := s.SeekTo(2, Meanwhile([5], None), true);
    assert 5 in [5] && forall k :: !Available(before, k);
  }

  /** A seek overwrites the manifest clients read exactly when it restarts at segment 0 with
      nothing available above. */
  lemma SeekTouchesServedManifest(rs: seq<SegRange>, target: int, e: Encode)
    requires IsGapPlan(rs, target, e) && !Available(rs, target)
    ensures UsesServedManifest(e) <==> target == 0 && forall m | target < m :: !Available(rs, m)
  {
    if e.durationSecs == 0 {
      forall m | target < m
        ensures !Available(rs, m)
      {
        assert Writes(e, m);
        assert forall k | target <= k <= m :: !Available(rs, k);
      }
    } else {
      var m := target + e.durationSecs / SEGMENT_DURATION;
      assert Writes(e, m - 1) && !Writes(e, m);
    }
  }

  /** When all segments of a bounded run have been marked, the range above the gap starts at the
      target, and one range disappears when the segment before the target was available. */
  lemma BoundedRunClosesGap(rs: seq<SegRange>, target: int, e: Encode, p: int, after: seq<SegRange>)
    requires Canonical(rs) && Splits(rs, target, p) && !Available(rs, target)
    requires IsGapPlan(rs, target, e) && e.durationSecs != 0
    requires Canonical(after) && forall m :: Available(after, m) <==> Available(rs, m) || Writes(e, m)
    ensures p < |rs| && rs[p].lo == target + e.durationSecs / SEGMENT_DURATION
    ensures |after| == if Available(rs, target - 1) then |rs| - 1 else |rs|
    ensures after == if Available(rs, target - 1)
                     then Spliced(rs, p - 1, p + 1, SegRange(rs[p - 1].lo, rs[p].hi))
                     else Spliced(rs, p, p + 1, SegRange(target, rs[p].hi))
  {
    var next := target + e.durationSecs / SEGMENT_DURATION;
    assert Writes(e, next - 1) && !Writes(e, next);
    assert Available(rs, next);
    NextRunStart(rs, target, p);
    if p < |rs| {
      assert !Writes(e, rs[p].lo);
      forall m | target <= m < rs[p].lo
        ensures !Available(rs, m)
      {
        MissingUpwards(rs, target, m);
      }
      assert Writes(e, rs[p].lo - 1);
    } else {
      MissingUpwards(rs, target, next);
    }
    FillingAGap(rs, target, p, after);
  }
}
