/** The set of HLS segments on disk, kept as a sorted list of inclusive ranges that neither
    overlap nor touch.  The list is the unique canonical form of the set it denotes. */
module SegmentSets {

  datatype SegRange = SegRange(lo: int, hi: int)

  ghost predicate Canonical(rs: seq<SegRange>) {
    && (forall i | 0 <= i < |rs| :: rs[i].lo <= rs[i].hi)
    && (forall i, j | 0 <= i < j < |rs| :: rs[i].hi + 1 < rs[j].lo)
  }

  /** Segment n is in the set denoted by rs. */
  ghost predicate Available(rs: seq<SegRange>, n: int) {
    exists i | 0 <= i < |rs| :: rs[i].lo <= n <= rs[i].hi
  }

  ghost predicate SameSet(a: seq<SegRange>, b: seq<SegRange>) {
    forall n :: Available(a, n) <==> Available(b, n)
  }

  /** after is the canonical list of the old set with n put in. */
  ghost predicate AddStep(before: seq<SegRange>, n: int, after: seq<SegRange>) {
    && Canonical(after)
    && forall m :: Available(after, m) <==> Available(before, m) || m == n
  }

  /** pos splits rs at the first range that starts above n. */
  ghost predicate Splits(rs: seq<SegRange>, n: int, pos: int) {
    && 0 <= pos <= |rs|
    && (forall i | 0 <= i < pos :: rs[i].lo <= n)
    && (forall i | pos <= i < |rs| :: n < rs[i].lo)
  }

  class SegmentSet {
    var ranges: seq<SegRange>

    ghost predicate Valid()
      reads this
    {
      Canonical(ranges)
    }

    constructor ()
      ensures Valid() && ranges == []
    {
      ranges := [];
    }

    /** Binary search for the first range whose lo is above n. */
    method Search(n: int) returns (pos: nat)
      requires Valid()
      ensures Splits(ranges, n, pos)
    {
      var i, j := 0, |ranges|;
      while i < j
        invariant 0 <= i <= j <= |ranges|
        invariant forall k | 0 <= k < i :: ranges[k].lo <= n
        invariant forall k | j <= k < |ranges| :: n < ranges[k].lo
      {
        var h := i + (j - i) / 2;
        if ranges[h].lo > n {
          j := h;
        } else {
          assert forall k | 0 <= k < h :: ranges[k].lo < ranges[h].lo;
          i := h + 1;
        }
      }
      pos := i;
    }

    method Add(n: int)
      requires Valid()
      modifies this
      ensures Valid() && AddStep(old(ranges), n, ranges)
    {
      var pos := Search(n);
      AvailableLeftOf(ranges, n, pos);
      if pos > 0 && ranges[pos - 1].hi >= n {
        return;
      }
      var leftAdjacent := pos > 0 && ranges[pos - 1].hi == n - 1;
      var rightAdjacent := pos < |ranges| && ranges[pos].lo == n + 1;
      AddedCorrectly(ranges, n, pos);
      AddedForms(ranges, n, pos);
      if leftAdjacent && rightAdjacent {
        ranges := ranges[pos - 1 := SegRange(ranges[pos - 1].lo, ranges[pos].hi)];
        ranges := ranges[..pos] + ranges[pos + 1..];
      } else if leftAdjacent {
        ranges := ranges[pos - 1 := SegRange(ranges[pos - 1].lo, n)];
      } else if rightAdjacent {
        ranges := ranges[pos := SegRange(n, ranges[pos].hi)];
      } else {
        ranges := ranges[..pos] + [SegRange(n, n)] + ranges[pos..];
      }
    }

    /** For length >= 1 this asks whether all of [n, n+length) is available.  A length below 1
        is answered by looking at or below n instead of being vacuously true. */
    method Contains(n: int, length: int) returns (r: bool)
      requires Valid()
      ensures length >= 1 ==> (r <==> forall m | n <= m < n + length :: Available(ranges, m))
      ensures length <= 1 ==> (r <==> exists m :: n + length - 1 <= m <= n && Available(ranges, m))
    {
      var pos := Search(n);
      r := pos > 0 && ranges[pos - 1].hi >= n + length - 1;
      if length >= 1 {
        ContainsMeaning(ranges, n, length, pos);
      }
      if length <= 1 {
        ShortContainsMeaning(ranges, n, length, pos);
      }
    }

    /** The start of the first range above n: the least number above n that is available while
        its predecessor is not. */
    method FirstAvailableAfter(n: int) returns (next: int, found: bool)
      requires Valid()
      ensures IsNextRun(ranges, n, next, found)
    {
      var pos := Search(n);
      NextRunStart(ranges, n, pos);
      if pos >= |ranges| {
        return 0, false;
      }
      return ranges[pos].lo, true;
    }
  }

  // ---- what the binary search establishes ----

  /** Every range start is available and its predecessor is not; dually for range ends. */
  lemma RunStart(rs: seq<SegRange>, i: int)
    requires Canonical(rs) && 0 <= i < |rs|
    ensures Available(rs, rs[i].lo) && !Available(rs, rs[i].lo - 1)
    ensures Available(rs, rs[i].hi) && !Available(rs, rs[i].hi + 1)
  {
  }

  lemma AvailableLeftOf(rs: seq<SegRange>, n: int, pos: int)
    requires Canonical(rs) && Splits(rs, n, pos)
    ensures Available(rs, n) <==> pos > 0 && n <= rs[pos - 1].hi
  {
  }

  lemma ContainsMeaning(rs: seq<SegRange>, n: int, length: int, pos: int)
    requires Canonical(rs) && Splits(rs, n, pos) && length >= 1
    ensures (pos > 0 && rs[pos - 1].hi >= n + length - 1)
            <==> (forall m | n <= m < n + length :: Available(rs, m))
  {
    AvailableLeftOf(rs, n, pos);
    if pos > 0 {
      RunStart(rs, pos - 1);
    }
  }

  lemma ShortContainsMeaning(rs: seq<SegRange>, n: int, length: int, pos: int)
    requires Canonical(rs) && Splits(rs, n, pos) && length <= 1
    ensures (pos > 0 && rs[pos - 1].hi >= n + length - 1)
            <==> exists m :: n + length - 1 <= m <= n && Available(rs, m)
  {
    if pos > 0 && rs[pos - 1].hi >= n + length - 1 {
      var m := if rs[pos - 1].hi <= n then rs[pos - 1].hi else n;
      assert rs[pos - 1].lo <= m <= rs[pos - 1].hi;
      assert Available(rs, m);
    }
    if m :| n + length - 1 <= m <= n && Available(rs, m) {
      var i :| 0 <= i < |rs| && rs[i].lo <= m <= rs[i].hi;
      assert i < pos - 1 ==> rs[i].hi + 1 < rs[pos - 1].lo;
    }
  }

  lemma NextRunStart(rs: seq<SegRange>, n: int, pos: int)
    requires Canonical(rs) && Splits(rs, n, pos)
    ensures pos < |rs| ==> Available(rs, rs[pos].lo) && !Available(rs, rs[pos].lo - 1)
    ensures forall m | n < m && Available(rs, m) && (pos < |rs| ==> m < rs[pos].lo) :: Available(rs, m - 1)
  {
  }

  // ---- one lemma for every way the list is rewritten ----

  /** rs with the ranges i..j replaced by the single range r. */
  ghost function Spliced(rs: seq<SegRange>, i: int, j: int, r: SegRange): seq<SegRange>
    requires 0 <= i <= j <= |rs|
  {
    rs[..i] + [r] + rs[j..]
  }

  lemma Splice(rs: seq<SegRange>, i: int, j: int, r: SegRange)
    requires Canonical(rs) && 0 <= i <= j <= |rs| && r.lo <= r.hi
    requires i > 0 ==> rs[i - 1].hi + 1 < r.lo
    requires j < |rs| ==> r.hi + 1 < rs[j].lo
    requires forall k | i <= k < j :: r.lo <= rs[k].lo && rs[k].hi <= r.hi
    ensures Canonical(Spliced(rs, i, j, r))
    ensures forall m :: Available(Spliced(rs, i, j, r), m) <==> Available(rs, m) || r.lo <= m <= r.hi
  {
    SpliceCanonical(rs, i, j, r);
    forall m
      ensures Available(Spliced(rs, i, j, r), m) <==> Available(rs, m) || r.lo <= m <= r.hi
    {
      SpliceDenotes(rs, i, j, r, m);
    }
  }

  lemma SpliceCanonical(rs: seq<SegRange>, i: int, j: int, r: SegRange)
    requires Canonical(rs) && 0 <= i <= j <= |rs| && r.lo <= r.hi
    requires i > 0 ==> rs[i - 1].hi + 1 < r.lo
    requires j < |rs| ==> r.hi + 1 < rs[j].lo
    ensures Canonical(Spliced(rs, i, j, r))
  {
    var g := Spliced(rs, i, j, r);
    forall x | 0 <= x < |g|
      ensures g[x].lo <= g[x].hi
    {
      SplicedAt(rs, i, j, r, x);
    }
    forall x, y | 0 <= x < y < |g|
      ensures g[x].hi + 1 < g[y].lo
    {
      SplicedAt(rs, i, j, r, x);
      SplicedAt(rs, i, j, r, y);
    }
  }

  lemma SplicedAt(rs: seq<SegRange>, i: int, j: int, r: SegRange, x: int)
    requires 0 <= i <= j <= |rs| && 0 <= x < |Spliced(rs, i, j, r)|
    ensures Spliced(rs, i, j, r)[x] == if x < i then rs[x] else if x == i then r else rs[x - i - 1 + j]
  {
  }

  lemma SpliceDenotes(rs: seq<SegRange>, i: int, j: int, r: SegRange, m: int)
    requires 0 <= i <= j <= |rs|
    requires forall k | i <= k < j :: r.lo <= rs[k].lo && rs[k].hi <= r.hi
    ensures Available(Spliced(rs, i, j, r), m) <==> Available(rs, m) || r.lo <= m <= r.hi
  {
    AvailableConcat(rs[..i] + [r], rs[j..], m);
    AvailableConcat(rs[..i], [r], m);
    assert [r][0] == r;
    assert rs == rs[..i] + rs[i..j] + rs[j..];
    AvailableConcat(rs[..i] + rs[i..j], rs[j..], m);
    AvailableConcat(rs[..i], rs[i..j], m);
  }

  lemma AvailableConcat(a: seq<SegRange>, b: seq<SegRange>, m: int)
    ensures Available(a + b, m) <==> Available(a, m) || Available(b, m)
  {
    if k :| 0 <= k < |b| && b[k].lo <= m <= b[k].hi {
      assert (a + b)[|a| + k] == b[k];
    }
    if k :| 0 <= k < |a| && a[k].lo <= m <= a[k].hi {
      assert (a + b)[k] == a[k];
    }
  }

  /** The four ways Add rewrites the list: merge, extend the left range, extend the right
      range, insert. */
  ghost function Added(rs: seq<SegRange>, n: int, pos: int): seq<SegRange>
    requires 0 <= pos <= |rs|
  {
    var left := pos > 0 && rs[pos - 1].hi == n - 1;
    var right := pos < |rs| && rs[pos].lo == n + 1;
    Spliced(rs, if left then pos - 1 else pos, if right then pos + 1 else pos,
            SegRange(if left then rs[pos - 1].lo else n, if right then rs[pos].hi else n))
  }

  lemma AddedForms(rs: seq<SegRange>, n: int, pos: int)
    requires 0 <= pos <= |rs|
    ensures var left, right := pos > 0 && rs[pos - 1].hi == n - 1, pos < |rs| && rs[pos].lo == n + 1;
            Added(rs, n, pos) ==
              if left && right then
                var merged := rs[pos - 1 := SegRange(rs[pos - 1].lo, rs[pos].hi)]; merged[..pos] + merged[pos + 1..]
              else if left then rs[pos - 1 := SegRange(rs[pos - 1].lo, n)]
              else if right then rs[pos := SegRange(n, rs[pos].hi)]
              else rs[..pos] + [SegRange(n, n)] + rs[pos..]
  {
  }

  lemma AddedCorrectly(rs: seq<SegRange>, n: int, pos: int)
    requires Canonical(rs) && Splits(rs, n, pos) && !Available(rs, n)
    ensures AddStep(rs, n, Added(rs, n, pos))
  {
    AvailableLeftOf(rs, n, pos);
    var left := pos > 0 && rs[pos - 1].hi == n - 1;
    var right := pos < |rs| && rs[pos].lo == n + 1;
    var r := SegRange(if left then rs[pos - 1].lo else n, if right then rs[pos].hi else n);
    Splice(rs, if left then pos - 1 else pos, if right then pos + 1 else pos, r);
    forall m
      ensures Available(Added(rs, n, pos), m) <==> Available(rs, m) || m == n
    {
      assert left && r.lo <= m < n ==> rs[pos - 1].lo <= m <= rs[pos - 1].hi;
      assert right && n < m <= r.hi ==> rs[pos].lo <= m <= rs[pos].hi;
    }
  }

  // ---- canonical form ----

  /** Two canonical lists of the same set are the same list. */
  lemma {:induction false} CanonicalUnique(a: seq<SegRange>, b: seq<SegRange>)
    requires Canonical(a) && Canonical(b) && SameSet(a, b)
    ensures a == b
    decreases |a|
  {
    EmptyTogether(a, b);
    EmptyTogether(b, a);
    if a != [] {
      FirstRange(a, b);
      FirstRange(b, a);
      TailsSame(a, b);
      CanonicalUnique(a[1..], b[1..]);
      assert a == [a[0]] + a[1..] && b == [b[0]] + b[1..];
    }
  }

  lemma EmptyTogether(a: seq<SegRange>, b: seq<SegRange>)
    requires Canonical(a) && SameSet(a, b)
    ensures b == [] ==> a == []
  {
    if a != [] {
      RunStart(a, 0);
    }
  }

  lemma TailsSame(a: seq<SegRange>, b: seq<SegRange>)
    requires Canonical(a) && Canonical(b) && SameSet(a, b) && a != [] && b != [] && a[0] == b[0]
    ensures Canonical(a[1..]) && Canonical(b[1..]) && SameSet(a[1..], b[1..])
  {
    AvailableTail(a, 0);
    AvailableTail(b, 0);
    forall n
      ensures Available(a[1..], n) <==> Available(b[1..], n)
    {
      AvailableTail(a, n);
      AvailableTail(b, n);
    }
  }

  lemma AvailableTail(rs: seq<SegRange>, n: int)
    requires Canonical(rs) && rs != []
    ensures Canonical(rs[1..])
    ensures Available(rs[1..], n) <==> Available(rs, n) && rs[0].hi < n
  {
  }

  lemma FirstRange(a: seq<SegRange>, b: seq<SegRange>)
    requires Canonical(a) && Canonical(b) && SameSet(a, b) && a != [] && b != []
    ensures b[0].lo <= a[0].lo
    ensures a[0].lo == b[0].lo ==> a[0].hi <= b[0].hi
  {
    RunStart(a, 0);
    RunStart(b, 0);
    var i :| 0 <= i < |b| && b[i].lo <= a[0].lo <= b[i].hi;
    assert 0 < i ==> b[0].hi + 1 < b[i].lo;
    assert !Available(a, b[0].hi + 1);
    assert !(a[0].lo <= b[0].hi + 1 <= a[0].hi);
  }

  /** states is what the list goes through when adds are added one by one to the empty set. */
  ghost predicate AddRun(adds: seq<int>, states: seq<seq<SegRange>>) {
    && |states| == |adds| + 1
    && states[0] == []
    && forall k | 0 <= k < |adds| :: AddStep(states[k], adds[k], states[k + 1])
  }

  lemma {:induction false} AddRunDenotes(adds: seq<int>, states: seq<seq<SegRange>>)
    requires AddRun(adds, states)
    ensures Canonical(states[|adds|])
    ensures forall n :: Available(states[|adds|], n) <==> n in adds
  {
    if adds == [] {
    } else {
      var k := |adds| - 1;
      AddRunDenotes(adds[..k], states[..|adds|]);
      assert AddStep(states[k], adds[k], states[k + 1]);
      assert adds == adds[..k] + [adds[k]];
    }
  }

  /** The final ranges depend only on which numbers were added: not on order, not on repeats. */
  lemma RunsAgree(adds: seq<int>, states: seq<seq<SegRange>>, adds': seq<int>, states': seq<seq<SegRange>>)
    requires AddRun(adds, states) && AddRun(adds', states')
    ensures states[|adds|] == states'[|adds'|] <==> (forall n :: n in adds <==> n in adds')
  {
    AddRunDenotes(adds, states);
    AddRunDenotes(adds', states');
    var a, b := states[|adds|], states'[|adds'|];
    if forall n :: n in adds <==> n in adds' {
      assert SameSet(a, b);
      CanonicalUnique(a, b);
    }
    if a == b {
      assert forall n :: n in adds <==> Available(a, n);
      assert forall n :: n in adds' <==> Available(a, n);
    }
  }

  /** What firstAvailableAfter answers: the start of the next run above n, if there is one. */
  ghost predicate IsNextRun(rs: seq<SegRange>, n: int, next: int, found: bool) {
    && (found ==> n < next && Available(rs, next) && !Available(rs, next - 1))
    && (!found ==> next == 0)
    && forall m | n < m && Available(rs, m) && (found ==> m < next) :: Available(rs, m - 1)
  }

  /** What it is documented to answer: the lowest available number above n, or 0 and false if no
      such segment exists. */
  ghost predicate IsLeastAbove(rs: seq<SegRange>, n: int, next: int, found: bool) {
    && (found ==> n < next && Available(rs, next) && forall m | n < m < next :: !Available(rs, m))
    && (!found ==> next == 0 && forall m | n < m :: !Available(rs, m))
  }

  /** Found or not, the answer is the documented one exactly when n and n+1 are not both available. */
  lemma NextRunIsLeastAvailable(rs: seq<SegRange>, n: int, next: int, found: bool)
    requires IsNextRun(rs, n, next, found)
    ensures IsLeastAbove(rs, n, next, found) <==> !(Available(rs, n) && Available(rs, n + 1))
  {
    if m :| n < m && Available(rs, m) && (found ==> m < next) {
      AvailableDownTo(rs, n, m, if found then next else m + 1);
    }
    if found && next == n + 1 {
      assert !Available(rs, n);
    }
  }

  /** A wrong answer of either kind: 3 is available, but the answers are 8 and none. */
  lemma NextRunExamples()
    ensures Canonical([SegRange(0, 5), SegRange(8, 9)]) && Canonical([SegRange(0, 5)])
    ensures IsNextRun([SegRange(0, 5), SegRange(8, 9)], 2, 8, true)
    ensures !IsLeastAbove([SegRange(0, 5), SegRange(8, 9)], 2, 8, true)
    ensures IsNextRun([SegRange(0, 5)], 2, 0, false) && !IsLeastAbove([SegRange(0, 5)], 2, 0, false)
  {
    var two, one := [SegRange(0, 5), SegRange(8, 9)], [SegRange(0, 5)];
    assert two[0].lo <= 3 <= two[0].hi && two[1].lo <= 8 <= two[1].hi && one[0].lo <= 3 <= one[0].hi;
    assert forall m :: Available(two, m) <==> 0 <= m <= 5 || 8 <= m <= 9;
    assert forall m :: Available(one, m) <==> 0 <= m <= 5;
    assert Available(two, 3) && Available(one, 3);
  }

  lemma {:induction false} AvailableDownTo(rs: seq<SegRange>, n: int, m: int, next: int)
    requires n < m < next && Available(rs, m)
    requires forall k | n < k < next && Available(rs, k) :: Available(rs, k - 1)
    ensures Available(rs, n) && Available(rs, n + 1)
    decreases m - n
  {
    assert Available(rs, m - 1);
    if m > n + 1 {
      AvailableDownTo(rs, n, m - 1, next);
    }
  }

  /** Filling a bounded gap [target, rs[p].lo) changes the list in one place only: the range
      above the gap is pulled down to target, and swallows its left neighbour when that ended
      at target-1. */
  lemma FillingAGap(rs: seq<SegRange>, target: int, p: int, after: seq<SegRange>)
    requires Canonical(rs) && Splits(rs, target, p) && p < |rs| && !Available(rs, target)
    requires Canonical(after)
    requires forall m :: Available(after, m) <==> Available(rs, m) || target <= m < rs[p].lo
    ensures Available(rs, target - 1) <==> p > 0 && rs[p - 1].hi == target - 1
    ensures after == if Available(rs, target - 1)
                     then Spliced(rs, p - 1, p + 1, SegRange(rs[p - 1].lo, rs[p].hi))
                     else Spliced(rs, p, p + 1, SegRange(target, rs[p].hi))
  {
    AvailableLeftOf(rs, target, p);
    if p > 0 {
      AvailableLeftOf(rs, target - 1, if rs[p - 1].lo <= target - 1 then p else p - 1);
    }
    var q, r := p, SegRange(target, rs[p].hi);
    if p > 0 && rs[p - 1].hi == target - 1 {
      q, r := p - 1, SegRange(rs[p - 1].lo, rs[p].hi);
    }
    Splice(rs, q, p + 1, r);
    forall m
      ensures Available(after, m) <==> Available(Spliced(rs, q, p + 1, r), m)
    {
      assert r.lo <= m <= r.hi ==>
               || (q < p && rs[q].lo <= m <= rs[q].hi)
               || target <= m < rs[p].lo
               || rs[p].lo <= m <= rs[p].hi;
    }
    CanonicalUnique(after, Spliced(rs, q, p + 1, r));
  }
}
