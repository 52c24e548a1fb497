/** The login rate limiter keeps a pruned list of recent failures per IP.  Its answers agree with
    queries over the complete failure history. */
module RateLimiting {
  import opened Options
  import Sets

  const MAX_ATTEMPTS: int := 5
  // Times and durations are in nanoseconds.
  const ATTEMPT_WINDOW: int := 60 * 1_000_000_000
  const LOCK_DURATION: int := 30 * 60 * 1_000_000_000

  /** The elements of s later than cutoff, in order. */
  function After(s: seq<int>, cutoff: int): seq<int> {
    if s == [] then []
    else
      var rest := After(s[..|s| - 1], cutoff);
      if s[|s| - 1] > cutoff then rest + [s[|s| - 1]] else rest
  }

  /** result lists the elements of s at the increasing indices kept, which are those of the elements
      later than cutoff. */
  ghost predicate Selects(s: seq<int>, cutoff: int, result: seq<int>, kept: seq<nat>) {
    && |kept| == |result|
    && (forall i, j | 0 <= i < j < |kept| :: kept[i] < kept[j])
    && (forall i | 0 <= i < |kept| :: kept[i] < |s| && result[i] == s[kept[i]])
    && (forall k | 0 <= k < |s| :: k in kept <==> s[k] > cutoff)
  }

  /** After keeps exactly the elements later than the cutoff, in order. */
  lemma {:induction false} AfterMeaning(s: seq<int>, cutoff: int) returns (kept: seq<nat>)
    ensures Selects(s, cutoff, After(s, cutoff), kept)
  {
    if s == [] {
      kept := [];
    } else {
      var init, last := s[..|s| - 1], s[|s| - 1];
      var before := AfterMeaning(init, cutoff);
      assert s == init + [last];
      kept := if last > cutoff then before + [|init|] else before;
      SelectsOneMore(init, cutoff, After(init, cutoff), before, last);
    }
  }

  /** Each of them as often as it occurs. */
  lemma {:induction false} AfterTimes(s: seq<int>, cutoff: int, x: int)
    ensures multiset(After(s, cutoff))[x] == if x > cutoff then multiset(s)[x] else 0
  {
    if s == [] {
    } else {
      AfterTimes(s[..|s| - 1], cutoff, x);
      assert s == s[..|s| - 1] + [s[|s| - 1]];
    }
  }

  lemma SelectsOneMore(s: seq<int>, cutoff: int, result: seq<int>, kept: seq<nat>, x: int)
    requires Selects(s, cutoff, result, kept)
    ensures x > cutoff ==> Selects(s + [x], cutoff, result + [x], kept + [|s|])
    ensures x <= cutoff ==> Selects(s + [x], cutoff, result, kept)
  {
    var kept' := kept + [|s|];
    assert forall k | 0 <= k < |s| :: k in kept' <==> k in kept;
    assert kept'[|kept|] == |s|;
  }

  /** How many of the elements of s are later than cutoff. */
  lemma {:induction false} AfterCount(s: seq<int>, cutoff: int)
    ensures |After(s, cutoff)| == |set i | 0 <= i < |s| && s[i] > cutoff|
  {
    if s == [] {
    } else {
      var init, last := s[..|s| - 1], s[|s| - 1];
      AfterCount(init, cutoff);
      var before, now := set i | 0 <= i < |init| && init[i] > cutoff, set i | 0 <= i < |s| && s[i] > cutoff;
      assert now == before + if last > cutoff then {|init|} else {};
    }
  }

  // ---- the limiter's state and its two operations, as values ----

  datatype LimiterState = LimiterState(attempts: map<string, seq<int>>, locked: map<string, int>)

  function Stored(s: LimiterState, ip: string): seq<int> {
    if ip in s.attempts then s.attempts[ip] else []
  }

  function RecordStep(s: LimiterState, ip: string, now: int): (LimiterState, bool) {
    var kept := After(Stored(s, ip), now - ATTEMPT_WINDOW) + [now];
    if |kept| >= MAX_ATTEMPTS then
      (LimiterState(s.attempts - {ip}, s.locked[ip := now + LOCK_DURATION]), true)
    else
      (s.(attempts := s.attempts[ip := kept]), false)
  }

  /** What a failure does: with it there are at least five stored within the last minute, and the address
      is locked for half an hour and its list dropped; or the list keeps just those. */
  lemma RecordStepMeaning(s: LimiterState, ip: string, now: int) returns (kept: seq<nat>)
    ensures var stored, (s', r) := if ip in s.attempts then s.attempts[ip] else [], RecordStep(s, ip, now);
            && (r <==> |set i | 0 <= i < |stored| && stored[i] > now - 60_000_000_000| + 1 >= 5)
            && (r ==> s'.attempts == s.attempts - {ip} && s'.locked == s.locked[ip := now + 1_800_000_000_000])
            && (!r ==> s'.attempts - {ip} == s.attempts - {ip} && s'.locked == s.locked && ip in s'.attempts)
            && (!r ==> exists recent :: s'.attempts[ip] == recent + [now]
                                        && Selects(stored, now - 60_000_000_000, recent, kept))
  {
    AfterCount(Stored(s, ip), now - ATTEMPT_WINDOW);
    kept := AfterMeaning(Stored(s, ip), now - ATTEMPT_WINDOW);
  }

  function IsLockedStep(s: LimiterState, ip: string, now: int): (LimiterState, bool) {
    if ip !in s.locked then (s, false)
    else if now < s.locked[ip] then (s, true)
    else (s.(locked := s.locked - {ip}), false)
  }

  // ---- the limiter itself ----

  /** A Go slice starting at index 0 of its backing array; the capacity is buf.Length. */
  datatype Slice = Slice(buf: array<int>, len: nat)

  class LoginRateLimiter {
    var attempts: map<string, Slice>
    var locked: map<string, int>

    ghost function Buffers(): set<array<int>>
      reads this
    {
      set ip | ip in attempts :: attempts[ip].buf
    }

    ghost predicate Valid()
      reads this
    {
      && (forall ip | ip in attempts :: attempts[ip].len <= attempts[ip].buf.Length)
      && (forall ip, ip' | ip in attempts && ip' in attempts && ip != ip' :: attempts[ip].buf != attempts[ip'].buf)
    }

    ghost function State(): LimiterState
      requires Valid()
      reads this, Buffers()
    {
      LimiterState(map ip | ip in attempts :: attempts[ip].buf[..attempts[ip].len], locked)
    }

    constructor ()
      ensures Valid() && State() == LimiterState(map[], map[])
    {
      attempts := map[];
      locked := map[];
    }

    method IsLocked(ip: string, now: int) returns (r: bool)
      requires Valid()
      modifies this`locked
      ensures Valid() && (State(), r) == IsLockedStep(old(State()), ip, now)
      ensures r <==> ip in old(locked) && now < old(locked)[ip]
      ensures State().attempts == old(State().attempts)
      ensures locked == if r || ip !in old(locked) then old(locked) else old(locked) - {ip}
    {
      if ip !in locked {
        return false;
      }
      if now < locked[ip] {
        return true;
      }
      locked := locked - {ip};
      assert State().attempts == old(State().attempts);
      return false;
    }

    /** Keeps the attempts inside the window, overwriting the slice's own backing array. */
    static method FilterInPlace(existing: Slice, cutoff: int) returns (filtered: Slice)
      requires existing.len <= existing.buf.Length
      modifies existing.buf
      ensures filtered.buf == existing.buf && filtered.len <= existing.len
      ensures filtered.buf[..filtered.len] == After(old(existing.buf[..existing.len]), cutoff)
      ensures exists kept :: Selects(old(existing.buf[..existing.len]), cutoff, filtered.buf[..filtered.len], kept)
    {
      var buf, k := existing.buf, 0;
      for i := 0 to existing.len
        invariant k <= i
        invariant buf[..k] == After(old(existing.buf[..existing.len])[..i], cutoff)
        invariant forall j | i <= j < existing.len :: buf[j] == old(existing.buf[..existing.len])[j]
      {
        ghost var was := old(existing.buf[..existing.len]);
        assert was[..i + 1][..i] == was[..i];
        if buf[i] > cutoff {
          buf[k] := buf[i];
          k := k + 1;
        }
      }
      assert old(existing.buf[..existing.len])[..existing.len] == old(existing.buf[..existing.len]);
      ghost var kept := AfterMeaning(old(existing.buf[..existing.len]), cutoff);
      return Slice(buf, k);
    }

    /** Go's append: in place while the capacity lasts, else into a larger copy. */
    static method Append(s: Slice, x: int) returns (r: Slice)
      requires s.len <= s.buf.Length
      modifies s.buf
      ensures r.buf == s.buf || fresh(r.buf)
      ensures r.len <= r.buf.Length && r.buf[..r.len] == old(s.buf[..s.len]) + [x]
    {
      if s.len < s.buf.Length {
        s.buf[s.len] := x;
        return Slice(s.buf, s.len + 1);
      }
      var grown := new int[2 * s.len + 1];
      for i := 0 to s.len
        invariant grown[..i] == s.buf[..i]
        invariant s.buf[..] == old(s.buf[..])
      {
        grown[i] := s.buf[i];
      }
      grown[s.len] := x;
      return Slice(grown, s.len + 1);
    }

    /** attempts.Add: the slice is stored under ip, replacing what was there. */
    method Store(ip: string, s: Slice)
      requires Valid() && s.len <= s.buf.Length
      requires forall other | other in attempts && other != ip :: attempts[other].buf != s.buf
      modifies this`attempts
      ensures Valid()
      ensures State() == old(State()).(attempts := old(State().attempts)[ip := s.buf[..s.len]])
      ensures Buffers() <= old(Buffers()) + {s.buf}
    {
      attempts := attempts[ip := s];
      assert State().attempts == old(State().attempts)[ip := s.buf[..s.len]];
    }

    /** The attempts of ip inside the window, with now appended; no other IP is touched. */
    method Recent(ip: string, now: int) returns (filtered: Slice)
      requires Valid()
      modifies Buffers()
      ensures filtered.len <= filtered.buf.Length
      ensures filtered.buf[..filtered.len] == After(old(Stored(State(), ip)), now - ATTEMPT_WINDOW) + [now]
      ensures fresh(filtered.buf) || (ip in attempts && filtered.buf == attempts[ip].buf)
      ensures Valid() && State().attempts - {ip} == old(State().attempts) - {ip}
    {
      var existing := Existing(ip);
      filtered := FilterThenAppend(existing, now - ATTEMPT_WINDOW, now);
      OthersKept(ip);
    }

    twostate lemma OthersKept(ip: string)
      requires old(Valid()) && Valid() && attempts == old(attempts)
      requires forall other | other in attempts && other != ip ::
                 attempts[other].buf[..attempts[other].len] == old(attempts[other].buf[..attempts[other].len])
      ensures State().attempts - {ip} == old(State().attempts) - {ip}
    {
    }

    static method FilterThenAppend(existing: Slice, cutoff: int, now: int) returns (filtered: Slice)
      requires existing.len <= existing.buf.Length
      modifies existing.buf
      ensures filtered.len <= filtered.buf.Length && (filtered.buf == existing.buf || fresh(filtered.buf))
      ensures filtered.buf[..filtered.len] == After(old(existing.buf[..existing.len]), cutoff) + [now]
    {
      filtered := FilterInPlace(existing, cutoff);
      filtered := Append(filtered, now);
    }

    /** The stored slice, or an empty one of its own. */
    method Existing(ip: string) returns (existing: Slice)
      requires Valid()
      ensures existing.len <= existing.buf.Length && existing.buf[..existing.len] == Stored(State(), ip)
      ensures if ip in attempts then existing == attempts[ip] else fresh(existing.buf)
    {
      if ip in attempts {
        return attempts[ip];
      }
      var none := new int[0];
      return Slice(none, 0);
    }

    /** locked.Add and attempts.Remove. */
    method Lock(ip: string, until: int)
      requires Valid()
      modifies this
      ensures Valid()
      ensures State() == LimiterState(old(State()).attempts - {ip}, old(State()).locked[ip := until])
    {
      locked := locked[ip := until];
      attempts := attempts - {ip};
      assert State().attempts == old(State().attempts) - {ip};
    }

    method Record(ip: string, now: int) returns (r: bool)
      requires Valid()
      modifies this, Buffers()
      ensures Valid() && (State(), r) == RecordStep(old(State()), ip, now)
    {
      ghost var before := State();
      var filtered := Recent(ip, now);
      ghost var between := State();
      Store(ip, filtered);
      ghost var kept := After(Stored(before, ip), now - ATTEMPT_WINDOW) + [now];
      UpdateAt(between.attempts, before.attempts, ip, kept);
      if filtered.len >= MAX_ATTEMPTS {
        Lock(ip, now + LOCK_DURATION);
        return true;
      }
      return false;
    }
  }

  lemma UpdateAt<T>(m: map<string, T>, m': map<string, T>, k: string, v: T)
    requires m - {k} == m' - {k}
    ensures m[k := v] == m'[k := v] && m[k := v] - {k} == m' - {k}
  {
    forall k' | k' in m' - {k}
      ensures k' in m && m[k'] == m'[k']
    {
      assert k' in m - {k} && (m - {k})[k'] == (m' - {k})[k'];
    }
    forall k' | k' in m - {k}
      ensures k' in m'
    {
      assert k' in m' - {k};
    }
  }

  // ---- runs, and the answers computed from the whole history ----

  datatype Event = Failure(ip: string, at: int) | Query(ip: string, at: int)

  /** The clock never runs backwards, and now is not before the last event. */
  ghost predicate Clocked(events: seq<Event>, now: int) {
    events != [] ==>
      var e := events[|events| - 1];
      e.at <= now && Clocked(events[..|events| - 1], e.at)
  }

  function Run(events: seq<Event>): LimiterState {
    if events == [] then LimiterState(map[], map[])
    else
      var s, e := Run(events[..|events| - 1]), events[|events| - 1];
      if e.Failure? then RecordStep(s, e.ip, e.at).0 else IsLockedStep(s, e.ip, e.at).0
  }

  /** Every failure of ip, oldest first: nothing is ever pruned here. */
  function Failures(events: seq<Event>, ip: string): seq<int> {
    if events == [] then []
    else
      var rest, e := Failures(events[..|events| - 1], ip), events[|events| - 1];
      if e.Failure? && e.ip == ip then rest + [e.at] else rest
  }

  /** The indices from start on of the failures less than a minute before the latest one. */
  function InLastMinute(h: seq<int>, start: nat): set<int> {
    set i | start <= i < |h| && h[i] > h[|h| - 1] - 60_000_000_000
  }

  /** The index of the first failure after the last one that locked the IP: the one that is at least
      the fifth within a minute since the lock before it. */
  function FirstSinceLock(h: seq<int>): (start: nat)
    ensures start <= |h|
  {
    if h == [] then 0
    else
      var start := FirstSinceLock(h[..|h| - 1]);
      if |InLastMinute(h, start)| >= 5 then |h| else start
  }

  /** The latest failure of h locks the IP. */
  predicate Locks(h: seq<int>) {
    h != [] && |InLastMinute(h, FirstSinceLock(h[..|h| - 1]))| >= 5
  }

  function LastLock(h: seq<int>): Option<int> {
    if FirstSinceLock(h) == 0 then None else Some(h[FirstSinceLock(h) - 1])
  }

  /** All failures after the last one that locked the IP. */
  function SinceLock(h: seq<int>): seq<int> {
    h[FirstSinceLock(h)..]
  }

  /** The latest of these failures is at least the fifth within the minute before it. */
  predicate FifthInWindow(s: seq<int>) {
    s != [] && |After(s, s[|s| - 1] - ATTEMPT_WINDOW)| >= MAX_ATTEMPTS
  }

  // ---- pruning loses nothing ----

  lemma {:induction false} AfterTwice(s: seq<int>, c: int, c': int)
    requires c <= c'
    ensures After(After(s, c), c') == After(s, c')
  {
    if s == [] {
    } else {
      AfterTwice(s[..|s| - 1], c, c');
      var rest := After(s[..|s| - 1], c);
      assert (rest + [s[|s| - 1]])[..|rest|] == rest;
    }
  }

  lemma SinceLockEndsLast(h: seq<int>)
    ensures SinceLock(h) != [] ==> h != [] && SinceLock(h)[|SinceLock(h)| - 1] == h[|h| - 1]
  {
  }

  /** What the limiter still stores of the failures s. */
  function Pruned(s: seq<int>): seq<int> {
    if s == [] then [] else After(s, s[|s| - 1] - ATTEMPT_WINDOW)
  }

  lemma PruneStep(s: seq<int>, now: int)
    requires s != [] ==> s[|s| - 1] <= now
    ensures Pruned(s + [now]) == After(Pruned(s), now - ATTEMPT_WINDOW) + [now]
  {
    LatestDecides(s, now);
    AfterAppended(s, now, now - ATTEMPT_WINDOW);
    if s != [] {
      AfterTwice(s, s[|s| - 1] - ATTEMPT_WINDOW, now - ATTEMPT_WINDOW);
    }
  }

  lemma LatestDecides(s: seq<int>, now: int)
    ensures Pruned(s + [now]) == After(s + [now], now - ATTEMPT_WINDOW)
  {
  }

  lemma AfterAppended(s: seq<int>, x: int, cutoff: int)
    requires x > cutoff
    ensures After(s + [x], cutoff) == After(s, cutoff) + [x]
  {
    assert (s + [x])[..|s|] == s;
  }

  ghost predicate Agrees(s: LimiterState, h: seq<int>, ip: string, now: int) {
    && Stored(s, ip) == Pruned(SinceLock(h))
    && |Stored(s, ip)| < MAX_ATTEMPTS
    && (h != [] ==> h[|h| - 1] <= now)
    && match LastLock(h)
       case None => ip !in s.locked
       case Some(t) => if ip in s.locked then s.locked[ip] == t + LOCK_DURATION else t + LOCK_DURATION <= now
  }

  lemma {:induction false} RunAgrees(events: seq<Event>, ip: string, now: int)
    requires Clocked(events, now)
    ensures Agrees(Run(events), Failures(events, ip), ip, now)
  {
    if events == [] {
    } else {
      var prefix, e := events[..|events| - 1], events[|events| - 1];
      RunAgrees(prefix, ip, e.at);
      var h := Failures(prefix, ip);
      if e.Failure? && e.ip == ip {
        RecordAgrees(Run(prefix), h, ip, e.at);
      } else {
        OtherAgrees(Run(prefix), h, ip, e);
      }
      LaterAgrees(Run(events), Failures(events, ip), ip, e.at, now);
    }
  }

  /** A query, or a failure of another address. */
  lemma OtherAgrees(s: LimiterState, h: seq<int>, ip: string, e: Event)
    requires Agrees(s, h, ip, e.at) && !(e.Failure? && e.ip == ip)
    ensures Agrees(if e.Failure? then RecordStep(s, e.ip, e.at).0 else IsLockedStep(s, e.ip, e.at).0, h, ip, e.at)
  {
  }

  lemma LaterAgrees(s: LimiterState, h: seq<int>, ip: string, at: int, now: int)
    requires Agrees(s, h, ip, at) && at <= now
    ensures Agrees(s, h, ip, now)
  {
  }

  /** Counting indices of the whole history is counting what its part since the lock keeps. */
  lemma CountSince(h: seq<int>, start: nat)
    requires start < |h|
    ensures |InLastMinute(h, start)| >= 5 <==> FifthInWindow(h[start..])
  {
    var s, cutoff := h[start..], h[|h| - 1] - ATTEMPT_WINDOW;
    AfterCount(s, cutoff);
    Shifted(h, s, start, cutoff, InLastMinute(h, start), set i | 0 <= i < |s| && s[i] > cutoff);
  }

  lemma Shifted(h: seq<int>, s: seq<int>, start: nat, cutoff: int, a: set<int>, b: set<int>)
    requires start <= |h| && s == h[start..]
    requires a == set i | start <= i < |h| && h[i] > cutoff
    requires b == set i | 0 <= i < |s| && s[i] > cutoff
    ensures |a| == |b|
  {
    forall x
      ensures x in a <==> x - start in b
    {
      assert start <= x < |h| ==> s[x - start] == h[x];
    }
    ShiftCount(a, b, start);
  }

  lemma {:induction false} ShiftCount(a: set<int>, b: set<int>, start: int)
    requires forall x :: x in a <==> x - start in b
    ensures |a| == |b|
  {
    Sets.Inhabited(a);
    Sets.Inhabited(b);
    if x :| x in a {
      ShiftCount(a - {x}, b - {x - start}, start);
    } else {
      forall y
        ensures y !in b
      {
        assert y + start !in a;
      }
    }
  }

  /** One more failure, seen from the history. */
  lemma HistoryStep(h: seq<int>, now: int)
    ensures Locks(h + [now]) <==> FifthInWindow(SinceLock(h) + [now])
    ensures SinceLock(h + [now]) == if FifthInWindow(SinceLock(h) + [now]) then [] else SinceLock(h) + [now]
    ensures LastLock(h + [now]) == if FifthInWindow(SinceLock(h) + [now]) then Some(now) else LastLock(h)
  {
    LockStep(h, h + [now], now, FirstSinceLock(h), SinceLock(h));
  }

  lemma LockStep(h: seq<int>, h': seq<int>, now: int, start: nat, since: seq<int>)
    requires h' == h + [now] && start == FirstSinceLock(h) && since == h[start..]
    ensures Locks(h') <==> FifthInWindow(since + [now])
    ensures FirstSinceLock(h') == if FifthInWindow(since + [now]) then |h'| else start
    ensures SinceLock(h') == if FifthInWindow(since + [now]) then [] else since + [now]
    ensures LastLock(h') == if FifthInWindow(since + [now]) then Some(now) else LastLock(h)
  {
    assert h'[..|h|] == h;
    assert h'[start..] == since + [now];
    CountSince(h', start);
  }

  /** One more failure, seen from the stored list. */
  lemma StoredStep(h: seq<int>, now: int)
    requires h != [] ==> h[|h| - 1] <= now
    ensures var kept := After(Pruned(SinceLock(h)), now - ATTEMPT_WINDOW) + [now];
            kept == Pruned(SinceLock(h) + [now]) && (|kept| >= MAX_ATTEMPTS <==> FifthInWindow(SinceLock(h) + [now]))
  {
    SinceLockEndsLast(h);
    PruneStep(SinceLock(h), now);
  }

  lemma RecordAgrees(s: LimiterState, h: seq<int>, ip: string, now: int)
    requires Agrees(s, h, ip, now)
    ensures RecordStep(s, ip, now).1 <==> Locks(h + [now])
    ensures Agrees(RecordStep(s, ip, now).0, h + [now], ip, now)
  {
    HistoryStep(h, now);
    StoredStep(h, now);
  }

  /** Record answers true exactly when at least five failures of that IP, this one included, happened
      since the one that locked it last and less than a minute ago. */
  lemma RecordMatchesHistory(events: seq<Event>, ip: string, now: int)
    requires Clocked(events, now)
    ensures var h := Failures(events, ip) + [now];
            RecordStep(Run(events), ip, now).1 <==>
              |set i | FirstSinceLock(Failures(events, ip)) <= i < |h| && h[i] > now - 60_000_000_000| >= 5
    ensures |Stored(Run(events), ip)| < 5
  {
    var h := Failures(events, ip) + [now];
    RunAgrees(events, ip, now);
    RecordAgrees(Run(events), Failures(events, ip), ip, now);
    assert h[..|h| - 1] == Failures(events, ip);
    assert InLastMinute(h, FirstSinceLock(Failures(events, ip)))
        == set i | FirstSinceLock(Failures(events, ip)) <= i < |h| && h[i] > now - 60_000_000_000;
  }

  /** IsLocked answers true exactly until 30 minutes after the last locking failure. */
  lemma IsLockedMatchesHistory(events: seq<Event>, ip: string, now: int)
    requires Clocked(events, now)
    ensures var h, n := Failures(events, ip), FirstSinceLock(Failures(events, ip));
            IsLockedStep(Run(events), ip, now).1 <==> n > 0 && now < h[n - 1] + 1_800_000_000_000
  {
    RunAgrees(events, ip, now);
  }

  predicate FailureOf(e: Event, ip: string) {
    e.Failure? && e.ip == ip
  }

  /** The indices of the failures of one address. */
  function Indices(events: seq<Event>, ip: string): seq<nat> {
    if events == [] then []
    else
      var n := |events| - 1;
      if FailureOf(events[n], ip) then Indices(events[..n], ip) + [n] else Indices(events[..n], ip)
  }

  lemma {:induction false} IndicesAscend(events: seq<Event>, ip: string)
    ensures forall i | 0 <= i < |Indices(events, ip)| :: Indices(events, ip)[i] < |events|
    ensures forall i, j | 0 <= i < j < |Indices(events, ip)| :: Indices(events, ip)[i] < Indices(events, ip)[j]
  {
    if events == [] {
    } else {
      var init := events[..|events| - 1];
      IndicesAscend(init, ip);
      assert |init| == |events| - 1;
      assert Indices(events, ip) == Indices(init, ip) + if FailureOf(events[|init|], ip) then [|init|] else [];
    }
  }

  lemma {:induction false} IndicesOfAll(events: seq<Event>, ip: string, k: nat)
    ensures k in Indices(events, ip) <==> k < |events| && events[k].Failure? && events[k].ip == ip
  {
    if events == [] {
    } else {
      IndicesOfAll(events[..|events| - 1], ip, k);
    }
  }

  lemma {:induction false} FailureTimes(events: seq<Event>, ip: string, i: nat)
    requires i < |Indices(events, ip)|
    ensures |Failures(events, ip)| == |Indices(events, ip)|
    ensures Indices(events, ip)[i] < |events| && Failures(events, ip)[i] == events[Indices(events, ip)[i]].at
  {
    var n := |events| - 1;
    if FailureOf(events[n], ip) && i == |Indices(events, ip)| - 1 {
      SameLength(events[..n], ip);
    } else {
      FailureTimes(events[..n], ip, i);
    }
  }

  lemma {:induction false} SameLength(events: seq<Event>, ip: string)
    ensures |Failures(events, ip)| == |Indices(events, ip)|
  {
    if events == [] {
    } else {
      SameLength(events[..|events| - 1], ip);
    }
  }

  /** All failures of one address, in order, and none of another. */
  lemma FailuresMeaning(events: seq<Event>, ip: string) returns (at: seq<nat>)
    ensures |at| == |Failures(events, ip)| && forall i, j | 0 <= i < j < |at| :: at[i] < at[j]
    ensures forall i | 0 <= i < |at| :: at[i] < |events| && Failures(events, ip)[i] == events[at[i]].at
    ensures forall k: nat :: k in at <==> k < |events| && events[k].Failure? && events[k].ip == ip
  {
    at := Indices(events, ip);
    SameLength(events, ip);
    IndicesAscend(events, ip);
    forall k: nat
      ensures k in at <==> k < |events| && events[k].Failure? && events[k].ip == ip
    {
      IndicesOfAll(events, ip, k);
    }
    forall i | 0 <= i < |at|
      ensures Failures(events, ip)[i] == events[at[i]].at
    {
      FailureTimes(events, ip, i);
    }
  }
}
