/** Overlapping requests, from an empty table: a token accepted twice, a banned device that goes on
    refreshing, and a dead token that becomes known again. */
module TokenExamples {
  import opened DeviceLimits
  import opened Options
  import opened TokenRotation
  import opened TokenRuns

  const TTL: int := REFRESH_TOKEN_TTL

  /** The device of user 1, with its hashes and the time of its last session. */
  function TheDevice(current: HashColumn, previous: HashColumn, at: int, banned: bool): Device {
    Device(1, "a", current, previous, Some(at + TTL), banned, at)
  }

  ghost function Empty(): System {
    System(map[], 1, 0, map[], 1, map[])
  }

  /** Device 1 holds token 0. */
  ghost function LoggedIn(): System {
    System(map[1 := TheDevice(Hash(0), Null, 0, false)], 2, 1, map[], 2, map[0 := 1])
  }

  /** Requests 2 and 3, both with token 0, are past their lookups. */
  ghost function BothPast(): System {
    LoggedIn().(flights := map[2 := Rotating(0, 1), 3 := Rotating(0, 1)], nextFlight := 4)
  }

  lemma PathConcat(a: seq<System>, f: seq<Move>, b: seq<System>, g: seq<Move>)
    requires Path(a, f) && Path(b, g) && a[|f|] == b[0]
    ensures Path(a + b[1..], f + g) && (a + b[1..])[0] == a[0] && (a + b[1..])[|f| + |g|] == b[|g|]
    ensures forall k | 0 <= k <= |f| :: (a + b[1..])[k] == a[k]
    ensures forall k | 0 <= k < |g| :: (a + b[1..])[|f| + k] == b[k] && (f + g)[|f| + k] == g[k]
  {
    var all, moves := a + b[1..], f + g;
    forall k | 0 <= k < |moves|
      ensures Enabled(all[k], moves[k]) && all[k + 1] == After(all[k], moves[k])
    {
      if k >= |f| {
        assert all[k] == b[k - |f|] && all[k + 1] == b[k - |f| + 1] && moves[k] == g[k - |f|];
      }
    }
  }

  lemma ToLoggedIn() returns (states: seq<System>, moves: seq<Move>)
    ensures Execution(states, moves) && states[|moves|] == LoggedIn()
  {
    var s1 := Empty().(flights := map[1 := SeekingDevice(1, "a")], nextFlight := 2);
    var s2 := s1.(flights := map[1 := Counting(1, "a")]);
    var s3 := s1.(flights := map[1 := Inserting(1, "a")]);
    states := [Empty(), s1, s2, s3, LoggedIn()];
    moves := [Begin(SeekingDevice(1, "a")), LookupDevice(1, None), CountActive(1), Insert(1, 0)];
    assert s2 == After(s1, LookupDevice(1, None));
    assert Active(s2.rows, 1) == {};
    assert LoggedIn() == After(s3, Insert(1, 0));
  }

  /** A request with token t arrives as r and gets past its lookups. */
  lemma GetsPast(s: System, t: nat) returns (states: seq<System>, moves: seq<Move>)
    requires HasPrevious(s.rows, t, None) && HasCurrent(s.rows, t, Some(1)) && s.rows[1].uuid == "a"
    requires !TokenRuns.Expired(s.rows[1], 1)
    requires s.nextFlight !in s.flights
    ensures Path(states, moves) && states[0] == s
    ensures states[|moves|] == s.(flights := s.flights[s.nextFlight := Rotating(t, 1)], nextFlight := s.nextFlight + 1)
  {
    var r := s.nextFlight;
    var s1 := After(s, Begin(SeekingPrevious(t, "a")));
    var s2 := After(s1, LookupPrevious(r, None));
    var s3 := After(s2, LookupCurrent(r, Some(1), 1));
    states := [s, s1, s2, s3];
    moves := [Begin(SeekingPrevious(t, "a")), LookupPrevious(r, None), LookupCurrent(r, Some(1), 1)];
    assert s3.flights == s.flights[r := Rotating(t, 1)];
  }

  lemma ToBothPast() returns (states: seq<System>, moves: seq<Move>)
    ensures Execution(states, moves) && states[|moves|] == BothPast()
  {
    var a, f := ToLoggedIn();
    var b, g := GetsPast(LoggedIn(), 0);
    PathConcat(a, f, b, g);
    a, f := a + b[1..], f + g;
    b, g := GetsPast(a[|f|], 0);
    PathConcat(a, f, b, g);
    states, moves := a + b[1..], f + g;
    assert states[|moves|].flights == BothPast().flights;
  }

  // ---- a token accepted twice ----

  /** Request 2 has been accepted. */
  ghost function OnceRotated(): System {
    BothPast().(rows := map[1 := TheDevice(Hash(1), Hash(0), 1, false)], nextToken := 2,
                flights := map[3 := Rotating(0, 1)], home := map[0 := 1, 1 := 1])
  }

  lemma FirstRotation()
    ensures TokenRuns.Accepts(BothPast(), Rotate(2, 1), 0) && After(BothPast(), Rotate(2, 1)) == OnceRotated()
  {
    assert map[2 := Rotating(0, 1), 3 := Rotating(0, 1)] - {2} == map[3 := Rotating(0, 1)];
  }

  lemma ToOnceRotated() returns (states: seq<System>, moves: seq<Move>)
    ensures Execution(states, moves) && states[|moves|] == OnceRotated()
    ensures moves != [] && TokenRuns.Accepts(states[|moves| - 1], moves[|moves| - 1], 0)
  {
    var a, f := ToBothPast();
    FirstRotation();
    states, moves := Extend(a, f, Rotate(2, 1));
  }

  lemma Extend(a: seq<System>, f: seq<Move>, m: Move) returns (states: seq<System>, moves: seq<Move>)
    requires Path(a, f) && Enabled(a[|f|], m)
    ensures Path(states, moves) && moves == f + [m] && states == a + [After(a[|f|], m)]
  {
    states, moves := a + [After(a[|f|], m)], f + [m];
  }

  /** Token 0 is accepted twice. */
  lemma AcceptedTwice() returns (states: seq<System>, moves: seq<Move>, i: nat, j: nat)
    ensures Execution(states, moves) && i < j < |moves|
    ensures TokenRuns.Accepts(states[i], moves[i], 0) && TokenRuns.Accepts(states[j], moves[j], 0)
  {
    var a, f := ToOnceRotated();
    states, moves := Extend(a, f, Rotate(3, 1));
    i, j := |f| - 1, |f|;
  }

  // ---- a banned device that goes on refreshing ----

  ghost function Banned(): System {
    BothPast().(rows := map[1 := Device(1, "a", Null, Null, None, true, 0)])
  }

  /** Request 2 has landed on the banned device. */
  ghost function BannedRotated(): System {
    Banned().(rows := map[1 := TheDevice(Hash(1), Hash(0), 1, true)], nextToken := 2,
              flights := map[3 := Rotating(0, 1)], home := map[0 := 1, 1 := 1])
  }

  lemma RotationOfBanned()
    ensures Enabled(Banned(), Rotate(2, 1)) && After(Banned(), Rotate(2, 1)) == BannedRotated()
  {
    assert map[2 := Rotating(0, 1), 3 := Rotating(0, 1)] - {2} == map[3 := Rotating(0, 1)];
  }

  lemma ToBannedRotated() returns (states: seq<System>, moves: seq<Move>)
    ensures Execution(states, moves) && states[|moves|] == BannedRotated()
  {
    var a, f := ToBothPast();
    var ban := Single(Ban(1, 1), map[1 := Device(1, "a", Null, Null, None, true, 0)]);
    assert After(BothPast(), ban) == Banned();
    a, f := Extend(a, f, ban);
    RotationOfBanned();
    states, moves := Extend(a, f, Rotate(2, 1));
  }

  /** The device is banned between the lookups and the UPDATE of request 2; the token issued then is
      accepted later from the banned device. */
  lemma BannedDeviceRefreshes() returns (states: seq<System>, moves: seq<Move>, i: nat)
    ensures Execution(states, moves) && i + 1 == |moves|
    ensures BannedWithHash(states[i], 1) && TokenRuns.Accepts(states[i], moves[i], 1)
  {
    var a, f := ToBannedRotated();
    var b, g := GetsPast(BannedRotated(), 1);
    PathConcat(a, f, b, g);
    a, f := a + b[1..], f + g;
    assert a[|f|].rows == BannedRotated().rows && a[|f|].flights[4] == Rotating(1, 1);
    states, moves := Extend(a, f, Rotate(4, 1));
    i := |f|;
  }

  // ---- a dead token that becomes known again ----

  /** Token 1 has been rotated in turn: no device knows token 0. */
  ghost function TwiceRotated(): System {
    OnceRotated().(rows := map[1 := TheDevice(Hash(2), Hash(1), 1, false)], nextToken := 3, nextFlight := 5,
                   home := map[0 := 1, 1 := 1, 2 := 1])
  }

  lemma SecondRotation(s: System)
    requires s == OnceRotated().(flights := OnceRotated().flights[4 := Rotating(1, 1)], nextFlight := 5)
    ensures Enabled(s, Rotate(4, 1)) && After(s, Rotate(4, 1)) == TwiceRotated()
  {
    assert s.flights - {4} == OnceRotated().flights;
  }

  lemma ToTwiceRotated() returns (states: seq<System>, moves: seq<Move>)
    ensures Execution(states, moves) && states[|moves|] == TwiceRotated()
  {
    var a, f := ToOnceRotated();
    var b, g := GetsPast(OnceRotated(), 1);
    PathConcat(a, f, b, g);
    a, f := a + b[1..], f + g;
    SecondRotation(a[|f|]);
    states, moves := Extend(a, f, Rotate(4, 1));
  }

  /** After two rotations no device knows token 0; then the UPDATE of request 3 lands. */
  lemma DeadTokenRevived() returns (states: seq<System>, moves: seq<Move>, i: nat)
    ensures Execution(states, moves) && i + 1 == |moves|
    ensures DeadIn(states[i], 0) && 1 in states[i + 1].rows && states[i + 1].rows[1].previous == Hash(0)
  {
    var a, f := ToTwiceRotated();
    states, moves := Extend(a, f, Rotate(3, 1));
    i := |f|;
  }

  // ---- logins that overlap ----

  /** Devices 1 and 2 of two users; nobody holds the empty string. */
  ghost function TwoDevices(): System {
    LoggedIn().(rows := map[1 := TheDevice(Hash(0), Null, 0, false),
                            2 := Device(2, "b", Hash(1), Null, Some(TTL), false, 0)],
                nextId := 3, nextToken := 2, nextFlight := 3, home := map[0 := 1, 1 := 2])
  }

  /** A first login as request r gets as far as its INSERT. */
  lemma ReachesInsert(s: System, user: int, uuid: string) returns (states: seq<System>, moves: seq<Move>)
    requires !Known(s.rows, user, uuid) && s.nextFlight !in s.flights
    requires |Active(s.rows, user)| < DEVICES_MAX_PER_USER
    ensures Path(states, moves) && states[0] == s
    ensures states[|moves|] == s.(flights := s.flights[s.nextFlight := Inserting(user, uuid)],
                                  nextFlight := s.nextFlight + 1)
  {
    var r := s.nextFlight;
    var s1 := s.(flights := s.flights[r := SeekingDevice(user, uuid)], nextFlight := r + 1);
    var s2 := s1.(flights := s.flights[r := Counting(user, uuid)]);
    var s3 := s1.(flights := s.flights[r := Inserting(user, uuid)]);
    assert s2.flights == s1.flights[r := Counting(user, uuid)] && s3.flights == s2.flights[r := Inserting(user, uuid)];
    states, moves := Extend([s], [], Begin(SeekingDevice(user, uuid)));
    states, moves := Extend(states, moves, LookupDevice(r, None));
    states, moves := Extend(states, moves, CountActive(r));
  }

  lemma SecondUserInserts(s: System)
    requires s == LoggedIn().(flights := map[2 := Inserting(2, "b")], nextFlight := 3)
    ensures After(s, Insert(2, 0)) == TwoDevices()
  {
    assert s.flights - {2} == map[];
  }

  lemma ToTwoDevices() returns (states: seq<System>, moves: seq<Move>)
    ensures Execution(states, moves) && states[|moves|] == TwoDevices()
  {
    var a, f := ToLoggedIn();
    assert Active(LoggedIn().rows, 2) == {};
    var b, g := ReachesInsert(LoggedIn(), 2, "b");
    PathConcat(a, f, b, g);
    a, f := a + b[1..], f + g;
    SecondUserInserts(a[|f|]);
    states, moves := Extend(a, f, Insert(2, 0));
  }

  /** A login on a known device, not banned, gets as far as its UPDATE. */
  lemma ReachesUpdate(s: System, user: int, uuid: string, d: int) returns (states: seq<System>, moves: seq<Move>)
    requires IsDevice(s.rows, d, user, uuid) && !s.rows[d].banned && s.nextFlight !in s.flights
    ensures Path(states, moves) && states[0] == s && |moves| == 2 && moves[1] == LookupDevice(s.nextFlight, Some(d))
    ensures states[1].rows == s.rows
    ensures states[2] == s.(flights := s.flights[s.nextFlight := Replacing(d)], nextFlight := s.nextFlight + 1)
  {
    var r := s.nextFlight;
    states, moves := Extend([s], [], Begin(SeekingDevice(user, uuid)));
    states, moves := Extend(states, moves, LookupDevice(r, Some(d)));
    assert states[2].flights == s.flights[r := Replacing(d)];
  }

  lemma ToBothReplacing() returns (states: seq<System>, moves: seq<Move>, i: nat)
    ensures Execution(states, moves) && i < |moves|
    ensures states[|moves|] == TwoDevices().(flights := map[3 := Replacing(1), 4 := Replacing(2)], nextFlight := 5)
    ensures moves[i] == LookupDevice(4, Some(2)) && states[i].rows == TwoDevices().rows
  {
    var a, f := ToTwoDevices();
    var b, g := ReachesUpdate(TwoDevices(), 1, "a", 1);
    PathConcat(a, f, b, g);
    a, f := a + b[1..], f + g;
    b, g := ReachesUpdate(a[|f|], 2, "b", 2);
    PathConcat(a, f, b, g);
    states, moves, i := a + b[1..], f + g, |f| + 1;
    assert states[i] == b[1] && moves[i] == g[1];
    assert states[|moves|].flights == map[3 := Replacing(1), 4 := Replacing(2)];
  }

  lemma SecondRelogin(s: System)
    requires s == TwoDevices().(flights := map[3 := Replacing(1), 4 := Replacing(2)], nextFlight := 5)
    ensures Enabled(s, Replace(3, 1)) && Enabled(After(s, Replace(3, 1)), Replace(4, 1))
    ensures !Lands(After(s, Replace(3, 1)), 2, Blank)
  {
    assert After(s, Replace(3, 1)).rows[1].previous == Blank;
  }

  /** Both users log in again.  When request 4 finds its device, nobody holds the empty string and the
      device is not banned; still its UPDATE fails. */
  lemma OverlappingReloginFails() returns (states: seq<System>, moves: seq<Move>, i: nat, j: nat)
    ensures Execution(states, moves) && i < j < |moves|
    ensures moves[i] == LookupDevice(4, Some(2)) && 2 in states[i].rows && !states[i].rows[2].banned
    ensures forall d | d in states[i].rows :: states[i].rows[d].previous != Blank
    ensures moves[j] == Replace(4, 1) && !Lands(states[j], 2, Blank)
  {
    var a, f, k := ToBothReplacing();
    SecondRelogin(a[|f|]);
    states, moves := Extend(a, f, Replace(3, 1));
    states, moves := Extend(states, moves, Replace(4, 1));
    i, j := k, |f| + 1;
  }

  /** Device 1 is banned after request 2, a login, has found it. */
  ghost function BannedReplacing(): System {
    LoggedIn().(rows := map[1 := Device(1, "a", Null, Null, None, true, 0)], flights := map[2 := Replacing(1)],
                nextFlight := 3)
  }

  lemma BansReplacing(s: System)
    requires s == LoggedIn().(flights := map[2 := Replacing(1)], nextFlight := 3)
    ensures var ban := Single(Ban(1, 1), BannedReplacing().rows); Enabled(s, ban) && After(s, ban) == BannedReplacing()
    ensures Enabled(BannedReplacing(), Replace(2, 1)) && BannedWithHash(After(BannedReplacing(), Replace(2, 1)), 1)
  {
    assert BannedReplacing().rows == s.rows[1 := Barred(s.rows[1])];
  }

  /** A banned device logs in all the same when it was found before the ban. */
  lemma BannedDeviceLogsIn() returns (states: seq<System>, moves: seq<Move>)
    ensures Execution(states, moves) && moves != [] && moves[|moves| - 1] == Replace(2, 1)
    ensures 1 in states[|moves| - 1].rows && states[|moves| - 1].rows[1].banned && BannedWithHash(states[|moves|], 1)
  {
    var a, f := ToLoggedIn();
    var b, g := ReachesUpdate(LoggedIn(), 1, "a", 1);
    PathConcat(a, f, b, g);
    a, f := a + b[1..], f + g;
    assert a[|f|].flights == map[2 := Replacing(1)];
    BansReplacing(a[|f|]);
    a, f := Extend(a, f, Single(Ban(1, 1), BannedReplacing().rows));
    states, moves := Extend(a, f, Replace(2, 1));
  }

  /** Requests 1 and 2 are first logins of one device. */
  ghost function BothInserting(): System {
    Empty().(flights := map[1 := Inserting(1, "a"), 2 := Inserting(1, "a")], nextFlight := 3)
  }

  lemma ToBothInserting() returns (states: seq<System>, moves: seq<Move>)
    ensures Execution(states, moves) && states[|moves|] == BothInserting()
  {
    assert Active(Empty().rows, 1) == {};
    var a, f := ReachesInsert(Empty(), 1, "a");
    var b, g := ReachesInsert(a[|f|], 1, "a");
    PathConcat(a, f, b, g);
    states, moves := a + b[1..], f + g;
    assert states[|moves|].flights == BothInserting().flights;
  }

  lemma SecondInsert(s: System)
    requires s == BothInserting()
    ensures Enabled(s, Insert(1, 0)) && Enabled(After(s, Insert(1, 0)), Insert(2, 0))
    ensures var s' := After(s, Insert(1, 0)); !InsertAllowed(s'.rows, 1, "a", Hash(s'.nextToken))
  {
    assert IsDevice(After(s, Insert(1, 0)).rows, 1, 1, "a");
  }

  /** Two overlapping first logins of one device: the second INSERT is refused. */
  lemma OverlappingFirstLoginFails() returns (states: seq<System>, moves: seq<Move>)
    ensures Execution(states, moves) && moves != [] && moves[|moves| - 1] == Insert(2, 0)
    ensures var s := states[|moves| - 1];
            s.flights[2] == Inserting(1, "a") && !InsertAllowed(s.rows, 1, "a", Hash(s.nextToken))
  {
    var a, f := ToBothInserting();
    SecondInsert(a[|f|]);
    states, moves := Extend(a, f, Insert(1, 0));
    states, moves := Extend(states, moves, Insert(2, 0));
  }

  // ---- a user above the limit of devices ----

  function Name(n: nat): string {
    seq(n, _ => 'a')
  }

  predicate Below(t: nat, n: nat) {
    t < n
  }

  /** User 1 has logged in with n devices. */
  ghost function Crowd(n: nat): System {
    System(map d | 1 <= d <= n :: Device(1, Name(d), Hash(d - 1), Null, Some(TTL), false, 0), n + 1, n, map[], n + 1,
           map t: nat | 0 <= t < n && Below(t, n) :: t + 1)
  }

  lemma CrowdNames(n: nat, u: nat)
    requires u > n
    ensures !Known(Crowd(n).rows, 1, Name(u))
  {
    forall d | d in Crowd(n).rows
      ensures !IsDevice(Crowd(n).rows, d, 1, Name(u))
    {
      assert |Name(d)| == d && |Name(u)| == u;
    }
  }

  lemma CrowdGrows(n: nat)
    ensures Crowd(n + 1).rows == Crowd(n).rows[n + 1 := NewDevice(1, Name(n + 1), n, 0)]
    ensures Crowd(n + 1).home == Crowd(n).home[n := n + 1]
  {
  }

  lemma CrowdHasRoom(n: nat)
    ensures InsertAllowed(Crowd(n).rows, 1, Name(n + 1), Hash(n))
  {
    CrowdNames(n, n + 1);
    forall d | d in Crowd(n).rows
      ensures !IsDevice(Crowd(n).rows, d, 1, Name(n + 1)) && !Clashes(Crowd(n).rows[d].current, Hash(n))
    {
    }
  }

  lemma {:induction false} CrowdCount(n: nat)
    ensures ActiveCount(Crowd(n).rows, 1) == n
  {
    if n == 0 {
      assert Active(Crowd(0).rows, 1) == {};
    } else {
      CrowdCount(n - 1);
      CrowdGrows(n - 1);
      RowAdds(Crowd(n - 1).rows, n, NewDevice(1, Name(n), n - 1, 0), 1);
    }
  }

  /** One more device of user 1. */
  lemma OneMore(n: nat, s: System, r: int)
    requires s.rows == Crowd(n).rows && s.nextId == n + 1 && s.nextToken == n && s.home == Crowd(n).home
    requires r in s.flights && s.flights[r] == Inserting(1, Name(n + 1))
    ensures Enabled(s, Insert(r, 0))
    ensures After(s, Insert(r, 0)) == Crowd(n + 1).(flights := s.flights - {r}, nextFlight := s.nextFlight)
  {
    CrowdHasRoom(n);
    CrowdGrows(n);
  }

  lemma {:induction false} ToCrowd(n: nat) returns (states: seq<System>, moves: seq<Move>)
    requires n < DEVICES_MAX_PER_USER
    ensures Execution(states, moves) && states[|moves|] == Crowd(n)
  {
    if n == 0 {
      states, moves := [Crowd(0)], [];
    } else {
      var a, f := ToCrowd(n - 1);
      var b, g := ToCrowdInserting(n - 1);
      PathConcat(a, f, b, g);
      a, f := a + b[1..], f + g;
      OneMore(n - 1, a[|f|], n);
      states, moves := Extend(a, f, Insert(n, 0));
      assert states[|moves|].flights == map[];
    }
  }

  lemma ToCrowdInserting(n: nat) returns (states: seq<System>, moves: seq<Move>)
    requires n < DEVICES_MAX_PER_USER
    ensures Path(states, moves) && states[0] == Crowd(n)
    ensures states[|moves|] == Crowd(n).(flights := map[n + 1 := Inserting(1, Name(n + 1))], nextFlight := n + 2)
  {
    CrowdNames(n, n + 1);
    CrowdCount(n);
    states, moves := ReachesInsert(Crowd(n), 1, Name(n + 1));
    assert states[|moves|].flights == map[n + 1 := Inserting(1, Name(n + 1))];
  }

  /** Fourteen devices, and two overlapping logins that have both counted them. */
  ghost function TwoMoreInserting(): System {
    Crowd(14).(flights := map[15 := Inserting(1, Name(15)), 16 := Inserting(1, Name(16))], nextFlight := 17)
  }

  lemma ToTwoMoreInserting() returns (states: seq<System>, moves: seq<Move>)
    ensures Execution(states, moves) && states[|moves|] == TwoMoreInserting()
  {
    var a, f := ToCrowd(14);
    var b, g := ToCrowdInserting(14);
    PathConcat(a, f, b, g);
    a, f := a + b[1..], f + g;
    CrowdNames(14, 16);
    CrowdCount(14);
    b, g := ReachesInsert(a[|f|], 1, Name(16));
    PathConcat(a, f, b, g);
    states, moves := a + b[1..], f + g;
    assert states[|moves|].flights == TwoMoreInserting().flights;
  }

  /** Overlapping logins leave user 1 sixteen active devices. */
  lemma SixteenDevices() returns (states: seq<System>, moves: seq<Move>)
    ensures Execution(states, moves) && ActiveCount(states[|moves|].rows, 1) == DEVICES_MAX_PER_USER + 1
  {
    var a, f := ToTwoMoreInserting();
    OneMore(14, a[|f|], 15);
    a, f := Extend(a, f, Insert(15, 0));
    OneMore(15, a[|f|], 16);
    states, moves := Extend(a, f, Insert(16, 0));
    CrowdCount(16);
  }
}
