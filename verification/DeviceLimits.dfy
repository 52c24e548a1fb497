/** The limit of active devices of a user, which only login enforces. */
module DeviceLimits {
  import opened Options
  import opened TokenRotation
  import opened TokenRuns
  import Sets

  function ActiveCount(rows: Devices, user: int): nat {
    |Active(rows, user)|
  }

  function Max(a: nat, b: nat): nat {
    if a < b then b else a
  }

  lemma FewerActive(rows: Devices, rows': Devices, user: int)
    requires Active(rows', user) <= Active(rows, user)
    ensures ActiveCount(rows', user) <= ActiveCount(rows, user)
  {
    Sets.Fewer(Active(rows', user), Active(rows, user));
  }

  lemma OneMoreActive(rows: Devices, rows': Devices, user: int, d: int)
    requires Active(rows', user) <= Active(rows, user) + {d}
    ensures ActiveCount(rows', user) <= ActiveCount(rows, user) + 1
  {
    Sets.Fewer(Active(rows', user), Active(rows, user) + {d});
  }

  // ---- requests that do not overlap ----

  /** The eviction makes room for one device of the user, and touches no other user. */
  lemma RoomForOne(rows: Devices, user: int, kept: Devices, other: int)
    requires MakesRoom(rows, user, kept)
    ensures ActiveCount(kept, user) < Max(15, ActiveCount(rows, user))
    ensures ActiveCount(kept, other) <= ActiveCount(rows, other)
  {
    FewerActive(rows, kept, other);
    if ActiveCount(rows, user) >= DEVICES_MAX_PER_USER {
      var victim :| IsLRU(rows, user, victim) && kept == rows - {victim};
      assert Active(kept, user) == Active(rows, user) - {victim};
    }
  }

  /** A login leaves its user at most the limit, or as many active devices as before. */
  lemma LoginKeepsLimit(s: State, r: Request, s': State, out: Outcome, user: int)
    requires r.Login? && Step(s, r, s', out)
    ensures ActiveCount(s'.rows, user) <= Max(if user == r.user then 15
                                              else 0, ActiveCount(s.rows, user))
  {
    if r.admitted && !Known(s.rows, r.user, r.uuid) {
      var kept :| MakesRoom(s.rows, r.user, kept) && Inserts(s, kept, r.user, r.uuid, r.now, s', out);
      NewLoginKeepsLimit(s, kept, r, s', out, user);
    } else {
      FewerActive(s.rows, s'.rows, user);
    }
  }

  lemma NewLoginKeepsLimit(s: State, kept: Devices, r: Request, s': State, out: Outcome, user: int)
    requires r.Login? && MakesRoom(s.rows, r.user, kept) && Inserts(s, kept, r.user, r.uuid, r.now, s', out)
    ensures ActiveCount(s'.rows, user) <= Max(if user == r.user then 15
                                              else 0, ActiveCount(s.rows, user))
  {
    RoomForOne(s.rows, r.user, kept, user);
    if user == r.user {
      OneMoreActive(kept, s'.rows, user, s.nextId);
    } else {
      FewerActive(kept, s'.rows, user);
    }
  }

  /** The device is banned, and unbanned by its owner. */
  predicate Readmits(s: State, r: Request, user: int) {
    r.Unban? && Owns(s.rows, r.id, r.owner) && r.owner == user && s.rows[r.id].banned
  }

  /** A request takes a user above the limit exactly when it unbans a device of a user who is at it. */
  lemma ExceedsLimitExactlyWhen(s: State, r: Request, s': State, out: Outcome, user: int)
    requires Step(s, r, s', out) && ActiveCount(s.rows, user) <= 15
    ensures ActiveCount(s'.rows, user) > 15 <==>
              ActiveCount(s.rows, user) == 15 && Readmits(s, r, user)
  {
    if Readmits(s, r, user) {
      assert Active(s'.rows, user) == Active(s.rows, user) + {r.id};
    } else if r.Login? {
      LoginKeepsLimit(s, r, s', out, user);
    } else {
      OthersAddNone(s, r, s', out, user);
    }
  }

  lemma OthersAddNone(s: State, r: Request, s': State, out: Outcome, user: int)
    requires Step(s, r, s', out) && !r.Login? && !Readmits(s, r, user)
    ensures ActiveCount(s'.rows, user) <= ActiveCount(s.rows, user)
  {
    FewerActive(s.rows, s'.rows, user);
  }

  /** Without overlap and without unbanning, nobody ever has more active devices than the limit. */
  lemma {:induction false} SerialRunKeepsLimit(states: seq<State>, requests: seq<Request>, outs: seq<Outcome>, k: nat,
                                               user: int)
    requires Run(states, requests, outs) && k <= |requests|
    requires forall i | 0 <= i < k :: !Readmits(states[i], requests[i], user)
    ensures ActiveCount(states[k].rows, user) <= 15
  {
    if k == 0 {
      assert Active(states[0].rows, user) == {};
    } else {
      SerialRunKeepsLimit(states, requests, outs, k - 1, user);
      ExceedsLimitExactlyWhen(states[k - 1], requests[k - 1], states[k], outs[k - 1], user);
    }
  }

  // ---- requests that overlap ----

  /** Statement m adds an active device of the user: a new one, or one that is no longer banned. */
  ghost predicate Adds(s: System, m: Move, user: int) {
    || (m.Insert? && m.r in s.flights && s.flights[m.r].Inserting? && s.flights[m.r].user == user
        && InsertAllowed(s.rows, user, s.flights[m.r].uuid, Hash(s.nextToken)))
    || (m.Single? && Readmits(Core(s), m.request, user))
  }

  lemma AddsNone(s: System, m: Move, user: int)
    requires Tracked(s) && Enabled(s, m) && !Adds(s, m, user)
    ensures ActiveCount(After(s, m).rows, user) <= ActiveCount(s.rows, user)
  {
    FewerActive(s.rows, After(s, m).rows, user);
  }

  lemma AddsOne(s: System, m: Move, user: int)
    requires Tracked(s) && Enabled(s, m) && Adds(s, m, user)
    ensures ActiveCount(After(s, m).rows, user) == ActiveCount(s.rows, user) + 1
  {
    if m.Insert? {
      FreshId(s);
      InsertAdds(s, m, user);
    } else {
      assert Active(After(s, m).rows, user) == Active(s.rows, user) + {m.request.id};
    }
  }

  lemma FreshId(s: System)
    requires Tracked(s)
    ensures s.nextId !in s.rows
  {
    forall d | d in s.rows
      ensures d != s.nextId
    {
      assert RowOk(s, d);
    }
  }

  lemma InsertAdds(s: System, m: Move, user: int)
    requires m.Insert? && Adds(s, m, user) && s.nextId !in s.rows
    ensures ActiveCount(After(s, m).rows, user) == ActiveCount(s.rows, user) + 1
  {
    var row := NewDevice(user, s.flights[m.r].uuid, s.nextToken, m.now);
    assert After(s, m).rows == s.rows[s.nextId := row];
    RowAdds(s.rows, s.nextId, row, user);
  }

  lemma RowAdds(rows: Devices, d: int, row: Device, user: int)
    requires d !in rows && row.user == user && !row.banned
    ensures ActiveCount(rows[d := row], user) == ActiveCount(rows, user) + 1
  {
    assert Active(rows[d := row], user) == Active(rows, user) + {d};
  }

  /** A statement takes a user above the limit exactly when it adds a device to a user who is at it. */
  lemma MoveExceedsLimitExactlyWhen(s: System, m: Move, user: int)
    requires Tracked(s) && Enabled(s, m) && ActiveCount(s.rows, user) <= 15
    ensures ActiveCount(After(s, m).rows, user) > 15 <==>
              ActiveCount(s.rows, user) == 15 && Adds(s, m, user)
  {
    if Adds(s, m, user) {
      AddsOne(s, m, user);
    } else {
      AddsNone(s, m, user);
    }
  }

  /** The room there is for request r: none while it has to evict, one device afterwards. */
  ghost predicate Room(s: System, r: int, user: int, before: nat) {
    r in s.flights ==>
      && (s.flights[r].Evicting? || s.flights[r].Inserting?) && s.flights[r].user == user
      && ActiveCount(s.rows, user) <= before
      && (s.flights[r].Inserting? ==> ActiveCount(s.rows, user) < Max(15, before))
  }

  lemma RoomStep(s: System, m: Move, s': System, r: int, user: int, before: nat)
    requires Tracked(s) && Enabled(s, m) && s' == After(s, m) && !Adds(s, m, user)
    requires r < s.nextFlight && Room(s, r, user, before)
    ensures r < s'.nextFlight && Room(s', r, user, before)
  {
    AddsNone(s, m, user);
    if m.Evict? && m.r == r && r in s.flights {
      EvictMakesRoom(s, r, m.victim);
    }
  }

  lemma EvictMakesRoom(s: System, r: int, victim: Option<int>)
    requires Enabled(s, Evict(r, victim))
    ensures var user, rows' := s.flights[r].user, After(s, Evict(r, victim)).rows;
            ActiveCount(rows', user) == if victim == None then 0 else ActiveCount(s.rows, user) - 1
  {
    if victim.Some? {
      var user, rows' := s.flights[r].user, After(s, Evict(r, victim)).rows;
      assert Active(rows', user) == Active(s.rows, user) - {victim.value};
    }
  }

  lemma RoomAfterCount(s: System, r: int)
    requires Enabled(s, CountActive(r))
    ensures Room(After(s, CountActive(r)), r, s.flights[r].user, ActiveCount(s.rows, s.flights[r].user))
    ensures After(s, CountActive(r)).nextFlight == s.nextFlight
  {
  }

  lemma RoomAtFirst(states: seq<System>, moves: seq<Move>, i: nat, r: int, user: int)
    requires Path(states, moves) && i < |moves| && Tracked(states[i])
    requires moves[i] == CountActive(r) && states[i].flights[r].user == user
    ensures r < states[i + 1].nextFlight && Room(states[i + 1], r, user, ActiveCount(states[i].rows, user))
  {
    RoomAfterCount(states[i], r);
  }

  ghost predicate RoomKept(s: System, s': System, r: int, user: int, before: nat) {
    r < s.nextFlight && Room(s, r, user, before) ==> r < s'.nextFlight && Room(s', r, user, before)
  }

  lemma {:induction false} RoomAlong(states: seq<System>, a: nat, k: nat, r: int, user: int, before: nat)
    requires a <= k < |states| && r < states[a].nextFlight && Room(states[a], r, user, before)
    requires forall l | a <= l < k :: RoomKept(states[l], states[l + 1], r, user, before)
    ensures r < states[k].nextFlight && Room(states[k], r, user, before)
    decreases k
  {
    if a == k {
    } else {
      RoomAlong(states, a, k - 1, r, user, before);
      assert RoomKept(states[k - 1], states[k], r, user, before);
    }
  }

  lemma RoomStays(states: seq<System>, moves: seq<Move>, i: nat, k: nat, r: int, user: int)
    requires Path(states, moves) && Tracked(states[0]) && i < k <= |moves|
    requires moves[i] == CountActive(r) && states[i].flights[r].user == user
    requires forall l | i < l < k :: !Adds(states[l], moves[l], user)
    ensures r < states[k].nextFlight && Room(states[k], r, user, ActiveCount(states[i].rows, user))
  {
    var before := ActiveCount(states[i].rows, user);
    forall l | i < l < k
      ensures RoomKept(states[l], states[l + 1], r, user, before)
    {
      ReachableTracked(states, moves, l);
      if r < states[l].nextFlight && Room(states[l], r, user, before) {
        RoomStep(states[l], moves[l], states[l + 1], r, user, before);
      }
    }
    ReachableTracked(states, moves, i);
    RoomAtFirst(states, moves, i, r, user);
    RoomAlong(states, i + 1, k, r, user, before);
  }

  /** If no device of the user is added between the count of a login and its INSERT, the login keeps
      the limit, or the number of active devices there was. */
  lemma UndisturbedInsertKeepsLimit(states: seq<System>, moves: seq<Move>, i: nat, j: nat, r: int, now: int)
    requires Execution(states, moves) && i < j < |moves|
    requires moves[i] == CountActive(r) && r in states[i].flights && states[i].flights[r].Counting?
    requires moves[j] == Insert(r, now)
    requires forall l | i < l < j :: !Adds(states[l], moves[l], states[i].flights[r].user)
    ensures var user := states[i].flights[r].user;
            ActiveCount(states[j + 1].rows, user) <= Max(15, ActiveCount(states[i].rows, user))
  {
    var user := states[i].flights[r].user;
    InitTracked(states[0]);
    ReachableTracked(states, moves, j);
    RoomStays(states, moves, i, j, r, user);
    if Adds(states[j], moves[j], user) {
      AddsOne(states[j], moves[j], user);
    } else {
      AddsNone(states[j], moves[j], user);
    }
  }
}
