/** What decides the answer of a request whose statements interleave with those of others. */
module TokenAnswers {
  import opened Options
  import opened TokenRotation
  import opened TokenRuns

  // ---- a request past its lookups ----

  predicate PastLookups(f: Flight) {
    f.Rotating? || f.Revoking? || f.Replacing? || f.Inserting?
  }

  lemma FlightStep(s: System, m: Move, r: int)
    requires Enabled(s, m) && r < s.nextFlight && (r in s.flights ==> PastLookups(s.flights[r]))
    ensures r < After(s, m).nextFlight
    ensures r in After(s, m).flights ==> r in s.flights && After(s, m).flights[r] == s.flights[r]
  {
  }

  /** Past its lookups a request stays what it is until it ends, and then it does not come back. */
  lemma {:induction false} FlightStays(states: seq<System>, moves: seq<Move>, a: nat, k: nat, r: int)
    requires Path(states, moves) && a <= k <= |moves| && r < states[a].nextFlight
    requires r in states[a].flights ==> PastLookups(states[a].flights[r])
    ensures r < states[k].nextFlight
    ensures r in states[k].flights ==> r in states[a].flights && states[k].flights[r] == states[a].flights[r]
    decreases k
  {
    if a == k {
    } else {
      FlightStays(states, moves, a, k - 1, r);
      FlightStep(states[k - 1], moves[k - 1], r);
    }
  }

  /** Its last statement is the one it is waiting for, unless it is abandoned. */
  lemma EndingMove(s: System, m: Move, r: int)
    requires Enabled(s, m) && r in s.flights && r !in After(s, m).flights && r < s.nextFlight
    ensures !m.Begin? && !m.Single? && m.r == r
    ensures s.flights[r].Rotating? ==> m.Rotate? || m == Abandon(r)
    ensures s.flights[r].Revoking? ==> m.Revoke? || m == Abandon(r)
  {
  }

  // ---- logging in again ----

  /** The UPDATE of a login succeeds exactly when its device is gone or no other device holds the
      empty string. */
  lemma ReplaceLandsExactlyWhen(s: System, r: int)
    requires Tracked(s) && r in s.flights && s.flights[r].Replacing?
    ensures var d := s.flights[r].device;
            Lands(s, d, Blank) <==> d !in s.rows || forall e | e in s.rows && e != d :: s.rows[e].previous != Blank
  {
    forall e | e in s.rows
      ensures !Clashes(s.rows[e].current, Hash(s.nextToken))
    {
      assert RowOk(s, e);
    }
  }

  /** A login that has found its device not banned fails exactly when that device still exists and
      another one holds the empty string at the time of the UPDATE; a ban in between does not matter. */
  lemma ReloginFailsExactlyWhen(states: seq<System>, moves: seq<Move>, i: nat, j: nat, r: int, d: int, now: int)
    requires Execution(states, moves) && i < j < |moves|
    requires moves[i] == LookupDevice(r, Some(d)) && d in states[i].rows && !states[i].rows[d].banned
    requires moves[j] == Replace(r, now)
    ensures r in states[j].flights && states[j].flights[r] == Replacing(d)
    ensures !Lands(states[j], d, Blank) <==>
              d in states[j].rows && exists e :: e in states[j].rows && e != d && states[j].rows[e].previous == Blank
    ensures if Lands(states[j], d, Blank) && d in states[j].rows
            then states[j + 1].rows[d] == Session(states[j].rows[d], states[j].nextToken, Blank, now)
            else states[j + 1].rows == states[j].rows
  {
    InitTracked(states[0]);
    ReachableTracked(states, moves, i);
    ReachableTracked(states, moves, j);
    assert Enabled(states[i], moves[i]) && states[i + 1] == After(states[i], moves[i]);
    FlightStays(states, moves, i + 1, j, r);
    ReplaceLandsExactlyWhen(states[j], r);
  }

  // ---- logging in for the first time ----

  /** The INSERT of a login is refused exactly when the user has a device with that uuid by then. */
  lemma InsertAllowedExactlyWhen(s: System, r: int)
    requires Tracked(s) && r in s.flights && s.flights[r].Inserting?
    ensures var f := s.flights[r];
            InsertAllowed(s.rows, f.user, f.uuid, Hash(s.nextToken)) <==> !Known(s.rows, f.user, f.uuid)
  {
    forall e | e in s.rows
      ensures !Clashes(s.rows[e].current, Hash(s.nextToken))
    {
      assert RowOk(s, e);
    }
  }

  predicate NewFor(f: Flight, user: int, uuid: string) {
    f == Counting(user, uuid) || f == Evicting(user, uuid) || f == Inserting(user, uuid)
  }

  lemma {:induction false} StaysNewFor(states: seq<System>, moves: seq<Move>, a: nat, k: nat, r: int, user: int,
                                       uuid: string)
    requires Path(states, moves) && a <= k <= |moves| && r < states[a].nextFlight
    requires r in states[a].flights && NewFor(states[a].flights[r], user, uuid)
    ensures r < states[k].nextFlight && (r in states[k].flights ==> NewFor(states[k].flights[r], user, uuid))
    decreases k
  {
    if a == k {
    } else {
      StaysNewFor(states, moves, a, k - 1, r, user, uuid);
      NewForStep(states[k - 1], moves[k - 1], r, user, uuid);
    }
  }

  lemma NewForStep(s: System, m: Move, r: int, user: int, uuid: string)
    requires Enabled(s, m) && r < s.nextFlight && (r in s.flights ==> NewFor(s.flights[r], user, uuid))
    ensures r < After(s, m).nextFlight && (r in After(s, m).flights ==> NewFor(After(s, m).flights[r], user, uuid))
  {
  }

  /** Statement m gives the user a new device with that uuid. */
  ghost predicate InsertsFor(s: System, m: Move, user: int, uuid: string) {
    && m.Insert? && m.r in s.flights && s.flights[m.r] == Inserting(user, uuid)
    && InsertAllowed(s.rows, user, uuid, Hash(s.nextToken))
  }

  /** A device is one of before with the same user and uuid, or the one that m inserts. */
  ghost predicate DevicesFrom(s: System, m: Move, s': System) {
    && s.nextId <= s'.nextId && (forall d | d in s.rows :: d < s.nextId)
    && forall d, user, uuid | IsDevice(s'.rows, d, user, uuid) ::
         IsDevice(s.rows, d, user, uuid) || (d == s.nextId && InsertsFor(s, m, user, uuid))
  }

  lemma MoveDevicesFrom(s: System, m: Move)
    requires Tracked(s) && Enabled(s, m)
    ensures DevicesFrom(s, m, After(s, m))
  {
    forall d | d in s.rows
      ensures d < s.nextId
    {
      assert RowOk(s, d);
    }
  }

  ghost predicate DeviceHistory(states: seq<System>, moves: seq<Move>) {
    && |states| == |moves| + 1
    && (forall k | 0 <= k < |moves| :: DevicesFrom(states[k], moves[k], states[k + 1]))
    && (forall k | 0 <= k < |states| :: forall d | d in states[k].rows :: d < states[k].nextId)
  }

  lemma HasDeviceHistory(states: seq<System>, moves: seq<Move>)
    requires Path(states, moves) && Tracked(states[0])
    ensures DeviceHistory(states, moves)
  {
    forall k | 0 <= k < |moves|
      ensures DevicesFrom(states[k], moves[k], states[k + 1])
    {
      ReachableTracked(states, moves, k);
      MoveDevicesFrom(states[k], moves[k]);
    }
    forall k, d | 0 <= k < |states| && d in states[k].rows
      ensures d < states[k].nextId
    {
      ReachableTracked(states, moves, k);
      assert RowOk(states[k], d);
    }
  }

  lemma {:induction false} NextIdGrows(states: seq<System>, moves: seq<Move>, a: nat, k: nat)
    requires DeviceHistory(states, moves) && a <= k <= |moves|
    ensures states[a].nextId <= states[k].nextId
    decreases k
  {
    if a == k {
    } else {
      NextIdGrows(states, moves, a, k - 1);
      assert DevicesFrom(states[k - 1], moves[k - 1], states[k]);
    }
  }

  /** Ids are given out once, and a device keeps its user and uuid. */
  lemma {:induction false} DeviceStays(states: seq<System>, moves: seq<Move>, a: nat, k: nat, d: int, user: int,
                                       uuid: string)
    requires DeviceHistory(states, moves) && a <= k <= |moves|
    requires IsDevice(states[k].rows, d, user, uuid) && d < states[a].nextId
    ensures IsDevice(states[a].rows, d, user, uuid)
    decreases k
  {
    if a == k {
    } else {
      NextIdGrows(states, moves, a, k - 1);
      assert DevicesFrom(states[k - 1], moves[k - 1], states[k]);
      DeviceStays(states, moves, a, k - 1, d, user, uuid);
    }
  }

  /** A device that is there and was not before has been inserted in between. */
  lemma {:induction false} WhoInserted(states: seq<System>, moves: seq<Move>, a: nat, k: nat, d: int, user: int,
                                       uuid: string)
      returns (l: nat)
    requires DeviceHistory(states, moves) && a < k <= |moves|
    requires IsDevice(states[k].rows, d, user, uuid) && states[a].nextId <= d
    ensures a <= l < k && states[l].nextId == d && InsertsFor(states[l], moves[l], user, uuid)
    decreases k
  {
    assert DevicesFrom(states[k - 1], moves[k - 1], states[k]);
    if IsDevice(states[k - 1].rows, d, user, uuid) {
      l := WhoInserted(states, moves, a, k - 1, d, user, uuid);
    } else {
      l := k - 1;
    }
  }

  /** Between moves i and j a login other than r has inserted a device of the user with that uuid,
      which still exists. */
  ghost predicate TakenBetween(states: seq<System>, moves: seq<Move>, i: nat, j: nat, r: int, user: int, uuid: string)
    requires Path(states, moves) && j <= |moves|
  {
    exists l :: i < l < j && TakenAt(states[l], moves[l], states[j].rows, r, user, uuid)
  }

  ghost predicate TakenAt(s: System, m: Move, rows: Devices, r: int, user: int, uuid: string) {
    InsertsFor(s, m, user, uuid) && m.r != r && s.nextId in rows
  }

  /** A login that has found no device is refused exactly when another login of the same user and
      uuid has inserted one since, and it has not been deleted. */
  lemma FirstLoginRefusedExactlyWhen(states: seq<System>, moves: seq<Move>, i: nat, j: nat, r: int, now: int)
    requires Execution(states, moves) && i < j < |moves|
    requires moves[i] == LookupDevice(r, None) && r in states[i].flights && states[i].flights[r].SeekingDevice?
    requires moves[j] == Insert(r, now)
    ensures var f := states[i].flights[r];
            && r in states[j].flights && states[j].flights[r] == Inserting(f.user, f.uuid)
            && (!InsertAllowed(states[j].rows, f.user, f.uuid, Hash(states[j].nextToken))
                <==> TakenBetween(states, moves, i, j, r, f.user, f.uuid))
  {
    var user, uuid := states[i].flights[r].user, states[i].flights[r].uuid;
    InitTracked(states[0]);
    ReachableTracked(states, moves, i);
    ReachableTracked(states, moves, j);
    assert Enabled(states[i], moves[i]) && states[i + 1] == After(states[i], moves[i]);
    StaysNewFor(states, moves, i + 1, j, r, user, uuid);
    InsertAllowedExactlyWhen(states[j], r);
    if d :| d in states[j].rows && IsDevice(states[j].rows, d, user, uuid) {
      KnownMeansTaken(states, moves, i, j, r, user, uuid, d);
    }
    if TakenBetween(states, moves, i, j, r, user, uuid) {
      TakenMeansKnown(states, moves, i, j, r, user, uuid);
    }
  }

  lemma KnownMeansTaken(states: seq<System>, moves: seq<Move>, i: nat, j: nat, r: int, user: int, uuid: string, d: int)
    requires Path(states, moves) && Tracked(states[0]) && i < j < |moves|
    requires moves[i] == LookupDevice(r, None) && FindsDevice(states[i].rows, user, uuid, None)
    requires r < states[i].nextFlight && r in states[j].flights && IsDevice(states[j].rows, d, user, uuid)
    ensures TakenBetween(states, moves, i, j, r, user, uuid)
  {
    HasDeviceHistory(states, moves);
    if IsDevice(states[i].rows, d, user, uuid) {
      assert false;
    }
    if d < states[i].nextId {
      DeviceStays(states, moves, i, j, d, user, uuid);
      assert false;
    }
    var l := WhoInserted(states, moves, i, j, d, user, uuid);
    OtherInserted(states, moves, i, l, j, r);
    assert TakenAt(states[l], moves[l], states[j].rows, r, user, uuid);
  }

  /** Request r is still running at j, so it was not the one that inserted at l. */
  lemma OtherInserted(states: seq<System>, moves: seq<Move>, i: nat, l: nat, j: nat, r: int)
    requires Path(states, moves) && i <= l < j <= |moves| && r < states[i].nextFlight && r in states[j].flights
    ensures !(moves[l].Insert? && moves[l].r == r)
  {
    if moves[l].Insert? && moves[l].r == r {
      FlightNumbers(states, moves, i, l, r);
      NumberStep(states[l], moves[l], states[l + 1], r);
      FlightStays(states, moves, l + 1, j, r);
    }
  }

  lemma {:induction false} FlightNumbers(states: seq<System>, moves: seq<Move>, a: nat, k: nat, r: int)
    requires Path(states, moves) && a <= k <= |moves| && r < states[a].nextFlight
    ensures r < states[k].nextFlight
    decreases k
  {
    if a == k {
    } else {
      FlightNumbers(states, moves, a, k - 1, r);
      NumberStep(states[k - 1], moves[k - 1], states[k], r);
    }
  }

  lemma TakenMeansKnown(states: seq<System>, moves: seq<Move>, i: nat, j: nat, r: int, user: int, uuid: string)
    requires Path(states, moves) && Tracked(states[0]) && i < j <= |moves|
    requires TakenBetween(states, moves, i, j, r, user, uuid)
    ensures Known(states[j].rows, user, uuid)
  {
    HasDeviceHistory(states, moves);
    var l :| i < l < j && TakenAt(states[l], moves[l], states[j].rows, r, user, uuid);
    var d := states[l].nextId;
    InsertsIt(states[l], moves[l], user, uuid);
    DeviceStays(states, moves, l + 1, j, d, states[j].rows[d].user, states[j].rows[d].uuid);
    assert IsDevice(states[j].rows, d, user, uuid);
  }

  lemma InsertsIt(s: System, m: Move, user: int, uuid: string)
    requires InsertsFor(s, m, user, uuid)
    ensures Enabled(s, m) && After(s, m).nextId == s.nextId + 1 && IsDevice(After(s, m).rows, s.nextId, user, uuid)
  {
  }

  // ---- refreshing ----

  /** Request r began at move b as a refresh with t and uuid, and move k ends it. */
  ghost predicate RefreshEnds(states: seq<System>, moves: seq<Move>, b: nat, k: nat, r: int, t: nat, uuid: string) {
    && Execution(states, moves) && b < k < |moves|
    && moves[b] == Begin(SeekingPrevious(t, uuid)) && states[b].nextFlight == r
    && r in states[k].flights && r !in states[k + 1].flights
  }

  /** The first lookup, at s, finds t to be no device's previous token. */
  ghost predicate NotRotated(s: System, m: Move, r: int, t: nat) {
    m == LookupPrevious(r, None) && forall d | d in s.rows :: s.rows[d].previous != Hash(t)
  }

  /** The second lookup, at s, finds t current on device d with that uuid, and not expired. */
  ghost predicate FoundCurrent(s: System, m: Move, r: int, t: nat, uuid: string, d: int) {
    && m.LookupCurrent? && m.r == r && m.found == Some(d)
    && d in s.rows && s.rows[d].current == Hash(t) && s.rows[d].uuid == uuid && !TokenRuns.Expired(s.rows[d], m.now)
  }

  /** t was previous on d at the first lookup, or current on d with another uuid at the second. */
  ghost predicate Stolen(s: System, m: Move, r: int, t: nat, uuid: string, d: int) {
    && d in s.rows
    && (|| (m == LookupPrevious(r, Some(d)) && s.rows[d].previous == Hash(t))
        || (m.LookupCurrent? && m.r == r && m.found == Some(d) && s.rows[d].current == Hash(t)
            && s.rows[d].uuid != uuid))
  }

  ghost predicate ClearedBefore(states: seq<System>, moves: seq<Move>, b: nat, k: nat, r: int, t: nat)
    requires Path(states, moves) && k <= |moves|
  {
    exists i :: b < i < k && NotRotated(states[i], moves[i], r, t)
  }

  ghost predicate PassedOn(states: seq<System>, moves: seq<Move>, b: nat, k: nat, r: int, t: nat, uuid: string, d: int)
    requires Path(states, moves) && k <= |moves|
  {
    exists j :: b < j < k && FoundCurrent(states[j], moves[j], r, t, uuid, d)
      && ClearedBefore(states, moves, b, j, r, t)
  }

  ghost predicate CaughtOn(states: seq<System>, moves: seq<Move>, b: nat, k: nat, r: int, t: nat, uuid: string,
                           user: int)
    requires Path(states, moves) && k <= |moves|
  {
    exists i, d :: b < i < k && Stolen(states[i], moves[i], r, t, uuid, d) && states[i].rows[d].user == user
  }

  /** What the lookups so far have made of the request. */
  ghost predicate Stage(states: seq<System>, moves: seq<Move>, b: nat, k: nat, r: int, t: nat, uuid: string, f: Flight)
    requires Path(states, moves) && k <= |moves|
  {
    match f
    case SeekingPrevious(token, id) => token == t && id == uuid
    case SeekingCurrent(token, id) => token == t && id == uuid && ClearedBefore(states, moves, b, k, r, t)
    case Rotating(token, d) => token == t && PassedOn(states, moves, b, k, r, t, uuid, d)
    case Revoking(user) => CaughtOn(states, moves, b, k, r, t, uuid, user)
    case _ => false
  }

  lemma {:induction false} Stages(states: seq<System>, moves: seq<Move>, b: nat, k: nat, r: int, t: nat, uuid: string)
    requires Path(states, moves) && b < k <= |moves|
    requires moves[b] == Begin(SeekingPrevious(t, uuid)) && states[b].nextFlight == r
    ensures r < states[k].nextFlight
    ensures r in states[k].flights ==> Stage(states, moves, b, k, r, t, uuid, states[k].flights[r])
    decreases k
  {
    if k == b + 1 {
      Arrival(states[b], moves[b], states[k], r, SeekingPrevious(t, uuid));
    } else {
      Stages(states, moves, b, k - 1, r, t, uuid);
      NextStage(states, moves, b, k, r, t, uuid);
    }
  }

  lemma NextStage(states: seq<System>, moves: seq<Move>, b: nat, k: nat, r: int, t: nat, uuid: string)
    requires Path(states, moves) && b + 1 < k <= |moves| && r < states[k - 1].nextFlight
    requires r in states[k - 1].flights ==> Stage(states, moves, b, k - 1, r, t, uuid, states[k - 1].flights[r])
    ensures r < states[k].nextFlight
    ensures r in states[k].flights ==> Stage(states, moves, b, k, r, t, uuid, states[k].flights[r])
  {
    NumberStep(states[k - 1], moves[k - 1], states[k], r);
    if r in states[k - 1].flights {
      StageStep(states, moves, b, k, r, t, uuid);
    }
  }

  lemma Arrival(s: System, m: Move, s': System, r: int, f: Flight)
    requires Enabled(s, m) && s' == After(s, m) && m == Begin(f) && r == s.nextFlight
    ensures r in s'.flights && s'.flights[r] == f && r < s'.nextFlight
  {
  }

  /** Numbers are given out once. */
  lemma NumberStep(s: System, m: Move, s': System, r: int)
    requires Enabled(s, m) && s' == After(s, m) && r < s.nextFlight
    ensures r < s'.nextFlight && (r !in s.flights ==> r !in s'.flights)
  {
  }

  lemma StageStep(states: seq<System>, moves: seq<Move>, b: nat, k: nat, r: int, t: nat, uuid: string)
    requires Path(states, moves) && b + 1 < k <= |moves| && r < states[k - 1].nextFlight
    requires r in states[k - 1].flights && Stage(states, moves, b, k - 1, r, t, uuid, states[k - 1].flights[r])
    ensures r in states[k].flights ==> Stage(states, moves, b, k, r, t, uuid, states[k].flights[r])
  {
    var s, m := states[k - 1], moves[k - 1];
    assert Enabled(s, m) && states[k] == After(s, m);
    if r in states[k].flights && states[k].flights[r] == s.flights[r] {
      StageStays(states, moves, b, k, r, t, uuid, s.flights[r]);
    } else if m.LookupPrevious? {
      assert m.found == None ==> NotRotated(s, m, r, t);
      assert m.found.Some? ==> Stolen(s, m, r, t, uuid, m.found.value);
    } else if m.LookupCurrent? && m.found.Some? {
      assert FoundCurrent(s, m, r, t, uuid, m.found.value) || Stolen(s, m, r, t, uuid, m.found.value)
             || TokenRuns.Expired(s.rows[m.found.value], m.now);
    }
  }

  lemma StageStays(states: seq<System>, moves: seq<Move>, b: nat, k: nat, r: int, t: nat, uuid: string, f: Flight)
    requires Path(states, moves) && 0 < k <= |moves| && Stage(states, moves, b, k - 1, r, t, uuid, f)
    ensures Stage(states, moves, b, k, r, t, uuid, f)
  {
  }

  /** From the second lookup on the request is bound to rotate device d. */
  lemma FoundRotates(states: seq<System>, moves: seq<Move>, b: nat, j: nat, k: nat, r: int, t: nat, uuid: string,
                     d: int)
    requires Path(states, moves) && b < j < k <= |moves|
    requires moves[b] == Begin(SeekingPrevious(t, uuid)) && states[b].nextFlight == r
    requires FoundCurrent(states[j], moves[j], r, t, uuid, d) && r in states[k].flights
    ensures states[k].flights[r] == Rotating(t, d)
  {
    Stages(states, moves, b, j, r, t, uuid);
    assert Enabled(states[j], moves[j]) && states[j + 1] == After(states[j], moves[j]);
    FlightStays(states, moves, j + 1, k, r);
  }

  lemma StolenRevokes(states: seq<System>, moves: seq<Move>, b: nat, i: nat, k: nat, r: int, t: nat, uuid: string,
                      d: int)
    requires Path(states, moves) && b < i < k <= |moves|
    requires moves[b] == Begin(SeekingPrevious(t, uuid)) && states[b].nextFlight == r
    requires Stolen(states[i], moves[i], r, t, uuid, d) && r in states[k].flights
    ensures states[k].flights[r] == Revoking(states[i].rows[d].user)
  {
    Stages(states, moves, b, i, r, t, uuid);
    assert Enabled(states[i], moves[i]) && states[i + 1] == After(states[i], moves[i]);
    FlightStays(states, moves, i + 1, k, r);
  }

  /** A refresh is accepted exactly when its first lookup found the token previous nowhere, its second
      found it current on a device with that uuid and not expired, and the request was not given up,
      as it is when the user may not connect; what happens after the lookups does not matter. */
  lemma RefreshAcceptedExactlyWhen(states: seq<System>, moves: seq<Move>, b: nat, k: nat, r: int, t: nat, uuid: string)
    requires RefreshEnds(states, moves, b, k, r, t, uuid)
    ensures TokenRuns.Accepts(states[k], moves[k], t)
            <==> moves[k] != Abandon(r) && exists d :: PassedOn(states, moves, b, k, r, t, uuid, d)
  {
    InitTracked(states[0]);
    ReachableTracked(states, moves, k);
    Stages(states, moves, b, k, r, t, uuid);
    EndingMove(states[k], moves[k], r);
    if d :| PassedOn(states, moves, b, k, r, t, uuid, d) {
      var j :| b < j < k && FoundCurrent(states[j], moves[j], r, t, uuid, d)
        && ClearedBefore(states, moves, b, j, r, t);
      FoundRotates(states, moves, b, j, k, r, t, uuid, d);
      RotateLands(states[k], r);
    }
  }

  /** A refresh revokes all devices of a user exactly when its first lookup found the token previous on
      one of them, or its second found it current on one with another uuid. */
  lemma RefreshRevokesExactlyWhen(states: seq<System>, moves: seq<Move>, b: nat, k: nat, r: int, t: nat, uuid: string)
    requires RefreshEnds(states, moves, b, k, r, t, uuid)
    ensures moves[k] == Revoke(r)
            <==> moves[k] != Abandon(r) && exists user :: CaughtOn(states, moves, b, k, r, t, uuid, user)
    ensures forall user | CaughtOn(states, moves, b, k, r, t, uuid, user) && moves[k] == Revoke(r) ::
              && (forall d :: d in states[k + 1].rows <==> d in states[k].rows && states[k].rows[d].user != user)
              && (forall d | d in states[k + 1].rows :: states[k + 1].rows[d] == states[k].rows[d])
  {
    Stages(states, moves, b, k, r, t, uuid);
    EndingMove(states[k], moves[k], r);
    assert Enabled(states[k], moves[k]) && states[k + 1] == After(states[k], moves[k]);
    forall user | CaughtOn(states, moves, b, k, r, t, uuid, user)
      ensures states[k].flights[r] == Revoking(user)
    {
      var i, d :| b < i < k && Stolen(states[i], moves[i], r, t, uuid, d) && states[i].rows[d].user == user;
      StolenRevokes(states, moves, b, i, k, r, t, uuid, d);
    }
  }
}
