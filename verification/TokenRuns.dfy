/** Login and refresh statement by statement.  The server runs requests concurrently, without a
    transaction, so the statements of different requests interleave in every possible way. */
module TokenRuns {
  import opened Options
  import opened TokenRotation
  import Sets

  /** How far a request has got.  Rotating and Replacing are past their lookups: all they still do is
      an UPDATE of the device found, whatever has become of it. */
  datatype Flight =
    | SeekingPrevious(token: nat, uuid: string)
    | SeekingCurrent(token: nat, uuid: string)
    | Rotating(token: nat, device: int)
    | Revoking(user: int)
    | SeekingDevice(user: int, uuid: string)
    | Replacing(device: int)
    | Counting(user: int, uuid: string)
    | Evicting(user: int, uuid: string)
    | Inserting(user: int, uuid: string)

  /** The field home is history: for each token the device it was issued to. */
  datatype System = System(rows: Devices, nextId: int, nextToken: nat, flights: map<int, Flight>, nextFlight: int,
                           home: map<nat, int>)

  /** One statement of request r, its arrival or its end, or a request of a single statement. */
  datatype Move =
    | Begin(flight: Flight)
    | LookupPrevious(r: int, found: Option<int>)
    | LookupCurrent(r: int, found: Option<int>, now: int)
    | Rotate(r: int, now: int)
    | Revoke(r: int)
    | LookupDevice(r: int, found: Option<int>)
    | Replace(r: int, now: int)
    | CountActive(r: int)
    | Evict(r: int, victim: Option<int>)
    | Insert(r: int, now: int)
    | Abandon(r: int)
    | Single(request: Request, rows: Devices)

  ghost predicate Init(s: System) {
    s.rows == map[] && s.nextId == 1 && s.nextToken == 0 && s.flights == map[] && s.nextFlight == 1 && s.home == map[]
  }

  // ---- the statements ----

  predicate HasPrevious(rows: Devices, token: nat, found: Option<int>) {
    match found
    case None => forall d | d in rows :: rows[d].previous != Hash(token)
    case Some(d) => d in rows && rows[d].previous == Hash(token)
  }

  predicate HasCurrent(rows: Devices, token: nat, found: Option<int>) {
    match found
    case None => forall d | d in rows :: rows[d].current != Hash(token)
    case Some(d) => d in rows && rows[d].current == Hash(token)
  }

  ghost predicate FindsDevice(rows: Devices, user: int, uuid: string, found: Option<int>) {
    match found
    case None => !Known(rows, user, uuid)
    case Some(d) => IsDevice(rows, d, user, uuid)
  }

  predicate Expired(d: Device, now: int) {
    d.expiresAt.Some? && now > d.expiresAt.value
  }

  /** The UPDATE succeeds; it also does when there is no such row any more. */
  predicate Lands(s: System, device: int, previous: HashColumn) {
    device in s.rows ==> UpdateAllowed(s.rows, device, Hash(s.nextToken), previous)
  }

  function Landed(s: System, device: int, previous: HashColumn, now: int): System {
    if device in s.rows && Lands(s, device, previous) then
      s.(rows := s.rows[device := Session(s.rows[device], s.nextToken, previous, now)],
         nextToken := s.nextToken + 1, home := s.home[s.nextToken := device])
    else s.(nextToken := s.nextToken + 1)
  }

  function Ended(s: System, r: int): System {
    s.(flights := s.flights - {r})
  }

  function At(s: System, r: int, f: Flight): System {
    s.(flights := s.flights[r := f])
  }

  function Core(s: System): State {
    State(s.rows, s.nextId, s.nextToken)
  }

  predicate IsSingle(q: Request) {
    !q.Login? && !q.Refresh?
  }

  predicate Arrives(f: Flight) {
    f.SeekingPrevious? || f.SeekingDevice?
  }

  ghost predicate Enabled(s: System, m: Move) {
    match m
    case Begin(flight) => Arrives(flight)
    case LookupPrevious(r, found) =>
      r in s.flights && s.flights[r].SeekingPrevious? && HasPrevious(s.rows, s.flights[r].token, found)
    case LookupCurrent(r, found, _) =>
      r in s.flights && s.flights[r].SeekingCurrent? && HasCurrent(s.rows, s.flights[r].token, found)
    case Rotate(r, _) => r in s.flights && s.flights[r].Rotating?
    case Revoke(r) => r in s.flights && s.flights[r].Revoking?
    case LookupDevice(r, found) =>
      r in s.flights && s.flights[r].SeekingDevice? && FindsDevice(s.rows, s.flights[r].user, s.flights[r].uuid, found)
    case Replace(r, _) => r in s.flights && s.flights[r].Replacing?
    case CountActive(r) => r in s.flights && s.flights[r].Counting?
    case Evict(r, victim) =>
      && r in s.flights && s.flights[r].Evicting?
      && (if victim == None then Active(s.rows, s.flights[r].user) == {}
          else IsLRU(s.rows, s.flights[r].user, victim.value))
    case Insert(r, _) => r in s.flights && s.flights[r].Inserting?
    case Abandon(r) => r in s.flights
    case Single(q, rows) => IsSingle(q) && Step(Core(s), q, State(rows, s.nextId, s.nextToken), Finished)
  }

  function AfterLookupCurrent(s: System, r: int, found: Option<int>, now: int): System
    requires r in s.flights && s.flights[r].SeekingCurrent? && (found.Some? ==> found.value in s.rows)
  {
    var f := s.flights[r];
    if found == None then Ended(s, r)
    else if s.rows[found.value].uuid != f.uuid then At(s, r, Revoking(s.rows[found.value].user))
    else if Expired(s.rows[found.value], now) then Ended(s, r)
    else At(s, r, Rotating(f.token, found.value))
  }

  function AfterLookupDevice(s: System, r: int, found: Option<int>): System
    requires r in s.flights && s.flights[r].SeekingDevice? && (found.Some? ==> found.value in s.rows)
  {
    var f := s.flights[r];
    if found == None then At(s, r, Counting(f.user, f.uuid))
    else if s.rows[found.value].banned then Ended(s, r)
    else At(s, r, Replacing(found.value))
  }

  /** The INSERT of a new device, which the UNIQUE constraints may refuse. */
  function AfterInsert(s: System, r: int, now: int): System
    requires r in s.flights && s.flights[r].Inserting?
  {
    var f := s.flights[r];
    if !InsertAllowed(s.rows, f.user, f.uuid, Hash(s.nextToken)) then Ended(s, r).(nextToken := s.nextToken + 1)
    else
      Ended(s, r).(rows := s.rows[s.nextId := NewDevice(f.user, f.uuid, s.nextToken, now)], nextId := s.nextId + 1,
                   nextToken := s.nextToken + 1, home := s.home[s.nextToken := s.nextId])
  }

  function After(s: System, m: Move): System
    requires Enabled(s, m)
  {
    match m
    case Begin(flight) => s.(flights := s.flights[s.nextFlight := flight], nextFlight := s.nextFlight + 1)
    case LookupPrevious(r, found) =>
      if found.Some? then At(s, r, Revoking(s.rows[found.value].user))
      else At(s, r, SeekingCurrent(s.flights[r].token, s.flights[r].uuid))
    case LookupCurrent(r, found, now) => AfterLookupCurrent(s, r, found, now)
    case Rotate(r, now) => Ended(Landed(s, s.flights[r].device, Hash(s.flights[r].token), now), r)
    case Revoke(r) => Ended(s, r).(rows := WithoutUser(s.rows, s.flights[r].user))
    case LookupDevice(r, found) => AfterLookupDevice(s, r, found)
    case Replace(r, now) => Ended(Landed(s, s.flights[r].device, Blank, now), r)
    case CountActive(r) =>
      var f := s.flights[r];
      At(s, r, if |Active(s.rows, f.user)| >= DEVICES_MAX_PER_USER then Evicting(f.user, f.uuid)
         else Inserting(f.user, f.uuid))
    case Evict(r, victim) =>
      var f := s.flights[r];
      At(if victim.Some? then s.(rows := s.rows - {victim.value}) else s, r, Inserting(f.user, f.uuid))
    case Insert(r, now) => AfterInsert(s, r, now)
    case Abandon(r) => Ended(s, r)
    case Single(q, rows) => s.(rows := rows)
  }

  // ---- what every statement keeps ----

  /** Token t was issued to device d. */
  predicate IssuedTo(s: System, t: nat, d: int) {
    t < s.nextToken && t in s.home && s.home[t] == d
  }

  predicate RowOk(s: System, d: int)
    requires d in s.rows
  {
    var row := s.rows[d];
    && d < s.nextId && row.current != Blank
    && (row.current.Hash? ==> IssuedTo(s, row.current.token, d) && row.previous != row.current)
    && (row.previous.Hash? ==> IssuedTo(s, row.previous.token, d))
  }

  predicate FlightOk(s: System, f: Flight) {
    match f
    case Rotating(t, d) => d < s.nextId && IssuedTo(s, t, d)
    case Replacing(d) => d < s.nextId
    case _ => true
  }

  ghost predicate UniqueRows(rows: Devices) {
    forall d, e | d in rows && e in rows && d != e ::
      && !(rows[d].previous == Blank && rows[e].previous == Blank)
      && (rows[d].user == rows[e].user ==> rows[d].uuid != rows[e].uuid)
  }

  ghost predicate Tracked(s: System) {
    && (forall d | d in s.rows :: RowOk(s, d))
    && (forall r | r in s.flights :: r < s.nextFlight && FlightOk(s, s.flights[r]))
    && (forall t | t in s.home :: t < s.nextToken && s.home[t] < s.nextId)
    && UniqueRows(s.rows)
  }

  /** A hash sits only on the device its token was issued to, so the UPDATE of a refresh never
      violates a UNIQUE constraint. */
  lemma RotateLands(s: System, r: int)
    requires Tracked(s) && r in s.flights && s.flights[r].Rotating?
    ensures Lands(s, s.flights[r].device, Hash(s.flights[r].token))
  {
    assert FlightOk(s, s.flights[r]);
    forall e | e in s.rows && e != s.flights[r].device
      ensures !Clashes(s.rows[e].current, Hash(s.nextToken)) && !Clashes(s.rows[e].previous, Hash(s.flights[r].token))
    {
      assert RowOk(s, e);
    }
  }

  lemma LandedKeeps(s: System, r: int, now: int)
    requires Tracked(s) && r in s.flights && (s.flights[r].Rotating? || s.flights[r].Replacing?)
    ensures var previous := if s.flights[r].Rotating? then Hash(s.flights[r].token) else Blank;
            Tracked(Ended(Landed(s, s.flights[r].device, previous, now), r))
  {
    assert FlightOk(s, s.flights[r]);
    var previous := if s.flights[r].Rotating? then Hash(s.flights[r].token) else Blank;
    var s' := Ended(Landed(s, s.flights[r].device, previous, now), r);
    forall d | d in s'.rows
      ensures RowOk(s', d)
    {
      assert RowOk(s, d);
    }
    forall f | f in s'.flights
      ensures f < s'.nextFlight && FlightOk(s', s'.flights[f])
    {
      assert FlightOk(s, s.flights[f]);
    }
  }

  lemma FewerRowsKeep(s: System, rows: Devices, flights: map<int, Flight>, nextFlight: int)
    requires Tracked(s) && forall d | d in rows :: d in s.rows && rows[d] == s.rows[d]
    requires forall r | r in flights :: r < nextFlight && FlightOk(s, flights[r])
    ensures Tracked(s.(rows := rows, flights := flights, nextFlight := nextFlight))
  {
    var s' := s.(rows := rows, flights := flights, nextFlight := nextFlight);
    forall d | d in rows
      ensures RowOk(s', d)
    {
      assert RowOk(s, d);
    }
    forall r | r in flights
      ensures FlightOk(s', flights[r])
    {
      assert FlightOk(s, flights[r]);
    }
  }

  lemma InsertKeeps(s: System, r: int, now: int)
    requires Tracked(s) && r in s.flights && s.flights[r].Inserting?
    ensures Tracked(AfterInsert(s, r, now))
  {
    var s', f := AfterInsert(s, r, now), s.flights[r];
    forall d | d in s'.rows
      ensures RowOk(s', d)
    {
      assert d in s.rows ==> RowOk(s, d);
    }
    forall g | g in s'.flights
      ensures g < s'.nextFlight && FlightOk(s', s'.flights[g])
    {
      assert FlightOk(s, s.flights[g]);
    }
    forall d | d in s.rows && InsertAllowed(s.rows, f.user, f.uuid, Hash(s.nextToken))
      ensures s.rows[d].user == f.user ==> s.rows[d].uuid != f.uuid
    {
      assert !IsDevice(s.rows, d, f.user, f.uuid);
    }
  }

  lemma BanKeeps(s: System, q: Request, rows: Devices)
    requires Tracked(s) && Enabled(s, Single(q, rows)) && (q.Ban? || q.Unban?)
    ensures Tracked(s.(rows := rows))
  {
    var s' := s.(rows := rows);
    forall d | d in rows
      ensures RowOk(s', d)
    {
      assert RowOk(s, d);
    }
    forall r | r in s'.flights
      ensures FlightOk(s', s'.flights[r])
    {
      assert FlightOk(s, s.flights[r]);
    }
  }

  lemma LookupKeeps(s: System, m: Move)
    requires Tracked(s) && Enabled(s, m)
    requires m.Begin? || m.LookupPrevious? || m.LookupCurrent? || m.LookupDevice? || m.CountActive? || m.Abandon?
             || m.Evict? || m.Revoke?
    ensures Tracked(After(s, m))
  {
    var s' := After(s, m);
    if m.LookupCurrent? && m.found.Some? {
      assert RowOk(s, m.found.value);
    }
    if m.LookupDevice? && m.found.Some? {
      assert RowOk(s, m.found.value);
    }
    forall r | r in s'.flights
      ensures r < s'.nextFlight && FlightOk(s, s'.flights[r])
    {
      assert r in s.flights ==> FlightOk(s, s.flights[r]);
    }
    FewerRowsKeep(s, s'.rows, s'.flights, s'.nextFlight);
  }

  lemma MoveKeeps(s: System, m: Move)
    requires Tracked(s) && Enabled(s, m)
    ensures Tracked(After(s, m))
  {
    if m.Rotate? || m.Replace? {
      LandedKeeps(s, m.r, m.now);
    } else if m.Insert? {
      InsertKeeps(s, m.r, m.now);
    } else if m.Single? {
      if m.request.Ban? || m.request.Unban? {
        BanKeeps(s, m.request, m.rows);
      } else {
        FewerRowsKeep(s, m.rows, s.flights, s.nextFlight);
      }
    } else {
      LookupKeeps(s, m);
    }
  }

  /** A token is current on at most one device, previous on at most one, and never both. */
  lemma OnePlace(s: System, t: nat, d: int, e: int)
    requires Tracked(s) && d in s.rows && e in s.rows
    requires s.rows[d].current == Hash(t) || s.rows[d].previous == Hash(t)
    requires s.rows[e].current == Hash(t) || s.rows[e].previous == Hash(t)
    ensures d == e && !(s.rows[d].current == Hash(t) && s.rows[d].previous == Hash(t))
  {
    assert RowOk(s, d) && RowOk(s, e);
  }

  // ---- paths ----

  ghost predicate Path(states: seq<System>, moves: seq<Move>) {
    && |states| == |moves| + 1
    && forall k | 0 <= k < |moves| :: Enabled(states[k], moves[k]) && states[k + 1] == After(states[k], moves[k])
  }

  ghost predicate Execution(states: seq<System>, moves: seq<Move>) {
    Path(states, moves) && Init(states[0])
  }

  lemma {:induction false} ReachableTracked(states: seq<System>, moves: seq<Move>, k: nat)
    requires Path(states, moves) && Tracked(states[0]) && k <= |moves|
    ensures Tracked(states[k])
  {
    if k == 0 {
    } else {
      ReachableTracked(states, moves, k - 1);
      MoveKeeps(states[k - 1], moves[k - 1]);
    }
  }

  lemma InitTracked(s: System)
    requires Init(s)
    ensures Tracked(s)
  {
  }

  // ---- acceptance ----

  /** Statement m answers a refresh request for token t with a new token. */
  ghost predicate Accepts(s: System, m: Move, t: nat) {
    && m.Rotate? && m.r in s.flights && s.flights[m.r].Rotating? && s.flights[m.r].token == t
    && Lands(s, s.flights[m.r].device, Hash(t))
  }

  /** The refresh requests with t that are past their lookups. */
  ghost function Past(s: System, t: nat): set<int> {
    set r | r in s.flights && s.flights[r].Rotating? && s.flights[r].token == t
  }

  /** No device has t as its current token, so no further request with t gets past its lookups. */
  ghost predicate Spent(s: System, t: nat) {
    t < s.nextToken && forall d | d in s.rows :: s.rows[d].current != Hash(t)
  }

  /** Only new tokens become current. */
  lemma CurrentIsOld(s: System, m: Move, t: nat, d: int)
    requires Tracked(s) && Enabled(s, m) && t < s.nextToken
    requires d in After(s, m).rows && After(s, m).rows[d].current == Hash(t)
    ensures d in s.rows && s.rows[d].current == Hash(t)
  {
  }

  lemma SpentStep(s: System, m: Move, t: nat)
    requires Tracked(s) && Enabled(s, m) && Spent(s, t)
    ensures Spent(After(s, m), t) && Past(After(s, m), t) <= Past(s, t)
    ensures Accepts(s, m, t) ==> m.r in Past(s, t) && m.r !in Past(After(s, m), t)
  {
    var s' := After(s, m);
    forall d | d in s'.rows
      ensures s'.rows[d].current != Hash(t)
    {
      if s'.rows[d].current == Hash(t) {
        CurrentIsOld(s, m, t, d);
      }
    }
  }

  lemma AcceptedIsSpent(s: System, m: Move, t: nat)
    requires Tracked(s) && Enabled(s, m) && Accepts(s, m, t)
    ensures Spent(After(s, m), t) && Past(After(s, m), t) == Past(s, t) - {m.r}
  {
    assert FlightOk(s, s.flights[m.r]);
    var s' := After(s, m);
    forall d | d in s'.rows
      ensures s'.rows[d].current != Hash(t)
    {
      if d in s.rows {
        assert RowOk(s, d);
      }
    }
  }

  lemma {:induction false} SpentAlong(states: seq<System>, moves: seq<Move>, t: nat, k: nat)
    requires Path(states, moves) && Tracked(states[0]) && Spent(states[0], t) && k <= |moves|
    ensures Spent(states[k], t) && Past(states[k], t) <= Past(states[0], t)
  {
    if k == 0 {
    } else {
      SpentAlong(states, moves, t, k - 1);
      ReachableTracked(states, moves, k - 1);
      SpentStep(states[k - 1], moves[k - 1], t);
    }
  }

  /** The last statement of the path accepts t. */
  ghost predicate EndsAccepting(states: seq<System>, moves: seq<Move>, t: nat) {
    Path(states, moves) && moves != [] && Accepts(states[|moves| - 1], moves[|moves| - 1], t)
  }

  ghost predicate CanAccept(s: System, t: nat) {
    exists states, moves :: EndsAccepting(states, moves, t) && states[0] == s
  }

  /** After a first acceptance the token can be accepted again if and only if another request with it
      was past its lookups when the UPDATE of the first one happened. */
  lemma AcceptedAgainExactlyWhen(s: System, m: Move, t: nat)
    requires Tracked(s) && Enabled(s, m) && Accepts(s, m, t)
    ensures CanAccept(After(s, m), t) <==> exists r :: r in Past(s, t) && r != m.r
  {
    var s' := After(s, m);
    AcceptedIsSpent(s, m, t);
    MoveKeeps(s, m);
    if states: seq<System>, moves: seq<Move> :| EndsAccepting(states, moves, t) && states[0] == s' {
      SpentAlong(states, moves, t, |moves| - 1);
      assert moves[|moves| - 1].r in Past(s', t);
    }
    if r :| r in Past(s, t) && r != m.r {
      RotateLands(s', r);
      assert EndsAccepting([s', After(s', Rotate(r, 0))], [Rotate(r, 0)], t);
    }
  }

  /** Whoever is accepted with t after a first acceptance was past its lookups at that moment; so a
      request that begins later never is. */
  lemma LaterRequestsAreRefused(states: seq<System>, moves: seq<Move>, t: nat, i: nat, j: nat)
    requires Execution(states, moves) && i < j < |moves|
    requires Accepts(states[i], moves[i], t) && Accepts(states[j], moves[j], t)
    ensures moves[j].r != moves[i].r && moves[j].r in Past(states[i], t) && moves[j].r < states[i].nextFlight
  {
    InitTracked(states[0]);
    ReachableTracked(states, moves, i);
    MoveKeeps(states[i], moves[i]);
    AcceptedIsSpent(states[i], moves[i], t);
    SpentAlong(states[i + 1..], moves[i + 1..], t, j - i - 1);
    assert moves[j].r in Past(states[j], t);
  }

  /** The new token is on its device, and so of use, exactly when the device still exists. */
  lemma IssuedTokenIsKnown(s: System, m: Move, t: nat)
    requires Tracked(s) && Enabled(s, m) && Accepts(s, m, t)
    ensures (exists d :: d in After(s, m).rows && After(s, m).rows[d].current == Hash(s.nextToken))
            <==> s.flights[m.r].device in s.rows
  {
    var s', d := After(s, m), s.flights[m.r].device;
    if d in s.rows {
      assert s'.rows[d].current == Hash(s.nextToken);
    } else {
      forall e | e in s'.rows
        ensures s'.rows[e].current != Hash(s.nextToken)
      {
        assert RowOk(s, e);
      }
    }
  }

  // ---- deleted devices stay deleted ----

  ghost predicate GoneDevice(s: System, d: int) {
    d < s.nextId && d !in s.rows
  }

  lemma GoneDeviceStep(s: System, m: Move, d: int)
    requires Enabled(s, m) && GoneDevice(s, d)
    ensures GoneDevice(After(s, m), d)
  {
  }

  // ---- bans ----

  /** The device is banned and holds no hash, or is deleted. */
  ghost predicate Silenced(s: System, d: int) {
    d < s.nextId && (d in s.rows ==> s.rows[d].banned && s.rows[d].current == Null && s.rows[d].previous == Null)
  }

  ghost predicate BannedWithHash(s: System, d: int) {
    d in s.rows && s.rows[d].banned && s.rows[d].current != Null
  }

  /** Requests past their lookups that will UPDATE device d. */
  ghost function Updates(s: System, d: int): set<int> {
    set r | r in s.flights && (s.flights[r].Rotating? || s.flights[r].Replacing?) && s.flights[r].device == d
  }

  predicate Unbans(m: Move, d: int) {
    m.Single? && m.request.Unban? && m.request.id == d
  }

  /** No request finds a banned device without hashes; only one that had found it before changes it. */
  lemma SilencedStep(s: System, m: Move, d: int)
    requires Tracked(s) && Enabled(s, m) && Silenced(s, d) && !Unbans(m, d)
    ensures Updates(After(s, m), d) <= Updates(s, d)
    ensures Silenced(After(s, m), d) || ((m.Rotate? || m.Replace?) && m.r in Updates(s, d) && d in s.rows)
  {
  }

  lemma {:induction false} SilencedAlong(states: seq<System>, moves: seq<Move>, d: int, k: nat)
    requires Path(states, moves) && Tracked(states[0]) && k <= |moves| && Silenced(states[0], d)
    requires Updates(states[0], d) == {} || GoneDevice(states[0], d)
    requires forall i | 0 <= i < |moves| :: !Unbans(moves[i], d)
    ensures Silenced(states[k], d)
    ensures Updates(states[k], d) == {} || GoneDevice(states[k], d)
  {
    if k > 0 {
      SilencedAlong(states, moves, d, k - 1);
      ReachableTracked(states, moves, k - 1);
      SilencedStep(states[k - 1], moves[k - 1], d);
      if GoneDevice(states[k - 1], d) {
        GoneDeviceStep(states[k - 1], moves[k - 1], d);
      }
    }
  }

  /** The path ends with device d banned but holding a hash, without having unbanned it. */
  ghost predicate EndsHashed(states: seq<System>, moves: seq<Move>, d: int) {
    Path(states, moves) && BannedWithHash(states[|moves|], d) && forall i | 0 <= i < |moves| :: !Unbans(moves[i], d)
  }

  ghost predicate CanBeHashed(s: System, d: int) {
    exists states, moves :: EndsHashed(states, moves, d) && states[0] == s
  }

  /** A ban is undermined by an UPDATE if and only if some request had found the device before. */
  lemma BanHoldsExactlyWhen(s: System, d: int)
    requires Tracked(s) && d in s.rows && Silenced(s, d)
    ensures !CanBeHashed(s, d) <==> Updates(s, d) == {}
  {
    if Updates(s, d) == {} {
      forall states: seq<System>, moves: seq<Move> | Path(states, moves) && states[0] == s
        && (forall i | 0 <= i < |moves| :: !Unbans(moves[i], d))
        ensures !BannedWithHash(states[|moves|], d)
      {
        SilencedAlong(states, moves, d, |moves|);
      }
    } else {
      Sets.Inhabited(Updates(s, d));
      var r :| r in Updates(s, d);
      LandsOnBanned(s, d, r);
    }
  }

  lemma LandsOnBanned(s: System, d: int, r: int)
    requires Tracked(s) && d in s.rows && Silenced(s, d) && r in Updates(s, d)
    ensures CanBeHashed(s, d)
  {
    if s.flights[r].Rotating? {
      RotateLands(s, r);
      assert EndsHashed([s, After(s, Rotate(r, 0))], [Rotate(r, 0)], d);
    } else {
      LoginLandsOnBanned(s, d, r);
    }
  }

  lemma LoginLandsOnBanned(s: System, d: int, r: int)
    requires Tracked(s) && d in s.rows && Silenced(s, d) && r in Updates(s, d) && s.flights[r].Replacing?
    ensures CanBeHashed(s, d)
  {
    var others := set e | e in s.rows && s.rows[e].previous == Blank;
    var clear := Single(DeleteByID(others), s.rows - others);
    var s1 := s.(rows := s.rows - others);
    assert Enabled(s, clear) && After(s, clear) == s1;
    FewerRowsKeep(s, s1.rows, s.flights, s.nextFlight);
    ReplaceLands(s1, r);
    ClearedThenReplaced(s, clear, s1, r, d);
  }

  lemma ClearedThenReplaced(s: System, clear: Move, s1: System, r: int, d: int)
    requires Enabled(s, clear) && s1 == After(s, clear) && !Unbans(clear, d)
    requires d in s1.rows && s1.rows[d].banned && r in s1.flights && s1.flights[r] == Replacing(d)
    requires Lands(s1, d, Blank)
    ensures CanBeHashed(s, d)
  {
    var s2 := After(s1, Replace(r, 0));
    assert d in s2.rows && s2.rows[d].banned && s2.rows[d].current == Hash(s1.nextToken);
    assert EndsHashed([s, s1, s2], [clear, Replace(r, 0)], d);
  }

  /** Once no device holds the empty string, a login's UPDATE lands. */
  lemma ReplaceLands(s: System, r: int)
    requires Tracked(s) && r in s.flights && s.flights[r].Replacing?
             && forall e | e in s.rows :: s.rows[e].previous != Blank
    ensures Lands(s, s.flights[r].device, Blank)
  {
    forall e | e in s.rows
      ensures !Clashes(s.rows[e].current, Hash(s.nextToken))
    {
      assert RowOk(s, e);
    }
  }

  // ---- dead tokens ----

  /** No device knows t. */
  ghost predicate DeadIn(s: System, t: nat) {
    t < s.nextToken && forall d | d in s.rows :: s.rows[d].current != Hash(t) && s.rows[d].previous != Hash(t)
  }

  /** Requests with t past their lookups, on a device that still exists. */
  ghost function Reviving(s: System, t: nat): set<int> {
    set r | r in Past(s, t) && s.flights[r].device in s.rows
  }

  lemma DeadStep(s: System, m: Move, t: nat)
    requires Tracked(s) && Enabled(s, m) && DeadIn(s, t) && Reviving(s, t) == {}
    ensures DeadIn(After(s, m), t) && Reviving(After(s, m), t) == {}
  {
    SpentStep(s, m, t);
    var s' := After(s, m);
    forall r | r in Past(s', t)
      ensures s'.flights[r].device !in s'.rows
    {
      assert FlightOk(s, s.flights[r]);
      assert r !in Reviving(s, t);
      GoneDeviceStep(s, m, s.flights[r].device);
    }
    assert m.Rotate? && s.flights[m.r].token == t ==> m.r in Past(s, t) && m.r !in Reviving(s, t);
  }

  lemma {:induction false} DeadAlong(states: seq<System>, moves: seq<Move>, t: nat, k: nat)
    requires Path(states, moves) && Tracked(states[0]) && k <= |moves| && DeadIn(states[0], t)
    requires Reviving(states[0], t) == {}
    ensures DeadIn(states[k], t) && Reviving(states[k], t) == {}
  {
    if k > 0 {
      DeadAlong(states, moves, t, k - 1);
      ReachableTracked(states, moves, k - 1);
      DeadStep(states[k - 1], moves[k - 1], t);
    }
  }

  ghost predicate EndsKnown(states: seq<System>, moves: seq<Move>, t: nat) {
    Path(states, moves) && !DeadIn(states[|moves|], t)
  }

  ghost predicate CanRevive(s: System, t: nat) {
    exists states, moves :: EndsKnown(states, moves, t) && states[0] == s
  }

  /** A dead token stays dead if and only if no request with it is past its lookups on a device that
      still exists. */
  lemma DeadStaysDeadExactlyWhen(s: System, t: nat)
    requires Tracked(s) && DeadIn(s, t)
    ensures !CanRevive(s, t) <==> Reviving(s, t) == {}
  {
    if Reviving(s, t) == {} {
      forall states: seq<System>, moves: seq<Move> | Path(states, moves) && states[0] == s
        ensures DeadIn(states[|moves|], t)
      {
        DeadAlong(states, moves, t, |moves|);
      }
    } else {
      Sets.Inhabited(Reviving(s, t));
      var r :| r in Reviving(s, t);
      RotateLands(s, r);
      var s' := After(s, Rotate(r, 0));
      assert s'.rows[s.flights[r].device].previous == Hash(t);
      assert EndsKnown([s, s'], [Rotate(r, 0)], t);
    }
  }

  // ---- requests that do not overlap ----

  /** A refresh request run to its end before any other statement: what the lookups found, and
      whether the user may connect. */
  datatype Alone = Alone(previous: Option<int>, current: Option<int>, permitted: bool, now: int)

  ghost predicate RefreshesAlone(s: System, r: int, a: Alone, s': System, out: TokenRotation.Outcome) {
    && Enabled(s, LookupPrevious(r, a.previous))
    && var s1 := After(s, LookupPrevious(r, a.previous));
       if a.previous.Some? then s' == After(s1, Revoke(r)) && out == AllRevoked
       else ContinuesAlone(s1, r, a, s', out)
  }

  /** From the second lookup on. */
  ghost predicate ContinuesAlone(s: System, r: int, a: Alone, s': System, out: TokenRotation.Outcome) {
    && Enabled(s, LookupCurrent(r, a.current, a.now))
    && var s1 := After(s, LookupCurrent(r, a.current, a.now));
       if r !in s1.flights then s' == s1
          && out == (if a.current == None then Rejected else TokenRotation.Outcome.Expired)
       else if s1.flights[r].Revoking? then s' == After(s1, Revoke(r)) && out == AllRevoked
       else if !a.permitted then s' == After(s1, Abandon(r)) && out == Rejected
       else RotatesAlone(s1, r, a.now, s', out)
  }

  ghost predicate RotatesAlone(s: System, r: int, now: int, s': System, out: TokenRotation.Outcome) {
    && r in s.flights && s.flights[r].Rotating?
    && s' == After(s, Rotate(r, now))
    && out == if Accepts(s, Rotate(r, now), s.flights[r].token) then Issued(s.flights[r].device, s.nextToken)
       else Failed
  }

  lemma ContinuesAloneIsStep(s: System, r: int, a: Alone, s': System, out: TokenRotation.Outcome)
    requires ContinuesAlone(s, r, a, s', out) && HasPrevious(s.rows, s.flights[r].token, None)
    ensures RefreshStep(Core(s), s.flights[r].token, s.flights[r].uuid, a.permitted, a.now, Core(s'), out)
    ensures s'.flights == s.flights - {r}
  {
    if a.current.Some? {
      FoundAloneIsStep(s, r, a, s', out);
    }
  }

  lemma FoundAloneIsStep(s: System, r: int, a: Alone, s': System, out: TokenRotation.Outcome)
    requires ContinuesAlone(s, r, a, s', out) && a.current.Some?
    ensures RefreshCurrent(Core(s), a.current.value, s.flights[r].token, s.flights[r].uuid, a.permitted, a.now,
                           Core(s'), out)
    ensures s'.flights == s.flights - {r}
  {
  }

  /** Without overlap a refresh is one step of the devices table, so what is proved about runs of
      whole requests holds of it. */
  lemma RefreshAloneIsStep(s: System, r: int, a: Alone, s': System, out: TokenRotation.Outcome)
    requires RefreshesAlone(s, r, a, s', out)
    ensures Step(Core(s), Refresh(s.flights[r].token, s.flights[r].uuid, a.permitted, a.now), Core(s'), out)
    ensures s'.flights == s.flights - {r}
  {
    if a.previous == None {
      ContinuesAloneIsStep(After(s, LookupPrevious(r, a.previous)), r, a, s', out);
    }
  }

  ghost predicate LogsInAlone(s: System, r: int, found: Option<int>, victim: Option<int>, now: int, s': System,
                              out: TokenRotation.Outcome)
  {
    && Enabled(s, LookupDevice(r, found))
    && var s1 := After(s, LookupDevice(r, found));
       if r !in s1.flights then s' == s1 && out == DeviceBanned
       else if s1.flights[r].Replacing? then
         && s' == After(s1, Replace(r, now))
         && out == if Lands(s1, s1.flights[r].device, Blank) then Issued(s1.flights[r].device, s1.nextToken) else Failed
       else InsertsAlone(s1, r, victim, now, s', out)
  }

  ghost predicate InsertsAlone(s: System, r: int, victim: Option<int>, now: int, s': System,
                               out: TokenRotation.Outcome) {
    && Enabled(s, CountActive(r))
    && var s1 := After(s, CountActive(r));
       if s1.flights[r].Evicting? then
         Enabled(s1, Evict(r, victim)) && EndsInserting(After(s1, Evict(r, victim)), r, now, s', out)
       else EndsInserting(s1, r, now, s', out)
  }

  ghost predicate EndsInserting(s: System, r: int, now: int, s': System, out: TokenRotation.Outcome) {
    && Enabled(s, Insert(r, now)) && s' == After(s, Insert(r, now))
    && out == if InsertAllowed(s.rows, s.flights[r].user, s.flights[r].uuid, Hash(s.nextToken))
              then Issued(s.nextId, s.nextToken) else Failed
  }

  /** Likewise a login. */
  lemma LoginAloneIsStep(s: System, r: int, found: Option<int>, victim: Option<int>, now: int, s': System,
                         out: TokenRotation.Outcome)
    requires LogsInAlone(s, r, found, victim, now, s', out)
    ensures Step(Core(s), Login(s.flights[r].user, s.flights[r].uuid, true, now), Core(s'), out)
    ensures s'.flights == s.flights - {r}
  {
    if found == None {
      InsertsAloneIsStep(After(s, LookupDevice(r, found)), r, victim, now, s', out);
    }
  }

  lemma InsertsAloneIsStep(s: System, r: int, victim: Option<int>, now: int, s': System, out: TokenRotation.Outcome)
    requires InsertsAlone(s, r, victim, now, s', out)
    ensures LoginNew(Core(s), s.flights[r].user, s.flights[r].uuid, now, Core(s'), out)
    ensures s'.flights == s.flights - {r}
  {
    var f := s.flights[r];
    var kept := if After(s, CountActive(r)).flights[r].Evicting? && victim.Some? then s.rows - {victim.value}
      else s.rows;
    assert MakesRoom(s.rows, f.user, kept) && Inserts(Core(s), kept, f.user, f.uuid, now, Core(s'), out);
  }
}
