/** Devices, their refresh tokens, and what login, refresh, ban and deletion do to them.  A token
    stands for its own hash; tokens are numbered in the order in which they are generated. */
module TokenRotation {
  import opened Options
  import Sets

  const REFRESH_TOKEN_TTL: int := 90 * 24 * 3600
  const DEVICES_MAX_PER_USER: nat := 15

  /** A text column holding a hash: NULL, the empty string, or the hash of a token. */
  datatype HashColumn = Null | Blank | Hash(token: nat)

  datatype Device = Device(user: int, uuid: string, current: HashColumn, previous: HashColumn,
                           expiresAt: Option<int>, banned: bool, lastSeen: int)

  type Devices = map<int, Device>

  /** The UNIQUE constraints: NULLs never clash, anything else does. */
  predicate Clashes(a: HashColumn, b: HashColumn) {
    a != Null && a == b
  }

  predicate UpdateAllowed(rows: Devices, id: int, current: HashColumn, previous: HashColumn) {
    forall d | d in rows && d != id :: !Clashes(rows[d].current, current) && !Clashes(rows[d].previous, previous)
  }

  /** A new row: the previous hash is NULL, the id comes from a sequence. */
  predicate InsertAllowed(rows: Devices, user: int, uuid: string, current: HashColumn) {
    forall d | d in rows :: !IsDevice(rows, d, user, uuid) && !Clashes(rows[d].current, current)
  }

  function Active(rows: Devices, user: int): set<int> {
    set d | d in rows && rows[d].user == user && !rows[d].banned
  }

  ghost predicate IsLRU(rows: Devices, user: int, victim: int) {
    victim in Active(rows, user) && forall d | d in Active(rows, user) :: rows[victim].lastSeen <= rows[d].lastSeen
  }

  function WithoutUser(rows: Devices, user: int): Devices {
    map d | d in rows && rows[d].user != user :: rows[d]
  }

  // ---- requests and what they do ----

  datatype State = State(rows: Devices, nextId: int, nextToken: nat)

  datatype Request =
    | Login(user: int, uuid: string, admitted: bool, now: int)
    | Refresh(token: nat, uuid: string, permitted: bool, now: int)
    | Ban(id: int, owner: int) | Unban(id: int, owner: int)
    | Delete(id: int, owner: int) | DeleteForUser(owner: int) | DeleteByID(ids: set<int>)

  datatype Outcome = Issued(device: int, token: nat) | Rejected | DeviceBanned | Failed | AllRevoked | Expired
    | Finished

  predicate IsDevice(rows: Devices, id: int, user: int, uuid: string) {
    id in rows && rows[id].user == user && rows[id].uuid == uuid
  }

  predicate Known(rows: Devices, user: int, uuid: string) {
    exists d :: d in rows && IsDevice(rows, d, user, uuid)
  }

  function Session(d: Device, token: nat, previous: HashColumn, now: int): Device {
    d.(current := Hash(token), previous := previous, expiresAt := Some(now + REFRESH_TOKEN_TTL), lastSeen := now)
  }

  ghost predicate MakesRoom(rows: Devices, user: int, kept: Devices) {
    if |Active(rows, user)| >= DEVICES_MAX_PER_USER
    then exists victim :: IsLRU(rows, user, victim) && kept == rows - {victim}
    else kept == rows
  }

  function NewDevice(user: int, uuid: string, token: nat, now: int): Device {
    Device(user, uuid, Hash(token), Null, Some(now + REFRESH_TOKEN_TTL), false, now)
  }

  /** The INSERT of a new device into kept. */
  predicate Inserts(s: State, kept: Devices, user: int, uuid: string, now: int, s': State, out: Outcome) {
    if InsertAllowed(kept, user, uuid, Hash(s.nextToken))
    then out == Issued(s.nextId, s.nextToken)
         && s' == State(kept[s.nextId := NewDevice(user, uuid, s.nextToken, now)], s.nextId + 1, s.nextToken + 1)
    else out == Failed && s' == State(kept, s.nextId, s.nextToken + 1)
  }

  /** A new device: when the user has too many, the least recently seen active one makes room. */
  ghost predicate LoginNew(s: State, user: int, uuid: string, now: int, s': State, out: Outcome) {
    exists kept :: MakesRoom(s.rows, user, kept) && Inserts(s, kept, user, uuid, now, s', out)
  }

  /** A known device: its session is replaced, with the empty string as previous hash. */
  ghost predicate LoginKnown(s: State, id: int, now: int, s': State, out: Outcome)
    requires id in s.rows
  {
    if s.rows[id].banned then s' == s && out == DeviceBanned
    else if UpdateAllowed(s.rows, id, Hash(s.nextToken), Blank)
    then s' == State(s.rows[id := Session(s.rows[id], s.nextToken, Blank, now)], s.nextId, s.nextToken + 1)
         && out == Issued(id, s.nextToken)
    else s' == s.(nextToken := s.nextToken + 1) && out == Failed
  }

  ghost predicate LoginStep(s: State, user: int, uuid: string, admitted: bool, now: int, s': State, out: Outcome) {
    if !admitted then s' == s && out == Rejected
    else if Known(s.rows, user, uuid)
         then exists id :: IsDevice(s.rows, id, user, uuid) && LoginKnown(s, id, now, s', out)
    else LoginNew(s, user, uuid, now, s', out)
  }

  ghost predicate RefreshCurrent(s: State, id: int, token: nat, uuid: string, permitted: bool, now: int, s': State,
                                 out: Outcome)
    requires id in s.rows
  {
    var d := s.rows[id];
    if d.uuid != uuid then s' == s.(rows := WithoutUser(s.rows, d.user)) && out == AllRevoked
    else if d.expiresAt.Some? && d.expiresAt.value < now then s' == s && out == Expired
    else if !permitted then s' == s && out == Rejected
    else if UpdateAllowed(s.rows, id, Hash(s.nextToken), Hash(token))
    then s' == State(s.rows[id := Session(d, s.nextToken, Hash(token), now)], s.nextId, s.nextToken + 1)
         && out == Issued(id, s.nextToken)
    else s' == s.(nextToken := s.nextToken + 1) && out == Failed
  }

  ghost predicate RefreshStep(s: State, token: nat, uuid: string, permitted: bool, now: int, s': State, out: Outcome) {
    if exists d :: d in s.rows && s.rows[d].previous == Hash(token) then
      exists d :: d in s.rows && s.rows[d].previous == Hash(token)
                  && s' == s.(rows := WithoutUser(s.rows, s.rows[d].user)) && out == AllRevoked
    else if exists d :: d in s.rows && s.rows[d].current == Hash(token) then
      exists d :: d in s.rows && s.rows[d].current == Hash(token)
        && RefreshCurrent(s, d, token, uuid, permitted, now, s', out)
    else s' == s && out == Rejected
  }

  predicate Owns(rows: Devices, id: int, owner: int) {
    id in rows && rows[id].user == owner
  }

  function Barred(d: Device): Device {
    d.(banned := true, current := Null, previous := Null, expiresAt := None)
  }

  ghost predicate Step(s: State, r: Request, s': State, out: Outcome) {
    match r
    case Login(user, uuid, admitted, now) => LoginStep(s, user, uuid, admitted, now, s', out)
    case Refresh(token, uuid, permitted, now) => RefreshStep(s, token, uuid, permitted, now, s', out)
    case Ban(id, owner) =>
      && out == Finished
      && s' == if Owns(s.rows, id, owner) then s.(rows := s.rows[id := Barred(s.rows[id])]) else s
    case Unban(id, owner) =>
      && out == Finished
      && s' == if Owns(s.rows, id, owner) then s.(rows := s.rows[id := s.rows[id].(banned := false)]) else s
    case Delete(id, owner) =>
      out == Finished && s' == if Owns(s.rows, id, owner) then s.(rows := s.rows - {id}) else s
    case DeleteForUser(owner) => out == Finished && s' == s.(rows := WithoutUser(s.rows, owner))
    case DeleteByID(ids) => out == Finished && s' == s.(rows := s.rows - ids)
  }

  // ---- the service ----

  class AuthService {
    var rows: Devices
    var nextId: int
    var nextToken: nat

    ghost function Now(): State
      reads this
    {
      State(rows, nextId, nextToken)
    }

    constructor ()
      ensures Now() == State(map[], 1, 0)
    {
      rows, nextId, nextToken := map[], 1, 0;
    }

    method GenerateRefreshToken() returns (token: nat)
      modifies this`nextToken
      ensures token == old(nextToken) && nextToken == token + 1
    {
      token := nextToken;
      nextToken := nextToken + 1;
    }

    /** Fails, changing nothing, when a UNIQUE constraint would be violated; an UPDATE of no row
        succeeds. */
    method DeviceUpdateSession(id: int, token: nat, previous: HashColumn, now: int) returns (ok: bool)
      modifies this`rows
      ensures ok <==> (id in old(rows) ==> UpdateAllowed(old(rows), id, Hash(token), previous))
      ensures rows == if ok && id in old(rows) then old(rows)[id := Session(old(rows)[id], token, previous, now)]
              else old(rows)
      ensures ok <==> (id in old(rows) ==> forall d | d in old(rows) && d != id ::
                         old(rows)[d].current != Hash(token)
                           && (previous != Null ==> old(rows)[d].previous != previous))
      ensures ok && id in old(rows) ==>
                rows == old(rows)[id := old(rows)[id].(current := Hash(token), previous := previous,
                                                       expiresAt := Some(now + 7_776_000), lastSeen := now)]
    {
      ok := id !in rows || UpdateAllowed(rows, id, Hash(token), previous);
      if ok && id in rows {
        rows := rows[id := Session(rows[id], token, previous, now)];
      }
    }

    /** Fails, changing nothing, when a UNIQUE constraint would be violated. */
    method DeviceCreate(user: int, uuid: string, token: nat, now: int) returns (id: int, ok: bool)
      modifies this`rows, this`nextId
      ensures ok <==> InsertAllowed(old(rows), user, uuid, Hash(token))
      ensures !ok ==> rows == old(rows) && nextId == old(nextId)
      ensures ok ==> id == old(nextId) && nextId == id + 1 && rows == old(rows)[id := NewDevice(user, uuid, token, now)]
      ensures ok <==> forall d | d in old(rows) ::
                        !(old(rows)[d].user == user && old(rows)[d].uuid == uuid) && old(rows)[d].current != Hash(token)
      ensures ok ==> rows == old(rows)[id := Device(user, uuid, Hash(token), Null, Some(now + 7_776_000), false, now)]
    {
      id, ok := nextId, InsertAllowed(rows, user, uuid, Hash(token));
      if ok {
        rows := rows[id := NewDevice(user, uuid, token, now)];
        nextId := nextId + 1;
      }
    }

    method DeviceEvictLRU(user: int)
      modifies this`rows
      ensures Active(old(rows), user) == {} ==> rows == old(rows)
      ensures Active(old(rows), user) != {}
              ==> exists victim :: IsLRU(old(rows), user, victim) && rows == old(rows) - {victim}
      ensures forall d | d in rows :: d in old(rows) && rows[d] == old(rows)[d]
      ensures forall v | v in old(rows) && v !in rows ::
                && old(rows)[v].user == user && !old(rows)[v].banned
                && forall d | d in old(rows) && old(rows)[d].user == user && !old(rows)[d].banned ::
                     old(rows)[v].lastSeen <= old(rows)[d].lastSeen
      ensures forall v, w | v in old(rows) && v !in rows && w in old(rows) && w !in rows :: v == w
      ensures (exists d :: d in old(rows) && old(rows)[d].user == user && !old(rows)[d].banned) ==> rows != old(rows)
    {
      if Active(rows, user) != {} {
        LRUExists(rows, Active(rows, user));
        var victim :| victim in Active(rows, user)
          && forall d | d in Active(rows, user) :: rows[victim].lastSeen <= rows[d].lastSeen;
        rows := rows - {victim};
        assert victim in old(rows) && victim !in rows;
      } else {
        forall d | d in rows
          ensures rows[d].user != user || rows[d].banned
        {
          assert d !in Active(rows, user);
        }
      }
    }

    method HandleLogin(user: int, uuid: string, admitted: bool, now: int) returns (out: Outcome)
      modifies this
      ensures Step(old(Now()), Login(user, uuid, admitted, now), Now(), out)
      ensures !admitted ==> out == Rejected && Now() == old(Now())
      ensures out.Issued? ==>
                && out.token == old(nextToken) && out.device in rows
                && rows[out.device] == Device(user, uuid, Hash(out.token),
                                              if Known(old(rows), user, uuid) then Blank else Null,
                                              Some(now + 7_776_000), false, now)
                && (out.device == old(nextId) || Known(old(rows), user, uuid))
      ensures forall d | d in rows && !(out.Issued? && d == out.device) :: d in old(rows) && rows[d] == old(rows)[d]
      ensures forall d | d in old(rows) && d !in rows :: old(rows)[d].user == user && !old(rows)[d].banned
    {
      if !admitted {
        return Rejected;
      }
      if id :| id in rows && IsDevice(rows, id, user, uuid) {
        if rows[id].banned {
          return DeviceBanned;
        }
        var token := GenerateRefreshToken();
        var ok := DeviceUpdateSession(id, token, Blank, now);
        return if ok then Issued(id, token) else Failed;
      }
      var token := GenerateRefreshToken();
      if |Active(rows, user)| >= DEVICES_MAX_PER_USER {
        assert Active(rows, user) != {};
        DeviceEvictLRU(user);
      }
      ghost var kept := rows;
      assert MakesRoom(old(rows), user, kept);
      var id, ok := DeviceCreate(user, uuid, token, now);
      out := if ok then Issued(id, token) else Failed;
      assert Inserts(old(Now()), kept, user, uuid, now, Now(), out);
    }

    method HandleRefresh(token: nat, uuid: string, permitted: bool, now: int) returns (out: Outcome)
      modifies this
      ensures Step(old(Now()), Refresh(token, uuid, permitted, now), Now(), out)
      ensures out == AllRevoked ==>
                exists v :: v in old(rows)
                            && (|| old(rows)[v].previous == Hash(token)
                                || (old(rows)[v].current == Hash(token) && old(rows)[v].uuid != uuid))
                            && (forall d :: d in rows <==> d in old(rows) && old(rows)[d].user != old(rows)[v].user)
                            && forall d | d in rows :: rows[d] == old(rows)[d]
      ensures out.Issued? ==>
                && out.device in old(rows) && old(rows)[out.device].current == Hash(token)
                && old(rows)[out.device].uuid == uuid && out.token == old(nextToken)
                && rows == old(rows)[out.device := old(rows)[out.device].(current := Hash(out.token),
                                                                          previous := Hash(token),
                                                                          expiresAt := Some(now + 7_776_000),
                                                                          lastSeen := now)]
      ensures out != AllRevoked && !out.Issued? ==> rows == old(rows)
    {
      // an already rotated token: the user's devices are all deleted
      if stolen :| stolen in rows && rows[stolen].previous == Hash(token) {
        rows := WithoutUser(rows, rows[stolen].user);
        return AllRevoked;
      }
      if id :| id in rows && rows[id].current == Hash(token) {
        if rows[id].uuid != uuid {
          rows := WithoutUser(rows, rows[id].user);
          return AllRevoked;
        }
        if rows[id].expiresAt.Some? && now > rows[id].expiresAt.value {
          return Expired;
        }
        if !permitted {
          return Rejected;
        }
        var newToken := GenerateRefreshToken();
        var ok := DeviceUpdateSession(id, newToken, Hash(token), now);
        return if ok then Issued(id, newToken) else Failed;
      }
      return Rejected;
    }

    method HandleBan(id: int, owner: int) returns (out: Outcome)
      modifies this`rows
      ensures Step(old(Now()), Ban(id, owner), Now(), out)
      ensures rows.Keys == old(rows).Keys
      ensures forall d | d in rows :: rows[d] == if d == id && old(rows)[d].user == owner
                        then old(rows)[d].(banned := true, current := Null, previous := Null, expiresAt := None)
                        else old(rows)[d]
    {
      if Owns(rows, id, owner) {
        rows := rows[id := rows[id].(banned := true, current := Null, previous := Null, expiresAt := None)];
      }
      return Finished;
    }

    method HandleUnban(id: int, owner: int) returns (out: Outcome)
      modifies this`rows
      ensures Step(old(Now()), Unban(id, owner), Now(), out)
      ensures rows.Keys == old(rows).Keys
      ensures forall d | d in rows :: rows[d] == if d == id && old(rows)[d].user == owner
                        then old(rows)[d].(banned := false) else old(rows)[d]
    {
      if Owns(rows, id, owner) {
        rows := rows[id := rows[id].(banned := false)];
      }
      return Finished;
    }

    method HandleDelete(id: int, owner: int) returns (out: Outcome)
      modifies this`rows
      ensures Step(old(Now()), Delete(id, owner), Now(), out)
      ensures forall d :: d in rows <==> d in old(rows) && !(d == id && old(rows)[d].user == owner)
      ensures forall d | d in rows :: rows[d] == old(rows)[d]
    {
      if Owns(rows, id, owner) {
        rows := rows - {id};
      }
      return Finished;
    }

    method HandleDeleteForUser(owner: int) returns (out: Outcome)
      modifies this`rows
      ensures Step(old(Now()), DeleteForUser(owner), Now(), out)
      ensures forall d :: d in rows <==> d in old(rows) && old(rows)[d].user != owner
      ensures forall d | d in rows :: rows[d] == old(rows)[d]
    {
      rows := WithoutUser(rows, owner);
      return Finished;
    }

    method HandleDeleteByID(ids: set<int>) returns (out: Outcome)
      modifies this`rows
      ensures Step(old(Now()), DeleteByID(ids), Now(), out)
      ensures forall d :: d in rows <==> d in old(rows) && d !in ids
      ensures forall d | d in rows :: rows[d] == old(rows)[d]
    {
      rows := rows - ids;
      return Finished;
    }
  }

  lemma {:induction false} LRUExists(rows: Devices, ids: set<int>)
    requires ids != {} && ids <= rows.Keys
    ensures exists v :: v in ids && forall d | d in ids :: rows[v].lastSeen <= rows[d].lastSeen
  {
    Sets.Inhabited(ids);
    var a :| a in ids;
    if ids == {a} {
      assert forall d | d in ids :: d == a;
    } else {
      LRUExists(rows, ids - {a});
      var b :| b in ids - {a} && forall d | d in ids - {a} :: rows[b].lastSeen <= rows[d].lastSeen;
      var v := if rows[a].lastSeen <= rows[b].lastSeen then a else b;
      assert forall d | d in ids :: d == a || d in ids - {a};
      assert v in ids;
    }
  }

  // ---- what every request keeps ----

  ghost predicate Inv(s: State) {
    && (forall d | d in s.rows :: d < s.nextId && s.rows[d].current != Blank)
    && (forall d | d in s.rows && s.rows[d].current.Hash? :: s.rows[d].current.token < s.nextToken)
    && (forall d | d in s.rows && s.rows[d].previous.Hash? :: s.rows[d].previous.token < s.nextToken)
    && (forall d, e | d in s.rows && e in s.rows && d != e ::
          !Clashes(s.rows[d].current, s.rows[e].current) && !Clashes(s.rows[d].previous, s.rows[e].previous)
          && (s.rows[d].user == s.rows[e].user ==> s.rows[d].uuid != s.rows[e].uuid))
    && (forall d, e | d in s.rows && e in s.rows :: !Clashes(s.rows[d].current, s.rows[e].previous))
    && (forall d | d in s.rows && s.rows[d].banned :: s.rows[d].current == Null && s.rows[d].previous == Null)
  }

  lemma SubsetKeeps(s: State, kept: Devices)
    requires Inv(s) && forall d | d in kept :: d in s.rows && kept[d] == s.rows[d]
    ensures Inv(s.(rows := kept))
  {
  }

  /** A device gets a new token and keeps either the one it had or the empty string as previous. */
  lemma RotateKeeps(s: State, id: int, previous: HashColumn, now: int)
    requires Inv(s) && id in s.rows && !s.rows[id].banned
    requires previous == Blank || previous == s.rows[id].current
    requires UpdateAllowed(s.rows, id, Hash(s.nextToken), previous)
    ensures Inv(State(s.rows[id := Session(s.rows[id], s.nextToken, previous, now)], s.nextId, s.nextToken + 1))
  {
    var row := Session(s.rows[id], s.nextToken, previous, now);
    RowKeeps(s, State(s.rows[id := row], s.nextId, s.nextToken + 1), id, row);
  }

  /** Two rows that no UNIQUE constraint keeps apart, and whose hashes are of different tokens. */
  predicate Apart(a: Device, b: Device) {
    && !Clashes(a.current, b.current) && !Clashes(a.previous, b.previous)
    && !Clashes(a.current, b.previous) && !Clashes(b.current, a.previous)
    && (a.user == b.user ==> a.uuid != b.uuid)
  }

  /** One row is put in that is apart from all others. */
  lemma RowKeeps(s: State, s': State, id: int, row: Device)
    requires Inv(s) && s'.rows == s.rows[id := row] && s.nextToken <= s'.nextToken && s.nextId <= s'.nextId
    requires id < s'.nextId
    requires row.current != Blank && (row.current.Hash? ==> row.current.token < s'.nextToken)
    requires (row.previous.Hash? ==> row.previous.token < s'.nextToken) && !Clashes(row.current, row.previous)
    requires row.banned ==> row.current == Null && row.previous == Null
    requires forall d | d in s.rows && d != id :: Apart(s.rows[d], row)
    ensures Inv(s')
  {
    forall d, e | d in s'.rows && e in s'.rows && d != e
      ensures Apart(s'.rows[d], s'.rows[e])
    {
      if d != id && e != id {
        assert Apart(s.rows[d], s.rows[e]);
      }
    }
  }

  lemma InsertKeeps(s: State, user: int, uuid: string, now: int)
    requires Inv(s) && forall d | d in s.rows :: s.rows[d].user == user ==> s.rows[d].uuid != uuid
    ensures Inv(State(s.rows[s.nextId := NewDevice(user, uuid, s.nextToken, now)], s.nextId + 1, s.nextToken + 1))
  {
    var row := NewDevice(user, uuid, s.nextToken, now);
    RowKeeps(s, State(s.rows[s.nextId := row], s.nextId + 1, s.nextToken + 1), s.nextId, row);
  }

  lemma InsertsKeeps(s: State, user: int, uuid: string, kept: Devices, now: int, s': State, out: Outcome)
    requires Inv(s) && MakesRoom(s.rows, user, kept) && Inserts(s, kept, user, uuid, now, s', out)
    ensures Inv(s')
  {
    SubsetKeeps(s, kept);
    if out.Issued? {
      forall d | d in kept
        ensures kept[d].user == user ==> kept[d].uuid != uuid
      {
        assert !IsDevice(kept, d, user, uuid);
      }
      InsertKeeps(s.(rows := kept), user, uuid, now);
    }
  }

  lemma LoginKnownKeeps(s: State, id: int, now: int, s': State, out: Outcome)
    requires Inv(s) && id in s.rows && LoginKnown(s, id, now, s', out)
    ensures Inv(s')
  {
    if out.Issued? {
      RotateKeeps(s, id, Blank, now);
    }
  }

  lemma LoginNewKeeps(s: State, user: int, uuid: string, now: int, s': State, out: Outcome)
    requires Inv(s) && LoginNew(s, user, uuid, now, s', out)
    ensures Inv(s')
  {
    var kept :| MakesRoom(s.rows, user, kept) && Inserts(s, kept, user, uuid, now, s', out);
    InsertsKeeps(s, user, uuid, kept, now, s', out);
  }

  lemma LoginKeeps(s: State, user: int, uuid: string, admitted: bool, now: int, s': State, out: Outcome)
    requires Inv(s) && LoginStep(s, user, uuid, admitted, now, s', out)
    ensures Inv(s')
  {
    if admitted && Known(s.rows, user, uuid) {
      var id :| IsDevice(s.rows, id, user, uuid) && LoginKnown(s, id, now, s', out);
      LoginKnownKeeps(s, id, now, s', out);
    } else if admitted {
      LoginNewKeeps(s, user, uuid, now, s', out);
    }
  }

  lemma RefreshCurrentKeeps(s: State, d: int, token: nat, uuid: string, permitted: bool, now: int, s': State,
                            out: Outcome)
    requires Inv(s) && d in s.rows && s.rows[d].current == Hash(token)
    requires RefreshCurrent(s, d, token, uuid, permitted, now, s', out)
    ensures Inv(s')
  {
    if out.AllRevoked? {
      SubsetKeeps(s, s'.rows);
    } else if out.Issued? {
      RotateKeeps(s, d, Hash(token), now);
    }
  }

  lemma RefreshKeeps(s: State, token: nat, uuid: string, permitted: bool, now: int, s': State, out: Outcome)
    requires Inv(s) && RefreshStep(s, token, uuid, permitted, now, s', out)
    ensures Inv(s')
  {
    if exists d :: d in s.rows && s.rows[d].previous == Hash(token) {
      SubsetKeeps(s, s'.rows);
    } else if exists d :: d in s.rows && s.rows[d].current == Hash(token) {
      var d :| d in s.rows && s.rows[d].current == Hash(token)
        && RefreshCurrent(s, d, token, uuid, permitted, now, s', out);
      RefreshCurrentKeeps(s, d, token, uuid, permitted, now, s', out);
    }
  }

  lemma BanKeeps(s: State, id: int, owner: int)
    requires Inv(s) && Owns(s.rows, id, owner)
    ensures Inv(s.(rows := s.rows[id := Barred(s.rows[id])]))
  {
    RowKeeps(s, s.(rows := s.rows[id := Barred(s.rows[id])]), id, Barred(s.rows[id]));
  }

  lemma UnbanKeeps(s: State, id: int, owner: int)
    requires Inv(s) && Owns(s.rows, id, owner)
    ensures Inv(s.(rows := s.rows[id := s.rows[id].(banned := false)]))
  {
  }

  /** Bans, unbans and deletions. */
  lemma SingleKeeps(s: State, r: Request, s': State, out: Outcome)
    requires Inv(s) && !r.Login? && !r.Refresh? && Step(s, r, s', out)
    ensures Inv(s')
  {
    if s' == s {
    } else if r.Ban? {
      BanKeeps(s, r.id, r.owner);
    } else if r.Unban? {
      UnbanKeeps(s, r.id, r.owner);
    } else {
      SubsetKeeps(s, s'.rows);
    }
  }

  lemma StepKeeps(s: State, r: Request, s': State, out: Outcome)
    requires Inv(s) && Step(s, r, s', out)
    ensures Inv(s')
  {
    match r
    case Login(user, uuid, admitted, now) => LoginKeeps(s, user, uuid, admitted, now, s', out);
    case Refresh(token, uuid, permitted, now) => RefreshKeeps(s, token, uuid, permitted, now, s', out);
    case _ => SingleKeeps(s, r, s', out);
  }

  // ---- the life of a token ----

  ghost predicate CurrentOn(s: State, token: nat, d: int) {
    d in s.rows && s.rows[d].current == Hash(token)
  }

  ghost predicate PreviousOn(s: State, token: nat, d: int) {
    d in s.rows && s.rows[d].previous == Hash(token)
  }

  /** Generated, but no device knows it. */
  ghost predicate Dead(s: State, token: nat) {
    token < s.nextToken && forall d | d in s.rows ::
        s.rows[d].current != Hash(token) && s.rows[d].previous != Hash(token)
  }

  ghost predicate Accepts(r: Request, out: Outcome, token: nat) {
    r.Refresh? && r.token == token && out.Issued?
  }

  /** Every generated token is current on one device, or previous on one device, or dead. */
  lemma OneState(s: State, token: nat, d: int, e: int)
    requires Inv(s)
    ensures CurrentOn(s, token, d) && CurrentOn(s, token, e) ==> d == e
    ensures PreviousOn(s, token, d) && PreviousOn(s, token, e) ==> d == e
    ensures !(CurrentOn(s, token, d) && PreviousOn(s, token, e))
    ensures CurrentOn(s, token, d) || PreviousOn(s, token, d) ==> token < s.nextToken
  {
  }

  /** A token only moves from current to previous to dead, and it becomes previous exactly by being
      accepted. */
  ghost predicate Ages(s: State, r: Request, s': State, out: Outcome, token: nat) {
    && s.nextToken <= s'.nextToken
    && (Dead(s, token) ==> Dead(s', token))
    && (forall d | PreviousOn(s, token, d) :: (PreviousOn(s', token, d) || Dead(s', token)) && !Accepts(r, out, token))
    && (forall d | CurrentOn(s, token, d) ::
          if Accepts(r, out, token) then PreviousOn(s', token, d)
          else CurrentOn(s', token, d) || Dead(s', token))
    && (Accepts(r, out, token) ==> exists d :: CurrentOn(s, token, d))
  }

  /** Where the hashes of a row come from: they are unchanged, or wiped by a ban, or the row got
      the newly generated token, the accepted one becoming its previous. */
  ghost predicate HashesFrom(s: State, r: Request, s': State, out: Outcome, d: int)
    requires d in s'.rows
  {
    var row := s'.rows[d];
    || (d in s.rows && row.current == s.rows[d].current && row.previous == s.rows[d].previous)
    || (row.current == Null && row.previous == Null)
    || (out == Issued(d, s.nextToken) && row.current == Hash(s.nextToken) && s'.nextToken == s.nextToken + 1
        && if r.Refresh? then row.previous == Hash(r.token) && d in s.rows && s.rows[d].current == Hash(r.token)
           else !row.previous.Hash?)
  }

  ghost predicate Origins(s: State, r: Request, s': State, out: Outcome) {
    && s.nextToken <= s'.nextToken
    && (forall d | d in s'.rows :: HashesFrom(s, r, s', out, d))
    && (r.Refresh? && out.Issued? ==>
          out.device in s'.rows && CurrentOn(s, r.token, out.device) && PreviousOn(s', r.token, out.device))
  }

  lemma RefreshOrigins(s: State, r: Request, s': State, out: Outcome)
    requires Inv(s) && r.Refresh? && Step(s, r, s', out)
    ensures Origins(s, r, s', out)
  {
  }

  lemma LoginOrigins(s: State, r: Request, s': State, out: Outcome)
    requires Inv(s) && r.Login? && Step(s, r, s', out)
    ensures Origins(s, r, s', out)
  {
  }

  lemma RowOrigins(s: State, r: Request, s': State, out: Outcome)
    requires Inv(s) && Step(s, r, s', out)
    ensures Origins(s, r, s', out)
  {
    if r.Refresh? {
      RefreshOrigins(s, r, s', out);
    } else if r.Login? {
      LoginOrigins(s, r, s', out);
    }
  }

  lemma TokenAges(s: State, r: Request, s': State, out: Outcome, token: nat)
    requires Inv(s) && Step(s, r, s', out) && token < s.nextToken
    ensures Ages(s, r, s', out, token)
  {
    RowOrigins(s, r, s', out);
    forall d | PreviousOn(s, token, d)
      ensures (PreviousOn(s', token, d) || Dead(s', token)) && !Accepts(r, out, token)
    {
      PreviousAges(s, r, s', out, token, d);
    }
    forall d | CurrentOn(s, token, d)
      ensures if Accepts(r, out, token) then PreviousOn(s', token, d) else CurrentOn(s', token, d) || Dead(s', token)
    {
      CurrentAges(s, r, s', out, token, d);
    }
    if Accepts(r, out, token) {
      assert CurrentOn(s, token, out.device);
    }
  }

  lemma PreviousAges(s: State, r: Request, s': State, out: Outcome, token: nat, d: int)
    requires Inv(s) && Origins(s, r, s', out) && PreviousOn(s, token, d)
    ensures (PreviousOn(s', token, d) || Dead(s', token)) && !Accepts(r, out, token)
  {
  }

  lemma CurrentAges(s: State, r: Request, s': State, out: Outcome, token: nat, d: int)
    requires Inv(s) && Origins(s, r, s', out) && CurrentOn(s, token, d)
    ensures if Accepts(r, out, token) then PreviousOn(s', token, d) else CurrentOn(s', token, d) || Dead(s', token)
  {
  }

  // ---- runs ----

  ghost predicate Run(states: seq<State>, requests: seq<Request>, outs: seq<Outcome>) {
    && |states| == |requests| + 1 && |outs| == |requests| && states[0].rows == map[]
    && forall k | 0 <= k < |requests| :: Step(states[k], requests[k], states[k + 1], outs[k])
  }

  lemma {:induction false} RunInv(states: seq<State>, requests: seq<Request>, outs: seq<Outcome>, k: nat)
    requires Run(states, requests, outs) && k <= |requests|
    ensures Inv(states[k])
  {
    if k == 0 {
    } else {
      RunInv(states, requests, outs, k - 1);
      StepKeeps(states[k - 1], requests[k - 1], states[k], outs[k - 1]);
    }
  }

  /** Spent: the token can never be accepted again. */
  ghost predicate Spent(s: State, token: nat) {
    token < s.nextToken && forall d | d in s.rows :: s.rows[d].current != Hash(token)
  }

  lemma {:induction false} SpentForGood(states: seq<State>, requests: seq<Request>, outs: seq<Outcome>, i: nat, j: nat,
                                        token: nat)
    requires Run(states, requests, outs) && i <= j <= |requests| && Spent(states[i], token)
    ensures Spent(states[j], token) && (Dead(states[i], token) ==> Dead(states[j], token))
    decreases j
  {
    if i == j {
    } else {
      SpentForGood(states, requests, outs, i, j - 1, token);
      RunInv(states, requests, outs, j - 1);
      TokenAges(states[j - 1], requests[j - 1], states[j], outs[j - 1], token);
      SpentStep(states[j - 1], requests[j - 1], states[j], outs[j - 1], token);
    }
  }

  lemma SpentStep(s: State, r: Request, s': State, out: Outcome, token: nat)
    requires Inv(s) && Step(s, r, s', out) && Ages(s, r, s', out, token) && Spent(s, token)
    ensures Spent(s', token)
  {
    if d :| d in s.rows && s.rows[d].previous == Hash(token) {
      assert PreviousOn(s, token, d);
      StepKeeps(s, r, s', out);
    } else {
      assert Dead(s, token);
    }
  }

  /** Over any sequence of requests each refresh token is accepted at most once. */
  lemma AcceptedOnce(states: seq<State>, requests: seq<Request>, outs: seq<Outcome>, i: nat, j: nat, token: nat)
    requires Run(states, requests, outs) && i < j < |requests|
    requires Accepts(requests[i], outs[i], token)
    ensures !Accepts(requests[j], outs[j], token)
  {
    RunInv(states, requests, outs, i);
    RunInv(states, requests, outs, i + 1);
    RunInv(states, requests, outs, j);
    AcceptedWasCurrent(states[i], requests[i], states[i + 1], outs[i], token);
    TokenAges(states[i], requests[i], states[i + 1], outs[i], token);
    assert PreviousOn(states[i + 1], token, outs[i].device);
    SpentForGood(states, requests, outs, i + 1, j, token);
    if Accepts(requests[j], outs[j], token) {
      AcceptedWasCurrent(states[j], requests[j], states[j + 1], outs[j], token);
    }
  }

  lemma AcceptedWasCurrent(s: State, r: Request, s': State, out: Outcome, token: nat)
    requires Inv(s) && Step(s, r, s', out) && Accepts(r, out, token)
    ensures token < s.nextToken && CurrentOn(s, token, out.device)
  {
  }

  // ---- what a caller can rely on ----

  /** A refresh is accepted exactly when the token is current on a device with that uuid, has not
      expired, and the user may connect from there. */
  lemma AcceptedExactlyWhen(s: State, r: Request, s': State, out: Outcome)
    requires Inv(s) && r.Refresh? && Step(s, r, s', out)
    ensures out.Issued? <==>
              r.permitted && exists d :: CurrentOn(s, r.token, d) && s.rows[d].uuid == r.uuid
                                         && (s.rows[d].expiresAt.Some? ==> r.now <= s.rows[d].expiresAt.value)
    ensures out != Failed
    ensures out.Issued? ==> CurrentOn(s', out.token, out.device) && out.token >= s.nextToken
                            && PreviousOn(s', r.token, out.device) && !s'.rows[out.device].banned
  {
  }

  /** A deletion kills the tokens of the devices that are gone, and leaves all others where they are. */
  lemma DeletionKillsTheirTokens(s: State, s': State, token: nat, d: int)
    requires Inv(s) && s'.nextToken == s.nextToken && (CurrentOn(s, token, d) || PreviousOn(s, token, d))
    requires forall e | e in s'.rows :: e in s.rows && s'.rows[e] == s.rows[e]
    ensures if d in s'.rows then (CurrentOn(s', token, d) <==> CurrentOn(s, token, d))
                                 && (PreviousOn(s', token, d) <==> PreviousOn(s, token, d))
            else Dead(s', token)
  {
  }

  /** Logging out deletes that device of that user only: its tokens are dead afterwards. */
  lemma DeletedDeviceIsGone(s: State, id: int, owner: int, s': State, out: Outcome, token: nat)
    requires Inv(s) && Step(s, Delete(id, owner), s', out) && id in s.rows && s.rows[id].user == owner
    ensures id !in s'.rows && forall d | d in s.rows && d != id :: d in s'.rows && s'.rows[d] == s.rows[d]
    ensures CurrentOn(s, token, id) || PreviousOn(s, token, id) ==> Dead(s', token)
  {
    if CurrentOn(s, token, id) || PreviousOn(s, token, id) {
      DeletionKillsTheirTokens(s, s', token, id);
    }
  }

  /** Presenting an already rotated token deletes every device of its user and no other; all their
      tokens die. */
  lemma ReuseRevokesUser(s: State, r: Request, s': State, out: Outcome, d: int)
    requires Inv(s) && r.Refresh? && Step(s, r, s', out) && PreviousOn(s, r.token, d)
    ensures out == AllRevoked && s'.rows == WithoutUser(s.rows, s.rows[d].user)
    ensures forall e :: e in s'.rows <==> e in s.rows && s.rows[e].user != s.rows[d].user
    ensures forall e | e in s'.rows :: s'.rows[e] == s.rows[e]
    ensures forall e, token | e in s.rows && s.rows[e].user == s.rows[d].user
            && (CurrentOn(s, token, e) || PreviousOn(s, token, e)) ::
              Dead(s', token)
  {
  }

  /** Logging in again on a known device works exactly when the device is not banned and no other
      device, of any user, holds the empty string as its previous hash: the column is UNIQUE and
      login does not write NULL. */
  lemma ReloginWorksExactlyWhen(s: State, r: Request, s': State, out: Outcome, id: int)
    requires Inv(s) && r.Login? && r.admitted && Step(s, r, s', out)
    requires IsDevice(s.rows, id, r.user, r.uuid)
    ensures out.Issued? <==> !s.rows[id].banned && forall d | d in s.rows && d != id :: s.rows[d].previous != Blank
  {
  }

  /** Logging in on a new device never violates a UNIQUE constraint. */
  lemma FirstLoginWorks(s: State, r: Request, s': State, out: Outcome)
    requires Inv(s) && r.Login? && r.admitted && Step(s, r, s', out) && !Known(s.rows, r.user, r.uuid)
    ensures out == Issued(s.nextId, s.nextToken) && CurrentOn(s', s.nextToken, s.nextId)
  {
    var kept :| MakesRoom(s.rows, r.user, kept) && Inserts(s, kept, r.user, r.uuid, r.now, s', out);
    InsertFree(s, r.user, r.uuid, kept);
  }

  lemma InsertFree(s: State, user: int, uuid: string, kept: Devices)
    requires Inv(s) && !Known(s.rows, user, uuid) && MakesRoom(s.rows, user, kept)
    ensures InsertAllowed(kept, user, uuid, Hash(s.nextToken))
  {
    forall d | d in kept
      ensures !IsDevice(kept, d, user, uuid)
    {
      assert !IsDevice(s.rows, d, user, uuid);
    }
  }

  /** Two users with one device each: after the first has logged in again, the second cannot. */
  lemma ReloginExample() returns (states: seq<State>, requests: seq<Request>, outs: seq<Outcome>)
    ensures Run(states, requests, outs)
    ensures requests == [Login(1, "a", true, 0), Login(2, "b", true, 0), Login(1, "a", true, 1), Login(2, "b", true, 1)]
    ensures outs == [Issued(1, 0), Issued(2, 1), Issued(1, 2), Failed]
  {
    var ttl := REFRESH_TOKEN_TTL;
    var a0 := Device(1, "a", Hash(0), Null, Some(ttl), false, 0);
    var b0 := Device(2, "b", Hash(1), Null, Some(ttl), false, 0);
    var a1 := Device(1, "a", Hash(2), Blank, Some(1 + ttl), false, 1);
    var s0 := State(map[], 1, 0);
    var s1 := State(map[1 := a0], 2, 1);
    var s2 := State(map[1 := a0, 2 := b0], 3, 2);
    var s3 := State(map[1 := a1, 2 := b0], 3, 3);
    var s4 := s3.(nextToken := 4);
    states := [s0, s1, s2, s3, s4];
    requests := [Login(1, "a", true, 0), Login(2, "b", true, 0), Login(1, "a", true, 1), Login(2, "b", true, 1)];
    outs := [Issued(1, 0), Issued(2, 1), Issued(1, 2), Failed];
    FirstOfUser(s0, 1, "a", s1);
    FirstOfUser(s1, 2, "b", s2);
    LogsInAgain(s2, s3);
    RefusedByBlank(s3, s4);
  }

  lemma FirstOfUser(s: State, user: int, uuid: string, s': State)
    requires (forall d | d in s.rows :: s.rows[d].user != user)
             && forall d | d in s.rows :: s.rows[d].current != Hash(s.nextToken)
    requires s' == State(s.rows[s.nextId := NewDevice(user, uuid, s.nextToken, 0)], s.nextId + 1, s.nextToken + 1)
    ensures Step(s, Login(user, uuid, true, 0), s', Issued(s.nextId, s.nextToken))
  {
    forall d
      ensures d !in Active(s.rows, user) && !IsDevice(s.rows, d, user, uuid)
    {
      assert d in s.rows ==> s.rows[d].user != user;
    }
    Sets.Inhabited(Active(s.rows, user));
    assert MakesRoom(s.rows, user, s.rows) && Inserts(s, s.rows, user, uuid, 0, s', Issued(s.nextId, s.nextToken));
  }

  lemma LogsInAgain(s: State, s': State)
    requires 1 in s.rows && s.rows[1] == Device(1, "a", Hash(0), Null, Some(REFRESH_TOKEN_TTL), false, 0)
    requires s.nextToken == 2
    requires s' == State(s.rows[1 := Session(s.rows[1], 2, Blank, 1)], s.nextId, 3)
    requires UpdateAllowed(s.rows, 1, Hash(2), Blank)
    ensures Step(s, Login(1, "a", true, 1), s', Issued(1, 2))
  {
    assert IsDevice(s.rows, 1, 1, "a") && LoginKnown(s, 1, 1, s', Issued(1, 2));
  }

  lemma RefusedByBlank(s: State, s': State)
    requires 1 in s.rows && s.rows[1].previous == Blank && IsDevice(s.rows, 2, 2, "b") && !s.rows[2].banned
    requires s' == s.(nextToken := s.nextToken + 1)
    ensures Step(s, Login(2, "b", true, 1), s', Failed)
  {
    assert Clashes(s.rows[1].previous, Blank);
    assert LoginKnown(s, 2, 1, s', Failed);
  }
}
