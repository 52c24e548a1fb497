/** The tree of collections, its denormalised root column, and the access checks and recursive
    queries that rely on it. */
module Collections {
  import opened Options

  /** A cleaned path relative to the media directory, as a list of names. */
  type Path = seq<string>

  datatype Collection = Collection(parent: Option<int>, root: int, path: Path, name: string, kind: string,
                                   enabled: bool)

  type Rows = map<int, Collection>

  /** filepath.Dir. */
  function Dir(p: Path): Path
    requires |p| > 0
  {
    p[..|p| - 1]
  }

  /** A root names itself; a child's path properly extends its parent's and it has its root. */
  ghost predicate HangsWell(rows: Rows, id: int)
    requires id in rows
  {
    match rows[id].parent
    case None => rows[id].root == id
    case Some(p) => p in rows && rows[p].root == rows[id].root && rows[p].path < rows[id].path
  }

  /** Every row hangs well, and no two rows of one root share a path. */
  ghost predicate Inv(rows: Rows, next: int) {
    && (forall id | id in rows :: id < next)
    && (forall id {:trigger HangsWell(rows, id)} | id in rows :: HangsWell(rows, id))
    && (forall a, b | a in rows && b in rows && a != b && rows[a].root == rows[b].root :: rows[a].path != rows[b].path)
  }

  // ---- following parent links ----

  /** The topmost ancestor.  Paths get shorter along parent links, so this terminates. */
  ghost function Top(rows: Rows, next: int, id: int): (top: int)
    requires Inv(rows, next) && id in rows
    ensures top in rows && rows[top].parent == None
    decreases |rows[id].path|
  {
    assert HangsWell(rows, id);
    if rows[id].parent == None then id else Top(rows, next, rows[id].parent.value)
  }

  /** The denormalised column always names the topmost ancestor. */
  lemma {:induction false} RootIsTop(rows: Rows, next: int, id: int)
    requires Inv(rows, next) && id in rows
    ensures rows[id].root == Top(rows, next, id)
    ensures rows[Top(rows, next, id)].path <= rows[id].path
    decreases |rows[id].path|
  {
    assert HangsWell(rows, id);
    if rows[id].parent.Some? {
      RootIsTop(rows, next, rows[id].parent.value);
    }
  }

  /** How many parent links lead from id up to ancestor; -1 when none do. */
  ghost function Depth(rows: Rows, next: int, id: int, ancestor: int): (n: int)
    requires Inv(rows, next)
    ensures n >= -1
    decreases if id in rows then |rows[id].path| else 0
  {
    if id !in rows then -1
    else if id == ancestor then 0
    else if rows[id].parent == None then -1
    else
      assert HangsWell(rows, id);
      var n := Depth(rows, next, rows[id].parent.value, ancestor);
      if n == -1 then -1 else n + 1
  }

  ghost predicate Under(rows: Rows, next: int, id: int, ancestor: int)
    requires Inv(rows, next)
  {
    Depth(rows, next, id, ancestor) >= 0
  }

  lemma {:induction false} UnderTop(rows: Rows, next: int, id: int, r: int)
    requires Inv(rows, next) && id in rows && r in rows && rows[r].parent == None
    ensures Under(rows, next, id, r) <==> rows[id].root == r
    decreases |rows[id].path|
  {
    assert HangsWell(rows, id) && HangsWell(rows, r);
    if id != r && rows[id].parent.Some? {
      UnderTop(rows, next, rows[id].parent.value, r);
    }
  }

  lemma CreateKeepsInv(rows: Rows, next: int, path: Path, name: string, kind: string)
    requires Inv(rows, next)
    ensures Inv(rows[next := Collection(None, next, path, name, kind, true)], next + 1)
  {
    var after := rows[next := Collection(None, next, path, name, kind, true)];
    forall a | a in rows
      ensures rows[a].root != next && HangsWell(after, a)
    {
      assert HangsWell(rows, a);
      RootIsTop(rows, next, a);
    }
  }

  /** The parent is a row of the same library whose path lies above the given one. */
  predicate HangsBelow(rows: Rows, parentId: int, rootId: int, path: Path) {
    parentId in rows && rows[parentId].root == rootId && rows[parentId].path < path
  }

  lemma UpsertKeepsInv(rows: Rows, next: int, parentId: int, rootId: int, name: string, path: Path)
    requires Inv(rows, next) && rootId in rows && HangsBelow(rows, parentId, rootId, path)
    ensures forall c | c in rows && rows[c].root == rootId && rows[c].path == path ::
              rows[c].parent.Some? && Inv(rows[c := rows[c].(parent := Some(parentId))], next)
    ensures (forall c | c in rows && rows[c].root == rootId :: rows[c].path != path) ==>
              Inv(rows[next := Collection(Some(parentId), rootId, path, name, rows[rootId].kind, true)], next + 1)
  {
    forall c | c in rows && rows[c].root == rootId && rows[c].path == path
      ensures rows[c].parent.Some? && Inv(rows[c := rows[c].(parent := Some(parentId))], next)
    {
      RootIsTop(rows, next, parentId);
      assert HangsWell(rows, c);
      RehangKeepsInv(rows, next, parentId, c);
    }
    if forall c | c in rows && rows[c].root == rootId :: rows[c].path != path {
      HangKeepsInv(rows, next, parentId, Collection(Some(parentId), rootId, path, name, rows[rootId].kind, true));
    }
  }

  lemma HangKeepsInv(rows: Rows, next: int, parentId: int, c: Collection)
    requires Inv(rows, next) && c.parent == Some(parentId) && HangsBelow(rows, parentId, c.root, c.path)
    requires forall a | a in rows && rows[a].root == c.root :: rows[a].path != c.path
    ensures Inv(rows[next := c], next + 1)
  {
    var after := rows[next := c];
    forall a | a in rows
      ensures HangsWell(after, a)
    {
      assert HangsWell(rows, a);
    }
    assert HangsWell(after, next);
  }

  /** No other parent keeps the table well hung. */
  lemma OnlyBelow(rows: Rows, next: int, parentId: int, rootId: int, name: string, path: Path, id: int, rows': Rows,
                  next': int)
    requires Inv(rows, next) && Inv(rows', next') && parentId in rows
    requires Upserted(rows, next, parentId, rootId, name, path, id, rows')
    ensures HangsBelow(rows, parentId, rootId, path)
  {
    assert HangsWell(rows', id);
  }

  /** Changing the parent of c to a row of the same root above its path. */
  lemma RehangKeepsInv(rows: Rows, next: int, parentId: int, c: int)
    requires Inv(rows, next) && parentId in rows && c in rows
    requires rows[parentId].root == rows[c].root && rows[parentId].path < rows[c].path
    ensures Inv(rows[c := rows[c].(parent := Some(parentId))], next)
  {
    var after := rows[c := rows[c].(parent := Some(parentId))];
    forall a | a in after
      ensures HangsWell(after, a)
    {
      assert HangsWell(rows, a);
    }
  }

  /** A row n links below ancestor has an ancestor at each smaller distance. */
  lemma {:induction false} LevelsInhabited(rows: Rows, next: int, id: int, ancestor: int, k: nat)
    requires Inv(rows, next) && 0 < k <= Depth(rows, next, id, ancestor)
    ensures exists a :: AtDepth(rows, next, a, ancestor, k)
    decreases if id in rows then |rows[id].path| else 0
  {
    if Depth(rows, next, id, ancestor) == k {
      assert AtDepth(rows, next, id, ancestor, k);
    } else {
      assert HangsWell(rows, id);
      LevelsInhabited(rows, next, rows[id].parent.value, ancestor, k);
    }
  }

  /** The parent of a row is not below it. */
  lemma {:induction false} DeeperIsLonger(rows: Rows, next: int, c: int, id: int)
    requires Inv(rows, next) && Under(rows, next, c, id)
    ensures c in rows && id in rows && |rows[id].path| <= |rows[c].path|
    decreases if c in rows then |rows[c].path| else 0
  {
    if c == id {
    } else {
      assert HangsWell(rows, c);
      DeeperIsLonger(rows, next, rows[c].parent.value, id);
    }
  }

  lemma DepthOfChild(rows: Rows, next: int, c: int, id: int)
    requires Inv(rows, next) && c in rows && rows[c].parent.Some?
    ensures Depth(rows, next, rows[c].parent.value, id) >= 0 ==>
              Depth(rows, next, c, id) == Depth(rows, next, rows[c].parent.value, id) + 1
    ensures Depth(rows, next, c, id) > 0 ==> Depth(rows, next, rows[c].parent.value, id) == Depth(rows, next, c, id) - 1
  {
    assert HangsWell(rows, c);
    if Depth(rows, next, rows[c].parent.value, id) >= 0 {
      DeeperIsLonger(rows, next, rows[c].parent.value, id);
    }
  }

  ghost predicate AtDepth(rows: Rows, next: int, c: int, id: int, k: int)
    requires Inv(rows, next)
  {
    Depth(rows, next, c, id) == k
  }

  lemma NextLevel(rows: Rows, next: int, id: int, k: nat, above: set<int>, level: set<int>)
    requires Inv(rows, next)
    requires if k == 0 then above == {id} else forall c :: c in above <==> AtDepth(rows, next, c, id, k)
    requires level == set c | c in rows && rows[c].parent.Some? && rows[c].parent.value in above
    ensures forall c :: c in level <==> AtDepth(rows, next, c, id, k + 1)
  {
    forall c
      ensures c in level <==> AtDepth(rows, next, c, id, k + 1)
    {
      if c in rows && rows[c].parent.Some? {
        var p := rows[c].parent.value;
        assert HangsWell(rows, c);
        DepthOfChild(rows, next, c, id);
        assert p in above <==> AtDepth(rows, next, p, id, k);
      }
    }
  }

  lemma DeleteKeepsInv(rows: Rows, next: int, id: int)
    requires Inv(rows, next)
    ensures Inv(map c | c in rows && !Under(rows, next, c, id) :: rows[c], next)
  {
    var left := map c | c in rows && !Under(rows, next, c, id) :: rows[c];
    forall c | c in left
      ensures HangsWell(left, c)
    {
      assert HangsWell(rows, c) && !Under(rows, next, c, id);
    }
  }

  /** A grant on any ancestor of a collection is a grant on its root, since only roots are granted. */
  lemma GrantsSeenFromBelow(rows: Rows, next: int, access: set<(int, int)>, id: int, user: int)
    requires Inv(rows, next) && id in rows
    requires forall g | g in access :: g.1 in rows && rows[g.1].parent == None
    ensures (exists a :: Under(rows, next, id, a) && (user, a) in access) <==> (user, rows[id].root) in access
  {
    RootIsTop(rows, next, id);
    UnderTop(rows, next, id, rows[id].root);
    if a :| Under(rows, next, id, a) && (user, a) in access {
      UnderTop(rows, next, id, a);
    }
  }

  // ---- the table ----

  class CollectionStore {
    var rows: Rows
    var nextId: int
    var access: set<(int, int)>   // (user, collection)

    /** Grants are only ever made on top-level collections. */
    ghost predicate Valid()
      reads this
    {
      && Inv(rows, nextId)
      && forall g | g in access :: g.1 in rows && rows[g.1].parent == None
    }

    constructor ()
      ensures Valid() && rows == map[] && access == {}
    {
      rows, nextId, access := map[], 1, {};
    }

    method CollectionCreate(name: string, kind: string, path: Path) returns (id: int)
      requires Valid()
      modifies this`rows, this`nextId
      ensures Valid() && id == old(nextId) && nextId == id + 1
      ensures rows == old(rows)[id := Collection(None, id, path, name, kind, true)]
    {
      id := nextId;
      CreateKeepsInv(rows, nextId, path, name, kind);
      rows := rows[id := Collection(None, id, path, name, kind, true)];
      nextId := nextId + 1;
    }

    /** INSERT ... ON CONFLICT (root, path) DO UPDATE SET parent.  None: a foreign key or the type
        sub-select fails.  The statement itself does not look at the parent's root or path; the
        table stays well hung exactly when they are as the walk passes them. */
    method UpsertSubCollection(parentId: int, rootId: int, name: string, path: Path) returns (id: Option<int>)
      requires Valid()
      modifies this`rows, this`nextId
      ensures Valid() <==> (id.Some? ==> HangsBelow(old(rows), parentId, rootId, path))
      ensures id == None <==> parentId !in old(rows) || rootId !in old(rows)
      ensures id == None ==> rows == old(rows)
      ensures old(nextId) <= nextId
      ensures id.Some? ==> Upserted(old(rows), old(nextId), parentId, rootId, name, path, id.value, rows)
      ensures id.Some? && (exists c :: c in old(rows) && old(rows)[c].root == rootId && old(rows)[c].path == path) ==>
                && id.value in old(rows) && old(rows)[id.value].root == rootId && old(rows)[id.value].path == path
                && rows == old(rows)[id.value := old(rows)[id.value].(parent := Some(parentId))]
      ensures id.Some? && !(exists c :: c in old(rows) && old(rows)[c].root == rootId && old(rows)[c].path == path) ==>
                && id.value == old(nextId)
                && rows == old(rows)[id.value := Collection(Some(parentId), rootId, path, name, old(rows)[rootId].kind,
                                                            true)]
    {
      if parentId !in rows || rootId !in rows {
        return None;
      }
      if HangsBelow(rows, parentId, rootId, path) {
        UpsertKeepsInv(rows, nextId, parentId, rootId, name, path);
      }
      ghost var before, next := rows, nextId;
      if c :| c in rows && rows[c].root == rootId && rows[c].path == path {
        rows := rows[c := rows[c].(parent := Some(parentId))];
        id := Some(c);
      } else {
        rows := rows[nextId := Collection(Some(parentId), rootId, path, name, rows[rootId].kind, true)];
        nextId := nextId + 1;
        id := Some(nextId - 1);
      }
      if Inv(rows, nextId) {
        OnlyBelow(before, next, parentId, rootId, name, path, id.value, rows, nextId);
      }
    }

    /** Upserts the row of one directory below the row of the directory it lies in, when that one
        has been recorded, and else directly below the scanned collection. */
    method VisitFolder(scanId: int, rootId: int, dir: Path, pathToId: map<Path, int>) returns (id: int)
      requires Valid() && scanId in rows && rootId in rows && rows[scanId].root == rootId && rows[scanId].path < dir
      requires FoldersBelow(rows, nextId, scanId, rootId, pathToId)
      modifies this`rows, this`nextId
      ensures Valid() && old(nextId) <= nextId && scanId in rows && rows[scanId] == old(rows)[scanId]
      ensures Upserted(old(rows), old(nextId), ParentFor(pathToId, dir, scanId), rootId, dir[|dir| - 1], dir, id, rows)
      ensures FoldersBelow(rows, nextId, scanId, rootId, pathToId[dir := id])
      ensures id in rows && rows[id].path == dir && rows[id].root == rootId
      ensures var above := dir[..|dir| - 1];
              rows[id].parent == Some(if above in pathToId then pathToId[above] else scanId)
    {
      ghost var before, next := rows, nextId;
      var parentId := ParentFor(pathToId, dir, scanId);
      assert Dir(dir) in pathToId ==> rows[parentId].path == Dir(dir) < dir;
      var upserted := UpsertSubCollection(parentId, rootId, dir[|dir| - 1], dir);
      id := upserted.value;
      UpsertKeepsFolders(before, next, parentId, rootId, dir[|dir| - 1], dir, id, rows, nextId, scanId, pathToId);
    }

    /** Upserts a row for every directory below the scanned collection, in the order in which they
        are visited. */
    method WalkFolders(scanId: int, rootId: int, dirs: seq<Path>) returns (pathToId: map<Path, int>)
      requires Valid() && scanId in rows && rows[scanId].root == rootId
      requires forall d | d in dirs :: rows[scanId].path < d
      modifies this`rows, this`nextId
      ensures Valid() && scanId in rows && rows[scanId] == old(rows)[scanId]
      ensures pathToId.Keys == {rows[scanId].path} + PathSet(dirs)
      ensures FoldersBelow(rows, nextId, scanId, rootId, pathToId)
      ensures OnlyFoldersTouched(old(rows), old(nextId), rootId, dirs, rows)
      ensures ParentsFirst(rows[scanId].path, dirs) ==> MirrorsDirs(rows, pathToId, dirs, |dirs|)
      ensures forall d | d in dirs ::
                d in pathToId && pathToId[d] in rows && rows[pathToId[d]].path == d && rows[pathToId[d]].root == rootId
      ensures forall c | c in old(rows) ::
                && c in rows && rows[c] == old(rows)[c].(parent := rows[c].parent)
                && (old(rows)[c].root != rootId || old(rows)[c].path !in dirs ==> rows[c] == old(rows)[c])
      ensures forall c | c in rows && c !in old(rows) ::
                && rows[c].path in dirs && rows[c].root == rootId && rootId in old(rows) && rows[c].enabled
                && |rows[c].path| > 0 && rows[c].name == rows[c].path[|rows[c].path| - 1]
                && rows[c].kind == old(rows)[rootId].kind
      ensures ParentsFirst(rows[scanId].path, dirs) ==> forall d | d in dirs ::
                && |d| > 0 && d in pathToId && pathToId[d] in rows && d[..|d| - 1] in pathToId
                && rows[pathToId[d]].parent == Some(pathToId[d[..|d| - 1]])
    {
      var base := rows[scanId].path;
      pathToId := map[base := scanId];
      RootIsTop(rows, nextId, scanId);
      for i := 0 to |dirs|
        invariant Valid() && scanId in rows && rows[scanId] == old(rows)[scanId] && base == rows[scanId].path
        invariant rootId in rows && old(nextId) <= nextId
        invariant FoldersBelow(rows, nextId, scanId, rootId, pathToId)
        invariant WalkedTo(old(rows), old(nextId), rows, rootId, base, dirs, i, pathToId)
      {
        var dir := dirs[i];
        assert dir in dirs;
        ghost var before, next := rows, nextId;
        var id := VisitFolder(scanId, rootId, dir, pathToId);
        WalkStep(old(rows), old(nextId), before, next, rows, scanId, rootId, base, dirs, i, id, pathToId);
        pathToId := pathToId[dir := id];
      }
      assert dirs[..|dirs|] == dirs;
      FolderFacts(rows, rootId, dirs, pathToId);
    }

    /** Deletes the row and, by cascade, everything below it and its grants. */
    method CollectionDelete(id: int)
      requires Valid()
      modifies this`rows, this`access
      ensures Valid()
      ensures rows == map c | c in old(rows) && !Under(old(rows), nextId, c, id) :: old(rows)[c]
      ensures access == set g | g in old(access) && g.1 in rows
    {
      ghost var before := rows;
      var doomed := Cascade(id);
      DeleteKeepsInv(rows, nextId, id);
      rows := map c | c in rows && c !in doomed :: rows[c];
      access := set g | g in access && g.1 in rows;
      assert rows == map c | c in before && !Under(before, nextId, c, id) :: before[c];
    }

    /** ON DELETE CASCADE along parent_collection_id. */
    method Cascade(id: int) returns (doomed: set<int>)
      requires Valid()
      ensures forall c :: c in doomed <==> Under(rows, nextId, c, id)
    {
      var below := DescendantIDs(id);
      doomed := below + if id in rows then {id} else {};
    }

    method GrantAccessToUser(user: int, ids: seq<int>)
      requires Valid()
      modifies this`access
      ensures Valid()
      ensures forall u, c :: (u, c) in access <==>
                (u, c) in old(access) || (u == user && c in ids && c in rows && rows[c].parent == None)
    {
      access := access + set c | c in ids && c in rows && rows[c].parent == None :: (user, c);
    }

    method GrantAccessToUsers(collection: int, users: seq<int>)
      requires Valid()
      modifies this`access
      ensures Valid()
      ensures forall u, c :: (u, c) in access <==>
                (u, c) in old(access) || (c == collection && u in users && c in rows && rows[c].parent == None)
    {
      if collection in rows && rows[collection].parent == None {
        access := access + set u | u in users :: (u, collection);
      }
    }

    method DeleteAccess(user: int, collection: int)
      requires Valid()
      modifies this`access
      ensures Valid() && access == old(access) - {(user, collection)}
    {
      access := access - {(user, collection)};
    }

    /** One join on the root column. */
    method ExistsAndAccessible(id: int, user: int) returns (ok: bool)
      requires Valid()
      ensures ok <==> id in rows && rows[id].enabled && (user, Top(rows, nextId, id)) in access
      ensures ok <==> id in rows && rows[id].enabled && exists a :: Under(rows, nextId, id, a) && (user, a) in access
    {
      ok := id in rows && rows[id].enabled && (user, rows[id].root) in access;
      if id in rows {
        RootIsTop(rows, nextId, id);
        GrantsSeenFromBelow(rows, nextId, access, id, user);
      }
    }

    /** WITH RECURSIVE tree: the children of id, then their children, until a level is empty. */
    method DescendantIDs(id: int) returns (tree: set<int>)
      requires Valid()
      ensures forall c :: c in tree <==> c != id && Under(rows, nextId, c, id)
      ensures id in rows && rows[id].parent == None ==> tree == set c | c in rows && rows[c].root == id && c != id
    {
      tree := {};
      var working, table := {id}, rows;
      ghost var k: nat, next := 0, nextId;
      while working != {}
        invariant if k == 0 then working == {id} else forall c :: c in working <==> AtDepth(table, next, c, id, k)
        invariant forall c :: c in tree <==> Within(table, next, c, id, k)
        decreases table.Keys - tree, working != {}
      {
        ghost var above, before := working, tree;
        working := set c | c in table && table[c].parent.Some? && table[c].parent.value in working;
        tree := tree + working;
        NextLevel(table, next, id, k, above, working);
        OneMoreLevel(table, next, id, k, before, working);
        k := k + 1;
      }
      AllFound(table, next, id, k, tree);
    }

    /** The recursive query from id itself. */
    method IsDescendantOf(ancestor: int, child: int) returns (r: bool)
      requires Valid()
      ensures r <==> ancestor in rows && Under(rows, nextId, child, ancestor)
    {
      var tree := DescendantIDs(ancestor);
      r := ancestor in rows && (child == ancestor || child in tree);
    }
  }

  ghost predicate Within(rows: Rows, next: int, c: int, id: int, k: int)
    requires Inv(rows, next)
  {
    0 < Depth(rows, next, c, id) <= k
  }

  lemma OneMoreLevel(rows: Rows, next: int, id: int, k: nat, tree: set<int>, level: set<int>)
    requires Inv(rows, next)
    requires forall c :: c in tree <==> Within(rows, next, c, id, k)
    requires forall c :: c in level <==> AtDepth(rows, next, c, id, k + 1)
    ensures forall c :: c in tree + level <==> Within(rows, next, c, id, k + 1)
    ensures level != {} ==> rows.Keys - (tree + level) < rows.Keys - tree
  {
  }

  /** Once a level is empty, the levels above it are all there is. */
  lemma AllFound(rows: Rows, next: int, id: int, k: nat, tree: set<int>)
    requires Inv(rows, next) && k > 0 && forall c :: !AtDepth(rows, next, c, id, k)
    requires forall c :: c in tree <==> Within(rows, next, c, id, k)
    ensures forall c :: c in tree <==> c != id && Under(rows, next, c, id)
    ensures id in rows && rows[id].parent == None ==> tree == set c | c in rows && rows[c].root == id && c != id
  {
    forall c
      ensures Depth(rows, next, c, id) < k && (Depth(rows, next, c, id) == 0 <==> c == id && c in rows)
    {
      if Depth(rows, next, c, id) >= k {
        LevelsInhabited(rows, next, c, id, k);
      }
    }
    if id in rows && rows[id].parent == None {
      forall c
        ensures c in tree <==> c in rows && rows[c].root == id && c != id
      {
        if c in rows {
          UnderTop(rows, next, c, id);
        }
      }
    }
  }

  /** Each recorded folder has its own row, in this library, at or below the scanned collection. */
  ghost predicate FoldersBelow(rows: Rows, next: int, scanId: int, rootId: int, pathToId: map<Path, int>)
    requires Inv(rows, next)
  {
    forall p | p in pathToId ::
      pathToId[p] in rows && rows[pathToId[p]].path == p && rows[pathToId[p]].root == rootId
        && Under(rows, next, pathToId[p], scanId)
  }

  predicate SameButParent(a: Collection, b: Collection) {
    a.root == b.root && a.path == b.path && a.name == b.name && a.kind == b.kind && a.enabled == b.enabled
  }

  /** A row as inserted for a directory: named after it, of its library's type, enabled. */
  ghost predicate FreshFolder(rows: Rows, rootId: int, c: Collection) {
    && c.root == rootId && c.parent.Some? && |c.path| > 0 && c.name == c.path[|c.path| - 1]
    && rootId in rows && c.kind == rows[rootId].kind && c.enabled
  }

  /** Existing rows keep everything but the parent, and that too unless they are one of the
      folders; new rows are folders. */
  ghost predicate OnlyFoldersTouched(rows: Rows, next: int, rootId: int, dirs: seq<Path>, rows': Rows) {
    && (forall c | c in rows :: c in rows' && SameButParent(rows'[c], rows[c]))
    && (forall c | c in rows && !(rows[c].root == rootId && rows[c].path in dirs) :: rows'[c] == rows[c])
    && (forall c | c in rows' && c !in rows ::
            next <= c && rows'[c].path in dirs && FreshFolder(rows, rootId, rows'[c]))
  }

  function PathSet(paths: seq<Path>): set<Path> {
    set p | p in paths
  }

  function ParentFor(pathToId: map<Path, int>, dir: Path, scanId: int): int
    requires |dir| > 0
  {
    if Dir(dir) in pathToId then pathToId[Dir(dir)] else scanId
  }

  /** Every directory is visited after the one it lies in. */
  ghost predicate ParentsFirst(base: Path, dirs: seq<Path>) {
    forall i | 0 <= i < |dirs| ::
      |dirs[i]| > 0 && (Dir(dirs[i]) == base || exists j :: 0 <= j < i && dirs[j] == Dir(dirs[i]))
  }

  /** The rows of the first n directories hang below the rows of the directories they lie in. */
  ghost predicate MirrorsDirs(rows: Rows, pathToId: map<Path, int>, dirs: seq<Path>, n: int)
    requires 0 <= n <= |dirs|
  {
    forall k | 0 <= k < n :: Mirrors(rows, pathToId, dirs[k])
  }

  ghost predicate Mirrors(rows: Rows, pathToId: map<Path, int>, d: Path) {
    |d| > 0 && d in pathToId && Dir(d) in pathToId && pathToId[d] in rows
      && rows[pathToId[d]].parent == Some(pathToId[Dir(d)])
  }

  /** What holds once the first n directories have been visited. */
  ghost predicate WalkedTo(rows0: Rows, next0: int, rows: Rows, rootId: int, base: Path, dirs: seq<Path>, n: int,
                           pathToId: map<Path, int>)
    requires 0 <= n <= |dirs|
  {
    && pathToId.Keys == {base} + PathSet(dirs[..n])
    && OnlyFoldersTouched(rows0, next0, rootId, dirs[..n], rows)
    && (ParentsFirst(base, dirs) ==> MirrorsDirs(rows, pathToId, dirs, n))
  }

  lemma WalkStep(rows0: Rows, next0: int, rows: Rows, next: int, rows': Rows, scanId: int, rootId: int, base: Path,
                 dirs: seq<Path>, i: nat, id: int, pathToId: map<Path, int>)
    requires i < |dirs| && |dirs[i]| > 0 && next0 <= next && Inv(rows, next)
    requires WalkedTo(rows0, next0, rows, rootId, base, dirs, i, pathToId)
    requires FoldersBelow(rows, next, scanId, rootId, pathToId)
    requires Upserted(rows, next, ParentFor(pathToId, dirs[i], scanId), rootId, dirs[i][|dirs[i]| - 1], dirs[i], id,
                      rows')
    ensures WalkedTo(rows0, next0, rows', rootId, base, dirs, i + 1, pathToId[dirs[i] := id])
  {
    var parentId := ParentFor(pathToId, dirs[i], scanId);
    TouchedStep(rows0, next0, rows, next, parentId, rootId, dirs, i, id, rows');
    if ParentsFirst(base, dirs) {
      assert Dir(dirs[i]) in pathToId by { assert forall j | 0 <= j < i :: dirs[j] in dirs[..i]; }
      MirrorStep(rows, next, parentId, rootId, base, dirs, i, id, rows', pathToId);
    }
    VisitedStep(base, dirs, i, id, pathToId);
  }

  lemma FolderFacts(rows: Rows, rootId: int, dirs: seq<Path>, pathToId: map<Path, int>)
    requires PathSet(dirs) <= pathToId.Keys
    ensures forall d | d in dirs :: d in pathToId
    ensures MirrorsDirs(rows, pathToId, dirs, |dirs|) ==> forall d | d in dirs :: Mirrors(rows, pathToId, d)
  {
    forall d | d in dirs
      ensures d in pathToId
    {
      assert d in PathSet(dirs);
    }
    if MirrorsDirs(rows, pathToId, dirs, |dirs|) {
      forall d | d in dirs
        ensures Mirrors(rows, pathToId, d)
      {
        var k :| 0 <= k < |dirs| && dirs[k] == d;
        assert Mirrors(rows, pathToId, dirs[k]);
      }
    }
  }

  lemma VisitedStep(base: Path, dirs: seq<Path>, i: nat, id: int, pathToId: map<Path, int>)
    requires i < |dirs| && pathToId.Keys == {base} + PathSet(dirs[..i])
    ensures pathToId[dirs[i] := id].Keys == {base} + PathSet(dirs[..i + 1])
  {
    assert dirs[..i + 1] == dirs[..i] + [dirs[i]];
  }

  lemma TouchedStep(rows0: Rows, next0: int, rows: Rows, next: int, parentId: int, rootId: int, dirs: seq<Path>, i: nat,
                    id: int, rows': Rows)
    requires i < |dirs| && |dirs[i]| > 0 && next0 <= next
    requires OnlyFoldersTouched(rows0, next0, rootId, dirs[..i], rows)
    requires Upserted(rows, next, parentId, rootId, dirs[i][|dirs[i]| - 1], dirs[i], id, rows') && next !in rows
    ensures OnlyFoldersTouched(rows0, next0, rootId, dirs[..i + 1], rows')
  {
  }

  lemma MirrorStep(rows: Rows, next: int, parentId: int, rootId: int, base: Path, dirs: seq<Path>, i: nat,
                   id: int, rows': Rows, pathToId: map<Path, int>)
    requires i < |dirs| && |dirs[i]| > 0
    requires Dir(dirs[i]) in pathToId && parentId == pathToId[Dir(dirs[i])]
    requires forall p | p in pathToId ::
               pathToId[p] in rows && rows[pathToId[p]].path == p && rows[pathToId[p]].root == rootId
    requires forall a, b | a in rows && b in rows && a != b && rows[a].root == rows[b].root ::
               rows[a].path != rows[b].path
    requires Upserted(rows, next, parentId, rootId, dirs[i][|dirs[i]| - 1], dirs[i], id, rows') && next !in rows
    requires MirrorsDirs(rows, pathToId, dirs, i)
    ensures MirrorsDirs(rows', pathToId[dirs[i] := id], dirs, i + 1)
  {
    var m := pathToId[dirs[i] := id];
    assert dirs[i] in pathToId ==> pathToId[dirs[i]] == id;
    forall k | 0 <= k < i + 1
      ensures Mirrors(rows', m, dirs[k])
    {
      if dirs[k] != dirs[i] {
        assert Mirrors(rows, pathToId, dirs[k]);
        assert m[dirs[k]] == pathToId[dirs[k]] && m[Dir(dirs[k])] == pathToId[Dir(dirs[k])];
        assert pathToId[dirs[k]] != id;
      }
    }
  }

  lemma UpsertKeepsFolders(rows: Rows, next: int, parentId: int, rootId: int, name: string, path: Path, id: int,
                           rows': Rows, next': int, scanId: int, pathToId: map<Path, int>)
    requires Inv(rows, next) && Inv(rows', next') && Upserted(rows, next, parentId, rootId, name, path, id, rows')
    requires parentId in rows && rows[parentId].root == rootId && rows[parentId].path < path
    requires Under(rows, next, parentId, scanId)
    requires scanId in rows && rows[scanId].path < path
    requires FoldersBelow(rows, next, scanId, rootId, pathToId)
    ensures FoldersBelow(rows', next', scanId, rootId, pathToId[path := id])
  {
    forall x | x in rows && Under(rows, next, x, scanId)
      ensures Under(rows', next', x, scanId)
    {
      UpsertKeepsUnder(rows, next, parentId, rootId, name, path, id, rows', next', scanId, x);
    }
    assert HangsWell(rows', id);
    assert Under(rows', next', parentId, scanId);
    DepthOfChild(rows', next', id, scanId);
  }

  /** Hanging a row below something that is below scanId leaves what was below scanId there. */
  lemma {:induction false} UpsertKeepsUnder(rows: Rows, next: int, parentId: int, rootId: int, name: string, path: Path,
                                            id: int, rows': Rows, next': int, scanId: int, x: int)
    requires Inv(rows, next) && Inv(rows', next') && Upserted(rows, next, parentId, rootId, name, path, id, rows')
    requires parentId in rows && rows[parentId].path < path && Under(rows, next, parentId, scanId)
    requires x in rows && Under(rows, next, x, scanId)
    ensures Under(rows', next', x, scanId)
    decreases |rows[x].path|
  {
    assert HangsWell(rows, x);
    if x != scanId {
      if x == id {
        UpsertKeepsUnder(rows, next, parentId, rootId, name, path, id, rows', next', scanId, parentId);
      } else {
        UpsertKeepsUnder(rows, next, parentId, rootId, name, path, id, rows', next', scanId, rows[x].parent.value);
      }
    }
  }

  /** "Without modification": a second upsert of a directory leaves the table as it is exactly when its
      row already hangs below that parent. */
  lemma UpsertAgainModifiesExactlyWhen(rows: Rows, next: int, parentId: int, rootId: int, name: string, path: Path,
                                       id: int, rows': Rows)
    requires Upserted(rows, next, parentId, rootId, name, path, id, rows')
    requires exists c :: c in rows && rows[c].root == rootId && rows[c].path == path
    ensures rows' == rows <==> rows[id].parent == Some(parentId)
    ensures forall c | c in rows' && c != id :: c in rows && rows'[c] == rows[c]
    ensures id in rows' && rows'[id] == rows[id].(parent := rows'[id].parent)
  {
    if rows' == rows {
      assert rows'[id].parent == Some(parentId);
    }
  }

  /** The row id now hangs below parentId; it existed, or is new; nothing else changed. */
  ghost predicate Upserted(rows: Rows, next: int, parentId: int, rootId: int, name: string, path: Path, id: int,
                           rows': Rows) {
    && rootId in rows
    && if exists c :: c in rows && rows[c].root == rootId && rows[c].path == path
       then id in rows && rows[id].root == rootId && rows[id].path == path
            && rows' == rows[id := rows[id].(parent := Some(parentId))]
       else id == next && rows' == rows[id := Collection(Some(parentId), rootId, path, name, rows[rootId].kind, true)]
  }
}
