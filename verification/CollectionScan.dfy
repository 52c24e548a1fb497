/** The incremental scan of a collection: walk the folders, walk the files through the
    mtime - size - hash cascade, then mark what was not seen as missing. */
module CollectionScan {
  import opened Options
  import opened Collections
  import Sets

  datatype Media = Image | Video | Audio

  /** A file on disk; media is None when the extension is not supported. */
  datatype File = File(media: Option<Media>, size: int, hash: string, mtime: int)

  type Disk = map<Path, File>

  /** What may go wrong while one file is visited. */
  datatype Faults = Faults(stat: bool, clear: bool, hash: bool, info: bool, touch: bool, insert: bool)

  /** One call of the walk's callback; skipped when it reports a directory or a walk error. */
  datatype Callback = Callback(path: Path, skipped: bool, faults: Faults)

  datatype Item = Item(collection: int, path: Path, title: string, size: int, hash: string, mtime: Option<int>,
                       missing: bool, hidden: bool)

  type Items = map<int, Item>

  /** A row of the query for known items. */
  datatype Known = Known(id: int, size: int, hash: string, mtime: Option<int>, missing: bool, hasMetadata: bool)

  datatype SubJob = SubJob(media: Media, item: int)

  // ---- items and collections ----

  /** Every item lies in the collection of its directory, once. */
  ghost predicate ItemsInv(rows: Rows, items: Items, next: int) {
    && (forall id | id in items :: id < next && InItsFolder(rows, items[id]))
    && (forall a, b | a in items && b in items && a != b && items[a].path == items[b].path ::
            items[a].collection != items[b].collection)
  }

  ghost predicate InItsFolder(rows: Rows, i: Item) {
    |i.path| > 0 && i.collection in rows && rows[i.collection].path == Dir(i.path)
  }

  ghost predicate InTree(items: Items, tree: set<int>, id: int) {
    id in items && items[id].collection in tree
  }

  function TreeItems(items: Items, tree: set<int>): (ids: set<int>)
    ensures forall id :: id in ids <==> InTree(items, tree, id)
  {
    set id | id in items && items[id].collection in tree
  }

  ghost predicate UniquePaths(items: Items, tree: set<int>) {
    forall a, b | InTree(items, tree, a) && InTree(items, tree, b) && items[a].path == items[b].path :: a == b
  }

  /** The collections below scanId, itself included. */
  ghost predicate IsTree(rows: Rows, next: int, scanId: int, tree: set<int>)
    requires Inv(rows, next)
  {
    forall c :: c in tree <==> Under(rows, next, c, scanId)
  }

  lemma {:induction false} SameRootBelow(rows: Rows, next: int, c: int, scanId: int)
    requires Inv(rows, next) && Under(rows, next, c, scanId)
    ensures c in rows && scanId in rows && rows[c].root == rows[scanId].root
    decreases if c in rows then |rows[c].path| else 0
  {
    if c == scanId {
    } else {
      assert HangsWell(rows, c);
      SameRootBelow(rows, next, rows[c].parent.value, scanId);
    }
  }

  /** Within the scanned tree a path identifies an item. */
  lemma PathIdentifiesItem(rows: Rows, next: int, scanId: int, tree: set<int>, items: Items, nextItem: int)
    requires Inv(rows, next) && IsTree(rows, next, scanId, tree) && ItemsInv(rows, items, nextItem)
    ensures UniquePaths(items, tree)
  {
    forall a, b | InTree(items, tree, a) && InTree(items, tree, b) && items[a].path == items[b].path
      ensures a == b
    {
      SameRootBelow(rows, next, items[a].collection, scanId);
      SameRootBelow(rows, next, items[b].collection, scanId);
      assert InItsFolder(rows, items[a]) && InItsFolder(rows, items[b]);
    }
  }

  // ---- what a visit means ----

  predicate Newer(i: Item, f: File) {
    i.mtime == None || f.mtime > i.mtime.value
  }

  predicate Differs(i: Item, f: File) {
    i.size != f.size || i.hash != f.hash
  }

  function Latest(stored: Option<int>, onDisk: int): int {
    if stored.Some? && stored.value > onDisk then stored.value else onDisk
  }

  /** The reference: hash the file whatever its mtime says. */
  function Rehashed(i: Item, f: File): Item {
    i.(missing := false, size := f.size, hash := f.hash, mtime := Some(Latest(i.mtime, f.mtime)))
  }

  /** Files that look no newer are taken as they are stored. */
  function Believed(i: Item, f: File): Item {
    if Newer(i, f) then Rehashed(i, f) else i.(missing := false)
  }

  /** The base name up to its last dot. */
  function Stem(name: string): string {
    if '.' !in name then name
    else if name[|name| - 1] == '.' then name[..|name| - 1]
    else Stem(name[..|name| - 1])
  }

  /** Exactly the extension, from the last dot on, is cut off. */
  lemma {:induction false} StemCutsExtension(name: string)
    ensures '.' !in name ==> Stem(name) == name
    ensures '.' in name ==> exists ext :: '.' !in ext && name == Stem(name) + "." + ext
  {
    if '.' !in name {
    } else {
      var init, last := name[..|name| - 1], name[|name| - 1];
      if last == '.' {
        assert name == Stem(name) + "." + "";
      } else {
        StemCutsExtension(init);
        var ext :| '.' !in ext && init == Stem(init) + "." + ext;
        assert name == Stem(name) + "." + (ext + [last]);
      }
    }
  }

  function NewItem(folder: int, path: Path, f: File): Item
    requires |path| > 0
  {
    Item(folder, path, Stem(path[|path| - 1]), f.size, f.hash, Some(f.mtime), false, false)
  }

  /** title is the base name without its extension, if it has one. */
  ghost predicate TitleOf(base: string, title: string) {
    if '.' in base then exists ext :: '.' !in ext && base == title + "." + ext else title == base
  }

  /** A new item is neither missing nor hidden, and holds what the file has. */
  lemma NewItemMeaning(folder: int, path: Path, f: File)
    requires |path| > 0
    ensures var i := NewItem(folder, path, f);
            && i.collection == folder && i.path == path && i.size == f.size && i.hash == f.hash
            && i.mtime == Some(f.mtime) && !i.missing && !i.hidden && TitleOf(path[|path| - 1], i.title)
  {
    StemCutsExtension(path[|path| - 1]);
  }

  predicate FaultFree(f: Faults) {
    !f.stat && !f.clear && !f.hash && !f.info && !f.touch && !f.insert
  }

  ghost predicate Describes(k: Known, items: Items, metadata: set<int>, id: int)
    requires id in items
  {
    k == Known(id, items[id].size, items[id].hash, items[id].mtime, items[id].missing, id in metadata)
  }

  /** The snapshot entry for path p, or its absence, tells how the item at p is stored. */
  ghost predicate Accurate(known: map<Path, Known>, items: Items, metadata: set<int>, tree: set<int>, p: Path) {
    && (p in known ==> InTree(items, tree, known[p].id) && items[known[p].id].path == p
                       && Describes(known[p], items, metadata, known[p].id))
    && (forall id | InTree(items, tree, id) && items[id].path == p :: p in known && id == known[p].id)
  }

  /** Only this changes when the visit of path goes wrong somewhere. */
  ghost predicate Kept(a: Item, b: Item) {
    b.collection == a.collection && b.path == a.path && b.title == a.title && b.hidden == a.hidden
      && (b.missing ==> a.missing)
  }

  ghost predicate Harmless(s: Items, next: int, q: seq<SubJob>, tree: set<int>, folders: map<Path, int>,
                           category: Media, path: Path, f: File, s': Items, next': int, q': seq<SubJob>)
    requires |path| > 0
  {
    && next <= next'
    && (forall id | id in s ::
          id in s' && Kept(s[id], s'[id]) && (s'[id] == s[id] || (InTree(s, tree, id) && s[id].path == path)))
    && (forall id | id in s' && id !in s ::
            next <= id < next' && Dir(path) in folders && s'[id] == NewItem(folders[Dir(path)], path, f))
    && (q' == q || exists id :: InTree(s', tree, id) && s'[id].path == path && q' == q + [SubJob(category, id)])
  }

  /** The visit of path when nothing goes wrong. */
  ghost predicate Exact(s: Items, q: seq<SubJob>, metadata: set<int>, tree: set<int>, category: Media, path: Path,
                        f: File, s': Items, q': seq<SubJob>)
  {
    && (exists id :: InTree(s', tree, id) && s'[id].path == path)
    && forall id | InTree(s', tree, id) && s'[id].path == path ::
         && (id in s ==> s'[id] == Believed(s[id], f))
         && q' == if id in s ==> (Newer(s[id], f) && Differs(s[id], f)) || id !in metadata
            then q + [SubJob(category, id)] else q
  }

  class MediaLibrary {
    const store: CollectionStore
    var items: Items
    var nextItem: int
    var metadata: set<int>      // items with a metadata row of the library's category
    var subJobs: seq<SubJob>    // the running job's buffer

    ghost predicate Valid()
      reads this, store
    {
      store.Valid() && ItemsInv(store.rows, items, nextItem)
    }

    constructor (store: CollectionStore)
      requires store.Valid()
      ensures this.store == store && Valid() && items == map[]
    {
      this.store, items, nextItem, metadata, subJobs := store, map[], 1, {}, [];
    }

    method AddSubJob(media: Media, id: int)
      modifies this`subJobs
      ensures subJobs == old(subJobs) + [SubJob(media, id)]
    {
      subJobs := subJobs + [SubJob(media, id)];
    }

    /** INSERT ... ON CONFLICT (relative_path, collection_id) DO UPDATE; the collection exists.  The
        statement does not compare the two, but every item stays in the collection of its directory
        exactly when that is where the walk puts it. */
    method Upsert(folder: int, path: Path, f: File) returns (id: int)
      requires Valid() && |path| > 0 && folder in store.rows
      modifies this`items, this`nextItem
      ensures Valid() <==> store.rows[folder].path == Dir(path)
      ensures (exists i :: i in old(items) && old(items)[i].path == path && old(items)[i].collection == folder) ==>
                id in old(items) && old(items)[id].path == path && old(items)[id].collection == folder
                && nextItem == old(nextItem)
                && items == old(items)[id := old(items)[id].(missing := false, size := f.size, hash := f.hash,
                                                             mtime := Some(f.mtime))]
      ensures !(exists i :: i in old(items) && old(items)[i].path == path && old(items)[i].collection == folder) ==>
                id == old(nextItem) && nextItem == id + 1 && items == old(items)[id := NewItem(folder, path, f)]
      ensures id in items && items[id].collection == folder && items[id].path == path
      ensures items[id].size == f.size && items[id].hash == f.hash && items[id].mtime == Some(f.mtime)
      ensures !items[id].missing
      ensures !(exists i :: i in old(items) && old(items)[i].path == path && old(items)[i].collection == folder) ==>
                && !items[id].hidden
                && var base, title := path[|path| - 1], items[id].title;
                   if '.' in base then exists ext :: '.' !in ext && base == title + "." + ext else title == base
    {
      if i :| i in items && items[i].path == path && items[i].collection == folder {
        assert InItsFolder(store.rows, items[i]);
        items := items[i := items[i].(missing := false, size := f.size, hash := f.hash, mtime := Some(f.mtime))];
        return i;
      }
      id := nextItem;
      NewItemMeaning(folder, path, f);
      items := items[id := NewItem(folder, path, f)];
      nextItem := nextItem + 1;
      assert ItemsInv(store.rows, items, nextItem) ==> InItsFolder(store.rows, items[id]);
    }

    method ClearMissing(id: int)
      requires id in items
      modifies this`items
      ensures items == old(items)[id := old(items)[id].(missing := false)]
    {
      items := items[id := items[id].(missing := false)];
    }

    method MarkMissing(id: int)
      requires id in items
      modifies this`items
      ensures items == old(items)[id := old(items)[id].(missing := true)]
    {
      items := items[id := items[id].(missing := true)];
    }

    method UpdateFileInfo(id: int, f: File)
      requires id in items
      modifies this`items
      ensures items == old(items)[id := old(items)[id].(size := f.size, hash := f.hash, mtime := Some(f.mtime))]
    {
      items := items[id := items[id].(size := f.size, hash := f.hash, mtime := Some(f.mtime))];
    }

    method UpdateModifiedAt(id: int, mtime: int)
      requires id in items
      modifies this`items
      ensures items == old(items)[id := old(items)[id].(mtime := Some(mtime))]
    {
      items := items[id := items[id].(mtime := Some(mtime))];
    }

    /** Deletes a collection and, by cascade, everything below it with its items. */
    method DeleteCollection(id: int)
      requires Valid()
      modifies this`items, store`rows, store`access
      ensures Valid() && store.nextId == old(store.nextId)
      ensures store.rows == map c | c in old(store.rows) && !Under(old(store.rows), store.nextId, c, id) ::
                old(store.rows)[c]
      ensures items == map i | i in old(items) && old(items)[i].collection in store.rows :: old(items)[i]
    {
      ghost var rows := store.rows;
      store.CollectionDelete(id);
      items := map i | i in items && items[i].collection in store.rows :: items[i];
      forall i | i in items
        ensures InItsFolder(store.rows, items[i])
      {
        assert InItsFolder(rows, items[i]);
      }
    }

    method KnownForScan(tree: set<int>) returns (known: map<Path, Known>)
      requires UniquePaths(items, tree)
      ensures forall p :: Accurate(known, items, metadata, tree, p)
    {
      known := map[];
      var rows := TreeItems(items, tree);
      var left, items := rows, items;
      while left != {}
        invariant left <= rows
        invariant forall p | p in known ::
                    InTree(items, tree, known[p].id) && known[p].id !in left && items[known[p].id].path == p
                                       && Describes(known[p], items, metadata, known[p].id)
        invariant forall id | id in rows && id !in left :: items[id].path in known
        decreases left
      {
        Sets.Inhabited(left);
        var id :| id in left;
        left := left - {id};
        known := known[items[id].path := Known(id, items[id].size, items[id].hash, items[id].mtime, items[id].missing,
                                               id in metadata)];
      }
    }

    /** A file that is known, present or missing. */
    method VisitKnown(path: Path, f: File, faults: Faults, k: Known, category: Media)
      requires k.id in items && Describes(k, items, metadata, k.id) && items[k.id].path == path
      modifies this`items, this`subJobs
      ensures items.Keys == old(items.Keys)
      ensures forall id | id in items && id != k.id :: items[id] == old(items)[id]
      ensures Kept(old(items)[k.id], items[k.id])
      ensures subJobs == old(subJobs) || subJobs == old(subJobs) + [SubJob(category, k.id)]
      ensures !(faults.clear || faults.hash || faults.info || faults.touch) ==>
                && items[k.id] == Believed(old(items)[k.id], f)
                && subJobs == old(subJobs)
                     + if (Newer(old(items)[k.id], f) && Differs(old(items)[k.id], f)) || k.id !in metadata
                       then [SubJob(category, k.id)] else []
      ensures old(items)[k.id].missing && faults.clear ==> items == old(items) && subJobs == old(subJobs)
      ensures !(old(items)[k.id].missing && faults.clear) ==>
                var i := old(items)[k.id].(missing := false);
                var newer := i.mtime == None || f.mtime > i.mtime.value;
                var differs := f.size != i.size || f.hash != i.hash;
                if newer && (faults.hash || (differs && faults.info)) then
                  items[k.id] == i && subJobs == old(subJobs)
                else if newer && differs then
                  && items[k.id] == i.(size := f.size, hash := f.hash, mtime := Some(f.mtime))
                  && subJobs == old(subJobs) + [SubJob(category, k.id)]
                else
                  && items[k.id] == (if newer && !faults.touch then i.(mtime := Some(f.mtime)) else i)
                  && (subJobs != old(subJobs) <==> k.id !in metadata)
    {
      if k.missing {
        if faults.clear {
          return;
        }
        ClearMissing(k.id);
      }
      if k.mtime.Some? && !(f.mtime > k.mtime.value) {
        if k.hasMetadata {
          return;
        }
        AddSubJob(category, k.id);
        return;
      }
      if f.size != k.size {
        if faults.hash || faults.info {
          return;
        }
        UpdateFileInfo(k.id, f);
        AddSubJob(category, k.id);
        return;
      }
      if faults.hash {
        return;
      }
      if f.hash != k.hash {
        if faults.info {
          return;
        }
        UpdateFileInfo(k.id, f);
        AddSubJob(category, k.id);
        return;
      }
      if !faults.touch {
        UpdateModifiedAt(k.id, f.mtime);
      }
      if !k.hasMetadata {
        AddSubJob(category, k.id);
      }
    }

    /** The body of the walk's callback for a supported file. */
    method VisitFile(path: Path, f: File, faults: Faults, known: map<Path, Known>, folders: map<Path, int>,
                     category: Media, ghost tree: set<int>)
      requires Valid() && |path| > 0 && FoldersIn(store.rows, folders, tree)
      requires Accurate(known, items, metadata, tree, path)
      modifies this`items, this`nextItem, this`subJobs
      ensures Valid()
      ensures Harmless(old(items), old(nextItem), old(subJobs), tree, folders, category, path, f, items, nextItem,
                       subJobs)
      ensures FaultFree(faults) && Dir(path) in folders ==>
                Exact(old(items), old(subJobs), metadata, tree, category, path, f, items, subJobs)
    {
      if faults.stat {
        return;
      }
      if path in known {
        VisitKnown(path, f, faults, known[path], category);
        KeptKeepsInv(store.rows, old(items), items, nextItem);
        assert InTree(items, tree, known[path].id);
        return;
      }
      if faults.hash || Dir(path) !in folders || faults.insert {
        return;
      }
      var id := Upsert(folders[Dir(path)], path, f);
      AddSubJob(category, id);
      assert InTree(items, tree, id);
    }

    /** VisitFile, told what the visits before it did. */
    method VisitNext(path: Path, disk: Disk, faults: Faults, known: map<Path, Known>, folders: map<Path, int>,
                     category: Media, ghost s0: Items, ghost next0: int, ghost tree: set<int>, ghost seen: set<Path>,
                     ghost smooth: bool)
      requires Valid() && |path| > 0 && path in disk && path !in seen && FoldersIn(store.rows, folders, tree)
      requires VisitedSo(s0, next0, tree, folders, disk, category, metadata, known, seen, smooth, items, nextItem,
                         subJobs)
      modifies this`items, this`nextItem, this`subJobs
      ensures Valid()
      ensures VisitedSo(s0, next0, tree, folders, disk, category, metadata, known, seen + {path},
                        smooth && FaultFree(faults) && Dir(path) in folders, items, nextItem, subJobs)
    {
      ghost var s, next, q := items, nextItem, subJobs;
      VisitFile(path, disk[path], faults, known, folders, category, tree);
      VisitStep(s0, next0, tree, folders, disk, category, metadata, known, seen, smooth,
                smooth && FaultFree(faults) && Dir(path) in folders, s, next, q, path, items, nextItem, subJobs);
    }

    /** Step 2.  From callback number cancelledFrom on, the context is cancelled. */
    method WalkFiles(walk: seq<Callback>, disk: Disk, cancelledFrom: nat, known: map<Path, Known>,
                     folders: map<Path, int>, category: Media, ghost tree: set<int>)
        returns (seenPaths: set<Path>)
      requires Valid() && GoodWalk(walk, disk) && FoldersIn(store.rows, folders, tree) && subJobs == []
      requires forall p :: Accurate(known, items, metadata, tree, p)
      modifies this`items, this`nextItem, this`subJobs
      ensures Valid()
      ensures seenPaths == SeenBy(walk, disk, category, if cancelledFrom < |walk| then cancelledFrom else |walk|)
      ensures SafeSoFar(old(items), old(nextItem), tree, folders, disk, seenPaths, items, nextItem)
      ensures QueueSafe(tree, category, seenPaths, items, subJobs)
      ensures Smooth(walk, disk, category, folders, |walk|) ==>
                ExactSoFar(old(items), metadata, tree, disk, seenPaths, items, subJobs)
    {
      seenPaths := {};
      for n := 0 to |walk|
        invariant Valid()
        invariant seenPaths == SeenBy(walk, disk, category, if cancelledFrom < n then cancelledFrom else n)
        invariant VisitedSo(old(items), old(nextItem), tree, folders, disk, category, metadata, known, seenPaths,
                            Smooth(walk, disk, category, folders, n), items, nextItem, subJobs)
      {
        var c := walk[n];
        if c.skipped || n >= cancelledFrom || disk[c.path].media != Some(category) {
          continue;
        }
        NotSeenYet(walk, disk, category, n, n);
        VisitNext(c.path, disk, c.faults, known, folders, category, old(items), old(nextItem), tree, seenPaths,
                  Smooth(walk, disk, category, folders, n));
        seenPaths := seenPaths + {c.path};
      }
    }

    /** Step 3.  After ticksLeft further items the context is cancelled; updates of the items in
        failing fail. */
    method MarkUnseen(tree: set<int>, seenPaths: set<Path>, ticksLeft: nat, failing: set<int>) returns (done: bool)
      requires Valid()
      modifies this`items
      ensures Valid()
      ensures MarkedSo(old(items), tree, seenPaths, failing, if done then {} else old(items).Keys, items)
      ensures done <==> |TreeItems(old(items), tree)| <= ticksLeft
      ensures items.Keys == old(items).Keys
      ensures forall id | id in items ::
                || items[id] == old(items)[id]
                || (old(items)[id].collection in tree && old(items)[id].path !in seenPaths
                    && items[id] == old(items)[id].(missing := true))
      ensures done ==> forall id | id in items && items[id].collection in tree && items[id].path !in seenPaths ::
                items[id].missing || id in failing
    {
      var rows := TreeItems(items, tree);
      var left, ticks := rows, 0;
      while left != {}
        invariant left <= rows && ticks == |rows| - |left| <= ticksLeft
        invariant Valid() && MarkedSo(old(items), tree, seenPaths, failing, left, items)
        decreases left
      {
        if ticks >= ticksLeft {
          return false;
        }
        Sets.Inhabited(left);
        var id :| id in left;
        left, ticks := left - {id}, ticks + 1;
        MarkOne(id, seenPaths, failing);
      }
      return true;
    }

    method MarkOne(id: int, seenPaths: set<Path>, failing: set<int>)
      requires Valid() && id in items
      modifies this`items
      ensures Valid()
      ensures items == if old(items)[id].path !in seenPaths && id !in failing
              then old(items)[id := old(items)[id].(missing := true)] else old(items)
    {
      if items[id].path !in seenPaths && !items[id].missing && id !in failing {
        MarkMissing(id);
      }
    }

    /** Step 1 and the queries of step 2. */
    method Prepare(scanId: int, dirs: seq<Path>)
      returns (pathToId: map<Path, int>, tree: set<int>, known: map<Path, Known>)
      requires Valid() && scanId in store.rows
      requires forall d | d in dirs :: store.rows[scanId].path < d
      modifies store`rows, store`nextId
      ensures Valid() && IsTree(store.rows, store.nextId, scanId, tree) && FoldersIn(store.rows, pathToId, tree)
      ensures forall p :: Accurate(known, items, metadata, tree, p)
    {
      ghost var rows := store.rows;
      pathToId := store.WalkFolders(scanId, store.rows[scanId].root, dirs);
      FoldersKeepItems(rows, store.rows, items, nextItem);
      tree := store.Cascade(scanId);
      PathIdentifiesItem(store.rows, store.nextId, scanId, tree, items, nextItem);
      known := KnownForScan(tree);
    }

    /** The whole job.  done is false when the collection is gone or disabled, or the context was
        cancelled. */
    method Scan(scanId: int, category: Media, dirs: seq<Path>, walk: seq<Callback>, disk: Disk, cancelledFrom: nat,
                failing: set<int>)
        returns (done: bool, ghost tree: set<int>, ghost folders: map<Path, int>)
      requires Valid() && GoodWalk(walk, disk)
      requires forall d | d in dirs && scanId in store.rows :: store.rows[scanId].path < d
      modifies this`items, this`nextItem, this`subJobs, store`rows, store`nextId
      ensures Valid()
      ensures UniquePaths(items, tree) && (scanId in old(store.rows) ==> IsTree(store.rows, store.nextId, scanId, tree))
      ensures ScanKeeps(old(items), old(nextItem), tree, folders, disk, SeenBy(walk, disk, category, |walk|), items,
                        nextItem)
      ensures QueueSafe(tree, category, SeenBy(walk, disk, category, |walk|), items, subJobs)
      ensures done && failing == {} && Smooth(walk, disk, category, folders, |walk|) ==>
                Complete(old(items), metadata, tree, disk, SeenBy(walk, disk, category, |walk|), items, subJobs)
      ensures done <==> && scanId in old(store.rows) && old(store.rows)[scanId].enabled
                        && |walk| + |TreeItems(items, tree)| < cancelledFrom
      ensures forall id | id in old(items) ::
                && id in items && items[id].collection == old(items)[id].collection
                   && items[id].path == old(items)[id].path
                && items[id].title == old(items)[id].title && items[id].hidden == old(items)[id].hidden
                && (old(items)[id].collection !in tree ==> items[id] == old(items)[id])
                && (items[id].missing && !old(items)[id].missing ==>
                      old(items)[id].path !in SeenBy(walk, disk, category, |walk|))
      ensures forall id | id in items && id !in old(items) :: IsInserted(items[id], tree, disk)
    {
      done, tree, folders, subJobs := false, {}, map[], [];
      if scanId !in store.rows {
        return;
      }
      if !store.rows[scanId].enabled {
        tree := store.Cascade(scanId);
        PathIdentifiesItem(store.rows, store.nextId, scanId, tree, items, nextItem);
        return;
      }
      var pathToId, ids, known := Prepare(scanId, dirs);
      tree, folders := ids, pathToId;
      var seenPaths := WalkFiles(walk, disk, cancelledFrom, known, pathToId, category, tree);
      ghost var visited := items;
      if cancelledFrom > |walk| {
        done := MarkUnseen(ids, seenPaths, cancelledFrom - |walk| - 1, failing);
        WalkThenMark(old(items), old(nextItem), tree, folders, disk, category, metadata, seenPaths, visited, nextItem,
                     subJobs, failing, done, items);
      } else {
        WalkCutShort(old(items), old(nextItem), tree, folders, disk, category, walk, cancelledFrom, items, nextItem,
                     subJobs);
      }
      PathIdentifiesItem(store.rows, store.nextId, scanId, tree, items, nextItem);
      NewAreInserted(old(items), old(nextItem), tree, folders, disk, SeenBy(walk, disk, category, |walk|), items,
                     nextItem);
    }
  }

  lemma WalkThenMark(s0: Items, next0: int, tree: set<int>, folders: map<Path, int>, disk: Disk, category: Media,
                     metadata: set<int>, walked: set<Path>, visited: Items, next: int, q: seq<SubJob>,
                     failing: set<int>, done: bool, s: Items)
    requires walked <= disk.Keys && FoldersInTree(folders, tree)
    requires SafeSoFar(s0, next0, tree, folders, disk, walked, visited, next)
    requires QueueSafe(tree, category, walked, visited, q)
    requires MarkedSo(visited, tree, walked, failing, if done then {} else visited.Keys, s)
    ensures ScanKeeps(s0, next0, tree, folders, disk, walked, s, next) && QueueSafe(tree, category, walked, s, q)
    ensures TreeItems(s, tree) == TreeItems(visited, tree)
    ensures done && failing == {} && ExactSoFar(s0, metadata, tree, disk, walked, visited, q) ==>
              Complete(s0, metadata, tree, disk, walked, s, q)
  {
    var rows, rows' := TreeItems(visited, tree), TreeItems(s, tree);
    assert forall id :: id in rows' <==> id in rows;
    if done && failing == {} && ExactSoFar(s0, metadata, tree, disk, walked, visited, q) {
      MarkCompletes(s0, next0, tree, folders, disk, category, metadata, walked, visited, next, q, s);
    }
  }

  lemma MarkCompletes(s0: Items, next0: int, tree: set<int>, folders: map<Path, int>, disk: Disk, category: Media,
                      metadata: set<int>, walked: set<Path>, visited: Items, next: int, q: seq<SubJob>, s: Items)
    requires walked <= disk.Keys
    requires SafeSoFar(s0, next0, tree, folders, disk, walked, visited, next)
    requires QueueSafe(tree, category, walked, visited, q)
    requires MarkedSo(visited, tree, walked, {}, {}, s)
    requires ExactSoFar(s0, metadata, tree, disk, walked, visited, q)
    ensures Complete(s0, metadata, tree, disk, walked, s, q)
  {
    forall p | p in walked
      ensures HasItem(s, tree, p)
    {
      var id :| InTree(visited, tree, id) && visited[id].path == p;
      assert InTree(s, tree, id);
    }
    forall id | InTree(s, tree, id) && s[id].path in walked
      ensures !s[id].missing && SettledItem(s0, metadata, disk, s, q, id)
    {
      assert InTree(visited, tree, id) && s[id] == visited[id];
      assert SettledItem(s0, metadata, disk, visited, q, id);
    }
    forall id | InTree(s, tree, id) && s[id].path !in walked
      ensures id in s0 && s[id] == s0[id].(missing := true) && !Queued(q, id)
    {
      assert InTree(visited, tree, id);
    }
  }

  /** A cancelled walk saw fewer paths, and nothing is marked after it. */
  lemma WalkCutShort(s0: Items, next0: int, tree: set<int>, folders: map<Path, int>, disk: Disk, category: Media,
                     walk: seq<Callback>, n: nat, s: Items, next: int, q: seq<SubJob>)
    requires n <= |walk| && FoldersInTree(folders, tree)
    requires SafeSoFar(s0, next0, tree, folders, disk, SeenBy(walk, disk, category, n), s, next)
    requires QueueSafe(tree, category, SeenBy(walk, disk, category, n), s, q)
    ensures ScanKeeps(s0, next0, tree, folders, disk, SeenBy(walk, disk, category, |walk|), s, next)
    ensures QueueSafe(tree, category, SeenBy(walk, disk, category, |walk|), s, q)
  {
    SeenByMeaning(walk, disk, category, n);
    SeenByMeaning(walk, disk, category, |walk|);
    assert SeenBy(walk, disk, category, n) <= SeenBy(walk, disk, category, |walk|);
  }

  ghost predicate FoldersInTree(folders: map<Path, int>, tree: set<int>) {
    forall p | p in folders :: folders[p] in tree
  }

  /** Another path's item, or the lack of one, is not affected by a visit. */
  lemma AccurateElsewhere(s: Items, next: int, q: seq<SubJob>, tree: set<int>, folders: map<Path, int>, category: Media,
                          path: Path, f: File, s': Items, next': int, q': seq<SubJob>, known: map<Path, Known>,
                          metadata: set<int>)
    requires |path| > 0 && Harmless(s, next, q, tree, folders, category, path, f, s', next', q')
    ensures forall p | p != path && Accurate(known, s, metadata, tree, p) :: Accurate(known, s', metadata, tree, p)
  {
  }

  // ---- the walk ----

  /** Files are on disk and reported once. */
  ghost predicate GoodWalk(walk: seq<Callback>, disk: Disk) {
    && (forall n | 0 <= n < |walk| && !walk[n].skipped :: walk[n].path in disk && |walk[n].path| > 0)
    && (forall m, n | 0 <= m < n < |walk| && !walk[m].skipped && !walk[n].skipped :: walk[m].path != walk[n].path)
  }

  ghost predicate Supported(c: Callback, disk: Disk, category: Media) {
    !c.skipped && c.path in disk && disk[c.path].media == Some(category)
  }

  ghost function SeenBy(walk: seq<Callback>, disk: Disk, category: Media, n: nat): (seen: set<Path>)
    requires n <= |walk|
    ensures seen <= disk.Keys
  {
    if n == 0 then {}
    else SeenBy(walk, disk, category, n - 1) + if Supported(walk[n - 1], disk, category) then {walk[n - 1].path} else {}
  }

  lemma {:induction false} SeenByMeaning(walk: seq<Callback>, disk: Disk, category: Media, n: nat)
    requires n <= |walk|
    ensures forall p :: p in SeenBy(walk, disk, category, n) <==>
                        exists m :: 0 <= m < n && !walk[m].skipped && walk[m].path == p
                                    && p in disk && disk[p].media == Some(category)
  {
    if n == 0 {
    } else {
      SeenByMeaning(walk, disk, category, n - 1);
    }
  }

  /** No callback reports a path again. */
  lemma NotSeenYet(walk: seq<Callback>, disk: Disk, category: Media, n: nat, m: nat)
    requires GoodWalk(walk, disk) && n <= m < |walk| && !walk[m].skipped
    ensures walk[m].path !in SeenBy(walk, disk, category, n)
  {
  }

  /** No fault in the first n callbacks, and each file's directory has been recorded. */
  ghost predicate Smooth(walk: seq<Callback>, disk: Disk, category: Media, folders: map<Path, int>, n: nat)
    requires n <= |walk|
  {
    forall m | 0 <= m < n && Supported(walk[m], disk, category) ::
        FaultFree(walk[m].faults) && |walk[m].path| > 0 && Dir(walk[m].path) in folders
  }

  /** Updates that keep an item's place keep the items where they belong. */
  lemma KeptKeepsInv(rows: Rows, items: Items, items': Items, next: int)
    requires ItemsInv(rows, items, next) && items.Keys == items'.Keys
             && forall id | id in items :: Kept(items[id], items'[id])
    ensures ItemsInv(rows, items', next)
  {
  }

  ghost predicate FoldersIn(rows: Rows, folders: map<Path, int>, tree: set<int>) {
    FoldersInTree(folders, tree) && forall p | p in folders :: folders[p] in rows && rows[folders[p]].path == p
  }

  // ---- whole walks ----

  ghost predicate Queued(q: seq<SubJob>, id: int) {
    exists i :: 0 <= i < |q| && q[i].item == id
  }

  /** Each queued item was seen, and is queued once. */
  ghost predicate QueueSafe(tree: set<int>, category: Media, seen: set<Path>, s: Items, q: seq<SubJob>) {
    && (forall i | 0 <= i < |q| :: q[i].media == category && InTree(s, tree, q[i].item) && s[q[i].item].path in seen)
    && (forall i, j | 0 <= i < j < |q| :: q[i].item != q[j].item)
  }

  ghost predicate IsNew(i: Item, folders: map<Path, int>, disk: Disk) {
    |i.path| > 0 && i.path in disk && Dir(i.path) in folders && i == NewItem(folders[Dir(i.path)], i.path, disk[i.path])
  }

  /** Whatever goes wrong: no row is lost, nothing becomes missing, and only rows of seen paths of
      the tree change or appear. */
  ghost predicate SafeSoFar(s0: Items, next0: int, tree: set<int>, folders: map<Path, int>, disk: Disk, seen: set<Path>,
                            s: Items, next: int)
  {
    && next0 <= next
    && (forall id | id in s0 ::
          id in s && Kept(s0[id], s[id]) && (s[id] == s0[id] || (InTree(s0, tree, id) && s0[id].path in seen)))
    && (forall id | id in s && id !in s0 :: next0 <= id && s[id].path in seen && IsNew(s[id], folders, disk))
  }

  /** The items to queue: new, changed, or without metadata. */
  ghost predicate Wanted(s0: Items, metadata: set<int>, id: int, f: File) {
    id in s0 ==> (Newer(s0[id], f) && Differs(s0[id], f)) || id !in metadata
  }

  ghost predicate SettledItem(s0: Items, metadata: set<int>, disk: Disk, s: Items, q: seq<SubJob>, id: int)
    requires id in s && s[id].path in disk
  {
    && (id in s0 ==> s[id] == Believed(s0[id], disk[s[id].path]))
    && (Queued(q, id) <==> Wanted(s0, metadata, id, disk[s[id].path]))
  }

  /** When nothing goes wrong: every seen path has its item, stored and queued as it should be. */
  ghost predicate ExactSoFar(s0: Items, metadata: set<int>, tree: set<int>, disk: Disk, seen: set<Path>, s: Items,
                             q: seq<SubJob>)
    requires seen <= disk.Keys
  {
    && (forall p | p in seen :: HasItem(s, tree, p))
    && (forall id | InTree(s, tree, id) && s[id].path in seen :: SettledItem(s0, metadata, disk, s, q, id))
  }

  ghost predicate HasItem(s: Items, tree: set<int>, p: Path) {
    exists id :: InTree(s, tree, id) && s[id].path == p
  }

  lemma SafeStep(s0: Items, next0: int, tree: set<int>, folders: map<Path, int>, disk: Disk, seen: set<Path>, s: Items,
                 next: int, q: seq<SubJob>, category: Media, path: Path, s': Items, next': int, q': seq<SubJob>)
    requires |path| > 0 && path in disk && path !in seen
    requires SafeSoFar(s0, next0, tree, folders, disk, seen, s, next) && QueueSafe(tree, category, seen, s, q)
    requires Harmless(s, next, q, tree, folders, category, path, disk[path], s', next', q')
    ensures SafeSoFar(s0, next0, tree, folders, disk, seen + {path}, s', next')
    ensures QueueSafe(tree, category, seen + {path}, s', q')
  {
  }

  lemma QueuedStep(q: seq<SubJob>, j: SubJob, id: int)
    ensures Queued(q + [j], id) <==> Queued(q, id) || j.item == id
  {
    assert (q + [j])[|q|] == j;
    assert forall i | 0 <= i < |q| :: (q + [j])[i] == q[i];
  }

  /** An item seen before is left as it was. */
  lemma SettledBefore(s0: Items, tree: set<int>, folders: map<Path, int>, disk: Disk, s: Items, next: int,
                      q: seq<SubJob>, metadata: set<int>, category: Media, path: Path, s': Items, next': int,
                      q': seq<SubJob>, id: int)
    requires |path| > 0 && path in disk
    requires Harmless(s, next, q, tree, folders, category, path, disk[path], s', next', q')
    requires InTree(s', tree, id) && s'[id].path != path && s'[id].path in disk
    requires InTree(s, tree, id) ==> SettledItem(s0, metadata, disk, s, q, id)
    ensures InTree(s, tree, id) && s[id] == s'[id] && SettledItem(s0, metadata, disk, s', q', id)
  {
    if q' != q {
      var n :| InTree(s', tree, n) && s'[n].path == path && q' == q + [SubJob(category, n)];
      QueuedStep(q, SubJob(category, n), id);
    }
  }

  /** The item of the path just visited. */
  lemma SettledNow(s0: Items, next0: int, tree: set<int>, folders: map<Path, int>, disk: Disk, seen: set<Path>,
                   s: Items, next: int, q: seq<SubJob>, metadata: set<int>, category: Media, path: Path, s': Items,
                   next': int, q': seq<SubJob>, id: int)
    requires |path| > 0 && path in disk && path !in seen
    requires SafeSoFar(s0, next0, tree, folders, disk, seen, s, next) && QueueSafe(tree, category, seen, s, q)
    requires Harmless(s, next, q, tree, folders, category, path, disk[path], s', next', q')
    requires Exact(s, q, metadata, tree, category, path, disk[path], s', q')
    requires InTree(s', tree, id) && s'[id].path == path
    ensures SettledItem(s0, metadata, disk, s', q', id)
  {
    assert id in s <==> id in s0;
    assert id in s0 ==> s[id] == s0[id];
    assert !Queued(q, id);
    QueuedStep(q, SubJob(category, id), id);
  }

  lemma ExactStep(s0: Items, next0: int, tree: set<int>, folders: map<Path, int>, disk: Disk, seen: set<Path>, s: Items,
                  next: int, q: seq<SubJob>, metadata: set<int>, category: Media, path: Path, s': Items, next': int,
                  q': seq<SubJob>)
    requires |path| > 0 && path in disk && path !in seen && seen <= disk.Keys
    requires SafeSoFar(s0, next0, tree, folders, disk, seen, s, next) && QueueSafe(tree, category, seen, s, q)
    requires Harmless(s, next, q, tree, folders, category, path, disk[path], s', next', q')
    requires ExactSoFar(s0, metadata, tree, disk, seen, s, q)
    requires Exact(s, q, metadata, tree, category, path, disk[path], s', q')
    ensures ExactSoFar(s0, metadata, tree, disk, seen + {path}, s', q')
  {
    forall p | p in seen
      ensures HasItem(s', tree, p)
    {
      var id :| InTree(s, tree, id) && s[id].path == p;
      assert InTree(s', tree, id);
    }
    forall id | InTree(s', tree, id) && s'[id].path in seen + {path}
      ensures SettledItem(s0, metadata, disk, s', q', id)
    {
      if s'[id].path == path {
        SettledNow(s0, next0, tree, folders, disk, seen, s, next, q, metadata, category, path, s', next', q', id);
      } else {
        SettledBefore(s0, tree, folders, disk, s, next, q, metadata, category, path, s', next', q', id);
      }
    }
  }

  /** The state of the walk once the paths in seen have been visited. */
  ghost predicate VisitedSo(s0: Items, next0: int, tree: set<int>, folders: map<Path, int>, disk: Disk, category: Media,
                            metadata: set<int>, known: map<Path, Known>, seen: set<Path>, smooth: bool,
                            s: Items, next: int, q: seq<SubJob>)
  {
    && seen <= disk.Keys
    && (forall p | p !in seen :: Accurate(known, s, metadata, tree, p))
    && SafeSoFar(s0, next0, tree, folders, disk, seen, s, next)
    && QueueSafe(tree, category, seen, s, q)
    && (smooth ==> ExactSoFar(s0, metadata, tree, disk, seen, s, q))
  }

  lemma VisitStep(s0: Items, next0: int, tree: set<int>, folders: map<Path, int>, disk: Disk, category: Media,
                  metadata: set<int>, known: map<Path, Known>, seen: set<Path>, smooth: bool, smooth': bool,
                  s: Items, next: int, q: seq<SubJob>, path: Path, s': Items, next': int, q': seq<SubJob>)
    requires |path| > 0 && path in disk && path !in seen
    requires VisitedSo(s0, next0, tree, folders, disk, category, metadata, known, seen, smooth, s, next, q)
    requires Harmless(s, next, q, tree, folders, category, path, disk[path], s', next', q')
    requires smooth' ==> smooth && Exact(s, q, metadata, tree, category, path, disk[path], s', q')
    ensures VisitedSo(s0, next0, tree, folders, disk, category, metadata, known, seen + {path}, smooth', s', next', q')
  {
    AccurateElsewhere(s, next, q, tree, folders, category, path, disk[path], s', next', q', known, metadata);
    SafeStep(s0, next0, tree, folders, disk, seen, s, next, q, category, path, s', next', q');
    if smooth' {
      ExactStep(s0, next0, tree, folders, disk, seen, s, next, q, metadata, category, path, s', next', q');
    }
  }

  /** Of the rows, those not in left have been marked if their path was not seen. */
  ghost predicate MarkedSo(s0: Items, tree: set<int>, seenPaths: set<Path>, failing: set<int>, left: set<int>,
                           s: Items) {
    && s.Keys == s0.Keys
    && (forall id | id in s ::
          || s[id] == s0[id]
          || (InTree(s0, tree, id) && s0[id].path !in seenPaths && s[id] == s0[id].(missing := true)))
    && (forall id | InTree(s0, tree, id) && id !in left && s0[id].path !in seenPaths :: s[id].missing || id in failing)
  }

  /** Upserting folders keeps every item in the collection of its directory. */
  lemma FoldersKeepItems(rows: Rows, rows': Rows, items: Items, next: int)
    requires ItemsInv(rows, items, next) && forall c | c in rows :: c in rows' && rows'[c].path == rows[c].path
    ensures ItemsInv(rows', items, next)
  {
  }

  // ---- what a scan guarantees ----

  predicate SameIdentity(a: Item, b: Item) {
    a.collection == b.collection && a.path == b.path && a.title == b.title && a.hidden == b.hidden
  }

  /** A visible, present item of the tree, as its file is on disk and named after it. */
  ghost predicate IsInserted(i: Item, tree: set<int>, disk: Disk) {
    && i.collection in tree && |i.path| > 0 && i.path in disk
    && i.size == disk[i.path].size && i.hash == disk[i.path].hash && i.mtime == Some(disk[i.path].mtime)
    && !i.missing && !i.hidden && TitleOf(i.path[|i.path| - 1], i.title)
  }

  lemma NewAreInserted(s0: Items, next0: int, tree: set<int>, folders: map<Path, int>, disk: Disk, walked: set<Path>,
                       s: Items, next: int)
    requires ScanKeeps(s0, next0, tree, folders, disk, walked, s, next)
    ensures forall id | id in s && id !in s0 :: IsInserted(s[id], tree, disk)
  {
    forall id | id in s && id !in s0
      ensures IsInserted(s[id], tree, disk)
    {
      NewItemMeaning(folders[Dir(s[id].path)], s[id].path, disk[s[id].path]);
    }
  }

  /** Always, whatever fails and whenever the scan is cancelled. */
  ghost predicate ScanKeeps(s0: Items, next0: int, tree: set<int>, folders: map<Path, int>, disk: Disk,
                            walked: set<Path>, s: Items, next: int) {
    && next0 <= next
    && (forall id | id in s0 :: id in s && SameIdentity(s0[id], s[id]))
    && (forall id | id in s0 && s[id] != s0[id] :: InTree(s0, tree, id))
    && (forall id | id in s0 && s[id].missing && !s0[id].missing :: s0[id].path !in walked)
    && (forall id | id in s && id !in s0 ::
            next0 <= id && InTree(s, tree, id) && s[id].path in walked && IsNew(s[id], folders, disk))
  }

  /** A scan without faults that was not cancelled. */
  ghost predicate Complete(s0: Items, metadata: set<int>, tree: set<int>, disk: Disk, walked: set<Path>, s: Items,
                           q: seq<SubJob>)
    requires walked <= disk.Keys
  {
    && (forall p | p in walked :: HasItem(s, tree, p))
    && (forall id | InTree(s, tree, id) && s[id].path in walked ::
            !s[id].missing && SettledItem(s0, metadata, disk, s, q, id))
    && (forall id | InTree(s, tree, id) && s[id].path !in walked ::
            id in s0 && s[id] == s0[id].(missing := true) && !Queued(q, id))
  }
}
