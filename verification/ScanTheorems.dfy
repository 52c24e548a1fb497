/** What follows for scans as a whole: the cascade against rehashing every file, repeated scans,
    and runs of scans that fail or are cancelled anywhere. */
module ScanTheorems {
  import opened Options
  import opened Collections
  import opened CollectionScan

  // ---- the cascade against rehashing everything ----

  /** What a scan that hashes every file would leave and queue. */
  ghost predicate AsIfRehashed(s0: Items, metadata: set<int>, tree: set<int>, disk: Disk, walked: set<Path>, s: Items,
                               q: seq<SubJob>)
    requires walked <= disk.Keys
  {
    forall id | InTree(s, tree, id) && s[id].path in walked ::
      && (id in s0 ==> s[id] == Rehashed(s0[id], disk[s[id].path]))
      && (Queued(q, id) <==> (id in s0 ==> Differs(s0[id], disk[s[id].path]) || id !in metadata))
  }

  /** No stored item changed on disk without getting a newer modification time. */
  ghost predicate MtimesTell(s0: Items, tree: set<int>, disk: Disk, walked: set<Path>)
    requires walked <= disk.Keys
  {
    forall id | InTree(s0, tree, id) && s0[id].path in walked ::
      Differs(s0[id], disk[s0[id].path]) ==> Newer(s0[id], disk[s0[id].path])
  }

  /** The shortcut is as good as rehashing everything exactly when modification times tell. */
  lemma CascadeEqualsRehash(s0: Items, next0: int, metadata: set<int>, tree: set<int>, folders: map<Path, int>,
                            disk: Disk, walked: set<Path>, s: Items, next: int, q: seq<SubJob>)
    requires walked <= disk.Keys
    requires ScanKeeps(s0, next0, tree, folders, disk, walked, s, next)
    requires Complete(s0, metadata, tree, disk, walked, s, q)
    ensures AsIfRehashed(s0, metadata, tree, disk, walked, s, q) <==> MtimesTell(s0, tree, disk, walked)
  {
  }

  /** What an undisturbed scan leaves of one item and whether it queues it, field by field: an item whose
      file was walked takes on the file's size, hash and time when that is newer, loses its missing flag
      in any case, and is queued when it is new, newer and different, or without metadata; any other item
      of the tree becomes missing. */
  lemma CompleteMeaning(s0: Items, next0: int, metadata: set<int>, tree: set<int>, folders: map<Path, int>, disk: Disk,
                        walked: set<Path>, s: Items, next: int, q: seq<SubJob>, id: int)
    requires walked <= disk.Keys && id in s && s[id].collection in tree
    requires ScanKeeps(s0, next0, tree, folders, disk, walked, s, next)
    requires Complete(s0, metadata, tree, disk, walked, s, q)
    ensures s[id].path in walked && id in s0 ==>
              var i, f := s0[id], disk[s[id].path];
              var newer := i.mtime == None || f.mtime > i.mtime.value;
              && s[id] == (if newer then i.(missing := false, size := f.size, hash := f.hash, mtime := Some(f.mtime))
                           else i.(missing := false))
              && ((exists k :: 0 <= k < |q| && q[k].item == id)
                  <==> (newer && (f.size != i.size || f.hash != i.hash)) || id !in metadata)
    ensures s[id].path in walked && id !in s0 ==>
              var f := disk[s[id].path];
              && s[id].size == f.size && s[id].hash == f.hash && s[id].mtime == Some(f.mtime)
              && !s[id].missing && !s[id].hidden && exists k :: 0 <= k < |q| && q[k].item == id
    ensures s[id].path !in walked ==>
              id in s0 && s[id] == s0[id].(missing := true) && forall k | 0 <= k < |q| :: q[k].item != id
  {
    assert InTree(s, tree, id);
    assert Queued(q, id) <==> exists k :: 0 <= k < |q| && q[k].item == id;
  }

  /** Trusted or not, the stored time never goes back, and an item is missing exactly when its path
      was not walked. */
  lemma AfterComplete(s0: Items, next0: int, metadata: set<int>, tree: set<int>, folders: map<Path, int>, disk: Disk,
                      walked: set<Path>, s: Items, next: int, q: seq<SubJob>, id: int)
    requires walked <= disk.Keys && InTree(s, tree, id)
    requires ScanKeeps(s0, next0, tree, folders, disk, walked, s, next)
    requires Complete(s0, metadata, tree, disk, walked, s, q)
    ensures s[id].missing <==> s[id].path !in walked
    ensures s[id].path in walked ==>
              var onDisk := disk[s[id].path].mtime;
              s[id].mtime == Some(if id in s0 && s0[id].mtime.Some? && s0[id].mtime.value > onDisk
                                  then s0[id].mtime.value else onDisk)
    ensures s[id].path !in walked ==> id in s0 && s[id].mtime == s0[id].mtime
  {
  }

  // ---- repeated scans ----

  /** A second scan of an unchanged disk, once every walked item has its metadata, changes and
      queues nothing. */
  lemma RescanIsQuiet(s0: Items, next0: int, metadata0: set<int>, tree: set<int>, folders: map<Path, int>, disk: Disk,
                      walked: set<Path>, s1: Items, next1: int, q1: seq<SubJob>,
                      metadata1: set<int>, category: Media, s2: Items, next2: int, q2: seq<SubJob>)
    requires walked <= disk.Keys && UniquePaths(s2, tree)
    requires ScanKeeps(s0, next0, tree, folders, disk, walked, s1, next1)
    requires Complete(s0, metadata0, tree, disk, walked, s1, q1)
    requires forall id | InTree(s1, tree, id) && s1[id].path in walked :: id in metadata1
    requires ScanKeeps(s1, next1, tree, folders, disk, walked, s2, next2)
    requires Complete(s1, metadata1, tree, disk, walked, s2, q2)
    requires QueueSafe(tree, category, walked, s2, q2)
    ensures s2 == s1 && q2 == []
  {
    forall id | id in s2.Keys
      ensures id in s1 && s2[id] == s1[id] && (InTree(s2, tree, id) && s2[id].path in walked ==> !Queued(q2, id))
    {
      SecondVisit(s0, next0, metadata0, tree, folders, disk, walked, s1, next1, q1, metadata1, s2, next2, q2, id);
    }
    assert |q2| > 0 ==> Queued(q2, q2[0].item);
    assert forall id :: id in s2.Keys <==> id in s1.Keys;
    assert forall id | id in s1.Keys :: s2[id] == s1[id];
  }

  lemma SecondVisit(s0: Items, next0: int, metadata0: set<int>, tree: set<int>, folders: map<Path, int>, disk: Disk,
                    walked: set<Path>, s1: Items, next1: int, q1: seq<SubJob>,
                    metadata1: set<int>, s2: Items, next2: int, q2: seq<SubJob>, id: int)
    requires walked <= disk.Keys && UniquePaths(s2, tree) && id in s2
    requires ScanKeeps(s0, next0, tree, folders, disk, walked, s1, next1)
    requires Complete(s0, metadata0, tree, disk, walked, s1, q1)
    requires forall i | InTree(s1, tree, i) && s1[i].path in walked :: i in metadata1
    requires ScanKeeps(s1, next1, tree, folders, disk, walked, s2, next2)
    requires Complete(s1, metadata1, tree, disk, walked, s2, q2)
    ensures id in s1 && s2[id] == s1[id]
    ensures InTree(s2, tree, id) && s2[id].path in walked ==> !Queued(q2, id)
  {
  }

  // ---- runs of scans ----

  /** One scan of any collection: what it walked, and what it left. */
  datatype ScanEvent = ScanEvent(tree: set<int>, folders: map<Path, int>, disk: Disk, walked: set<Path>,
                                 metadata: set<int>, items: Items, next: int, queued: seq<SubJob>)

  /** Each scan keeps what every scan keeps, starting where the one before it stopped. */
  ghost predicate Run(s0: Items, next0: int, scans: seq<ScanEvent>)
    decreases |scans|
  {
    scans != [] ==>
    && ScanKeeps(s0, next0, scans[0].tree, scans[0].folders, scans[0].disk, scans[0].walked, scans[0].items,
                 scans[0].next)
    && Run(scans[0].items, scans[0].next, scans[1..])
  }

  function Last(s0: Items, scans: seq<ScanEvent>): Items {
    if scans == [] then s0 else scans[|scans| - 1].items
  }

  /** Over any run of scans, failing or cancelled anywhere, an item keeps its id, place, title and
      hidden flag; and while its file is walked by every scan of its tree it never becomes missing. */
  lemma {:induction false} ItemsSurvive(s0: Items, next0: int, scans: seq<ScanEvent>, id: int)
    requires Run(s0, next0, scans) && id in s0
    ensures id in Last(s0, scans) && var i, j := s0[id], Last(s0, scans)[id];
            j.collection == i.collection && j.path == i.path && j.title == i.title && j.hidden == i.hidden
    ensures !s0[id].missing && (forall e | e in scans :: s0[id].collection in e.tree ==> s0[id].path in e.walked) ==>
              !Last(s0, scans)[id].missing
    decreases |scans|
  {
    if scans == [] {
    } else {
      ItemsSurvive(scans[0].items, scans[0].next, scans[1..], id);
      assert Last(s0, scans) == Last(scans[0].items, scans[1..]);
      assert scans[0] in scans && forall e | e in scans[1..] :: e in scans;
      assert s0[id] != scans[0].items[id] ==> InTree(s0, scans[0].tree, id);
    }
  }

  /** An id is never given to a second item. */
  lemma {:induction false} IdsAreFresh(s0: Items, next0: int, scans: seq<ScanEvent>, id: int)
    requires Run(s0, next0, scans) && id in Last(s0, scans) && id !in s0
    ensures id >= next0
    decreases |scans|
  {
    if scans == [] {
    } else {
      assert Last(s0, scans) == Last(scans[0].items, scans[1..]);
      if id !in scans[0].items {
        IdsAreFresh(scans[0].items, scans[0].next, scans[1..], id);
      }
    }
  }

  // ---- runs of undisturbed scans over a changing disk ----

  ghost predicate Undisturbed(s: Items, next: int, e: ScanEvent) {
    && e.walked <= e.disk.Keys
    && ScanKeeps(s, next, e.tree, e.folders, e.disk, e.walked, e.items, e.next)
    && Complete(s, e.metadata, e.tree, e.disk, e.walked, e.items, e.queued)
  }

  /** From an empty table on, scan after scan of any collections. */
  ghost predicate UndisturbedRun(scans: seq<ScanEvent>) {
    scans != [] ==>
      var init, last := scans[..|scans| - 1], scans[|scans| - 1];
      UndisturbedRun(init) && Undisturbed(Last(map[], init), if init == [] then 1 else init[|init| - 1].next, last)
  }

  function RowOf(items: Items, id: int): Option<Item> {
    if id in items then Some(items[id]) else None
  }

  /** The file that the scan walked for item id. */
  ghost function Sighting(e: ScanEvent, id: int): Option<File> {
    if InTree(e.items, e.tree, id) && e.items[id].path in e.walked && e.items[id].path in e.disk
    then Some(e.disk[e.items[id].path]) else None
  }

  ghost function Sightings(scans: seq<ScanEvent>, id: int): seq<Option<File>> {
    if scans == [] then [] else Sightings(scans[..|scans| - 1], id) + [Sighting(scans[|scans| - 1], id)]
  }

  function LastSeen(files: seq<Option<File>>): Option<File> {
    if files == [] then None
    else if files[|files| - 1].Some? then files[|files| - 1]
    else LastSeen(files[..|files| - 1])
  }

  function NewestTime(files: seq<Option<File>>): Option<int> {
    if files == [] then None
    else
      var rest, last := NewestTime(files[..|files| - 1]), files[|files| - 1];
      if last == None then rest else Some(Latest(rest, last.value.mtime))
  }

  predicate SameContent(f: File, g: File) {
    f.size == g.size && f.hash == g.hash
  }

  predicate NewerIfChanged(f: Option<File>, g: Option<File>) {
    f.Some? && g.Some? ==> SameContent(f.value, g.value) || g.value.mtime > f.value.mtime
  }

  /** Whenever two scans walked different content, the later one found a newer time. */
  ghost predicate ChangesAreNewer(files: seq<Option<File>>) {
    forall i, j | 0 <= i < j < |files| :: NewerIfChanged(files[i], files[j])
  }

  /** The row holds the content walked last and the newest time ever walked. */
  ghost predicate Faithful(row: Option<Item>, files: seq<Option<File>>) {
    && (row.Some? <==> LastSeen(files).Some?)
    && (row.Some? ==>
          && !Differs(row.value, LastSeen(files).value)
          && row.value.mtime.Some? && row.value.mtime == NewestTime(files))
  }

  lemma {:induction false} NewestIsLatest(files: seq<Option<File>>)
    ensures forall j | 0 <= j < |files| && files[j].Some? ::
              NewestTime(files).Some? && files[j].value.mtime <= NewestTime(files).value
  {
    if files == [] {
    } else {
      var init := files[..|files| - 1];
      NewestIsLatest(init);
      assert forall j | 0 <= j < |init| :: init[j] == files[j];
    }
  }

  lemma FaithfulMeaning(row: Option<Item>, files: seq<Option<File>>)
    ensures Faithful(row, files) ==>
              && (row.Some? <==> exists j :: 0 <= j < |files| && files[j].Some?)
              && (row.Some? ==>
                    && (exists j ::
                          && 0 <= j < |files| && files[j].Some? && (forall k | j < k < |files| :: files[k] == None)
                          && row.value.size == files[j].value.size && row.value.hash == files[j].value.hash)
                    && row.value.mtime.Some?
                    && (exists j :: 0 <= j < |files| && files[j].Some? && files[j].value.mtime == row.value.mtime.value)
                    && (forall j | 0 <= j < |files| && files[j].Some? :: files[j].value.mtime <= row.value.mtime.value))
  {
    LastIsSeen(files);
    NewestIsSeen(files);
    NewestIsLatest(files);
  }

  /** What one scan does to one row. */
  predicate RowStep(before: Option<Item>, seen: Option<File>, after: Option<Item>) {
    if seen == None then
      after == before || (before.Some? && after.Some? && after.value == before.value.(missing := true))
    else
      after.Some? &&
      if before == None then !Differs(after.value, seen.value) && after.value.mtime == Some(seen.value.mtime)
      else after.value == Believed(before.value, seen.value)
  }

  lemma ScanStepsRow(s: Items, next: int, e: ScanEvent, id: int)
    requires Undisturbed(s, next, e)
    ensures RowStep(RowOf(s, id), Sighting(e, id), RowOf(e.items, id))
  {
    if InTree(e.items, e.tree, id) && e.items[id].path in e.walked {
      assert SettledItem(s, e.metadata, e.disk, e.items, e.queued, id);
    }
  }

  lemma {:induction false} LastIsSeen(files: seq<Option<File>>)
    ensures LastSeen(files).Some? ==>
              exists j :: 0 <= j < |files| && files[j] == LastSeen(files)
                && forall k | j < k < |files| :: files[k] == None
    ensures LastSeen(files) == None <==> forall k | 0 <= k < |files| :: files[k] == None
    ensures LastSeen(files) == None <==> NewestTime(files) == None
  {
    if files == [] {
    } else {
      LastIsSeen(files[..|files| - 1]);
    }
  }

  lemma {:induction false} NewestIsSeen(files: seq<Option<File>>)
    ensures NewestTime(files).Some? ==>
              exists i :: 0 <= i < |files| && files[i].Some? && files[i].value.mtime == NewestTime(files).value
  {
    if files == [] {
    } else {
      var init, last := files[..|files| - 1], files[|files| - 1];
      NewestIsSeen(init);
      if last == None || NewestTime(files) != Some(last.value.mtime) {
        if NewestTime(init).Some? {
          var i :| 0 <= i < |init| && init[i].Some? && init[i].value.mtime == NewestTime(init).value;
          assert files[i] == init[i];
        }
      }
    }
  }

  /** A file that looks no newer than anything seen before has the content seen last. */
  lemma NoNewerNoChange(files: seq<Option<File>>, f: File)
    requires LastSeen(files).Some? && NewestTime(files).Some? && f.mtime <= NewestTime(files).value
    requires ChangesAreNewer(files + [Some(f)])
    ensures SameContent(LastSeen(files).value, f)
  {
    LastIsSeen(files);
    NewestIsSeen(files);
    var all := files + [Some(f)];
    var j :| 0 <= j < |files| && files[j] == LastSeen(files) && forall k | j < k < |files| :: files[k] == None;
    var i :| 0 <= i < |files| && files[i].Some? && files[i].value.mtime == NewestTime(files).value;
    assert all[|files|] == Some(f) && all[i] == files[i] && all[j] == files[j];
    assert NewerIfChanged(all[i], all[|files|]) && NewerIfChanged(all[j], all[|files|]);
    assert i != j ==> NewerIfChanged(all[i], all[j]);
  }

  lemma FaithfulStep(before: Option<Item>, files: seq<Option<File>>, seen: Option<File>, after: Option<Item>)
    requires Faithful(before, files) && RowStep(before, seen, after) && ChangesAreNewer(files + [seen])
    ensures Faithful(after, files + [seen])
  {
    assert (files + [seen])[..|files|] == files;
    LastIsSeen(files);
    if before.Some? && seen.Some? && !Newer(before.value, seen.value) {
      NoNewerNoChange(files, seen.value);
    }
  }

  /** Over any run of undisturbed scans of a changing disk, whatever collections they scan, each
      item holds the content its file had when it was walked last, and the newest time it was
      walked with, provided that changed content always comes with a newer time. */
  lemma {:induction false} StoredFollowsDisk(scans: seq<ScanEvent>, id: int)
    requires UndisturbedRun(scans) && ChangesAreNewer(Sightings(scans, id))
    ensures Faithful(RowOf(Last(map[], scans), id), Sightings(scans, id))
    ensures var items, files := Last(map[], scans), Sightings(scans, id);
            && (id in items <==> exists j :: 0 <= j < |files| && files[j].Some?)
            && (id in items ==>
                  && (exists j :: 0 <= j < |files| && files[j].Some? && (forall k | j < k < |files| :: files[k] == None)
                                  && items[id].size == files[j].value.size && items[id].hash == files[j].value.hash)
                  && items[id].mtime.Some?
                  && (exists j :: 0 <= j < |files| && files[j].Some? && files[j].value.mtime == items[id].mtime.value)
                  && (forall j | 0 <= j < |files| && files[j].Some? :: files[j].value.mtime <= items[id].mtime.value))
    decreases |scans|
  {
    FaithfulMeaning(RowOf(Last(map[], scans), id), Sightings(scans, id));
    if scans == [] {
    } else {
      var init, last := scans[..|scans| - 1], scans[|scans| - 1];
      var files := Sightings(init, id);
      assert forall i | 0 <= i < |files| :: files[i] == Sightings(scans, id)[i];
      StoredFollowsDisk(init, id);
      ScanStepsRow(Last(map[], init), if init == [] then 1 else init[|init| - 1].next, last, id);
      FaithfulStep(RowOf(Last(map[], init), id), files, Sighting(last, id), RowOf(last.items, id));
    }
  }
}
