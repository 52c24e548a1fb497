/** The random thumbnail search: a collection's own items first, then one level of sub-collections
    at a time. */
module LevelSearch {
  import opened Options
  import opened Collections

  /** The photo_metadata row of an item, with its nullable dimensions. */
  datatype Photo = Photo(variantsGenerated: bool, width: Option<int>, height: Option<int>)

  datatype MediaItem = MediaItem(collection: int, hash: string, missing: bool, hidden: bool, photo: Option<Photo>)

  const MAX_DEPTH := 8
  const THUMB_EDGE := 400

  function OrZero(o: Option<int>): int {
    if o.Some? then o.value else 0
  }

  /** The larger of the dimensions that are not NULL. */
  function LongEdge(p: Photo): (edge: int)
    ensures p.width.Some? ==> edge >= p.width.value
    ensures p.height.Some? ==> edge >= p.height.value
    ensures edge == 0 || p.width == Some(edge) || p.height == Some(edge)
  {
    if OrZero(p.width) > OrZero(p.height) then OrZero(p.width) else OrZero(p.height)
  }

  predicate Eligible(i: MediaItem) {
    && !i.missing && !i.hidden && i.photo.Some? && i.photo.value.variantsGenerated
    && (OrZero(i.photo.value.width) > THUMB_EDGE || OrZero(i.photo.value.height) > THUMB_EDGE)
  }

  /** Exactly k parent links lead from c up to start. */
  ghost predicate Climbs(rows: Rows, c: int, start: int, k: nat)
    decreases k
  {
    if k == 0 then c == start
    else c in rows && rows[c].parent.Some? && Climbs(rows, rows[c].parent.value, start, k - 1)
  }

  /** Item i could be shown for start, from k levels below it. */
  ghost predicate Candidate(rows: Rows, items: map<int, MediaItem>, start: int, i: int, k: nat) {
    i in items && Eligible(items[i]) && Climbs(rows, items[i].collection, start, k)
  }

  ghost predicate IsLevel(rows: Rows, start: int, k: nat, level: set<int>) {
    forall c :: c in level <==> Climbs(rows, c, start, k)
  }

  /** No level lies below an empty one. */
  lemma {:induction false} NothingBelowEmpty(rows: Rows, start: int, k: nat, level: set<int>, c: int, j: nat)
    requires IsLevel(rows, start, k, level) && level == {} && j >= k
    ensures !Climbs(rows, c, start, j)
    decreases j
  {
    if j > k && c in rows && rows[c].parent.Some? {
      NothingBelowEmpty(rows, start, k, level, rows[c].parent.value, j - 1);
    }
  }

  method RandomHashWithVariants(rows: Rows, items: map<int, MediaItem>, start: int) returns (hash: Option<string>)
    ensures hash.Some? ==>
              exists i, k: nat :: Candidate(rows, items, start, i, k) && k <= MAX_DEPTH && hash.value == items[i].hash
                                  && forall i', j: nat :: j < k ==> !Candidate(rows, items, start, i', j)
    ensures hash == None <==> forall i, k: nat :: k <= MAX_DEPTH ==> !Candidate(rows, items, start, i, k)
    ensures hash.Some? ==>
              exists i, k: nat :: i in items && hash.value == items[i].hash && k <= 8
                && Climbs(rows, items[i].collection, start, k)
                                  && !items[i].missing && !items[i].hidden && items[i].photo.Some?
                                  && items[i].photo.value.variantsGenerated && LongEdge(items[i].photo.value) > 400
    ensures hash == None ==>
              forall i, k: nat | i in items && k <= 8 && Climbs(rows, items[i].collection, start, k) ::
                || items[i].missing || items[i].hidden || items[i].photo == None
                || !items[i].photo.value.variantsGenerated || LongEdge(items[i].photo.value) <= 400
  {
    var collectionIDs := {start};
    var depth: nat := 0;
    while depth <= MAX_DEPTH
      invariant depth <= MAX_DEPTH + 1
      invariant IsLevel(rows, start, depth, collectionIDs)
      invariant forall i, k: nat :: k < depth ==> !Candidate(rows, items, start, i, k)
    {
      if collectionIDs == {} {
        forall i, k: nat
          ensures !Candidate(rows, items, start, i, k)
        {
          if k >= depth && i in items {
            NothingBelowEmpty(rows, start, depth, collectionIDs, items[i].collection, k);
          }
        }
        NothingToShow(rows, items, start);
        return None;
      }
      if i :| i in items && items[i].collection in collectionIDs && Eligible(items[i]) {
        assert Candidate(rows, items, start, i, depth);
        return Some(items[i].hash);
      }
      collectionIDs := set c | c in rows && rows[c].parent.Some? && rows[c].parent.value in collectionIDs;
      depth := depth + 1;
    }
    NothingToShow(rows, items, start);
    return None;
  }

  lemma NothingToShow(rows: Rows, items: map<int, MediaItem>, start: int)
    requires forall i, k: nat :: k <= MAX_DEPTH ==> !Candidate(rows, items, start, i, k)
    ensures forall i, k: nat | i in items && k <= 8 && Climbs(rows, items[i].collection, start, k) ::
              || items[i].missing || items[i].hidden || items[i].photo == None
              || !items[i].photo.value.variantsGenerated || LongEdge(items[i].photo.value) <= 400
  {
    forall i, k: nat | i in items && k <= 8 && Climbs(rows, items[i].collection, start, k)
      ensures !Eligible(items[i])
    {
      assert !Candidate(rows, items, start, i, k);
    }
  }

  /** On the collections table the level of a row is its distance from the start, so no item is
      reached on two levels. */
  lemma {:induction false} ClimbsIsDepth(rows: Rows, next: int, c: int, start: int, k: nat)
    requires Inv(rows, next) && start in rows
    ensures Climbs(rows, c, start, k) <==> Depth(rows, next, c, start) == k
    decreases k
  {
    if k == 0 || c !in rows || rows[c].parent == None {
    } else {
      ClimbsIsDepth(rows, next, rows[c].parent.value, start, k - 1);
      DepthOfChild(rows, next, c, start);
    }
  }

  /** Whatever is shown for a collection comes from its own library, so the access check on the
      collection also covers the item. */
  lemma {:induction false} ShownFromSameLibrary(rows: Rows, next: int, c: int, start: int, k: nat)
    requires Inv(rows, next) && start in rows && Climbs(rows, c, start, k)
    ensures c in rows && rows[c].root == rows[start].root
    decreases k
  {
    if k == 0 {
    } else {
      assert HangsWell(rows, c);
      ShownFromSameLibrary(rows, next, rows[c].parent.value, start, k - 1);
    }
  }
}
