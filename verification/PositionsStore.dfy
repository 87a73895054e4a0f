/** The browser's list of positions. */
module PositionsStore {
  import opened Wrappers

  datatype Position = Position(id: string, payload: string)

  /** `findIndex`. */
  function IndexOf(list: seq<Position>, id: string): (r: Option<nat>)
    ensures r.Some? ==> r.value < |list| && list[r.value].id == id
    ensures r.Some? ==> forall i :: 0 <= i < r.value ==> list[i].id != id
    ensures r.None? ==> forall i :: 0 <= i < |list| ==> list[i].id != id
  {
    if list == [] then None
    else if list[0].id == id then Some(0)
    else match IndexOf(list[1..], id)
         case None => None
         case Some(i) => Some(i + 1)
  }

  function MergeOne(list: seq<Position>, p: Position): seq<Position> {
    match IndexOf(list, p.id)
    case None => [p] + list
    case Some(i) => list[i := p]
  }

  function Merge(list: seq<Position>, incoming: seq<Position>): seq<Position> {
    if incoming == [] then list else MergeOne(Merge(list, incoming[..|incoming| - 1]), incoming[|incoming| - 1])
  }

  /** `mergePositions` on a copy of the stored list. */
  method MergePositions(stored: seq<Position>, incoming: seq<Position>) returns (next: seq<Position>)
    ensures next == Merge(stored, incoming)
  {
    next := stored;
    for i := 0 to |incoming|
      invariant next == Merge(stored, incoming[..i])
    {
      assert incoming[..i + 1][..i] == incoming[..i];
      var position := incoming[i];
      var index := IndexOf(next, position.id);
      if index.None? {
        next := [position] + next;
      } else {
        next := next[index.value := position];
      }
    }
    assert incoming[..|incoming|] == incoming;
  }

  predicate UniqueIds(list: seq<Position>) {
    forall i, j :: 0 <= i < j < |list| ==> list[i].id != list[j].id
  }

  function Lookup(list: seq<Position>, id: string): Option<Position> {
    match IndexOf(list, id)
    case None => None
    case Some(i) => Some(list[i])
  }

  /** The last incoming position with this id. */
  function LastWriter(incoming: seq<Position>, id: string): Option<Position> {
    if incoming == [] then None
    else if incoming[|incoming| - 1].id == id then Some(incoming[|incoming| - 1])
    else LastWriter(incoming[..|incoming| - 1], id)
  }

  lemma MergeOneLookup(list: seq<Position>, p: Position, id: string)
    requires UniqueIds(list)
    ensures UniqueIds(MergeOne(list, p))
    ensures Lookup(MergeOne(list, p), id) == if p.id == id then Some(p) else Lookup(list, id)
  {
    var merged := MergeOne(list, p);
    var before, after := IndexOf(list, id), IndexOf(merged, id);
    var at := IndexOf(list, p.id);
    if at.None? {
      assert forall i :: 0 <= i < |list| ==> merged[i + 1] == list[i];
      if p.id != id && before.Some? { assert merged[before.value + 1].id == id; }
      if p.id != id && after.Some? { assert list[after.value - 1].id == id; }
    } else {
      assert merged[at.value] == p;
      if p.id != id && before.Some? { assert merged[before.value].id == id; }
      if p.id != id && after.Some? { assert list[after.value].id == id; }
    }
  }

  /** Merging keeps ids unique and, for every id, the last incoming position wins over what was stored. */
  lemma {:induction false} MergeIsLastWriterWins(list: seq<Position>, incoming: seq<Position>, id: string)
    requires UniqueIds(list)
    ensures UniqueIds(Merge(list, incoming))
    ensures Lookup(Merge(list, incoming), id)
            == if LastWriter(incoming, id).Some? then LastWriter(incoming, id) else Lookup(list, id)
    decreases |incoming|
  {
    if incoming != [] {
      var init, p := incoming[..|incoming| - 1], incoming[|incoming| - 1];
      MergeIsLastWriterWins(list, init, id);
      MergeOneLookup(Merge(list, init), p, id);
    }
  }

  /** The ids of `list` are the last ids of `r`, in the same order. */
  predicate EndsLike(r: seq<Position>, list: seq<Position>) {
    |r| >= |list| && forall i :: 0 <= i < |list| ==> r[|r| - |list| + i].id == list[i].id
  }

  lemma MergeOneEndsLike(list: seq<Position>, p: Position)
    ensures EndsLike(MergeOne(list, p), list)
  {
    var at := IndexOf(list, p.id);
    if at.Some? {
      assert MergeOne(list, p) == list[at.value := p];
    } else {
      assert MergeOne(list, p) == [p] + list;
    }
  }

  lemma EndsLikeTransitive(a: seq<Position>, b: seq<Position>, c: seq<Position>)
    requires EndsLike(a, b) && EndsLike(b, c)
    ensures EndsLike(a, c)
  {
    forall i | 0 <= i < |c| ensures a[|a| - |c| + i].id == c[i].id {
      var j := |b| - |c| + i;
      assert a[|a| - |b| + j].id == b[j].id;
    }
  }

  /** Positions already listed keep their relative places at the end of the list. */
  lemma {:induction false} MergeKeepsPlaces(list: seq<Position>, incoming: seq<Position>)
    ensures EndsLike(Merge(list, incoming), list)
    decreases |incoming|
  {
    if incoming != [] {
      var before := Merge(list, incoming[..|incoming| - 1]);
      MergeKeepsPlaces(list, incoming[..|incoming| - 1]);
      MergeOneEndsLike(before, incoming[|incoming| - 1]);
      EndsLikeTransitive(Merge(list, incoming), before, list);
    }
  }

  function Others(list: seq<Position>, id: string): (r: seq<Position>)
    ensures forall p :: p in r <==> p in list && p.id != id
    ensures UniqueIds(list) ==> UniqueIds(r)
  {
    if list == [] then [] else
    var rest := Others(list[1..], id);
    if list[0].id == id then rest
    else
      assert UniqueIds(list) ==> forall i :: 0 <= i < |rest| ==> rest[i].id != list[0].id by {
        assert forall i :: 0 <= i < |rest| ==> rest[i] in rest;
      }
      [list[0]] + rest
  }

  /** `upsertPosition` moves the position to the front. */
  function Upsert(list: seq<Position>, p: Position): seq<Position> {
    [p] + Others(list, p.id)
  }

  /** Upserting puts the position first and leaves the others in their order. */
  lemma UpsertMovesToFront(list: seq<Position>, p: Position)
    requires UniqueIds(list)
    ensures Upsert(list, p) == match IndexOf(list, p.id)
                               case None => [p] + list
                               case Some(i) => [p] + (list[..i] + list[i + 1..])
  {
    match IndexOf(list, p.id)
    case None => OthersAll(list, p.id);
    case Some(i) => OthersInOrder(list, p.id, i);
  }

  lemma {:induction false} OthersAll(list: seq<Position>, id: string)
    requires forall i :: 0 <= i < |list| ==> list[i].id != id
    ensures Others(list, id) == list
  {
    if list != [] { OthersAll(list[1..], id); }
  }

  lemma {:induction false} OthersInOrder(list: seq<Position>, id: string, i: nat)
    requires UniqueIds(list) && i < |list| && list[i].id == id
    ensures Others(list, id) == list[..i] + list[i + 1..]
  {
    var rest := list[1..];
    if i == 0 {
      OthersAll(rest, id);
    } else {
      OthersInOrder(rest, id, i - 1);
      assert list[..i] == [list[0]] + rest[..i - 1];
      assert list[i + 1..] == rest[i..];
    }
  }

  lemma LookupIsMembership(list: seq<Position>, p: Position)
    requires UniqueIds(list)
    ensures p in list <==> Lookup(list, p.id) == Some(p)
  {
  }

  /** Upserting and merging a single position differ in its place only. */
  lemma UpsertAgreesWithMerge(list: seq<Position>, p: Position, q: Position)
    requires UniqueIds(list)
    ensures UniqueIds(Upsert(list, p))
    ensures q in Upsert(list, p) <==> q in MergeOne(list, p)
  {
    var others := Others(list, p.id);
    assert forall i :: 0 <= i < |others| ==> others[i] in others;
    MergeOneLookup(list, p, q.id);
    LookupIsMembership(MergeOne(list, p), q);
    LookupIsMembership(list, q);
  }
}
