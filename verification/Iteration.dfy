/** ContainerIterator: a queue and a cursor that walk everything nested in a container, level by level. */
module Iteration {
  import opened Containers

  type Contents = map<Item, seq<Item>>

  /** Everything nested in c, at any depth. */
  ghost function Nested(c: Item, all: set<Item>): set<Item>
    requires Structure(all) && c in all
    reads all`parent, all`itemlist, all`rank
  {
    set x | x in all && x != c && c in Above(x, all)
  }

  /** How many containers lie around an item, itself included. */
  ghost function Depth(x: Item, all: set<Item>): nat
    requires Structure(all) && x in all
    reads all`parent, all`itemlist, all`rank
  {
    |Above(x, all)|
  }

  // ----- The walk, as a relation between sequences -----

  ghost predicate Opens(lists: Contents, x: Item) {
    x in lists && x.isContainer && lists[x] != []
  }

  /** The containers of a sequence that the iterator queues. */
  ghost function Opening(lists: Contents, s: seq<Item>): seq<Item> {
    if s == [] then [] else Opening(lists, s[..|s| - 1]) + if Opens(lists, s[|s| - 1]) then [s[|s| - 1]] else []
  }

  /** The lists of the given containers, one after another. */
  ghost function Flat(lists: Contents, s: seq<Item>): seq<Item>
    requires forall x | x in s :: x in lists
  {
    if s == [] then [] else Flat(lists, s[..|s| - 1]) + lists[s[|s| - 1]]
  }

  lemma OpeningPush(lists: Contents, s: seq<Item>, x: Item)
    ensures Opening(lists, s + [x]) == Opening(lists, s) + if Opens(lists, x) then [x] else []
  {
    assert (s + [x])[..|s|] == s;
  }

  lemma FlatPush(lists: Contents, s: seq<Item>, x: Item)
    requires (forall y | y in s :: y in lists) && x in lists
    ensures (forall y | y in s + [x] :: y in lists) && Flat(lists, s + [x]) == Flat(lists, s) + lists[x]
  {
    assert (s + [x])[..|s|] == s;
  }

  lemma {:induction false} OpeningMembers(lists: Contents, s: seq<Item>)
    ensures forall x | x in Opening(lists, s) :: x in s && Opens(lists, x)
    ensures forall x | x in s && Opens(lists, x) :: x in Opening(lists, s)
  {
    if s != [] {
      OpeningMembers(lists, s[..|s| - 1]);
      assert s == s[..|s| - 1] + [s[|s| - 1]];
    }
  }

  lemma {:induction false} FlatMembers(lists: Contents, s: seq<Item>, x: Item)
    requires forall y | y in s :: y in lists
    ensures x in Flat(lists, s) <==> exists j :: 0 <= j < |s| && x in lists[s[j]]
  {
    if s != [] {
      FlatMembers(lists, s[..|s| - 1], x);
      var last := s[|s| - 1];
      if x in lists[last] {
        assert s[|s| - 1] == last;
      }
      if x in Flat(lists, s[..|s| - 1]) {
        var j :| 0 <= j < |s| - 1 && x in lists[s[..|s| - 1][j]];
        assert x in lists[s[j]];
      }
    }
  }

  /** Where a walk stands: `queued` are the containers queued so far, the first k of them finished, and
      `cur` the cursor in the next; `visited` are the items the iterator has left behind. */
  ghost predicate Walk(c: Item, lists: Contents, queued: seq<Item>, k: nat, cur: nat, visited: seq<Item>) {
    k <= |queued| && (forall y | y in queued :: y in lists) && (k < |queued| ==> cur < |lists[queued[k]]|) &&
    queued == (if Opens(lists, c) then [c] else []) + Opening(lists, visited) &&
    visited == Flat(lists, queued[..k]) + if k < |queued| then lists[queued[k]][..cur] else []
  }

  lemma WalkStart(c: Item, lists: Contents)
    requires c in lists
    ensures Walk(c, lists, if Opens(lists, c) then [c] else [], 0, 0, [])
  {
  }

  /** One step of the iterator: the current item is left behind, its container (if it opens) queued, and
      the cursor moves on, into the next queued container when the list is done. */
  lemma WalkStep(c: Item, lists: Contents, queued: seq<Item>, k: nat, cur: nat, visited: seq<Item>)
    requires Walk(c, lists, queued, k, cur, visited) && k < |queued|
    ensures var x := lists[queued[k]][cur];
            var more := queued + if Opens(lists, x) then [x] else [];
            if cur + 1 == |lists[queued[k]]| then Walk(c, lists, more, k + 1, 0, visited + [x])
            else Walk(c, lists, more, k, cur + 1, visited + [x])
  {
    hide Flat, Opening, Opens;
    var q := queued[k];
    var x := lists[q][cur];
    OpeningPush(lists, visited, x);
    QueuedIsKnown(c, lists, visited + [x]);
    var more := queued + if Opens(lists, x) then [x] else [];
    assert more[..k] == queued[..k];
    assert lists[q][..cur + 1] == lists[q][..cur] + [x];
    if cur + 1 == |lists[q]| {
      FlatPush(lists, queued[..k], q);
      assert more[..k + 1] == queued[..k] + [q];
      assert lists[q] == lists[q][..cur + 1];
      if k + 1 < |more| {
        assert more[k + 1] in more;
        assert lists[more[k + 1]][..0] == [];
      }
    }
  }

  lemma QueuedIsKnown(c: Item, lists: Contents, visited: seq<Item>)
    ensures forall y | y in (if Opens(lists, c) then [c] else []) + Opening(lists, visited) ::
            y in lists && lists[y] != []
  {
    OpeningMembers(lists, visited);
  }

  // ----- Each nested item once, level by level -----

  /** What the walk keeps: nothing twice, nothing but what is nested in c, and never back to a level
      closer to c. */
  ghost predicate Orderly(c: Item, all: set<Item>, queued: seq<Item>, k: nat, visited: seq<Item>)
    requires Structure(all) && c in all
    reads all`parent, all`itemlist, all`rank
  {
    Distinct(visited) && Distinct(queued) &&
    (forall x | x in visited :: x in Nested(c, all)) && (forall x | x in queued :: x == c || x in visited) &&
    Levels(visited, all) && Levels(queued, all) &&
    (k < |queued| && queued[k] in all ==>
       forall x | x in visited && x in all :: Depth(x, all) <= Depth(queued[k], all) + 1)
  }

  /** No item is deeper than a later one. */
  ghost predicate Levels(s: seq<Item>, all: set<Item>)
    requires Structure(all)
    reads all`parent, all`itemlist, all`rank
  {
    forall i, j | 0 <= i < j < |s| && s[i] in all && s[j] in all :: Depth(s[i], all) <= Depth(s[j], all)
  }

  /** The current item is nested in c and has not been met before. */
  lemma CurrentIsNew(c: Item, all: set<Item>, queued: seq<Item>, k: nat, cur: nat, visited: seq<Item>)
    requires Structure(all) && c in all && Walk(c, Lists(all), queued, k, cur, visited) && k < |queued|
    requires Orderly(c, all, queued, k, visited)
    ensures queued[k] in all && cur < |queued[k].itemlist|
    ensures var x := queued[k].itemlist[cur];
            x in Nested(c, all) && x.parent == queued[k] && x !in visited && x !in queued &&
            Depth(x, all) == Depth(queued[k], all) + 1
  {
    hide Structure, Flat, Opening, Levels, Distinct;
    var q := queued[k];
    assert q in queued;
    ListsAt(q, all);
    var x := q.itemlist[cur];
    Listed(q, x, all);
    AboveStep(x, all);
    AboveStep(q, all);
    DepthStep(x, all);
    NoContainerInItself(x, all);
    NotYetVisited(all, queued, k, cur, x);
  }

  lemma DepthStep(x: Item, all: set<Item>)
    requires Structure(all) && x in all && x.parent != null
    ensures x.parent in all && Depth(x, all) == Depth(x.parent, all) + 1
  {
    hide Structure, Above;
    AboveStep(x, all);
    NoContainerInItself(x, all);
  }

  lemma NotYetVisited(all: set<Item>, queued: seq<Item>, k: nat, cur: nat, x: Item)
    requires Structure(all) && k < |queued| && Distinct(queued) && forall y | y in queued :: y in all
    requires cur < |queued[k].itemlist| && queued[k].itemlist[cur] == x
    ensures x !in Flat(Lists(all), queued[..k]) + Lists(all)[queued[k]][..cur]
  {
    hide Structure, Flat;
    var q := queued[k];
    ListsAt(q, all);
    DistinctList(q, all);
    Listed(q, x, all);
    FlatMembers(Lists(all), queued[..k], x);
    if j :| 0 <= j < k && x in Lists(all)[queued[..k][j]] {
      ListsAt(queued[j], all);
      Listed(queued[j], x, all);
    }
  }

  lemma OrderlyStart(c: Item, all: set<Item>)
    requires Structure(all) && c in all
    ensures Orderly(c, all, if Opens(Lists(all), c) then [c] else [], 0, [])
  {
    hide Structure, Above;
  }

  lemma DistinctSnoc(s: seq<Item>, x: Item)
    requires Distinct(s) && x !in s
    ensures Distinct(s + [x]) && (forall y | y in s + [x] :: y in s || y == x) && forall y | y in s :: y in s + [x]
  {
  }

  /** A deepest item may be appended. */
  lemma LevelsSnoc(s: seq<Item>, x: Item, all: set<Item>)
    requires Structure(all) && Levels(s, all) && x in all
    requires forall y | y in s && y in all :: Depth(y, all) <= Depth(x, all)
    ensures Levels(s + [x], all)
  {
    hide Structure, Depth;
    forall i, j | 0 <= i < j < |s + [x]| && (s + [x])[i] in all && (s + [x])[j] in all
      ensures Depth((s + [x])[i], all) <= Depth((s + [x])[j], all)
    {
      if j == |s| {
        assert s[i] in s;
      }
    }
  }

  lemma OrderlyStep(c: Item, all: set<Item>, queued: seq<Item>, k: nat, cur: nat, visited: seq<Item>)
    requires Structure(all) && c in all && Walk(c, Lists(all), queued, k, cur, visited) && k < |queued|
    requires Orderly(c, all, queued, k, visited) && queued[k] in all && cur < |queued[k].itemlist|
    ensures var x := queued[k].itemlist[cur];
            var more := queued + if Opens(Lists(all), x) then [x] else [];
            Orderly(c, all, more, if cur + 1 == |queued[k].itemlist| then k + 1 else k, visited + [x])
  {
    hide Structure, Flat, Opening, Levels, Distinct, Depth, Above, Walk, Opens;
    var x := queued[k].itemlist[cur];
    CurrentIsNew(c, all, queued, k, cur, visited);
    DistinctSnoc(visited, x);
    DistinctSnoc(queued, x);
    LevelsSnoc(visited, x, all);
    forall y | y in queued && y in all ensures Depth(y, all) <= Depth(x, all) {
      if y == c {
        RootIsHighest(c, x, all);
      }
    }
    LevelsSnoc(queued, x, all);
    var more := queued + if Opens(Lists(all), x) then [x] else [];
    assert queued + [] == queued;
    assert more[k] == queued[k];
    if k + 1 < |more| && more[k + 1] in all {
      NextLevel(more, k, all);
    }
  }

  lemma RootIsHighest(c: Item, x: Item, all: set<Item>)
    requires Structure(all) && c in all && x in Nested(c, all)
    ensures Depth(c, all) <= Depth(x, all)
    decreases x.rank
  {
    hide Structure, Above;
    AboveStep(x, all);
    ParentHolds(x, all);
    DepthStep(x, all);
    if x.parent != c {
      RootIsHighest(c, x.parent, all);
    }
  }

  lemma NextLevel(s: seq<Item>, k: nat, all: set<Item>)
    requires Structure(all) && Levels(s, all) && k + 1 < |s| && s[k] in all && s[k + 1] in all
    ensures Depth(s[k], all) <= Depth(s[k + 1], all)
  {
    hide Structure, Depth;
  }

  /** When the queue is empty, everything nested in c has been visited. */
  lemma {:induction false} AllVisited(c: Item, all: set<Item>, queued: seq<Item>, visited: seq<Item>, x: Item)
    requires Structure(all) && c in all && Walk(c, Lists(all), queued, |queued|, 0, visited) && x in Nested(c, all)
    ensures x in visited
    decreases x.rank
  {
    hide Structure, Flat, Opening, Above;
    AboveStep(x, all);
    AboveStep(c, all);
    ParentHolds(x, all);
    var p := x.parent;
    if p != c {
      AllVisited(c, all, queued, visited, p);
    }
    ListsAt(p, all);
    OpeningMembers(Lists(all), visited);
    assert p in queued;
    var j :| 0 <= j < |queued| && queued[j] == p;
    assert queued[..|queued|] == queued;
    FlatMembers(Lists(all), queued, x);
  }

  // ----- The iterator -----

  class ContainerIterator {
    const super: Item
    var over: seq<Item>
    var cur: nat
    ghost var queued: seq<Item>
    ghost var finished: nat
    ghost var visited: seq<Item>

    ghost predicate Valid(all: set<Item>)
      reads this, all`parent, all`itemlist, all`rank
    {
      Structure(all) && super in all && finished <= |queued| &&
        Walk(super, Lists(all), queued, finished, cur, visited) &&
      Orderly(super, all, queued, finished, visited) && over == queued[finished..]
    }

    /** Container::begin(). */
    constructor (c: Item, ghost all: set<Item>)
      requires Structure(all) && c in all && (c.itemlist != [] ==> c.isContainer)
      ensures Valid(all) && super == c && visited == []
    {
      hide Structure, Walk, Orderly;
      super, cur, finished, visited := c, 0, 0, [];
      ListsAt(c, all);
      WalkStart(c, Lists(all));
      OrderlyStart(c, all);
      over := if c.itemlist != [] then [c] else [];
      queued := if c.itemlist != [] then [c] else [];
    }

    /** operator != end(). */
    predicate AtEnd()
      reads this
    {
      over == []
    }

    method Current(ghost all: set<Item>) returns (x: Item)
      requires Valid(all) && !AtEnd()
      ensures x in Nested(super, all) && x !in visited && x == queued[finished].itemlist[cur]
    {
      hide Structure, Walk, Orderly, Above;
      CurrentIsNew(super, all, queued, finished, cur, visited);
      x := over[0].itemlist[cur];
    }

    /** operator ++. */
    method Advance(ghost all: set<Item>)
      requires Valid(all) && !AtEnd()
      modifies this
      ensures Valid(all) && finished <= |queued|
      ensures visited == old(visited) + [old(queued[finished].itemlist[cur])]
    {
      hide Structure, Walk, Orderly, Above;
      CurrentIsNew(super, all, queued, finished, cur, visited);
      ghost var q := over[0];
      var x := over[0].itemlist[cur];
      ListsAt(x, all);
      ListsAt(q, all);
      WalkStep(super, Lists(all), queued, finished, cur, visited);
      OrderlyStep(super, all, queued, finished, cur, visited);
      if x.isContainer && x.itemlist != [] {
        over := over + [x];
      }
      queued := queued + if Opens(Lists(all), x) then [x] else [];
      visited := visited + [x];
      cur := cur + 1;
      if cur == |over[0].itemlist| {
        over := over[1..];
        finished := finished + 1;
        cur := 0;
      }
    }
  }

  // ----- What the walk is used for -----

  ghost function Members(s: seq<Item>): set<Item> {
    set x | x in s
  }

  lemma {:induction false} DistinctSize(s: seq<Item>)
    requires Distinct(s)
    ensures |Members(s)| == |s|
  {
    if s != [] {
      var rest := s[..|s| - 1];
      DistinctSize(rest);
      assert s == rest + [s[|s| - 1]];
      assert Members(s) == Members(rest) + {s[|s| - 1]};
    } else {
      assert Members(s) == {};
    }
  }

  lemma SubsetSize(a: set<Item>, b: set<Item>)
    requires a <= b
    ensures |a| <= |b|
  {
    assert b == a + (b - a);
  }

  /** A walk leaves no more behind than there is. */
  lemma VisitedBounded(c: Item, all: set<Item>, queued: seq<Item>, k: nat, visited: seq<Item>)
    requires Structure(all) && c in all && Orderly(c, all, queued, k, visited)
    ensures Members(visited) <= Nested(c, all)
    ensures |visited| <= |Nested(c, all)|
  {
    hide Structure, Above, Levels;
    DistinctSize(visited);
    SubsetSize(Members(visited), Nested(c, all));
  }

  /** A full walk is an enumeration, level by level: everything nested in c, at every depth, once. */
  ghost predicate Enumerates(s: seq<Item>, c: Item, all: set<Item>)
    requires Structure(all) && c in all
    reads all`parent, all`itemlist, all`rank
  {
    Distinct(s) && Levels(s, all) && Members(s) == Nested(c, all)
  }

  lemma WalkEnumerates(c: Item, all: set<Item>, queued: seq<Item>, visited: seq<Item>)
    requires Structure(all) && c in all && Walk(c, Lists(all), queued, |queued|, 0, visited)
    requires Orderly(c, all, queued, |queued|, visited)
    ensures Enumerates(visited, c, all) && |visited| == |Nested(c, all)|
  {
    hide Structure, Walk, Above, Levels, Distinct;
    forall x | x in Nested(c, all) ensures x in visited {
      AllVisited(c, all, queued, visited, x);
    }
    assert Members(visited) == Nested(c, all);
    DistinctSize(visited);
  }

  /** Every item the iterator hands out, in order. */
  method Traverse(c: Item, ghost all: set<Item>) returns (found: seq<Item>)
    requires Structure(all) && c in all && (c.itemlist != [] ==> c.isContainer)
    ensures Enumerates(found, c, all)
  {
    hide Structure, Walk, Orderly, Enumerates, Nested;
    var it := new ContainerIterator(c, all);
    found := [];
    while !it.AtEnd()
      invariant it.Valid(all) && it.super == c && found == it.visited
      invariant fresh(it)
      decreases |Nested(c, all)| - |it.visited|
    {
      VisitedBounded(c, all, it.queued, it.finished, it.visited);
      var x := it.Current(all);
      it.Advance(all);
      VisitedBounded(c, all, it.queued, it.finished, it.visited);
      found := found + [x];
    }
    AtEndIsDone(it, all);
    WalkEnumerates(c, all, it.queued, found);
  }

  lemma AtEndIsDone(it: ContainerIterator, all: set<Item>)
    requires it.Valid(all) && it.AtEnd()
    ensures it.finished == |it.queued|
    ensures Walk(it.super, Lists(all), it.queued, |it.queued|, 0, it.visited)
    ensures Orderly(it.super, all, it.queued, |it.queued|, it.visited)
  {
    hide Structure, Orderly, Opening, Flat;
  }

  /** Container::getItemHoldingCount(): how many items lie inside, at any depth. */
  method GetItemHoldingCount(c: Item, ghost all: set<Item>) returns (counter: nat)
    requires Structure(all) && c in all && (c.itemlist != [] ==> c.isContainer)
    ensures counter == |Nested(c, all)|
  {
    hide Structure, Walk, Orderly, Nested;
    var it := new ContainerIterator(c, all);
    counter := 0;
    while !it.AtEnd()
      invariant it.Valid(all) && it.super == c && counter == |it.visited|
      invariant fresh(it)
      decreases |Nested(c, all)| - |it.visited|
    {
      VisitedBounded(c, all, it.queued, it.finished, it.visited);
      it.Advance(all);
      VisitedBounded(c, all, it.queued, it.finished, it.visited);
      counter := counter + 1;
    }
    AtEndIsDone(it, all);
    WalkEnumerates(c, all, it.queued, it.visited);
  }

  /** Container::isHoldingItem(): whether c is one of the containers around the item. */
  method IsHoldingItem(c: Item, item: Item, ghost all: set<Item>) returns (holding: bool)
    requires Structure(all) && c in all && (c.itemlist != [] ==> c.isContainer)
    ensures holding <==> item in Nested(c, all)
  {
    hide Structure, Walk, Orderly, Nested;
    var it := new ContainerIterator(c, all);
    while !it.AtEnd()
      invariant it.Valid(all) && it.super == c && item !in it.visited
      invariant fresh(it)
      decreases |Nested(c, all)| - |it.visited|
    {
      VisitedBounded(c, all, it.queued, it.finished, it.visited);
      var x := it.Current(all);
      if x == item {
        return true;
      }
      it.Advance(all);
      VisitedBounded(c, all, it.queued, it.finished, it.visited);
    }
    AtEndIsDone(it, all);
    WalkEnumerates(c, all, it.queued, it.visited);
    assert item !in Members(it.visited);
    return false;
  }
}
