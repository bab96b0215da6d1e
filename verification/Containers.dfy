/** Containers inside containers: every container caches the weight of all it holds, and each change
    is carried up to the outermost one. */
module Containers {

  datatype ItemType = ItemType(id: nat, weight: nat, stackable: bool, pickupable: bool, moveable: bool)

  function Max(a: int, b: int): (m: int)
    ensures a <= m && b <= m && (m == a || m == b)
  {
    if a < b then b else a
  }

  function OwnWeight(kind: ItemType, count: nat): nat {
    if kind.stackable then kind.weight * Max(1, count) else kind.weight
  }

  /** A container is an item that may hold items. `rank` grows from a container to what it holds. */
  class Item {
    var kind: ItemType
    var count: nat
    const isContainer: bool
    const capacity: nat
    var parent: Item?
    var itemlist: seq<Item>
    var totalWeight: int
    ghost var rank: nat

    function Weight(): int
      reads this`kind, this`count, this`totalWeight
    {
      OwnWeight(kind, count) + if isContainer then totalWeight else 0
    }

    constructor (kind: ItemType, count: nat, isContainer: bool, capacity: nat)
      ensures this.kind == kind && this.count == count && this.isContainer == isContainer && this.capacity == capacity
      ensures parent == null && itemlist == [] && totalWeight == 0
    {
      this.kind, this.count, this.isContainer, this.capacity := kind, count, isContainer, capacity;
      parent, itemlist, totalWeight, rank := null, [], 0, 0;
    }
  }

  /** What an item weighs: a stack as many times its type's weight as it has items, at least once, and a
      container with all it holds. */
  ghost function Heft(x: Item): int
    reads x`kind, x`count, x`totalWeight
  {
    (if x.kind.stackable && x.count > 1 then x.kind.weight * x.count else x.kind.weight) +
    if x.isContainer then x.totalWeight else 0
  }

  lemma HeftIsWeight(x: Item)
    ensures x.Weight() == Heft(x)
  {
  }

  // ----- Sums over a list, as functions of a snapshot -----

  ghost function Sum(s: seq<Item>, w: map<Item, int>): int {
    if s == [] then 0 else (if s[0] in w then w[s[0]] else 0) + Sum(s[1..], w)
  }

  ghost predicate Distinct(s: seq<Item>) {
    forall i, j | 0 <= i < j < |s| :: s[i] != s[j]
  }

  /** Changing one item's value changes the sum by the difference, if the item is listed at all. */
  lemma {:induction false} SumUpdate(s: seq<Item>, w: map<Item, int>, x: Item, v: int)
    requires x in w && Distinct(s)
    ensures Sum(s, w[x := v]) == Sum(s, w) + if x in s then v - w[x] else 0
  {
    if s != [] {
      SumUpdate(s[1..], w, x, v);
    }
  }

  lemma {:induction false} SumConcat(a: seq<Item>, b: seq<Item>, w: map<Item, int>)
    ensures Sum(a + b, w) == Sum(a, w) + Sum(b, w)
  {
    if a == [] {
      assert a + b == b;
    } else {
      assert (a + b)[1..] == a[1..] + b;
      SumConcat(a[1..], b, w);
    }
  }

  lemma {:induction false} SumNotNegative(s: seq<Item>, w: map<Item, int>)
    requires forall x | x in s && x in w :: w[x] >= 0
    ensures Sum(s, w) >= 0
  {
    if s != [] {
      SumNotNegative(s[1..], w);
    }
  }

  // ----- The container tree -----

  ghost function Parents(all: set<Item>): (m: map<Item, Item?>)
    ensures m.Keys == all
    reads all`parent
  {
    map x | x in all :: x.parent
  }

  ghost function Lists(all: set<Item>): (m: map<Item, seq<Item>>)
    ensures m.Keys == all
    reads all`itemlist
  {
    map x | x in all :: x.itemlist
  }

  /** Parent links and item lists agree, and no item is listed twice. */
  ghost predicate Linked(all: set<Item>, parents: map<Item, Item?>, lists: map<Item, seq<Item>>)
    requires parents.Keys == all && lists.Keys == all
  {
    (forall x | x in all && parents[x] != null ::
       parents[x] in all && parents[x].isContainer && x in lists[parents[x]]) &&
    (forall c, x | c in all && x in lists[c] :: x in all && parents[x] == c) &&
    (forall c | c in all :: Distinct(lists[c]))
  }

  ghost predicate Links(all: set<Item>)
    reads all`parent, all`itemlist
  {
    Linked(all, Parents(all), Lists(all))
  }

  ghost function Ranks(all: set<Item>): (m: map<Item, nat>)
    ensures m.Keys == all
    reads all`rank
  {
    map x | x in all :: x.rank
  }

  /** No container is inside itself: the ranks fall from every item to the container around it. */
  ghost predicate Falling(all: set<Item>, parents: map<Item, Item?>, ranks: map<Item, nat>)
    requires parents.Keys == ranks.Keys == all
  {
    forall x | x in all && parents[x] != null :: parents[x] in all && ranks[parents[x]] < ranks[x]
  }

  ghost predicate Ranked(all: set<Item>)
    reads all`parent, all`rank
  {
    Falling(all, Parents(all), Ranks(all))
  }

  lemma RelinkKeepsRanks(all: set<Item>, parents: map<Item, Item?>, ranks: map<Item, nat>, x: Item, p: Item?)
    requires parents.Keys == ranks.Keys == all && Falling(all, parents, ranks) && x in all
    requires p != null ==> p in all && ranks[p] < ranks[x]
    ensures Falling(all, parents[x := p], ranks)
  {
  }

  ghost predicate Structure(all: set<Item>)
    reads all`parent, all`itemlist, all`rank
  {
    Links(all) && Ranked(all)
  }

  // ----- Who is around whom -----

  ghost function Chain(x: Item, all: set<Item>, parents: map<Item, Item?>, ranks: map<Item, nat>): set<Item>
    requires parents.Keys == ranks.Keys == all && Falling(all, parents, ranks) && x in all
    decreases ranks[x]
  {
    {x} + if parents[x] == null then {} else Chain(parents[x], all, parents, ranks)
  }

  /** The item and every container around it. */
  ghost function Above(x: Item, all: set<Item>): set<Item>
    requires Structure(all) && x in all
    reads all`parent, all`itemlist, all`rank
  {
    Chain(x, all, Parents(all), Ranks(all))
  }

  /** Taking loose an item that is not around c leaves what is around c as it was. */
  lemma {:induction false} ChainWithout(c: Item, all: set<Item>, parents: map<Item, Item?>, ranks: map<Item, nat>,
                                        x: Item)
    requires parents.Keys == ranks.Keys == all && x in all && c in all
    requires Falling(all, parents, ranks) && Falling(all, parents[x := null], ranks)
    requires x !in Chain(c, all, parents, ranks)
    ensures Chain(c, all, parents[x := null], ranks) == Chain(c, all, parents, ranks)
    decreases ranks[c]
  {
    if parents[c] != null {
      ChainWithout(parents[c], all, parents, ranks, x);
    }
  }

  lemma {:induction false} AboveRanks(x: Item, all: set<Item>)
    requires Structure(all) && x in all
    ensures Above(x, all) <= all && forall y | y in Above(x, all) :: y == x || y.rank < x.rank
    decreases x.rank
  {
    AboveStep(x, all);
    if x.parent != null {
      AboveRanks(x.parent, all);
    }
  }

  lemma AboveStep(c: Item, all: set<Item>)
    requires Structure(all) && c in all
    ensures c in Above(c, all)
    ensures c.parent == null ==> Above(c, all) == {c}
    ensures c.parent != null ==> c.parent in all && Above(c, all) == {c} + Above(c.parent, all)
  {
    assert Parents(all)[c] == c.parent;
  }

  /** No container is inside itself, at any depth. */
  lemma NoContainerInItself(x: Item, all: set<Item>)
    requires Structure(all) && x in all && x.parent != null
    ensures x !in Above(x.parent, all)
  {
    AboveRanks(x.parent, all);
  }

  // ----- Cached weights -----

  ghost function Weights(all: set<Item>): (w: map<Item, int>)
    ensures w.Keys == all
    reads all`kind, all`count, all`totalWeight
  {
    map x | x in all :: x.Weight()
  }

  ghost function Totals(all: set<Item>): (t: map<Item, int>)
    ensures t.Keys == all
    reads all`totalWeight
  {
    map x | x in all :: x.totalWeight
  }

  /** How much each container's cached weight is short of its load; containers not listed are right. */
  type Shortfall = map<Item, int>

  ghost function Short(short: Shortfall, c: Item): int {
    if c in short then short[c] else 0
  }

  /** The shortfall once c gained diff. */
  ghost function Gained(short: Shortfall, c: Item, diff: int): Shortfall {
    short[c := Short(short, c) - diff]
  }

  /** Each container's cached weight, plus its shortfall, is what its items weigh together; a container
      among them weighs with its own cached weight. */
  ghost predicate Balanced(all: set<Item>, lists: map<Item, seq<Item>>, totals: map<Item, int>, weights: map<Item, int>,
                           short: Shortfall)
    requires lists.Keys == all && totals.Keys == all
  {
    forall c | c in all && c.isContainer :: totals[c] + Short(short, c) == Sum(lists[c], weights)
  }

  ghost predicate Weighted(all: set<Item>, short: Shortfall)
    reads all`itemlist, all`kind, all`count, all`totalWeight
  {
    Balanced(all, Lists(all), Totals(all), Weights(all), short)
  }

  lemma BalancedSame(all: set<Item>, lists: map<Item, seq<Item>>, totals: map<Item, int>, weights: map<Item, int>,
                     a: Shortfall, b: Shortfall)
    requires lists.Keys == all && totals.Keys == all && Balanced(all, lists, totals, weights, a)
    requires forall c | c in all :: Short(a, c) == Short(b, c)
    ensures Balanced(all, lists, totals, weights, b)
  {
    hide Sum, Short;
  }

  lemma WeightedSame(all: set<Item>, a: Shortfall, b: Shortfall)
    requires Weighted(all, a) && forall c | c in all :: Short(a, c) == Short(b, c)
    ensures Weighted(all, b)
  {
    hide Balanced, Short;
    BalancedSame(all, Lists(all), Totals(all), Weights(all), a, b);
  }

  lemma ListChange(all: set<Item>, lists: map<Item, seq<Item>>, totals: map<Item, int>, weights: map<Item, int>,
                   short: Shortfall, c: Item, list: seq<Item>, delta: int)
    requires lists.Keys == all && totals.Keys == all && Balanced(all, lists, totals, weights, short) && c in all
    requires Sum(list, weights) == Sum(lists[c], weights) + delta
    ensures Balanced(all, lists[c := list], totals, weights, Gained(short, c, -delta))
  {
    hide Sum;
  }

  lemma TotalChange(all: set<Item>, lists: map<Item, seq<Item>>, totals: map<Item, int>, weights: map<Item, int>,
                    short: Shortfall, c: Item, diff: int)
    requires lists.Keys == all && totals.Keys == all && Balanced(all, lists, totals, weights, short) && c in all
    ensures Balanced(all, lists, totals[c := totals[c] + diff], weights, Gained(short, c, diff))
  {
    hide Sum;
  }

  /** When one item's weight changes, only the container holding it sees its load change. */
  lemma WeightChange(all: set<Item>, parents: map<Item, Item?>, lists: map<Item, seq<Item>>, totals: map<Item, int>,
                     weights: map<Item, int>, short: Shortfall, x: Item, diff: int)
    requires parents.Keys == lists.Keys == totals.Keys == weights.Keys == all && Linked(all, parents, lists)
    requires Balanced(all, lists, totals, weights, short) && x in all
    ensures Balanced(all, lists, totals, weights[x := weights[x] + diff], PassedOn(short, parents[x], diff))
  {
    hide Sum, Distinct;
    forall c | c in all && c.isContainer
      ensures totals[c] + Short(PassedOn(short, parents[x], diff), c) == Sum(lists[c], weights[x := weights[x] + diff])
    {
      SumUpdate(lists[c], weights, x, weights[x] + diff);
      assert x in lists[c] <==> parents[x] == c;
    }
  }

  /** The container around (if any) is now short of diff. */
  ghost function PassedOn(short: Shortfall, p: Item?, diff: int): Shortfall {
    if p == null then short else Gained(short, p, -diff)
  }

  /** Adds diff to a container's cached weight and to that of every container around it. The container's
      own shortfall drops by diff and no other changes: each one around it gains what its load gained. */
  method UpdateItemWeight(c: Item, diff: int, ghost all: set<Item>, ghost short: Shortfall)
    requires Structure(all) && c in all && c.isContainer && Weighted(all, short)
    modifies all`totalWeight
    ensures Weighted(all, Gained(short, c, diff))
    ensures forall x | x in all :: x.totalWeight == old(x.totalWeight) + if x in Above(c, all) then diff else 0
    decreases c.rank
  {
    hide Structure, Weighted, Short, Gained, Above;
    AboveStep(c, all);
    AboveRanks(c, all);
    NotAbove(c, all);
    AddOwnWeight(c, diff, all, short);
    ParentHolds(c, all);
    if c.parent != null {
      ghost var passed := Gained(Gained(short, c, diff), c.parent, -diff);
      UpdateItemWeight(c.parent, diff, all, passed);
      GainedBack(Gained(short, c, diff), c.parent, diff);
      WeightedSame(all, Gained(passed, c.parent, diff), Gained(short, c, diff));
    }
  }

  lemma NotAbove(c: Item, all: set<Item>)
    requires Structure(all) && c in all
    ensures c.parent != null ==> c.parent in all && c !in Above(c.parent, all)
  {
    hide Links;
    if c.parent != null {
      assert Parents(all)[c] == c.parent;
      NoContainerInItself(c, all);
    }
  }

  lemma ParentHolds(c: Item, all: set<Item>)
    requires Structure(all) && c in all
    ensures c.parent != null ==>
              c.parent in all && c.parent.isContainer && c.parent.rank < c.rank && c in c.parent.itemlist
  {
  }

  lemma GainedBack(short: Shortfall, p: Item, diff: int)
    ensures forall x :: Short(Gained(Gained(short, p, -diff), p, diff), x) == Short(short, x)
  {
  }

  method AddOwnWeight(c: Item, diff: int, ghost all: set<Item>, ghost short: Shortfall)
    requires Structure(all) && c in all && c.isContainer && Weighted(all, short)
    modifies c`totalWeight
    ensures c.totalWeight == old(c.totalWeight) + diff
    ensures c.parent == null ==> Weighted(all, Gained(short, c, diff))
    ensures c.parent != null ==> Weighted(all, Gained(Gained(short, c, diff), c.parent, -diff))
  {
    hide Linked, Balanced, Gained, Ranked;
    ghost var lists, totals, weights := Lists(all), Totals(all), Weights(all);
    TotalChange(all, lists, totals, weights, short, c, diff);
    WeightChange(all, Parents(all), lists, totals[c := totals[c] + diff], weights, Gained(short, c, diff), c, diff);
    c.totalWeight := c.totalWeight + diff;
    assert Totals(all) == totals[c := totals[c] + diff];
    assert Weights(all) == weights[c := weights[c] + diff];
  }

  ghost predicate Consistent(all: set<Item>)
    reads all`parent, all`itemlist, all`rank, all`kind, all`count, all`totalWeight
  {
    Structure(all) && Weighted(all, map[])
  }

  // ----- Adding -----

  /** Makes room in the ranks: everything inside x moves up together. */
  ghost method RaiseRanks(x: Item, step: nat, all: set<Item>)
    requires Structure(all) && x in all && x.parent == null
    modifies all`rank
    ensures Structure(all)
    ensures forall y | y in all :: y.rank == old(y.rank) + if x in old(Above(y, all)) then step else 0
  {
    hide Links, Above, Chain;
    var inside := set y | y in all && x in Above(y, all);
    InsideIsClosed(x, all, inside);
    forall y | y in inside {
      y.rank := y.rank + step;
    }
  }

  /** Ranks say nothing about what is around a container. */
  ghost method RaiseRanksOnly(x: Item, step: nat, c: Item, all: set<Item>)
    requires Structure(all) && x in all && x.parent == null && c in all
    modifies all`rank
    ensures Structure(all) && Above(c, all) == old(Above(c, all))
    ensures forall y | y in all :: y.rank == old(y.rank) + if x in old(Above(y, all)) then step else 0
  {
    hide Links, Chain;
    ghost var parents, ranks := Parents(all), Ranks(all);
    RaiseRanks(x, step, all);
    ChainAnyRanks(c, all, parents, ranks, Ranks(all));
  }

  lemma {:induction false} ChainAnyRanks(c: Item, all: set<Item>, parents: map<Item, Item?>, ranks: map<Item, nat>,
                                         others: map<Item, nat>)
    requires parents.Keys == ranks.Keys == others.Keys == all && c in all
    requires Falling(all, parents, ranks) && Falling(all, parents, others)
    ensures Chain(c, all, parents, ranks) == Chain(c, all, parents, others)
    decreases ranks[c]
  {
    if parents[c] != null {
      ChainAnyRanks(parents[c], all, parents, ranks, others);
    }
  }

  lemma InsideIsClosed(x: Item, all: set<Item>, inside: set<Item>)
    requires Structure(all) && inside == set y | y in all && x in Above(y, all)
    ensures forall y | y in all && y.parent != null :: y in inside <==> y == x || y.parent in inside
  {
    hide Links, Above;
    forall y | y in all && y.parent != null
      ensures y in inside <==> y == x || y.parent in inside
    {
      AboveStep(y, all);
    }
  }

  /** Puts a loose item at the front of a container's list; the container's cached weight is then short
      of the item's weight. */
  method Link(c: Item, item: Item, ghost all: set<Item>)
    requires Consistent(all) && c in all && item in all && c.isContainer
    requires item.parent == null && item !in Above(c, all)
    modifies item`parent, c`itemlist, all`rank
    ensures Structure(all) && Weighted(all, map[c := item.Weight()])
    ensures item.parent == c && c.itemlist == [item] + old(c.itemlist)
  {
    hide Links, Ranked, Weighted, Item.Weight, Above;
    AboveStep(item, all);
    RaiseRanks(item, c.rank + 1, all);
    PushFront(c, item, all);
  }

  method PushFront(c: Item, item: Item, ghost all: set<Item>)
    requires Consistent(all) && c in all && item in all && c.isContainer
    requires item.parent == null && c.rank < item.rank
    modifies item`parent, c`itemlist
    ensures Structure(all) && Weighted(all, map[c := item.Weight()])
    ensures item.parent == c && c.itemlist == [item] + old(c.itemlist)
  {
    hide Sum, Distinct, Item.Weight, Linked, Balanced, Falling, Weights, Totals, Above;
    Listed(c, item, all);
    ghost var list, parents, lists := c.itemlist, Parents(all), Lists(all);
    RelinkKeepsRanks(all, parents, Ranks(all), item, c);
    PushKeepsLinks(all, parents, lists, c, item);
    SumPush(item, list, Weights(all));
    WeightsAt(item, all);
    ListChange(all, lists, Totals(all), Weights(all), map[], c, [item] + list, item.Weight());
    item.parent := c;
    c.itemlist := [item] + c.itemlist;
    assert Parents(all) == parents[item := c];
    assert Lists(all) == lists[c := [item] + list];
  }

  lemma WeightsAt(x: Item, all: set<Item>)
    requires x in all
    ensures Weights(all)[x] == x.Weight()
  {
  }

  /** Listing a loose item keeps links and lists in step. */
  lemma PushKeepsLinks(all: set<Item>, parents: map<Item, Item?>, lists: map<Item, seq<Item>>, c: Item, item: Item)
    requires parents.Keys == all && lists.Keys == all && Linked(all, parents, lists)
    requires c in all && item in all && c.isContainer && parents[item] == null && item !in lists[c]
    ensures Linked(all, parents[item := c], lists[c := [item] + lists[c]])
  {
    hide Distinct;
    DistinctPush(item, lists[c]);
  }

  lemma Listed(c: Item, item: Item, all: set<Item>)
    requires Structure(all) && c in all
    ensures item in c.itemlist ==> item in all && item.parent == c
  {
    hide Distinct;
    assert Lists(all)[c] == c.itemlist;
  }

  lemma DistinctList(c: Item, all: set<Item>)
    requires Structure(all) && c in all
    ensures Distinct(c.itemlist)
  {
    assert Lists(all)[c] == c.itemlist;
  }

  lemma SumPush(x: Item, s: seq<Item>, w: map<Item, int>)
    requires x in w
    ensures Sum([x] + s, w) == w[x] + Sum(s, w)
  {
    assert ([x] + s)[1..] == s;
  }

  lemma DistinctPush(x: Item, s: seq<Item>)
    requires Distinct(s) && x !in s
    ensures Distinct([x] + s) && x in [x] + s
    ensures (forall y | y in [x] + s :: y == x || y in s) && forall y | y in s :: y in [x] + s
  {
  }

  /** __addThing: lists a loose item first, unless the index lies past the capacity. */
  method AddThing(c: Item, index: int, item: Item, ghost all: set<Item>)
    requires Consistent(all) && c in all && item in all && c.isContainer
    requires item.parent == null && item !in Above(c, all)
    modifies item`parent, c`itemlist, all`rank, all`totalWeight
    ensures Consistent(all)
    ensures index < c.capacity ==> item.parent == c && c.itemlist == [item] + old(c.itemlist)
    ensures index >= c.capacity ==> item.parent == null && c.itemlist == old(c.itemlist)
    ensures forall d | d in all ::
              d.totalWeight ==
              old(d.totalWeight) + if index < c.capacity && d in Above(c, all) then old(Heft(item)) else 0
  {
    hide Structure, Weighted, Above, Item.Weight, Heft;
    if index >= c.capacity {
      return;
    }
    HeftIsWeight(item);
    var weight := item.Weight();
    Link(c, item, all);
    UpdateItemWeight(c, weight, all, map[c := weight]);
    Settled(all, c, weight);
  }

  lemma Settled(all: set<Item>, c: Item, w: int)
    requires Weighted(all, Gained(map[c := w], c, w))
    ensures Weighted(all, map[])
  {
    hide Weighted;
    WeightedSame(all, Gained(map[c := w], c, w), map[]);
  }

  // ----- Changing an item in place -----

  /** __updateThing on a listed item: new type and count, and the weight difference carried up. */
  method UpdateThing(c: Item, item: Item, kind: ItemType, count: nat, ghost all: set<Item>)
    requires Consistent(all) && c in all && c.isContainer
    modifies item`kind, item`count, all`totalWeight
    ensures Consistent(all)
    ensures old(item in c.itemlist) ==> item.kind == kind && item.count == count
    ensures old(item !in c.itemlist) ==> item.kind == old(item.kind) && item.count == old(item.count)
    ensures forall d | d in all ::
              d.totalWeight ==
              old(d.totalWeight) +
                if old(item in c.itemlist) && d in Above(c, all) then Heft(item) - old(Heft(item)) else 0
  {
    hide Structure, Weighted, Item.Weight, Heft, Above;
    HeftIsWeight(item);
    if item in c.itemlist {
      assert item in all && item.parent == c by { Listed(c, item, all); }
      var oldWeight := item.Weight();
      SetKind(c, item, kind, count, all);
      HeftIsWeight(item);
      NotAbove(item, all);
      var diffWeight := -oldWeight + item.Weight();
      UpdateItemWeight(c, diffWeight, all, map[c := diffWeight]);
      Settled(all, c, diffWeight);
    }
  }

  method SetKind(c: Item, item: Item, kind: ItemType, count: nat, ghost all: set<Item>)
    requires Consistent(all) && c in all && item in all && item.parent == c
    modifies item`kind, item`count
    ensures item.kind == kind && item.count == count
    ensures Structure(all) && Weighted(all, map[c := item.Weight() - old(item.Weight())])
  {
    hide Structure, Balanced, Item.Weight, Weights, Short;
    ghost var weights := Weights(all);
    WeightsAre(all, weights);
    item.kind := kind;
    item.count := count;
    ghost var diff := item.Weight() - old(item.Weight());
    WeightsAre(all, weights[item := weights[item] + diff]);
    HeldWeighs(all, weights, map[], item, diff);
    assert Gained(map[], c, -diff) == map[c := diff] by { NoShortfall(c); }
  }

  lemma NoShortfall(c: Item)
    ensures Short(map[], c) == 0
  {
  }

  /** The snapshot of the weights is the map with these values. */
  lemma WeightsAre(all: set<Item>, w: map<Item, int>)
    requires w.Keys == all
    ensures w == Weights(all) <==> forall y | y in all :: w[y] == y.Weight()
  {
    hide Item.Weight;
  }

  lemma HeldWeighs(all: set<Item>, weights: map<Item, int>, short: Shortfall, x: Item, diff: int)
    requires Structure(all) && x in all && weights.Keys == all && Weights(all) == weights[x := weights[x] + diff]
    requires Balanced(all, Lists(all), Totals(all), weights, short)
    ensures Weighted(all, PassedOn(short, x.parent, diff))
  {
    hide Linked, Ranked, Balanced, Weights, PassedOn;
    WeightChange(all, Parents(all), Lists(all), Totals(all), weights, short, x, diff);
    assert Parents(all)[x] == x.parent;
  }

  // ----- Removing -----

  ghost function IndexOf(s: seq<Item>, x: Item): nat
    requires x in s
    ensures IndexOf(s, x) < |s| && s[IndexOf(s, x)] == x
  {
    if s[0] == x then 0 else 1 + IndexOf(s[1..], x)
  }

  ghost function Without(s: seq<Item>, x: Item): seq<Item>
    requires x in s
  {
    s[..IndexOf(s, x)] + s[IndexOf(s, x) + 1..]
  }

  method GetIndexOfThing(c: Item, item: Item) returns (index: int)
    ensures item in c.itemlist ==> index == IndexOf(c.itemlist, item)
    ensures item !in c.itemlist ==> index == -1
  {
    for i := 0 to |c.itemlist|
      invariant item !in c.itemlist[..i]
    {
      if c.itemlist[i] == item {
        FirstIndex(c.itemlist, item, i);
        return i;
      }
    }
    return -1;
  }

  lemma {:induction false} FirstIndex(s: seq<Item>, x: Item, i: nat)
    requires i < |s| && s[i] == x && x !in s[..i]
    ensures IndexOf(s, x) == i
  {
    if i > 0 {
      assert s[0] in s[..i];
      assert s[1..][..i - 1] == s[..i][1..];
      FirstIndex(s[1..], x, i - 1);
    }
  }

  lemma {:induction false} SumWithout(s: seq<Item>, x: Item, w: map<Item, int>)
    requires x in s && x in w
    ensures Sum(Without(s, x), w) == Sum(s, w) - w[x]
  {
    var i := IndexOf(s, x);
    SumConcat(s[..i], s[i + 1..], w);
    SumConcat(s[..i], s[i..], w);
    assert s == s[..i] + s[i..] && s[i..] == [x] + s[i + 1..];
    SumPush(x, s[i + 1..], w);
  }

  lemma DistinctWithout(s: seq<Item>, x: Item)
    requires Distinct(s) && x in s
    ensures Distinct(Without(s, x))
    ensures (forall y | y in Without(s, x) :: y in s && y != x) && forall y | y in s && y != x :: y in Without(s, x)
  {
    var i := IndexOf(s, x);
    assert s == s[..i] + [x] + s[i + 1..];
  }

  lemma RemoveKeepsLinks(all: set<Item>, parents: map<Item, Item?>, lists: map<Item, seq<Item>>, c: Item, item: Item)
    requires parents.Keys == all && lists.Keys == all && Linked(all, parents, lists)
    requires c in all && item in lists[c]
    ensures item in all && Linked(all, parents[item := null], lists[c := Without(lists[c], item)])
  {
    hide Linked, Distinct, Without;
    LinksSay(all, parents, lists);
    DistinctWithout(lists[c], item);
    var p, l := parents[item := null], lists[c := Without(lists[c], item)];
    forall x | x in all && p[x] != null
      ensures p[x] in all && p[x].isContainer && x in l[p[x]]
    {
      assert p[x] == parents[x];
    }
    forall d, x | d in all && x in l[d]
      ensures x in all && p[x] == d
    {
      assert x in lists[d];
    }
    LinksAre(all, p, l);
  }

  lemma LinksSay(all: set<Item>, parents: map<Item, Item?>, lists: map<Item, seq<Item>>)
    requires parents.Keys == lists.Keys == all && Linked(all, parents, lists)
    ensures forall x | x in all && parents[x] != null ::
              parents[x] in all && parents[x].isContainer && x in lists[parents[x]]
    ensures forall c, x | c in all && x in lists[c] :: x in all && parents[x] == c
    ensures forall c | c in all :: Distinct(lists[c])
  {
  }

  lemma LinksAre(all: set<Item>, parents: map<Item, Item?>, lists: map<Item, seq<Item>>)
    requires parents.Keys == lists.Keys == all
    requires forall x | x in all && parents[x] != null ::
               parents[x] in all && parents[x].isContainer && x in lists[parents[x]]
    requires forall c, x | c in all && x in lists[c] :: x in all && parents[x] == c
    requires forall c | c in all :: Distinct(lists[c])
    ensures Linked(all, parents, lists)
  {
  }

  /** __removeThing: takes `count` off a stack, or takes the item out of the list altogether when it is
      not stackable or the whole stack goes. */
  method RemoveThing(c: Item, item: Item, count: nat, ghost all: set<Item>)
    requires Consistent(all) && c in all && c.isContainer
    modifies item`parent, item`kind, item`count, c`itemlist, all`totalWeight
    ensures Consistent(all) && item.kind == old(item.kind)
    ensures old(item !in c.itemlist) ==>
              item.parent == old(item.parent) && item.count == old(item.count) && c.itemlist == old(c.itemlist)
    ensures old(item in c.itemlist) && item.kind.stackable && count != old(item.count) ==>
              item.parent == c && item.count == Max(0, old(item.count) - count) && c.itemlist == old(c.itemlist)
    ensures old(item in c.itemlist) && (!item.kind.stackable || count == old(item.count)) ==>
              item.parent == null && item.count == old(item.count) &&
              c.itemlist == Without(old(c.itemlist), item)
    ensures forall d | d in all && item !in old(Above(d, all)) :: item !in Above(d, all)
    ensures forall d | d in all ::
              d.totalWeight ==
              old(d.totalWeight) +
                if !old(item in c.itemlist && d in Above(c, all)) then 0
                else (if item.parent == c then Heft(item) else 0) - old(Heft(item))
  {
    hide Structure, Weighted, Item.Weight, Without, Above, Heft;
    var index := GetIndexOfThing(c, item);
    if index == -1 {
      return;
    }
    assert item in all && item.parent == c by { Listed(c, item, all); }
    if item.kind.stackable && count != item.count {
      UpdateThing(c, item, item.kind, Max(0, item.count - count), all);
    } else {
      TakeOut(c, item, index, all);
    }
  }

  /** The containers around c first, then c itself, then the list. */
  method TakeOut(c: Item, item: Item, index: nat, ghost all: set<Item>)
    requires Consistent(all) && c in all && c.isContainer && item in c.itemlist && index == IndexOf(c.itemlist, item)
    modifies item`parent, c`itemlist, all`totalWeight
    ensures Consistent(all)
    ensures item.parent == null && c.itemlist == Without(old(c.itemlist), item)
    ensures item in all && forall d | d in all && item !in old(Above(d, all)) :: item !in Above(d, all)
    ensures forall d | d in all ::
              d.totalWeight == old(d.totalWeight) - if d in old(Above(c, all)) then old(Heft(item)) else 0
  {
    hide Links, Ranked, Weighted, Sum, Above, Without, IndexOf, Gained, Heft, Item.Weight;
    HeftIsWeight(item);
    InsideOnly(c, item, all);
    PassWeightUp(c, -item.Weight(), all);
    Unlist(c, item, index, all);
  }

  lemma InsideOnly(c: Item, item: Item, all: set<Item>)
    requires Structure(all) && c in all && item in c.itemlist
    ensures item in all && item !in Above(c, all)
  {
    Listed(c, item, all);
    AboveRanks(c, all);
  }

  /** Updates the containers around c and then c, before the change that justifies it. */
  method PassWeightUp(c: Item, diff: int, ghost all: set<Item>)
    requires Consistent(all) && c in all && c.isContainer
    modifies all`totalWeight
    ensures Structure(all) && Weighted(all, map[c := -diff])
    ensures forall x | x in all :: x.totalWeight == old(x.totalWeight) + if x in Above(c, all) then diff else 0
  {
    hide Links, Ranked, Weighted, Above, Short, Gained;
    AboveStep(c, all);
    NotAbove(c, all);
    ParentHolds(c, all);
    if c.parent == null {
      AddOwnWeight(c, diff, all, map[]);
    } else {
      UpdateItemWeight(c.parent, diff, all, map[]);
      AddOwnWeight(c, diff, all, Gained(map[], c.parent, diff));
    }
    PassedUp(c, diff, all);
  }

  lemma PassedUp(c: Item, diff: int, all: set<Item>)
    requires c.parent != c
    requires c.parent == null ==> Weighted(all, Gained(map[], c, diff))
    requires c.parent != null ==>
               Weighted(all, Gained(Gained(Gained(map[], c.parent, diff), c, diff), c.parent, -diff))
    ensures Weighted(all, map[c := -diff])
  {
    hide Weighted;
    WeightedSame(all, if c.parent == null then Gained(map[], c, diff)
                      else Gained(Gained(Gained(map[], c.parent, diff), c, diff), c.parent, -diff), map[c := -diff]);
  }

  lemma WithoutIs(s: seq<Item>, x: Item)
    requires x in s
    ensures Without(s, x) == s[..IndexOf(s, x)] + s[IndexOf(s, x) + 1..]
  {
  }

  method Unlist(c: Item, item: Item, index: nat, ghost all: set<Item>)
    requires Structure(all) && Weighted(all, map[c := item.Weight()])
    requires c in all && c.isContainer && item in c.itemlist && index == IndexOf(c.itemlist, item)
    modifies item`parent, c`itemlist
    ensures Consistent(all)
    ensures item.parent == null && c.itemlist == Without(old(c.itemlist), item)
    ensures item in all && forall d | d in all && item !in old(Above(d, all)) :: item !in Above(d, all)
  {
    hide Sum, Item.Weight, Links, Ranked, Balanced, Weights, Totals, Lists, IndexOf, Without;
    ghost var lists := Lists(all);
    ListsAt(c, all);
    assert item in all by { Listed(c, item, all); }
    SumWithout(c.itemlist, item, Weights(all));
    WeightsAt(item, all);
    DropSlot(c, item, index, all);
    ListSettles(all, lists, c, Without(lists[c], item), item.Weight(), -item.Weight());
  }

  lemma ListsAt(c: Item, all: set<Item>)
    requires c in all
    ensures Lists(all)[c] == c.itemlist
  {
  }

  /** The list and the link, without the weights. */
  method DropSlot(c: Item, item: Item, index: nat, ghost all: set<Item>)
    requires Structure(all) && c in all && item in c.itemlist && index == IndexOf(c.itemlist, item)
    modifies item`parent, c`itemlist
    ensures Structure(all) && item.parent == null && c.itemlist == Without(old(c.itemlist), item)
    ensures Lists(all) == old(Lists(all))[c := Without(old(c.itemlist), item)]
    ensures item in all && forall d | d in all && item !in old(Above(d, all)) :: item !in Above(d, all)
  {
    hide Distinct, Linked, Falling, IndexOf, Without, Chain;
    ghost var list, parents, lists := c.itemlist, Parents(all), Lists(all);
    WithoutIs(list, item);
    Listed(c, item, all);
    RelinkKeepsRanks(all, parents, Ranks(all), item, null);
    RemoveKeepsLinks(all, parents, lists, c, item);
    item.parent := null;
    c.itemlist := c.itemlist[..index] + c.itemlist[index + 1..];
    assert Parents(all) == parents[item := null];
    assert Lists(all) == lists[c := Without(list, item)];
    forall d | d in all && item !in old(Above(d, all))
      ensures item !in Above(d, all)
    {
      ChainWithout(d, all, parents, Ranks(all), item);
    }
  }

  /** A list change that makes up for the shortfall. */
  lemma ListSettles(all: set<Item>, lists: map<Item, seq<Item>>, c: Item, list: seq<Item>, w: int, delta: int)
    requires lists.Keys == all && c in all && Lists(all) == lists[c := list] && w == -delta
    requires Balanced(all, lists, Totals(all), Weights(all), map[c := w])
    requires Sum(list, Weights(all)) == Sum(lists[c], Weights(all)) + delta
    ensures Weighted(all, map[])
  {
    hide Balanced, Sum, Weights, Totals, Lists;
    ListChange(all, lists, Totals(all), Weights(all), map[c := w], c, list, delta);
    BalancedSame(all, Lists(all), Totals(all), Weights(all), Gained(map[c := w], c, -delta), map[]);
  }

  // ----- Replacing -----

  /** __replaceThing: a loose item takes the place of the one at an index, which comes loose. */
  method ReplaceThing(c: Item, index: nat, item: Item, ghost all: set<Item>)
    requires Consistent(all) && c in all && item in all && c.isContainer
    requires item.parent == null && item !in Above(c, all)
    modifies item`parent, all`parent, c`itemlist, all`rank, all`totalWeight
    ensures Consistent(all)
    ensures index >= |old(c.itemlist)| ==> c.itemlist == old(c.itemlist) && item.parent == null
    ensures index < |old(c.itemlist)| ==>
              c.itemlist == old(c.itemlist)[index := item] && item.parent == c && old(c.itemlist)[index].parent == null
    ensures forall x | x in all && x != item && (index < |old(c.itemlist)| ==> x != old(c.itemlist)[index]) ::
              x.parent == old(x.parent)
    ensures forall d | d in all ::
              d.totalWeight ==
              old(d.totalWeight) +
                if index < |old(c.itemlist)| && d in old(Above(c, all))
                then old(Heft(item)) - old(Heft(c.itemlist[index])) else 0
  {
    hide Links, Ranked, Weighted, Above, Heft, Item.Weight, Chain;
    if index >= |c.itemlist| {
      return;
    }
    var replaced := c.itemlist[index];
    HeftIsWeight(item);
    HeftIsWeight(replaced);
    AboveStep(item, all);
    RaiseRanksOnly(item, c.rank + 1, c, all);
    InsideOnly(c, replaced, all);
    AboveRanks(c, all);
    PassWeightUp(c, -replaced.Weight() + item.Weight(), all);
    PutInPlace(c, index, replaced, item, all);
  }

  method PutInPlace(c: Item, index: nat, replaced: Item, item: Item, ghost all: set<Item>)
    requires Structure(all) && Weighted(all, map[c := replaced.Weight() - item.Weight()])
    requires c in all && item in all && c.isContainer && index < |c.itemlist| && c.itemlist[index] == replaced
    requires item.parent == null && c.rank < item.rank
    modifies item`parent, replaced`parent, c`itemlist
    ensures Consistent(all)
    ensures c.itemlist == old(c.itemlist)[index := item] && item.parent == c && replaced.parent == null
  {
    hide Sum, Item.Weight, Links, Ranked, Balanced, Weights, Totals, Lists;
    ghost var lists := Lists(all);
    ListsAt(c, all);
    assert replaced in all by { Listed(c, replaced, all); }
    SumReplace(c.itemlist, index, item, Weights(all));
    WeightsAt(item, all);
    WeightsAt(replaced, all);
    ghost var w := replaced.Weight() - item.Weight();
    SetSlot(c, index, replaced, item, all);
    ListSettles(all, lists, c, lists[c][index := item], w, -w);
  }

  method SetSlot(c: Item, index: nat, replaced: Item, item: Item, ghost all: set<Item>)
    requires Structure(all) && c in all && item in all && c.isContainer
    requires index < |c.itemlist| && c.itemlist[index] == replaced && item.parent == null && c.rank < item.rank
    modifies item`parent, replaced`parent, c`itemlist
    ensures Structure(all) && item.parent == c && replaced.parent == null &&
            c.itemlist == old(c.itemlist)[index := item]
    ensures Lists(all) == old(Lists(all))[c := old(c.itemlist)[index := item]]
  {
    hide Distinct, Linked, Falling;
    ghost var list, parents, lists := c.itemlist, Parents(all), Lists(all);
    Listed(c, replaced, all);
    Listed(c, item, all);
    ghost var moved: map<Item, Item?> := parents[item := c];
    RelinkKeepsRanks(all, parents, Ranks(all), item, c);
    RelinkKeepsRanks(all, moved, Ranks(all), replaced, null);
    ReplaceKeepsLinks(all, parents, lists, c, index, item);
    c.itemlist := c.itemlist[index := item];
    item.parent := c;
    replaced.parent := null;
    assert Parents(all) == moved[replaced := null];
    assert Lists(all) == lists[c := list[index := item]];
  }

  lemma SumReplace(s: seq<Item>, i: nat, x: Item, w: map<Item, int>)
    requires i < |s| && x in w && s[i] in w
    ensures Sum(s[i := x], w) == Sum(s, w) - w[s[i]] + w[x]
  {
    assert s == s[..i] + ([s[i]] + s[i + 1..]) && s[i := x] == s[..i] + ([x] + s[i + 1..]);
    SumConcat(s[..i], [s[i]] + s[i + 1..], w);
    SumConcat(s[..i], [x] + s[i + 1..], w);
    SumPush(s[i], s[i + 1..], w);
    SumPush(x, s[i + 1..], w);
  }

  lemma ReplaceKeepsLinks(all: set<Item>, parents: map<Item, Item?>, lists: map<Item, seq<Item>>, c: Item, i: nat,
                          item: Item)
    requires parents.Keys == all && lists.Keys == all && Linked(all, parents, lists)
    requires c in all && item in all && c.isContainer && parents[item] == null && i < |lists[c]| && item !in lists[c]
    ensures lists[c][i] in all
    ensures var moved: map<Item, Item?> := parents[item := c];
            Linked(all, moved[lists[c][i] := null], lists[c := lists[c][i := item]])
  {
    var list := lists[c];
    assert list[i] in list && parents[list[i]] == c;
    DistinctReplace(list, i, item);
  }

  lemma DistinctReplace(s: seq<Item>, i: nat, x: Item)
    requires Distinct(s) && i < |s| && x !in s
    ensures Distinct(s[i := x]) && x in s[i := x]
    ensures forall y | y in s[i := x] :: y == x || (y in s && y != s[i])
    ensures forall y | y in s && y != s[i] :: y in s[i := x]
  {
    assert s[i := x][i] == x;
    forall y | y in s && y != s[i] ensures y in s[i := x] {
      var k :| 0 <= k < |s| && s[k] == y;
      assert s[i := x][k] == y;
    }
  }

  // ----- The whole weight -----

  /** The weight of an item with everything nested in it, counted item by item at every depth.
      `height` bounds the ranks. */
  ghost function NestedWeight(x: Item, all: set<Item>, height: nat): int
    requires Structure(all) && x in all && forall y | y in all :: y.rank < height
    reads all
    decreases height - x.rank, |x.itemlist| + 1
  {
    OwnWeight(x.kind, x.count) + if x.isContainer then NestedSum(x, |x.itemlist|, all, height) else 0
  }

  /** The nested weights of the first n items of c's list. */
  ghost function NestedSum(c: Item, n: nat, all: set<Item>, height: nat): int
    requires Structure(all) && c in all && n <= |c.itemlist| && forall y | y in all :: y.rank < height
    reads all
    decreases height - c.rank, n
  {
    if n == 0 then 0
    else
      var x := c.itemlist[n - 1];
      assert x in all && x.parent == c by { Listed(c, x, all); }
      NestedSum(c, n - 1, all, height) + NestedWeight(x, all, height)
  }

  /** In a consistent tree every cached weight is the weight of everything nested inside, at all depths. */
  lemma {:induction false} CacheIsNestedWeight(x: Item, all: set<Item>, height: nat)
    requires Consistent(all) && x in all && forall y | y in all :: y.rank < height
    ensures x.Weight() == NestedWeight(x, all, height)
    decreases height - x.rank, |x.itemlist| + 1
  {
    hide Structure, Sum;
    if x.isContainer {
      PrefixLoad(x, |x.itemlist|, all, height);
      assert x.itemlist[..|x.itemlist|] == x.itemlist;
      assert Totals(all)[x] == x.totalWeight && Lists(all)[x] == x.itemlist;
    }
  }

  lemma {:induction false} PrefixLoad(c: Item, n: nat, all: set<Item>, height: nat)
    requires Consistent(all) && c in all && n <= |c.itemlist| && forall y | y in all :: y.rank < height
    ensures Sum(c.itemlist[..n], Weights(all)) == NestedSum(c, n, all, height)
    decreases height - c.rank, n
  {
    hide Links, Weighted;
    if n > 0 {
      var x := c.itemlist[n - 1];
      Listed(c, x, all);
      CacheIsNestedWeight(x, all, height);
      PrefixLoad(c, n - 1, all, height);
      WeightsAt(x, all);
      assert c.itemlist[..n] == c.itemlist[..n - 1] + ([x] + []);
      SumConcat(c.itemlist[..n - 1], [x] + [], Weights(all));
      SumPush(x, [], Weights(all));
    }
  }
}
