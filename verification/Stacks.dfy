/** Stacks of items moving into and between containers. */
module Stacks {
  import opened Containers
  import opened Positions

  const INDEX_WHEREEVER := -1
  const STACK := 100

  datatype ReturnValue = NoError | NotPossible | CannotPickup | ThisIsImpossible | ContainerNotEnoughRoom | NotMoveable

  function Min(a: int, b: int): (m: int)
    ensures m <= a && m <= b && (m == a || m == b)
  {
    if a < b then a else b
  }

  /** Every stack holds between 1 and 100, everything else counts as one. */
  ghost predicate StacksOk(all: set<Item>)
    reads all`kind, all`count
  {
    forall x | x in all :: if x.kind.stackable then 1 <= x.count <= STACK else x.count == 1
  }

  /** How many of a type each item is. */
  ghost function Amounts(all: set<Item>, kind: ItemType): (w: map<Item, int>)
    ensures w.Keys == all
    reads all`kind, all`count
  {
    map x | x in all :: if x.kind == kind then x.count else 0
  }

  /** How many of a type a container holds directly. */
  ghost function CountIn(c: Item, kind: ItemType, all: set<Item>): int
    reads c`itemlist, all`kind, all`count
  {
    Sum(c.itemlist, Amounts(all, kind))
  }

  /** How many more of its type each item has room for. */
  ghost function Gap(x: Item, kind: ItemType): nat
    reads x`kind, x`count
  {
    if x.kind == kind && x.count < STACK then STACK - x.count else 0
  }

  ghost function Gaps(all: set<Item>, kind: ItemType): (w: map<Item, int>)
    ensures w.Keys == all
    reads all`kind, all`count
  {
    map x | x in all :: Gap(x, kind)
  }

  ghost function FreeSlots(c: Item): nat
    reads c`itemlist
  {
    Max(c.capacity - |c.itemlist|, 0)
  }

  /** How many of a stackable type a container can take in all: full new stacks and gaps in old ones. */
  ghost function Room(c: Item, kind: ItemType, all: set<Item>): int
    reads c`itemlist, all`kind, all`count
  {
    FreeSlots(c) * STACK + Sum(c.itemlist, Gaps(all, kind))
  }

  /** The gaps in stacks of an item's type, the item itself aside. */
  ghost function OtherGaps(all: set<Item>, item: Item): (w: map<Item, int>)
    ensures w.Keys == all
    reads all`kind, all`count, item`kind
  {
    map x | x in all :: if x == item then 0 else Gap(x, item.kind)
  }

  /** How many of a stackable item a container can take on top of what it has of it. */
  ghost function RoomFor(c: Item, item: Item, all: set<Item>): int
    reads c`itemlist, all`kind, all`count, item`kind
  {
    FreeSlots(c) * STACK + Sum(c.itemlist, OtherGaps(all, item))
  }

  lemma RoomOutside(c: Item, item: Item, all: set<Item>)
    requires Structure(all) && c in all && item !in c.itemlist
    ensures RoomFor(c, item, all) == Room(c, item.kind, all)
  {
    hide Structure;
    forall y | y in c.itemlist ensures y in all {
      Listed(c, y, all);
    }
    SumSame(c.itemlist, OtherGaps(all, item), Gaps(all, item.kind));
  }

  // ----- Queries -----

  /** __queryAdd without special flags, the carrier agreeing: the item must be one that can be picked up,
      must not be the container or anything around it, and "wherever" needs a free slot. */
  method QueryAdd(c: Item, index: int, item: Item, ghost all: set<Item>) returns (ret: ReturnValue)
    requires Structure(all) && c in all
    ensures ret == NoError <==>
            item.kind.pickupable && item !in Above(c, all) &&
            !(index == INDEX_WHEREEVER && |c.itemlist| >= c.capacity)
    ensures ret == CannotPickup <==> !item.kind.pickupable
    ensures ret == ThisIsImpossible <==> item.kind.pickupable && item in Above(c, all)
    ensures ret in {NoError, CannotPickup, ThisIsImpossible, ContainerNotEnoughRoom}
  {
    hide Links;
    if !item.kind.pickupable {
      return CannotPickup;
    }
    AboveStep(c, all);
    if item == c {
      return ThisIsImpossible;
    }
    var cylinder := c.parent;
    while cylinder != null
      invariant cylinder != null ==> cylinder in all && (item in Above(c, all) <==> item in Above(cylinder, all))
      invariant cylinder == null ==> item !in Above(c, all)
      decreases if cylinder == null then 0 else cylinder.rank + 1
    {
      AboveStep(cylinder, all);
      ParentHolds(cylinder, all);
      if cylinder == item {
        return ThisIsImpossible;
      }
      cylinder := cylinder.parent;
    }
    if index == INDEX_WHEREEVER && |c.itemlist| >= c.capacity {
      return ContainerNotEnoughRoom;
    }
    return NoError;
  }

  /** Whether an item may go into a container at all. */
  ghost predicate Addable(c: Item, item: Item, all: set<Item>)
    requires Structure(all) && c in all
    reads all`parent, all`itemlist, all`rank, item`kind
  {
    item.kind.pickupable && item !in Above(c, all)
  }

  /** __queryMaxCount: how many fit, and whether all of them do. A concrete index asks only for the gap in
      the stack there. Gaps count only for what may be added. */
  method QueryMaxCount(c: Item, index: int, item: Item, count: nat, ghost all: set<Item>)
    returns (ret: ReturnValue, maxQueryCount: nat)
    requires Structure(all) && c in all
    ensures !item.kind.stackable ==> maxQueryCount == FreeSlots(c) && (ret == NoError <==> maxQueryCount > 0)
    ensures item.kind.stackable ==> (ret == NoError <==> maxQueryCount >= count)
    ensures item.kind.stackable && !Addable(c, item, all) ==> maxQueryCount == FreeSlots(c) * STACK
    ensures item.kind.stackable && Addable(c, item, all) && index == INDEX_WHEREEVER ==>
              maxQueryCount == RoomFor(c, item, all)
    ensures item.kind.stackable && Addable(c, item, all) && index != INDEX_WHEREEVER ==>
              maxQueryCount == FreeSlots(c) * STACK +
                               if 0 <= index < |c.itemlist| then Gap(c.itemlist[index], item.kind) else 0
    ensures item.kind.stackable ==> FreeSlots(c) * STACK <= maxQueryCount
    ensures ret == NoError || ret == ContainerNotEnoughRoom
  {
    hide Structure, Above, Sum, OtherGaps;
    var freeSlots := Max(c.capacity - |c.itemlist|, 0);
    if !item.kind.stackable {
      maxQueryCount := freeSlots;
      return if maxQueryCount == 0 then ContainerNotEnoughRoom else NoError, maxQueryCount;
    }
    var n: nat := 0;
    if index == INDEX_WHEREEVER {
      GapsOfNone(all, item);
      for slotIndex := 0 to |c.itemlist|
        invariant n == if Addable(c, item, all) then Sum(c.itemlist[..slotIndex], OtherGaps(all, item)) else 0
      {
        var x := c.itemlist[slotIndex];
        GapsPrefix(c, slotIndex, item, all);
        if x != item && x.kind == item.kind && x.count < STACK {
          var remainder := STACK - x.count;
          var added := QueryAdd(c, slotIndex, item, all);
          if added == NoError {
            n := n + remainder;
          }
        }
      }
      assert c.itemlist[..|c.itemlist|] == c.itemlist;
    } else if 0 <= index < |c.itemlist| {
      var destItem := c.itemlist[index];
      if destItem.kind == item.kind && destItem.count < STACK {
        var remainder := STACK - destItem.count;
        var added := QueryAdd(c, index, item, all);
        if added == NoError {
          n := remainder;
        }
      }
    }
    maxQueryCount := freeSlots * STACK + n;
    ret := if maxQueryCount < count then ContainerNotEnoughRoom else NoError;
  }

  lemma GapsOfNone(all: set<Item>, item: Item)
    ensures Sum([], OtherGaps(all, item)) == 0
  {
  }

  lemma GapsPrefix(c: Item, n: nat, item: Item, all: set<Item>)
    requires Structure(all) && c in all && n < |c.itemlist|
    ensures Sum(c.itemlist[..n + 1], OtherGaps(all, item)) ==
            Sum(c.itemlist[..n], OtherGaps(all, item)) +
            if c.itemlist[n] == item then 0 else Gap(c.itemlist[n], item.kind)
  {
    hide Structure;
    Listed(c, c.itemlist[n], all);
    assert c.itemlist[..n + 1] == c.itemlist[..n] + [c.itemlist[n]];
    SumConcat(c.itemlist[..n], [c.itemlist[n]], OtherGaps(all, item));
  }

  /** __queryRemove; the flag lets go of items that cannot be moved, too. */
  method QueryRemove(c: Item, item: Item, count: nat, ignoreNotMoveable: bool) returns (ret: ReturnValue)
    ensures ret == NoError <==>
            item in c.itemlist && count > 0 && (item.kind.stackable ==> count <= item.count) &&
            (item.kind.moveable || ignoreNotMoveable)
    ensures ret == NotMoveable <==>
            item in c.itemlist && count > 0 && (item.kind.stackable ==> count <= item.count) &&
            !item.kind.moveable && !ignoreNotMoveable
    ensures ret in {NoError, NotMoveable, NotPossible}
  {
    var index := GetIndexOfThing(c, item);
    if index == -1 || count == 0 || (item.kind.stackable && count > item.count) {
      return NotPossible;
    }
    if !item.kind.moveable && !ignoreNotMoveable {
      return NotMoveable;
    }
    return NoError;
  }

  /** Whether a stack could take some of an item. */
  ghost predicate IsOpen(x: Item, item: Item)
    reads x`kind, x`count, item`kind
  {
    x != item && x.kind == item.kind && x.count < STACK
  }

  /** The first stack of the item's type that is not full. */
  method FindStack(c: Item, item: Item) returns (index: int)
    ensures -1 <= index < |c.itemlist|
    ensures index >= 0 ==> IsOpen(c.itemlist[index], item)
    ensures index >= 0 ==> forall x | x in c.itemlist[..index] :: !IsOpen(x, item)
    ensures index == -1 ==> forall x | x in c.itemlist :: !IsOpen(x, item)
    ensures index >= 0 ==>
              var x := c.itemlist[index]; x != item && x.kind == item.kind && x.count < STACK
    ensures forall x | x in c.itemlist[..if index == -1 then |c.itemlist| else index] ::
              x == item || x.kind != item.kind || x.count >= STACK
  {
    for n := 0 to |c.itemlist|
      invariant forall x | x in c.itemlist[..n] :: !IsOpen(x, item)
    {
      var x := c.itemlist[n];
      if x != item && x.kind == item.kind && x.count < 100 {
        return n;
      }
    }
    assert c.itemlist[..|c.itemlist|] == c.itemlist;
    return -1;
  }

  // ----- New items -----

  lemma {:induction false} SumSame(s: seq<Item>, v: map<Item, int>, w: map<Item, int>)
    requires forall y | y in s :: y in v && y in w && v[y] == w[y]
    ensures Sum(s, v) == Sum(s, w)
  {
    if s != [] {
      SumSame(s[1..], v, w);
    }
  }

  lemma JoinKeepsStructure(all: set<Item>, x: Item)
    requires Structure(all) && x !in all && x.parent == null && x.itemlist == []
    ensures Structure(all + {x})
  {
    JoinKeepsLinks(all, x);
    JoinKeepsRanks(all, x);
  }

  lemma JoinKeepsLinks(all: set<Item>, x: Item)
    requires Links(all) && x !in all && x.parent == null && x.itemlist == []
    ensures Links(all + {x})
  {
    hide Distinct;
    EmptyDistinct();
    var more := all + {x};
    assert forall y | y in all :: Parents(more)[y] == Parents(all)[y] && Lists(more)[y] == Lists(all)[y];
  }

  lemma JoinKeepsRanks(all: set<Item>, x: Item)
    requires Ranked(all) && x !in all && x.parent == null
    ensures Ranked(all + {x})
  {
    var more := all + {x};
    assert forall y | y in all :: Parents(more)[y] == Parents(all)[y] && Ranks(more)[y] == Ranks(all)[y];
  }

  lemma EmptyDistinct()
    ensures Distinct([])
  {
  }

  /** A fresh item changes nothing about the containers there are. */
  lemma JoinKeepsAll(all: set<Item>, x: Item)
    requires Consistent(all) && x !in all && x.parent == null && x.itemlist == [] && !x.isContainer
    ensures Consistent(all + {x})
  {
    hide Structure, Sum;
    JoinKeepsStructure(all, x);
    var more := all + {x};
    forall c | c in more && c.isContainer
      ensures Totals(more)[c] == Sum(Lists(more)[c], Weights(more))
    {
      SumInJoin(c, all, x, Weights(all), Weights(more));
      ListsAt(c, all);
      assert Totals(all)[c] + Short(map[], c) == Sum(Lists(all)[c], Weights(all));
    }
  }

  lemma SumInJoin(c: Item, all: set<Item>, x: Item, v: map<Item, int>, w: map<Item, int>)
    requires Structure(all) && c in all && v.Keys == all && forall y | y in all :: y in w && v[y] == w[y]
    ensures Sum(c.itemlist, v) == Sum(c.itemlist, w)
  {
    hide Structure;
    forall y | y in c.itemlist ensures y in all {
      Listed(c, y, all);
    }
    SumSame(c.itemlist, v, w);
  }

  lemma {:induction false} AboveInJoin(c: Item, all: set<Item>, x: Item)
    requires Structure(all) && Structure(all + {x}) && c in all && x !in all
    ensures Above(c, all + {x}) == Above(c, all)
    decreases c.rank
  {
    hide Links;
    ParentHolds(c, all);
    if c.parent != null {
      AboveInJoin(c.parent, all, x);
    }
  }

  method CreateItem(kind: ItemType, count: nat, ghost all: set<Item>) returns (x: Item, ghost more: set<Item>)
    requires Consistent(all) && StacksOk(all) && if kind.stackable then 1 <= count <= STACK else count == 1
    ensures fresh(x) && x.kind == kind && x.count == count && x.parent == null && x.itemlist == [] && !x.isContainer
    ensures more == all + {x} && Consistent(more) && StacksOk(more)
  {
    hide Consistent;
    x := new Item(kind, count, false, 0);
    more := all + {x};
    JoinKeepsAll(all, x);
  }

  // ----- The four elementary changes, with their effect on every container's counts -----

  lemma CountAfterUpdate(d: Item, all: set<Item>, before: map<Item, int>, after: map<Item, int>, x: Item, delta: int)
    requires Structure(all) && d in all && x in all && before.Keys == all && after == before[x := before[x] + delta]
    ensures Sum(d.itemlist, after) == Sum(d.itemlist, before) + if x.parent == d then delta else 0
  {
    hide Sum, Linked;
    Listed(d, x, all);
    ListedBack(x, all);
    DistinctList(d, all);
    SumUpdate(d.itemlist, before, x, before[x] + delta);
  }

  lemma ListedBack(x: Item, all: set<Item>)
    requires Structure(all) && x in all
    ensures x.parent != null ==> x in x.parent.itemlist
  {
    ParentHolds(x, all);
  }

  /** Sets a listed stack's size in place. */
  method ResizeStack(c: Item, x: Item, count: nat, ghost all: set<Item>)
    requires Consistent(all) && StacksOk(all) && c in all && c.isContainer && x in all && x.parent == c
    requires x.kind.stackable && 1 <= count <= STACK
    modifies x`kind, x`count, all`totalWeight
    ensures Consistent(all) && StacksOk(all) && x.count == count && x.kind == old(x.kind)
    ensures forall d, k | d in all ::
              CountIn(d, k, all) == old(CountIn(d, k, all)) + if d == c && k == x.kind then count - old(x.count) else 0
    ensures Sum(c.itemlist, Gaps(all, x.kind)) == old(Sum(c.itemlist, Gaps(all, x.kind))) + old(x.count) - count
    ensures Gaps(all, x.kind) == old(Gaps(all, x.kind))[x := STACK - count]
    ensures Counts(all) == old(Counts(all))[x := count]
  {
    hide Structure, Weighted, Sum, Gaps, Counts, Amounts;
    ListedBack(x, all);
    SetCount(c, x, count, all);
    forall d, k | d in all
      ensures CountIn(d, k, all) == old(CountIn(d, k, all)) + if d == c && k == x.kind then count - old(x.count) else 0
    {
      CountAfterUpdate(d, all, old(Amounts(all, k)), Amounts(all, k), x,
        if k == x.kind then count - old(x.count) else 0);
    }
    CountAfterUpdate(c, all, old(Gaps(all, x.kind)), Gaps(all, x.kind), x, old(x.count) - count);
  }

  method SetCount(c: Item, x: Item, count: nat, ghost all: set<Item>)
    requires Consistent(all) && StacksOk(all) && c in all && c.isContainer && x in c.itemlist && x in all
    requires x.kind.stackable && 1 <= count <= STACK
    modifies x`kind, x`count, all`totalWeight
    ensures Consistent(all) && StacksOk(all) && x.count == count && x.kind == old(x.kind)
    ensures old(Gaps(all, x.kind))[x] == STACK - old(x.count)
    ensures Gaps(all, x.kind) == old(Gaps(all, x.kind))[x := STACK - count]
    ensures Counts(all) == old(Counts(all))[x := count]
    ensures forall k :: Amounts(all, k) == old(Amounts(all, k))[x := if k == x.kind then count else 0]
    ensures forall k :: old(Amounts(all, k))[x] == if k == x.kind then old(x.count) else 0
  {
    hide Consistent, Amounts;
    AmountsShow(all);
    UpdateCount(c, x, count, all);
    AmountsShow(all);
    forall k ensures Amounts(all, k) == old(Amounts(all, k))[x := if k == x.kind then count else 0] {
      AmountsAre(all, k, old(Amounts(all, k))[x := if k == x.kind then count else 0]);
    }
  }

  method UpdateCount(c: Item, x: Item, count: nat, ghost all: set<Item>)
    requires Consistent(all) && StacksOk(all) && c in all && c.isContainer && x in c.itemlist && x in all
    requires x.kind.stackable && 1 <= count <= STACK
    modifies x`kind, x`count, all`totalWeight
    ensures Consistent(all) && StacksOk(all) && x.count == count && x.kind == old(x.kind)
  {
    hide Structure, Weighted, Sum;
    UpdateThing(c, x, x.kind, count, all);
  }

  lemma AmountsAre(all: set<Item>, k: ItemType, m: map<Item, int>)
    requires m.Keys == all && forall y | y in all :: m[y] == if y.kind == k then y.count else 0
    ensures Amounts(all, k) == m
  {
  }

  lemma AmountsShow(all: set<Item>)
    ensures forall k, y | y in all :: Amounts(all, k)[y] == if y.kind == k then y.count else 0
  {
  }

  /** Lists a loose item in a container. */
  method PutItem(c: Item, index: int, x: Item, ghost all: set<Item>)
    requires Consistent(all) && StacksOk(all) && c in all && c.isContainer && index < c.capacity
    requires x in all && x.parent == null && x !in Above(c, all)
    modifies x`parent, c`itemlist, all`rank, all`totalWeight
    ensures Consistent(all) && StacksOk(all) && x.parent == c && c.itemlist == [x] + old(c.itemlist)
    ensures forall d, k | d in all ::
              CountIn(d, k, all) == old(CountIn(d, k, all)) + if d == c && k == x.kind then x.count else 0
  {
    hide Structure, Weighted, Sum, Above;
    AddThing(c, index, x, all);
    forall k ensures CountIn(c, k, all) == old(CountIn(c, k, all)) + if k == x.kind then x.count else 0 {
      SumPush(x, old(c.itemlist), Amounts(all, k));
    }
  }

  /** Takes m off a stack, or a whole item, out of the container that lists it. */
  method TakeItem(c: Item, x: Item, m: nat, ghost all: set<Item>)
    requires Consistent(all) && StacksOk(all) && c in all && c.isContainer && x in c.itemlist
    requires x.kind.stackable ==> 1 <= m <= x.count
    modifies x`parent, x`kind, x`count, c`itemlist, all`totalWeight
    ensures Consistent(all) && StacksOk(all) && x.kind == old(x.kind) && |c.itemlist| <= |old(c.itemlist)|
    ensures x in all && forall d | d in all && x !in old(Above(d, all)) :: x !in Above(d, all)
    ensures forall d, k | d in all ::
              CountIn(d, k, all) ==
              old(CountIn(d, k, all)) - if d == c && k == x.kind then if x.kind.stackable then m else 1 else 0
    ensures x.kind.stackable && m < old(x.count) ==>
              c.itemlist == old(c.itemlist) && x.count == old(x.count) - m && x.parent == c
    ensures !(x.kind.stackable && m < old(x.count)) ==>
              c.itemlist == Without(old(c.itemlist), x) && x.count == old(x.count) && x.parent == null
  {
    hide Structure, Weighted, Sum, Above, Without, CountIn, StacksOk;
    StackHolds(x, c, all);
    if x.kind.stackable && m < x.count {
      TakeSome(c, x, m, all);
    } else {
      TakeWhole(c, x, all);
    }
  }

  lemma StackHolds(x: Item, c: Item, all: set<Item>)
    requires Structure(all) && StacksOk(all) && c in all && x in c.itemlist
    ensures x in all && x.parent == c && (if x.kind.stackable then 1 <= x.count <= STACK else x.count == 1)
  {
    hide Structure;
    Listed(c, x, all);
  }

  method TakeSome(c: Item, x: Item, m: nat, ghost all: set<Item>)
    requires Consistent(all) && StacksOk(all) && c in all && c.isContainer && x in c.itemlist
    requires x.kind.stackable && 1 <= m < x.count
    modifies x`parent, x`kind, x`count, c`itemlist, all`totalWeight
    ensures Consistent(all) && StacksOk(all) && x.kind == old(x.kind) && c.itemlist == old(c.itemlist)
    ensures x.count == old(x.count) - m && x.parent == c
    ensures x in all && forall d | d in all && x !in old(Above(d, all)) :: x !in Above(d, all)
    ensures forall d, k | d in all ::
              CountIn(d, k, all) == old(CountIn(d, k, all)) - if d == c && k == x.kind then m else 0
  {
    hide Structure, Weighted, Sum, Above, Without;
    StackHolds(x, c, all);
    RemoveThing(c, x, m, all);
    forall d, k | d in all
      ensures CountIn(d, k, all) == old(CountIn(d, k, all)) - if d == c && k == x.kind then m else 0
    {
      CountAfterUpdate(d, all, old(Amounts(all, k)), Amounts(all, k), x, if k == x.kind then 0 - m else 0);
    }
  }

  method TakeWhole(c: Item, x: Item, ghost all: set<Item>)
    requires Consistent(all) && StacksOk(all) && c in all && c.isContainer && x in c.itemlist
    modifies x`parent, x`kind, x`count, c`itemlist, all`totalWeight
    ensures Consistent(all) && StacksOk(all) && x.kind == old(x.kind) && x.count == old(x.count) && x.parent == null
    ensures c.itemlist == Without(old(c.itemlist), x) && |c.itemlist| <= |old(c.itemlist)|
    ensures x in all && forall d | d in all && x !in old(Above(d, all)) :: x !in Above(d, all)
    ensures forall d, k | d in all ::
              CountIn(d, k, all) == old(CountIn(d, k, all)) - if d == c && k == x.kind then x.count else 0
  {
    hide Structure, Weighted, Sum, Above, Without;
    StackHolds(x, c, all);
    RemoveThing(c, x, x.count, all);
    WithoutShorter(old(c.itemlist), x);
    forall k ensures CountIn(c, k, all) == old(CountIn(c, k, all)) - if k == x.kind then x.count else 0 {
      SumWithout(old(c.itemlist), x, Amounts(all, k));
    }
  }

  lemma WithoutShorter(s: seq<Item>, x: Item)
    requires x in s
    ensures |Without(s, x)| == |s| - 1
  {
  }

  /** internalRemoveItem, the item agreeing to be removed: takes `count` out of the container that holds it,
      all of it when count is -1. */
  method InternalRemoveItem(item: Item, count: int, ghost all: set<Item>) returns (ret: ReturnValue)
    requires Consistent(all) && StacksOk(all) && item in all && count >= -1
    modifies item`parent, item`kind, item`count, all`itemlist, all`totalWeight
    ensures Consistent(all) && StacksOk(all) && item.kind == old(item.kind)
    ensures var m := if count == -1 then old(item.count) else count;
            ret == NoError <==> old(item.parent) != null && m > 0 && (item.kind.stackable ==> m <= old(item.count))
    ensures ret != NoError ==>
              ret == NotPossible && item.parent == old(item.parent) && item.count == old(item.count)
    ensures ret == NoError && (count == -1 || !item.kind.stackable || count == old(item.count)) ==>
              item.parent == null && item.count == old(item.count) &&
              old(item.parent).itemlist == Without(old(item.parent.itemlist), item)
    ensures ret == NoError && item.kind.stackable && count != -1 && count != old(item.count) ==>
              item.parent == old(item.parent) && item.count == old(item.count) - count &&
              item.parent.itemlist == old(item.parent.itemlist)
    ensures forall d | d in all && (ret != NoError || d != old(item.parent)) :: d.itemlist == old(d.itemlist)
    ensures forall d, k | d in all ::
              CountIn(d, k, all) == old(CountIn(d, k, all)) -
              if ret == NoError && d == old(item.parent) && k == item.kind
              then if !item.kind.stackable then 1 else if count == -1 then old(item.count) else count
              else 0
  {
    hide Structure, Weighted, Sum, Above, CountIn;
    var cylinder := item.parent;
    if cylinder == null {
      return NotPossible;
    }
    ParentHolds(item, all);
    var m := if count == -1 then item.count else count;
    ret := QueryRemove(cylinder, item, m, true);
    if ret == NoError {
      TakeItem(cylinder, item, m, all);
    }
  }

  // ----- Spreading an amount over the gaps in a list -----

  /** How much of m lands in the i-th item of a list, when each takes as much as it has room for in turn. */
  ghost function Landed(s: seq<Item>, w: map<Item, int>, m: int, i: nat): int
    requires i < |s| && s[i] in w
  {
    Max(0, Min(m - Sum(s[..i], w), w[s[i]]))
  }

  /** What is left of m when all gaps are filled. */
  ghost function Spilled(s: seq<Item>, w: map<Item, int>, m: int): int {
    Max(0, m - Sum(s, w))
  }

  /** Once the first gap of all, at j, has taken n, the rest lands where it would have landed. */
  lemma LandedNext(s: seq<Item>, w: map<Item, int>, j: nat, m: int, n: int)
    requires Distinct(s) && j < |s| && forall y | y in s :: y in w && w[y] >= 0
    requires forall i | 0 <= i < j :: w[s[i]] == 0
    requires m >= 0 && n == Min(m, w[s[j]])
    ensures var after := w[s[j] := w[s[j]] - n];
            (forall i: nat | i < |s| :: Landed(s, w, m, i) == Landed(s, after, m - n, i) + if i == j then n else 0) &&
            Spilled(s, w, m) == Spilled(s, after, m - n)
  {
    hide Sum;
    var after := w[s[j] := w[s[j]] - n];
    SumUpdate(s, w, s[j], w[s[j]] - n);
    forall i: nat | i < |s|
      ensures Landed(s, w, m, i) == Landed(s, after, m - n, i) + if i == j then n else 0
    {
      assert s[j] in s[..i] <==> j < i by {
        if j < i {
          assert s[..i][j] == s[j];
        }
      }
      SumUpdate(s[..i], w, s[j], w[s[j]] - n);
      SumNotNegative(s[..i], w);
      if i <= j {
        forall y | y in s[..i] ensures y in w && w[y] == 0 {
          var k :| 0 <= k < i && s[k] == y;
        }
        SumZero(s[..i], w);
      } else {
        SumAtLeast(s[..i], w, j);
      }
    }
  }

  lemma {:induction false} SumAtLeast(s: seq<Item>, w: map<Item, int>, j: nat)
    requires j < |s| && forall y | y in s :: y in w && w[y] >= 0
    ensures Sum(s, w) >= w[s[j]]
  {
    if j > 0 {
      SumAtLeast(s[1..], w, j - 1);
    } else {
      SumNotNegative(s[1..], w);
    }
  }

  /** What the spreading means for the first gap: it is filled, as far as m goes. And nothing shrinks. */
  lemma FirstGapFirst(s: seq<Item>, w: map<Item, int>, j: nat, m: nat)
    requires j < |s| && forall y | y in s :: y in w && w[y] >= 0
    requires forall i | 0 <= i < j :: w[s[i]] == 0
    ensures Landed(s, w, m, j) == Min(m, w[s[j]])
    ensures forall i: nat | i < |s| :: Landed(s, w, m, i) >= 0
  {
    forall y | y in s[..j] ensures y in w && w[y] == 0 {
      var k :| 0 <= k < j && s[k] == y;
    }
    SumZero(s[..j], w);
  }

  /** With no gaps nothing lands and all of it is left. */
  lemma NoneLanded(s: seq<Item>, w: map<Item, int>, m: int)
    requires m >= 0 && forall y | y in s :: y in w && w[y] == 0
    ensures Spilled(s, w, m) == m && forall i: nat | i < |s| :: Landed(s, w, m, i) == 0
  {
    SumZero(s, w);
  }

  ghost function Counts(all: set<Item>): (w: map<Item, int>)
    ensures w.Keys == all
    reads all`count
  {
    map x | x in all :: x.count
  }

  ghost predicate InList(s: seq<Item>, w: map<Item, int>) {
    forall y | y in s :: y in w
  }

  /** m was spread over the list s: each gap took its share, every other item kept its count, and what was
      left, if anything, came to lie in front. */
  ghost predicate Spread(s: seq<Item>, w: map<Item, int>, m: int, before: map<Item, int>, after: map<Item, int>,
                         list: seq<Item>)
  {
    InList(s, w) &&
    (forall i: nat | i < |s| :: s[i] in before && s[i] in after && after[s[i]] == before[s[i]] + Landed(s, w, m, i)) &&
    (forall y | y in before && y !in s :: y in after && after[y] == before[y]) &&
    if Spilled(s, w, m) == 0 then list == s
    else list != [] && list[1..] == s && list[0] in after && after[list[0]] == Spilled(s, w, m)
  }

  lemma SpreadNext(s: seq<Item>, w: map<Item, int>, j: nat, m: int, n: int, before: map<Item, int>,
                   after: map<Item, int>, list: seq<Item>)
    requires Distinct(s) && j < |s| && forall y | y in s :: y in w && w[y] >= 0
    requires forall i | 0 <= i < j :: w[s[i]] == 0
    requires m >= 0 && n == Min(m, w[s[j]]) && s[j] in before
    requires Spread(s, w[s[j] := w[s[j]] - n], m - n, before[s[j] := before[s[j]] + n], after, list)
    ensures Spread(s, w, m, before, after, list)
  {
    hide Landed, Spilled;
    LandedNext(s, w, j, m, n);
    var mid := before[s[j] := before[s[j]] + n];
    forall i: nat | i < |s|
      ensures s[i] in before && s[i] in after && after[s[i]] == before[s[i]] + Landed(s, w, m, i)
    {
      assert s[i] in mid && (i != j ==> s[i] != s[j]);
    }
  }

  /** Nothing more to spread. */
  lemma SpreadNothing(s: seq<Item>, w: map<Item, int>, now: map<Item, int>)
    requires forall y | y in s :: y in w && w[y] >= 0 && y in now
    ensures Spread(s, w, 0, now, now, s)
  {
    hide Sum;
    SumNotNegative(s, w);
    forall i: nat | i < |s| ensures Landed(s, w, 0, i) == 0 {
      SumNotNegative(s[..i], w);
      assert s[i] in s;
    }
  }

  /** Only the gaps in the list count. */
  lemma SpreadSame(s: seq<Item>, w: map<Item, int>, w': map<Item, int>, m: int, before: map<Item, int>,
                   before': map<Item, int>, after: map<Item, int>, list: seq<Item>)
    requires forall y | y in s :: y in w && y in w' && w[y] == w'[y] && y in before
    requires forall y | y in before :: y in before' && before'[y] == before[y]
    requires Spread(s, w', m, before', after, list)
    ensures Spread(s, w, m, before, after, list)
  {
    hide Sum;
    SumSame(s, w, w');
    forall i: nat | i < |s| ensures Landed(s, w, m, i) == Landed(s, w', m, i) {
      SumSame(s[..i], w, w');
    }
  }

  /** With no gap in the list all of it lies in front. */
  lemma SpreadWhole(s: seq<Item>, w: map<Item, int>, m: int, now: map<Item, int>, x: Item)
    requires forall y | y in s :: y in w && w[y] == 0 && y in now
    requires m > 0 && x in now && now[x] == m
    ensures Spread(s, w, m, now, now, [x] + s)
  {
    hide Landed, Spilled;
    NoneLanded(s, w, m);
  }

  // ----- Adding a loose item, wherever there is room -----

  /** Whether the whole of a loose item fits: it may be added at all, and full stacks and gaps suffice. */
  ghost predicate Fits(c: Item, x: Item, all: set<Item>)
    requires Structure(all) && c in all
    reads all`parent, all`itemlist, all`rank, all`kind, all`count, x`kind, x`count, c`itemlist
  {
    x.kind.pickupable && x !in Above(c, all) &&
    if x.kind.stackable then Room(c, x.kind, all) >= x.count else FreeSlots(c) > 0
  }

  /** internalAddItem into a container, at "wherever" and without flags. It succeeds exactly when the whole
      item fits; then the container holds exactly that many more of the type, whatever it took to split
      the item over old stacks and a new one, and no remainder is left. Otherwise nothing changes. */
  method InternalAddItem(c: Item, x: Item, test: bool, ghost all: set<Item>)
    returns (ret: ReturnValue, remainderCount: nat, ghost more: set<Item>)
    requires Consistent(all) && StacksOk(all) && c in all && c.isContainer && x in all && x.parent == null
    modifies x`parent, c`itemlist, all`kind, all`count, all`rank, all`totalWeight
    ensures all <= more && Consistent(more) && StacksOk(more) && remainderCount == 0
    ensures ret == NoError <==> old(Fits(c, x, all))
    ensures ret == (if old(Fits(c, x, all)) then NoError else if !x.kind.pickupable then CannotPickup
                    else if old(x in Above(c, all)) then ThisIsImpossible else ContainerNotEnoughRoom)
    ensures ret != NoError || test ==> more == all && c.itemlist == old(c.itemlist)
    ensures forall d, k | d in all ::
              CountIn(d, k, more) ==
              old(CountIn(d, k, all)) + if ret == NoError && !test && d == c && k == x.kind then old(x.count) else 0
    ensures |c.itemlist| <= Max(c.capacity, |old(c.itemlist)|)
    ensures fresh(more - all) && forall y | y in more && y !in all :: !y.isContainer
    ensures forall y | y in all :: y.kind == old(y.kind)
    ensures ret == NoError && !test &&
            (!x.kind.stackable ||
             forall y | y in old(c.itemlist) && old(y.kind) == x.kind && y != x :: old(y.count) >= STACK) ==>
              c.itemlist == [x] + old(c.itemlist) && x.parent == c
    ensures ret == NoError && !test && x.kind.stackable ==>
              Spread(old(c.itemlist), old(Gaps(all, x.kind)), old(x.count), old(Counts(all)), Counts(more),
                     c.itemlist) &&
              (|c.itemlist| > |old(c.itemlist)| ==>
                 c.itemlist[0].kind == x.kind && c.itemlist[0].parent == c &&
                 if exists y :: y in old(c.itemlist) && old(IsOpen(y, x)) then fresh(c.itemlist[0])
                 else c.itemlist[0] == x)
    ensures !(ret == NoError && !test && c.itemlist != old(c.itemlist) && c.itemlist[0] == x) ==> x.parent == null
    ensures ret != NoError || test || !x.kind.stackable ==> forall y | y in all :: y.count == old(y.count)
    decreases x.count, 1
  {
    hide Structure, Weighted, Sum, Above, Fits, CountIn, Spread, Gaps, Counts, Room;
    remainderCount, more := 0, all;
    var index, maxQueryCount;
    ret, index, maxQueryCount := QueryWhole(c, x, all);
    if ret != NoError || test {
      return;
    }
    if x.kind.stackable && index != INDEX_WHEREEVER {
      remainderCount, more := FillStack(c, x, index, maxQueryCount, all);
    } else {
      ListWhole(c, index, x, all);
    }
  }

  /** The queries: where the item is to go, and whether the whole of it fits. */
  method QueryWhole(c: Item, x: Item, ghost all: set<Item>)
    returns (ret: ReturnValue, index: int, maxQueryCount: nat)
    requires Consistent(all) && StacksOk(all) && c in all && c.isContainer && x in all && x.parent == null
    ensures ret == NoError <==> Fits(c, x, all)
    ensures ret == (if Fits(c, x, all) then NoError else if !x.kind.pickupable then CannotPickup
                    else if x in Above(c, all) then ThisIsImpossible else ContainerNotEnoughRoom)
    ensures INDEX_WHEREEVER <= index < |c.itemlist| && (!x.kind.stackable ==> index == INDEX_WHEREEVER)
    ensures index >= 0 ==> IsOpen(c.itemlist[index], x) && forall y | y in c.itemlist[..index] :: !IsOpen(y, x)
    ensures index == INDEX_WHEREEVER && x.kind.stackable ==> forall y | y in c.itemlist :: !IsOpen(y, x)
    ensures ret == NoError ==>
              x !in c.itemlist && x !in Above(c, all) && x.kind.pickupable &&
              (x.kind.stackable ==> x.count <= maxQueryCount == Room(c, x.kind, all)) &&
              (index == INDEX_WHEREEVER ==> |c.itemlist| < c.capacity)
  {
    hide Structure, Weighted, Sum, Above, Room, RoomFor;
    maxQueryCount := 0;
    index := INDEX_WHEREEVER;
    if x.kind.stackable {
      index := FindStack(c, x);
    }
    NotInside(c, x, all);
    RoomOutside(c, x, all);
    RoomWithoutGaps(c, x, index, all);
    ret := QueryAdd(c, index, x, all);
    if ret != NoError {
      return;
    }
    ret, maxQueryCount := QueryMaxCount(c, INDEX_WHEREEVER, x, x.count, all);
  }

  /** The item itself is listed; if it stacks, there is no stack to fill. */
  method ListWhole(c: Item, index: int, x: Item, ghost all: set<Item>)
    requires Consistent(all) && StacksOk(all) && c in all && c.isContainer && index < c.capacity
    requires x in all && x.parent == null && x !in Above(c, all)
    requires x.kind.stackable ==> forall y | y in c.itemlist :: !IsOpen(y, x)
    modifies x`parent, c`itemlist, all`rank, all`totalWeight
    ensures Consistent(all) && StacksOk(all) && x.parent == c && c.itemlist == [x] + old(c.itemlist)
    ensures x.kind.stackable ==>
              Spread(old(c.itemlist), old(Gaps(all, x.kind)), x.count, old(Counts(all)), Counts(all), c.itemlist)
    ensures forall d, k | d in all ::
              CountIn(d, k, all) == old(CountIn(d, k, all)) + if d == c && k == x.kind then x.count else 0
  {
    hide Structure, Weighted, Sum, Above, CountIn, Spread, Gaps, Counts;
    ghost var s, w, before := c.itemlist, Gaps(all, x.kind), Counts(all);
    GapsInList(c, x.kind, all);
    NotInside(c, x, all);
    CountsSame(all, before);
    PutItem(c, index, x, all);
    CountsSame(all, before);
    if x.kind.stackable {
      SpreadWhole(s, w, x.count, before, x);
    }
  }

  /** The gaps in a container's list, and which of them are none. */
  lemma GapsInList(c: Item, kind: ItemType, all: set<Item>)
    requires Structure(all) && StacksOk(all) && c in all
    ensures Distinct(c.itemlist) && InList(c.itemlist, Gaps(all, kind))
    ensures forall y | y in c.itemlist ::
              y in all && Gaps(all, kind)[y] == Gap(y, kind) && y in Counts(all) && Counts(all)[y] == y.count
  {
    hide Structure;
    DistinctList(c, all);
    forall y | y in c.itemlist ensures y in all {
      Listed(c, y, all);
    }
  }

  lemma CountsSame(all: set<Item>, before: map<Item, int>)
    requires before.Keys == all
    ensures Counts(all) == before <==> forall y | y in all :: y.count == before[y]
    ensures forall y | y in all :: Counts(all)[y] == y.count
  {
  }

  lemma NotInside(c: Item, x: Item, all: set<Item>)
    requires Structure(all) && c in all && x.parent == null
    ensures x !in c.itemlist
  {
    hide Structure;
    Listed(c, x, all);
  }

  /** With no stack to fill, only whole free slots count. */
  lemma RoomWithoutGaps(c: Item, x: Item, index: int, all: set<Item>)
    requires Structure(all) && c in all && x !in c.itemlist
    requires x.kind.stackable && index == INDEX_WHEREEVER ==>
             forall y | y in c.itemlist :: !IsOpen(y, x)
    ensures x.kind.stackable && index == INDEX_WHEREEVER ==> Room(c, x.kind, all) == FreeSlots(c) * STACK
  {
    hide Structure, Sum;
    if x.kind.stackable && index == INDEX_WHEREEVER {
      forall y | y in c.itemlist ensures y in all {
        Listed(c, y, all);
      }
      SumZero(c.itemlist, Gaps(all, x.kind));
    }
  }

  lemma {:induction false} SumZero(s: seq<Item>, w: map<Item, int>)
    requires forall y | y in s :: y in w && w[y] == 0
    ensures Sum(s, w) == 0
  {
    if s != [] {
      SumZero(s[1..], w);
    }
  }

  /** Fills the stack at `index` from the item and adds what is left over as a new item. */
  method FillStack(c: Item, x: Item, index: nat, maxQueryCount: nat, ghost all: set<Item>)
    returns (remainderCount: nat, ghost more: set<Item>)
    requires Consistent(all) && StacksOk(all) && c in all && c.isContainer && x in all && x.kind.stackable
    requires x !in c.itemlist && x.kind.pickupable && x.count <= maxQueryCount == Room(c, x.kind, all)
    requires index < |c.itemlist| && c.itemlist[index].kind == x.kind && c.itemlist[index].count < STACK
    requires forall y | y in c.itemlist[..index] :: !IsOpen(y, x)
    modifies c`itemlist, all`kind, all`count, all`rank, all`totalWeight
    ensures all <= more && Consistent(more) && StacksOk(more) && remainderCount == 0
    ensures Spread(old(c.itemlist), old(Gaps(all, x.kind)), old(x.count), old(Counts(all)), Counts(more), c.itemlist)
    ensures |c.itemlist| > |old(c.itemlist)| ==>
              fresh(c.itemlist[0]) && c.itemlist[0].kind == x.kind && c.itemlist[0].parent == c
    ensures forall d, k | d in all ::
              CountIn(d, k, more) == old(CountIn(d, k, all)) + if d == c && k == x.kind then old(x.count) else 0
    ensures |c.itemlist| <= Max(c.capacity, |old(c.itemlist)|)
    ensures fresh(more - all) && forall y | y in more && y !in all :: !y.isContainer
    ensures forall y | y in all :: y.kind == old(y.kind)
    decreases x.count, 0
  {
    hide Structure, Weighted, Sum, Above, CountIn, Spread, Gaps, Counts, Room, StacksOk;
    remainderCount, more := 0, all;
    var toItem := c.itemlist[index];
    StackHolds(toItem, c, all);
    CountHolds(x, all);
    RoomIs(c, x.kind, all);
    ghost var s, w, before := c.itemlist, Gaps(all, x.kind), Counts(all);
    GapsInList(c, x.kind, all);
    ClosedBefore(s, x, index, w);
    var m := Min(x.count, maxQueryCount);
    var n := Min(STACK - toItem.count, m);
    ResizeStack(c, toItem, toItem.count + n, all);
    GapsInList(c, x.kind, all);
    RoomIs(c, x.kind, all);
    var count := m - n;
    if count > 0 {
      if x.count != count {
        remainderCount, more := AddRemainder(c, x.kind, count, all);
      } else {
        assert false;
      }
    } else {
      SpreadNothing(s, Gaps(all, x.kind), Counts(all));
    }
    SpreadNext(s, w, index, m, n, before, Counts(more), c.itemlist);
  }

  lemma CountHolds(x: Item, all: set<Item>)
    requires StacksOk(all) && x in all
    ensures if x.kind.stackable then 1 <= x.count <= STACK else x.count == 1
  {
  }

  lemma RoomIs(c: Item, kind: ItemType, all: set<Item>)
    ensures Room(c, kind, all) == FreeSlots(c) * STACK + Sum(c.itemlist, Gaps(all, kind))
  {
  }

  lemma ClosedBefore(s: seq<Item>, x: Item, index: nat, w: map<Item, int>)
    requires index <= |s| && (forall y | y in s :: y in w && w[y] == Gap(y, x.kind)) && x !in s
    requires forall y | y in s[..index] :: !IsOpen(y, x)
    ensures forall i | 0 <= i < index :: w[s[i]] == 0
    ensures forall y | y in s :: w[y] >= 0
  {
    forall i | 0 <= i < index ensures w[s[i]] == 0 {
      assert s[i] in s[..index] && s[i] in s;
    }
  }

  method AddRemainder(c: Item, kind: ItemType, count: nat, ghost all: set<Item>)
    returns (remainderCount: nat, ghost more: set<Item>)
    requires Consistent(all) && StacksOk(all) && c in all && c.isContainer
    requires kind.stackable && kind.pickupable && 1 <= count <= STACK && Room(c, kind, all) >= count
    modifies c`itemlist, all`kind, all`count, all`rank, all`totalWeight
    ensures all <= more && Consistent(more) && StacksOk(more) && remainderCount == 0
    ensures Spread(old(c.itemlist), old(Gaps(all, kind)), count, old(Counts(all)), Counts(more), c.itemlist)
    ensures |c.itemlist| > |old(c.itemlist)| ==>
              fresh(c.itemlist[0]) && c.itemlist[0].kind == kind && c.itemlist[0].parent == c
    ensures forall d, k | d in all ::
              CountIn(d, k, more) == old(CountIn(d, k, all)) + if d == c && k == kind then count else 0
    ensures |c.itemlist| <= Max(c.capacity, |old(c.itemlist)|)
    ensures fresh(more - all) && forall y | y in more && y !in all :: !y.isContainer
    ensures forall y | y in all :: y.kind == old(y.kind)
    decreases count, 2
  {
    hide Structure, Weighted, Sum, Above, CountIn, Room, StacksOk, Spread, Gaps, Counts;
    ghost var s, w, before := c.itemlist, Gaps(all, kind), Counts(all);
    GapsInList(c, kind, all);
    var remainderItem;
    remainderItem, more := CreateItem(kind, count, all);
    JoinKeepsCounts(c, all, remainderItem);
    GapsInList(c, kind, more);
    ghost var w', before' := Gaps(more, kind), Counts(more);
    CountsSame(all, before);
    CountsSame(more, before');
    var ret;
    ret, remainderCount, more := InternalAddItem(c, remainderItem, false, more);
    if ret != NoError {
      remainderCount := count;
    }
    SpreadSame(s, w, w', count, before, before', Counts(more), c.itemlist);
  }

  /** A fresh item changes no container's counts or room. */
  lemma JoinKeepsCounts(c: Item, all: set<Item>, x: Item)
    requires Structure(all) && Structure(all + {x}) && c in all && x !in all
    ensures Above(c, all + {x}) == Above(c, all) && Above(c, all) <= all
    ensures forall d, k | d in all :: CountIn(d, k, all + {x}) == CountIn(d, k, all)
    ensures forall k :: Room(c, k, all + {x}) == Room(c, k, all)
  {
    hide Structure, Sum, Above;
    AboveInJoin(c, all, x);
    AboveRanks(c, all);
    forall d, k | d in all ensures CountIn(d, k, all + {x}) == CountIn(d, k, all) {
      SumInJoin(d, all, x, Amounts(all, k), Amounts(all + {x}, k));
    }
    forall k ensures Room(c, k, all + {x}) == Room(c, k, all) {
      SumInJoin(c, all, x, Gaps(all, k), Gaps(all + {x}, k));
    }
  }

  // ----- Moving an item from one container to another -----

  const MOVE_UP := 254
  const ADD_WHEREVER := 255

  /** Where an item lands: in a container, at a place in its list, perhaps on an item there. */
  datatype Spot = Spot(dest: Item, index: int, toItem: Item?)

  /** A spot is a stack to join, a plain slot, or wherever there is room. */
  ghost predicate Landing(spot: Spot, all: set<Item>)
    reads spot.dest`itemlist
  {
    spot.dest in all && spot.dest.isContainer && INDEX_WHEREEVER <= spot.index &&
    if spot.toItem == null
    then spot.index == INDEX_WHEREEVER || |spot.dest.itemlist| <= spot.index < spot.dest.capacity
    else spot.toItem in all && 0 <= spot.index < |spot.dest.itemlist| &&
         spot.dest.itemlist[spot.index] == spot.toItem
  }

  /** Where an item dropped on an index of a container lands. Moving up means the container around it, if
      there is one. Otherwise a stack to join comes first, unless the item is from this very container;
      next what the index names, a container being entered. An index beyond the capacity names nothing. */
  ghost predicate Routes(c: Item, index: int, item: Item, autoStack: bool, spot: Spot)
    reads c`parent, c`itemlist, item`kind, item`parent, c.itemlist
  {
    var named := if index == ADD_WHEREVER || index >= c.capacity then INDEX_WHEREEVER else index;
    if index == MOVE_UP then
      spot == Spot(if c.parent != null then c.parent else c, INDEX_WHEREEVER, null)
    else if autoStack && item.kind.stackable && item.parent != c && exists x :: x in c.itemlist && IsOpen(x, item) then
      spot.dest == c && 0 <= spot.index < |c.itemlist| && spot.toItem == c.itemlist[spot.index] &&
      IsOpen(c.itemlist[spot.index], item) && forall x | x in c.itemlist[..spot.index] :: !IsOpen(x, item)
    else if 0 <= named < |c.itemlist| then
      spot == if c.itemlist[named].isContainer then Spot(c.itemlist[named], INDEX_WHEREEVER, null)
              else Spot(c, named, c.itemlist[named])
    else
      spot == Spot(c, named, null)
  }

  /** __queryDestination. */
  method QueryDestination(c: Item, index: int, item: Item, autoStack: bool, ghost all: set<Item>)
    returns (dest: Item, destIndex: int, toItem: Item?)
    requires Structure(all) && c in all && c.isContainer && index >= INDEX_WHEREEVER
    ensures Landing(Spot(dest, destIndex, toItem), all)
    ensures Routes(c, index, item, autoStack, Spot(dest, destIndex, toItem))
  {
    hide Structure;
    if index == MOVE_UP {
      ParentHolds(c, all);
      return if c.parent != null then c.parent else c, INDEX_WHEREEVER, null;
    }
    dest, destIndex, toItem := c, index, null;
    if index == ADD_WHEREVER || index >= c.capacity {
      destIndex := INDEX_WHEREEVER;
    }
    if autoStack && item.kind.stackable && item.parent != c {
      var n := FindStack(c, item);
      if n != -1 {
        Listed(c, c.itemlist[n], all);
        return c, n, c.itemlist[n];
      }
    }
    if destIndex != INDEX_WHEREEVER && destIndex < |c.itemlist| {
      toItem := c.itemlist[destIndex];
      Listed(c, toItem, all);
      if toItem.isContainer {
        return toItem, INDEX_WHEREEVER, null;
      }
    }
  }

  /** Where an item lands in the end: in the container itself, or wherever there is room in the one it leads
      to, which leads no further. */
  ghost predicate Resolves(c: Item, index: int, item: Item, autoStack: bool, spot: Spot)
    reads c`parent, c`itemlist, item`kind, item`parent, c.itemlist, spot.dest`parent, spot.dest`itemlist,
          spot.dest.itemlist
  {
    if spot.dest == c then Routes(c, index, item, autoStack, spot)
    else Routes(c, index, item, autoStack, Spot(spot.dest, INDEX_WHEREEVER, null)) &&
         Routes(spot.dest, INDEX_WHEREEVER, item, true, spot)
  }

  /** Follows the destination into containers until it no longer changes. The limit of 16 is never met. */
  method ResolveDestination(c: Item, index: int, item: Item, autoStack: bool, ghost all: set<Item>)
    returns (dest: Item, destIndex: int, toItem: Item?)
    requires Structure(all) && c in all && c.isContainer && index >= INDEX_WHEREEVER
    ensures Landing(Spot(dest, destIndex, toItem), all)
    ensures Resolves(c, index, item, autoStack, Spot(dest, destIndex, toItem))
  {
    hide Structure, Landing, Routes;
    dest := c;
    var stacking, floorN := autoStack, 0;
    var next;
    next, destIndex, toItem := QueryDestination(dest, index, item, stacking, all);
    ghost var hop := Spot(next, destIndex, toItem);
    while next != dest
      invariant Landing(Spot(next, destIndex, toItem), all)
      invariant next == dest ==> Resolves(c, index, item, autoStack, Spot(next, destIndex, toItem))
      invariant next != dest ==>
                dest == c && floorN == 0 && Routes(c, index, item, autoStack, Spot(next, destIndex, toItem))
      decreases MAP_MAX_LAYERS - floorN
    {
      Leaving(c, index, item, autoStack, Spot(next, destIndex, toItem));
      dest, stacking := next, true;
      floorN := floorN + 1;
      if floorN >= MAP_MAX_LAYERS {
        break;
      }
      LandingBounds(Spot(dest, destIndex, toItem), all);
      next, destIndex, toItem := QueryDestination(dest, destIndex, item, stacking, all);
      Staying(dest, item, Spot(next, destIndex, toItem));
    }
  }

  /** What leads elsewhere leads wherever there is room there. */
  lemma Leaving(c: Item, index: int, item: Item, autoStack: bool, spot: Spot)
    requires Routes(c, index, item, autoStack, spot) && spot.dest != c
    ensures spot.index == INDEX_WHEREEVER && spot.toItem == null
  {
  }

  /** "Wherever" leads nowhere else. */
  lemma Staying(c: Item, item: Item, spot: Spot)
    requires Routes(c, INDEX_WHEREEVER, item, true, spot)
    ensures spot.dest == c
  {
  }

  lemma LandingBounds(spot: Spot, all: set<Item>)
    requires Landing(spot, all)
    ensures spot.dest in all && spot.dest.isContainer && spot.index >= INDEX_WHEREEVER
  {
  }

  /** How many of an item its landing spot takes. */
  ghost function Takes(spot: Spot, item: Item, all: set<Item>): int
    reads spot.dest`itemlist, spot.dest.itemlist`kind, spot.dest.itemlist`count, item`kind, all`kind, all`count
  {
    if !item.kind.stackable then FreeSlots(spot.dest)
    else if spot.index == INDEX_WHEREEVER then RoomFor(spot.dest, item, all)
    else FreeSlots(spot.dest) * STACK +
         if 0 <= spot.index < |spot.dest.itemlist| then Gap(spot.dest.itemlist[spot.index], item.kind) else 0
  }

  /** How many of an item a move takes: what was asked for as far as the spot takes it, provided the source
      has as many; nothing if the item may not leave, may not arrive, or is dropped on itself. */
  ghost function Movable(from: Item, spot: Spot, item: Item, count: nat, all: set<Item>): int
    requires Structure(all) && spot.dest in all
    reads from`itemlist, spot.dest`itemlist, spot.dest.itemlist`kind, spot.dest.itemlist`count,
          item`kind, item`count, all`kind, all`count, all`parent, all`itemlist, all`rank
  {
    if spot.toItem == item || item !in from.itemlist || !item.kind.moveable || !item.kind.pickupable ||
       item in Above(spot.dest, all) || (spot.index == INDEX_WHEREEVER && FreeSlots(spot.dest) == 0)
    then 0
    else if !item.kind.stackable then Min(Takes(spot, item, all), 1)
    else if 1 <= Min(count, Takes(spot, item, all)) <= item.count then Min(count, Takes(spot, item, all))
    else 0
  }

  /** What a move reports. */
  ghost function Verdict(from: Item, spot: Spot, item: Item, count: nat, all: set<Item>): ReturnValue
    requires Structure(all) && spot.dest in all
    reads from`itemlist, spot.dest`itemlist, spot.dest.itemlist`kind, spot.dest.itemlist`count,
          item`kind, item`count, all`kind, all`count, all`parent, all`itemlist, all`rank
  {
    var takes := Takes(spot, item, all);
    if spot.toItem == item then NoError
    else if !item.kind.pickupable then CannotPickup
    else if item in Above(spot.dest, all) then ThisIsImpossible
    else if spot.index == INDEX_WHEREEVER && FreeSlots(spot.dest) == 0 then ContainerNotEnoughRoom
    else if takes == 0 && (item.kind.stackable ==> count > 0) then ContainerNotEnoughRoom
    else if item !in from.itemlist || (item.kind.stackable && !(1 <= Min(count, takes) <= item.count)) then NotPossible
    else if !item.kind.moveable then NotMoveable
    else if item.kind.stackable && takes < count then ContainerNotEnoughRoom
    else NoError
  }

  /** What one call moves: `moved` of the item's type leave `from` and arrive in `to`. */
  ghost function Shift(d: Item, from: Item, to: Item, moved: nat): int {
    (if d == to then moved else 0) - (if d == from then moved else 0)
  }

  /** Whether m of a type need a new place in the list after joining toItem as far as it has room. */
  ghost predicate NeedsSlot(kind: ItemType, joins: bool, joinCount: nat, m: nat) {
    !(kind.stackable && joins && joinCount + m <= STACK)
  }

  /** What the queries settle before anything moves. */
  ghost predicate Planned(from: Item, c: Item, index: int, toItem: Item?, item: Item, m: nat, all: set<Item>)
    requires Structure(all) && c in all
    reads all`parent, all`itemlist, all`rank, all`kind, all`count, item`kind, item`count, from`itemlist
  {
    c.isContainer && item in from.itemlist && item !in Above(c, all) &&
      (item.kind.stackable ==> 1 <= m <= item.count) &&
    (toItem != null ==> toItem in all && toItem != item && toItem.parent == c) &&
    (NeedsSlot(item.kind, toItem != null && toItem.kind == item.kind, if toItem != null then toItem.count else 0, m) ==>
       |c.itemlist| < c.capacity && index < c.capacity)
  }

  /** A free slot is all it takes: then whatever may leave and may arrive moves in full. */
  lemma FreeSlotMovesAll(from: Item, spot: Spot, item: Item, count: nat, all: set<Item>)
    requires Structure(all) && StacksOk(all) && item in all && Landing(spot, all) && FreeSlots(spot.dest) > 0
    requires spot.toItem != item && (item.kind.stackable ==> 1 <= count <= item.count)
    ensures Movable(from, spot, item, count, all) ==
            if item in from.itemlist && item.kind.moveable && item.kind.pickupable && item !in Above(spot.dest, all)
            then if item.kind.stackable then count else 1
            else 0
  {
    hide Structure, Sum, Above;
    forall y | y in spot.dest.itemlist ensures y in all {
      Listed(spot.dest, y, all);
    }
    SumNotNegative(spot.dest.itemlist, OtherGaps(all, item));
  }

  /** The first half of internalMoveItem, up to the removal. `go` says whether anything is to move. */
  method PlanMove(from: Item, c: Item, index: int, item: Item, count: nat, autoStack: bool, ghost all: set<Item>)
    returns (go: bool, ret: ReturnValue, dest: Item, destIndex: int, toItem: Item?, m: nat)
    requires Consistent(all) && StacksOk(all) && from in all && from.isContainer && c in all && c.isContainer
    requires item in all && index >= INDEX_WHEREEVER
    ensures dest in all && dest.isContainer && (toItem != null ==> toItem in all)
    ensures Resolves(c, index, item, autoStack, Spot(dest, destIndex, toItem))
    ensures go ==> Planned(from, dest, destIndex, toItem, item, m, all)
    ensures Movable(from, Spot(dest, destIndex, toItem), item, count, all) ==
            if !go then 0 else if item.kind.stackable then m else 1
    ensures ret == Verdict(from, Spot(dest, destIndex, toItem), item, count, all)
    ensures ret == NoError <==> toItem == item || (go && (item.kind.stackable ==> m == count))
    ensures go && ret != NoError ==> ret == ContainerNotEnoughRoom && m < count
  {
    hide Structure, Weighted, Sum, Above, Landing, Resolves, Movable, Planned, Verdict;
    dest, destIndex, toItem := ResolveDestination(c, index, item, autoStack, all);
    LandingBounds(Spot(dest, destIndex, toItem), all);
    LandingListed(Spot(dest, destIndex, toItem), all);
    go, ret, m := QueryMove(from, dest, destIndex, toItem, item, count, all);
  }

  /** The queries that decide whether, and how much of, an item moves to its landing spot. */
  method QueryMove(from: Item, dest: Item, destIndex: int, toItem: Item?, item: Item, count: nat, ghost all: set<Item>)
    returns (go: bool, ret: ReturnValue, m: nat)
    requires Consistent(all) && StacksOk(all) && dest in all && dest.isContainer
    requires Landing(Spot(dest, destIndex, toItem), all) && (toItem != null ==> toItem.parent == dest)
    ensures go ==> Planned(from, dest, destIndex, toItem, item, m, all)
    ensures Movable(from, Spot(dest, destIndex, toItem), item, count, all) ==
            if !go then 0 else if item.kind.stackable then m else 1
    ensures ret == Verdict(from, Spot(dest, destIndex, toItem), item, count, all)
    ensures ret == NoError <==> toItem == item || (go && (item.kind.stackable ==> m == count))
    ensures go && ret != NoError ==> ret == ContainerNotEnoughRoom && m < count
  {
    hide Structure, Weighted, Sum, Above, RoomFor;
    go, m := false, 0;
    if item == toItem {
      return go, NoError, m;
    }
    ret := QueryAdd(dest, destIndex, item, all);
    if ret != NoError {
      return;
    }
    var retMaxCount, maxQueryCount := QueryMaxCount(dest, destIndex, item, count, all);
    if retMaxCount != NoError && maxQueryCount == 0 {
      return go, retMaxCount, m;
    }
    m := if item.kind.stackable then Min(count, maxQueryCount) else maxQueryCount;
    ret := QueryRemove(from, item, m, false);
    if ret != NoError {
      return;
    }
    go := true;
    RoomForNew(Spot(dest, destIndex, toItem), item, m, all);
    if item.kind.stackable && maxQueryCount < count {
      ret := retMaxCount;
    }
  }

  lemma LandingListed(spot: Spot, all: set<Item>)
    requires Structure(all) && Landing(spot, all)
    ensures spot.toItem != null ==>
              spot.toItem in spot.dest.itemlist && spot.toItem in all && spot.toItem.parent == spot.dest
  {
    hide Structure;
    if spot.toItem != null {
      Listed(spot.dest, spot.toItem, all);
    }
  }

  /** Unless the stack joined takes all of it, what may move implies a free slot at a valid index. */
  lemma RoomForNew(spot: Spot, item: Item, m: nat, all: set<Item>)
    requires Landing(spot, all) && 0 < m <= Takes(spot, item, all) && StacksOk(all)
    requires spot.index == INDEX_WHEREEVER ==> FreeSlots(spot.dest) > 0
    ensures NeedsSlot(item.kind, spot.toItem != null && spot.toItem.kind == item.kind,
                      if spot.toItem != null then spot.toItem.count else 0, m) ==>
              |spot.dest.itemlist| < spot.dest.capacity && spot.index < spot.dest.capacity
  {
  }

  /** internalMoveItem between containers, where no exchange is asked for. It conserves the number of each
      type over all containers, keeps every stack within 1..100 and never pushes the destination above its
      capacity; it moves what fits and reports when that is not all. */
  method InternalMoveItem(from: Item, c: Item, index: int, item: Item, count: nat, autoStack: bool,
                          ghost all: set<Item>)
    returns (ret: ReturnValue, ghost spot: Spot, ghost moved: nat, ghost more: set<Item>)
    requires Consistent(all) && StacksOk(all) && from in all && from.isContainer && c in all && c.isContainer
    requires item in all && index >= INDEX_WHEREEVER
    modifies item`parent, from`itemlist, all`itemlist, all`kind, all`count, all`rank, all`totalWeight
    ensures all <= more && Consistent(more) && StacksOk(more) && spot.dest in all && spot.dest.isContainer
    ensures spot.toItem != null ==> spot.toItem in all
    ensures old(Resolves(c, index, item, autoStack, spot)) && moved == old(Movable(from, spot, item, count, all))
    ensures ret == old(Verdict(from, spot, item, count, all))
    ensures ret == NoError <==>
            spot.toItem == item || (moved > 0 && moved == if old(item.kind).stackable then count else 1)
    ensures ret != NoError && moved > 0 ==> ret == ContainerNotEnoughRoom
    ensures forall d, k | d in all ::
              CountIn(d, k, more) == old(CountIn(d, k, all)) +
                if k == old(item.kind) then Shift(d, from, spot.dest, moved) else 0
    ensures forall d | d in all && (moved == 0 || (d != from && d != spot.dest)) :: d.itemlist == old(d.itemlist)
    ensures |spot.dest.itemlist| <= Max(spot.dest.capacity, |old(spot.dest.itemlist)|)
    ensures moved > 0 ==> item in old(from.itemlist)
    ensures moved == 0 ==> item.parent == old(item.parent) && item.count == old(item.count)
    ensures moved > 0 && from != spot.dest ==>
              from.itemlist ==
                Remains(old(from.itemlist), item, !old(item.kind).stackable || moved == old(item.count))
    ensures moved > 0 && !old(item.kind).stackable ==>
              item.parent == spot.dest && item.count == old(item.count) &&
              spot.dest.itemlist ==
                [item] + if from == spot.dest then Without(old(from.itemlist), item) else old(spot.dest.itemlist)
    ensures moved > 0 && old(item.kind).stackable ==>
              item.parent == (if moved < old(item.count) then from else null) &&
              item.count == old(item.count) - (if moved < old(item.count) then moved else 0) &&
              Arrived(if from == spot.dest then Remains(old(from.itemlist), item, moved == old(item.count))
                      else old(spot.dest.itemlist), spot.dest.itemlist, spot.dest, old(item.kind),
                      moved - old(Joined(spot.toItem, item.kind, moved)))
    ensures forall y | y in all && y != spot.toItem && y != item :: y.count == old(y.count)
    ensures moved > 0 && old(item.kind).stackable && spot.toItem != null && old(spot.toItem.kind) == old(item.kind) ==>
              spot.toItem.count == Min(old(spot.toItem.count) + moved, STACK)
  {
    hide Structure, Weighted, Sum, Above, CountIn, NeedsSlot, Resolves, Movable, Verdict;
    moved, more := 0, all;
    var go, dest, destIndex, toItem, m;
    go, ret, dest, destIndex, toItem, m := PlanMove(from, c, index, item, count, autoStack, all);
    spot := Spot(dest, destIndex, toItem);
    if go {
      moved := if item.kind.stackable then m else 1;
      more := CarryOut(from, dest, destIndex, toItem, item, m, all);
    }
  }

  /** What is planned is carried out: so much leaves the source and arrives at the destination. */
  method CarryOut(from: Item, c: Item, index: int, toItem: Item?, item: Item, m: nat, ghost all: set<Item>)
    returns (ghost more: set<Item>)
    requires Consistent(all) && StacksOk(all) && from in all && from.isContainer && c in all && item in all
    requires Planned(from, c, index, toItem, item, m, all)
    modifies item`parent, from`itemlist, c`itemlist, all`kind, all`count, all`rank, all`totalWeight
    ensures all <= more && Consistent(more) && StacksOk(more)
    ensures forall d, k | d in all ::
              CountIn(d, k, more) ==
              old(CountIn(d, k, all)) +
                if k == old(item.kind) then Shift(d, from, c, if old(item.kind).stackable then m else 1) else 0
    ensures |c.itemlist| <= Max(c.capacity, |old(c.itemlist)|)
    ensures item in old(from.itemlist)
    ensures from != c ==>
              from.itemlist == Remains(old(from.itemlist), item, !old(item.kind).stackable || m == old(item.count))
    ensures !old(item.kind).stackable ==>
              item.parent == c && item.count == old(item.count) &&
              c.itemlist == [item] + if from == c then Without(old(from.itemlist), item) else old(c.itemlist)
    ensures old(item.kind).stackable ==>
              item.parent == (if m < old(item.count) then from else null) &&
              item.count == old(item.count) - (if m < old(item.count) then m else 0) &&
              Arrived(if from == c then Remains(old(from.itemlist), item, m == old(item.count))
                      else old(c.itemlist), c.itemlist, c, old(item.kind),
                      m - old(Joined(toItem, item.kind, m)))
    ensures forall y | y in all && y != toItem && y != item :: y.count == old(y.count)
    ensures old(item.kind).stackable && toItem != null && old(toItem.kind) == old(item.kind) ==>
              toItem.count == Min(old(toItem.count) + m, STACK)
  {
    hide Structure, Weighted, Sum, Above, CountIn, NeedsSlot;
    TakeItem(from, item, m, all);
    more := Deposit(c, index, toItem, item, m, all);
  }

  /** The second half of a move: what was taken joins the stack found there, as far as it fits, and the
      rest becomes a new item in the list; an item that does not stack is listed itself. */
  method Deposit(c: Item, index: int, toItem: Item?, item: Item, m: nat, ghost all: set<Item>)
    returns (ghost more: set<Item>)
    requires Consistent(all) && StacksOk(all) && c in all && c.isContainer && item in all
    requires toItem != null ==> toItem in all && toItem.parent == c
    requires if item.kind.stackable then 1 <= m <= STACK else item.parent == null && item !in Above(c, all)
    requires NeedsSlot(item.kind, toItem != null && toItem.kind == item.kind,
             if toItem != null then toItem.count else 0, m) ==>
               |c.itemlist| < c.capacity && index < c.capacity
    modifies item`parent, c`itemlist, all`kind, all`count, all`rank, all`totalWeight
    ensures all <= more && Consistent(more) && StacksOk(more)
    ensures forall d, k | d in all ::
              CountIn(d, k, more) ==
              old(CountIn(d, k, all)) + if d == c && k == item.kind then if item.kind.stackable then m else 1 else 0
    ensures |c.itemlist| <= Max(c.capacity, |old(c.itemlist)|) && item.kind == old(item.kind)
    ensures !item.kind.stackable ==>
              item.parent == c && c.itemlist == [item] + old(c.itemlist)
    ensures item.kind.stackable && toItem != null && old(toItem.kind) == item.kind ==>
              toItem.count == Min(old(toItem.count) + m, STACK)
    ensures forall y | y in all && y != toItem :: y.count == old(y.count)
    ensures item.kind.stackable ==>
              Arrived(old(c.itemlist), c.itemlist, c, item.kind,
                      m - old(Joined(toItem, item.kind, m)))
    ensures item.kind.stackable ==> item.parent == old(item.parent)
  {
    hide Structure, Weighted, Sum, Above, CountIn;
    more := all;
    if !item.kind.stackable {
      PutItem(c, index, item, all);
      return;
    }
    var n := 0;
    if toItem != null && toItem.kind == item.kind {
      n := Min(STACK - toItem.count, m);
      if n > 0 {
        ResizeStack(c, toItem, toItem.count + n, all);
      }
    }
    if m - n > 0 {
      more := PutNew(c, index, item.kind, m - n, all);
    }
  }

  /** How much of m joins the stack found at the landing spot. */
  ghost function Joined(toItem: Item?, kind: ItemType, m: nat): int
    reads if toItem != null then {toItem} else {}
  {
    if toItem != null && toItem.kind == kind then Min(STACK - toItem.count, m) else 0
  }

  /** A list once an item was taken out of it, wholly or in part. */
  ghost function Remains(s: seq<Item>, x: Item, whole: bool): seq<Item>
    requires x in s
  {
    if whole then Without(s, x) else s
  }

  /** So many of a type lie in a new item at the front of a list; none need no new item. */
  ghost predicate Arrived(before: seq<Item>, after: seq<Item>, c: Item, kind: ItemType, count: int)
    reads after
  {
    if count <= 0 then after == before
    else after != [] && after[1..] == before && after[0] !in before &&
         after[0].kind == kind && after[0].count == count && after[0].parent == c && !after[0].isContainer
  }

  method PutNew(c: Item, index: int, kind: ItemType, count: nat, ghost all: set<Item>) returns (ghost more: set<Item>)
    requires Consistent(all) && StacksOk(all) && c in all && c.isContainer
    requires kind.stackable && 1 <= count <= STACK && |c.itemlist| < c.capacity && index < c.capacity
    modifies c`itemlist, all`rank, all`totalWeight
    ensures all <= more && Consistent(more) && StacksOk(more)
    ensures forall d, k | d in all ::
              CountIn(d, k, more) == old(CountIn(d, k, all)) + if d == c && k == kind then count else 0
    ensures |c.itemlist| <= c.capacity
    ensures c.itemlist != [] && c.itemlist[1..] == old(c.itemlist) && fresh(c.itemlist[0])
    ensures c.itemlist[0].kind == kind && c.itemlist[0].count == count && c.itemlist[0].parent == c
    ensures !c.itemlist[0].isContainer
  {
    hide Structure, Weighted, Sum, Above, CountIn, Room, StacksOk;
    var moveItem;
    moveItem, more := CreateItem(kind, count, all);
    JoinKeepsCounts(c, all, moveItem);
    PutItem(c, index, moveItem, more);
  }

  // ----- Runs of the elementary steps -----

  datatype Step =
    | Add(c: Item, index: int, item: Item)
    | Update(c: Item, item: Item, kind: ItemType, count: nat)
    | Replace(c: Item, slot: nat, item: Item)
    | Remove(c: Item, item: Item, count: nat, ignoreNotMoveable: bool)

  /** An item with nothing in it is around nothing but itself. */
  lemma EmptyIsNotAround(c: Item, item: Item, all: set<Item>)
    requires Structure(all) && c in all && item.itemlist == [] && item != c
    ensures item !in Above(c, all)
    decreases c.rank
  {
    hide Links;
    AboveStep(c, all);
    ParentHolds(c, all);
    if c.parent != null {
      assert c.parent != item;
      EmptyIsNotAround(c.parent, item, all);
    }
  }

  /** The lists after a step: the containers other than its own keep theirs, and so does that one where the step is
      not admitted. */
  ghost function Relisted(step: Step, all: set<Item>): map<Item, seq<Item>>
    requires Structure(all) && step.c in all && step.item in all
    reads all`parent, all`itemlist, all`kind, all`count, all`rank
  {
    var lists, s := Lists(all), step.c.itemlist;
    match step
    case Add(c, index, item) =>
      if index < c.capacity && item.parent == null && item.kind.pickupable && item !in Above(c, all) &&
         (index == INDEX_WHEREEVER ==> |s| < c.capacity)
      then lists[c := [item] + s] else lists
    case Update(_, _, _, _) => lists
    case Replace(c, slot, item) =>
      if item.parent == null && item.itemlist == [] && item != c && slot < |s| then lists[c := s[slot := item]]
      else lists
    case Remove(c, item, count, ignoreNotMoveable) =>
      if item in s && count > 0 && (item.kind.moveable || ignoreNotMoveable) &&
         (item.kind.stackable ==> count == item.count)
      then lists[c := Without(s, item)] else lists
  }

  /** A step is taken if its queries admit it: a loose item is added where it may go, a listed one is taken
      out, and what replaces another is a new item, loose and empty. */
  method Perform(step: Step, ghost all: set<Item>)
    requires Consistent(all) && step.c in all && step.c.isContainer && step.item in all
    modifies all`parent, all`itemlist, all`kind, all`count, all`rank, all`totalWeight
    ensures Consistent(all)
    ensures Lists(all) == old(Relisted(step, all))
    ensures step.Add? ==>
              step.c.itemlist ==
                (if step.index < step.c.capacity && old(step.item.parent) == null && step.item.kind.pickupable &&
                    old(step.item !in Above(step.c, all)) &&
                    !(step.index == INDEX_WHEREEVER && |old(step.c.itemlist)| >= step.c.capacity)
                 then [step.item] else []) + old(step.c.itemlist)
    ensures step.Update? && old(step.item in step.c.itemlist) ==>
              step.item.kind == step.kind && step.item.count == step.count
    ensures step.Replace? && old(step.item.parent == null && step.item.itemlist == [] && step.item != step.c) &&
            step.slot < |old(step.c.itemlist)| ==>
              step.c.itemlist == old(step.c.itemlist)[step.slot := step.item]
    ensures step.Remove? ==>
              if !old(step.item in step.c.itemlist) || step.count == 0 ||
                 (step.item.kind.stackable && step.count > old(step.item.count)) ||
                 (!step.item.kind.moveable && !step.ignoreNotMoveable)
              then step.c.itemlist == old(step.c.itemlist) && step.item.count == old(step.item.count)
              else if step.item.kind.stackable && step.count < old(step.item.count)
              then step.c.itemlist == old(step.c.itemlist) && step.item.count == old(step.item.count) - step.count
              else step.c.itemlist == Without(old(step.c.itemlist), step.item)
  {
    hide Structure, Weighted, Above;
    match step
    case Add(c, index, item) =>
      var ret := QueryAdd(c, index, item, all);
      if ret == NoError && item.parent == null {
        AddThing(c, index, item, all);
      }
    case Update(c, item, kind, count) =>
      UpdateThing(c, item, kind, count, all);
    case Replace(c, slot, item) =>
      if item.parent == null && item.itemlist == [] && item != c {
        EmptyIsNotAround(c, item, all);
        ReplaceThing(c, slot, item, all);
      }
    case Remove(c, item, count, ignoreNotMoveable) =>
      var ret := QueryRemove(c, item, count, ignoreNotMoveable);
      if ret == NoError {
        RemoveThing(c, item, count, all);
      }
  }

  /** A bound on the ranks. */
  ghost function Height(all: set<Item>): (h: nat)
    reads all`rank
    ensures forall y | y in all :: y.rank < h
  {
    if all == {} then 0
    else
      var x :| x in all;
      Max(x.rank + 1, Height(all - {x}))
  }

  /** After any run of steps every cached weight is the weight of all that is nested inside, at every depth,
      and no container is inside itself. Step by step the lists become what the queries admit. */
  method Run(steps: seq<Step>, ghost all: set<Item>) returns (ghost lists: seq<map<Item, seq<Item>>>)
    requires Consistent(all)
    requires forall step | step in steps :: step.c in all && step.c.isContainer && step.item in all
    modifies all`parent, all`itemlist, all`kind, all`count, all`rank, all`totalWeight
    ensures Consistent(all)
    ensures |lists| == |steps| + 1 && lists[0] == old(Lists(all)) && lists[|steps|] == Lists(all)
    ensures steps != [] ==> steps[0] in steps && lists[1] == old(Relisted(steps[0], all))
    ensures forall x | x in all :: x.Weight() == NestedWeight(x, all, Height(all))
    ensures forall x | x in all && x.parent != null :: x.parent in all && x !in Above(x.parent, all)
    decreases |steps|
  {
    hide Structure, Weighted, NestedWeight, Above, Relisted, Lists;
    lists := [Lists(all)];
    if steps == [] {
      NestedWeights(all);
      return;
    }
    assert steps[0] in steps && forall step | step in steps[1..] :: step in steps;
    Perform(steps[0], all);
    var later := Run(steps[1..], all);
    lists := lists + later;
  }

  lemma NestedWeights(all: set<Item>)
    requires Consistent(all)
    ensures forall x | x in all :: x.Weight() == NestedWeight(x, all, Height(all))
    ensures forall x | x in all && x.parent != null :: x.parent in all && x !in Above(x.parent, all)
  {
    hide Structure, Weighted, NestedWeight, Above;
    forall x | x in all ensures x.Weight() == NestedWeight(x, all, Height(all)) {
      CacheIsNestedWeight(x, all, Height(all));
    }
    forall x | x in all && x.parent != null ensures x.parent in all && x !in Above(x.parent, all) {
      ParentHolds(x, all);
      NoContainerInItself(x, all);
    }
  }
}
