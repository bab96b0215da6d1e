/** Coins in a container and everything nested in it: counting them, paying with them, giving change. */
module Money {
  import opened Containers
  import opened Stacks
  import Iteration

  const GOLD := ItemType(2148, 10, true, true, true)
  const PLATINUM := ItemType(2152, 10, true, true, true)
  const CRYSTAL := ItemType(2160, 10, true, true, true)

  function Worth(kind: ItemType, count: nat): nat {
    if kind == GOLD then count
    else if kind == PLATINUM then count * 100
    else if kind == CRYSTAL then count * 10000
    else 0
  }

  /** The coins lying directly in a container. */
  ghost function WorthIn(d: Item, all: set<Item>): int
    reads d`itemlist, all`kind, all`count
  {
    CountIn(d, GOLD, all) + 100 * CountIn(d, PLATINUM, all) + 10000 * CountIn(d, CRYSTAL, all)
  }

  ghost function Purses(all: set<Item>): (w: map<Item, int>)
    ensures w.Keys == all
    reads all`itemlist, all`kind, all`count
  {
    map d | d in all :: WorthIn(d, all)
  }

  /** ds lists c and every container nested in c, each once. */
  ghost predicate Covers(ds: seq<Item>, c: Item, all: set<Item>, parents: map<Item, Item?>, ranks: map<Item, nat>)
    requires parents.Keys == ranks.Keys == all && Falling(all, parents, ranks)
  {
    Distinct(ds) && (forall d | d in ds :: d in all && d.isContainer && c in Chain(d, all, parents, ranks)) &&
    (forall d | d in all && d.isContainer && c in Chain(d, all, parents, ranks) :: d in ds)
  }

  ghost predicate Cover(ds: seq<Item>, c: Item, all: set<Item>)
    requires Structure(all)
    reads all`parent, all`itemlist, all`rank
  {
    Covers(ds, c, all, Parents(all), Ranks(all))
  }

  /** What all coins in c, at every depth, are worth; `ds` covers c. */
  ghost function Wealth(ds: seq<Item>, all: set<Item>): int
    reads all`itemlist, all`kind, all`count
  {
    Sum(ds, Purses(all))
  }

  /** It does not matter in which order the containers are counted. */
  lemma {:induction false} SumOfSame(s: seq<Item>, t: seq<Item>, w: map<Item, int>)
    requires Distinct(s) && Distinct(t) && |s| == |t|
    requires (forall x | x in s :: x in t && x in w) && forall x | x in t :: x in s
    ensures Sum(s, w) == Sum(t, w)
  {
    if s != [] {
      var x := s[0];
      assert x in t;
      DistinctWithout(t, x);
      SumWithout(t, x, w);
      WithoutShorter(t, x);
      forall y | y in s[1..] ensures y in Without(t, x) {
        assert y in s;
      }
      forall y | y in Without(t, x) ensures y in s[1..] {
        assert y in s && y != x;
      }
      SumOfSame(s[1..], Without(t, x), w);
    }
  }

  lemma WealthIsUnique(ds: seq<Item>, es: seq<Item>, c: Item, all: set<Item>)
    requires Structure(all) && Cover(ds, c, all) && Cover(es, c, all)
    ensures Wealth(ds, all) == Wealth(es, all)
  {
    hide Structure, Sum, Above;
    Iteration.DistinctSize(ds);
    Iteration.DistinctSize(es);
    assert Iteration.Members(ds) == Iteration.Members(es);
    SumOfSame(ds, es, Purses(all));
  }

  // ----- Walking the containers -----

  /** The walk so far: `ds` are done, `queue` waits, `cur` is the container being read, up to n. */
  ghost predicate Walking(c: Item, ds: seq<Item>, queue: seq<Item>, all: set<Item>)
    requires Structure(all)
    reads all`parent, all`itemlist, all`rank
  {
    Distinct(ds + queue) && c in ds + queue &&
    (forall d | d in ds + queue :: d in all && d.isContainer && c in Above(d, all) && (d == c || d.parent in ds)) &&
    (forall x | x in all && x.isContainer && x.parent in ds :: x in ds + queue)
  }

  /** While the container at the end of `ds` is read: only its first n items have been looked at. */
  ghost predicate Reading(c: Item, ds: seq<Item>, queue: seq<Item>, n: nat, all: set<Item>)
    requires Structure(all)
    reads all`parent, all`itemlist, all`rank
  {
    ds != [] && ds[|ds| - 1] in all && n <= |ds[|ds| - 1].itemlist| &&
    Distinct(ds + queue) && c in ds + queue &&
    (forall d | d in ds + queue :: d in all && d.isContainer && c in Above(d, all) && (d == c || d.parent in ds)) &&
    (forall d | d in ds + queue && d != c && d.parent == ds[|ds| - 1] :: d in ds[|ds| - 1].itemlist[..n]) &&
    (forall x | x in all && x.isContainer && x.parent in ds[..|ds| - 1] :: x in ds + queue) &&
    (forall x | x in ds[|ds| - 1].itemlist[..n] && x.isContainer :: x in ds + queue)
  }

  lemma StartReading(c: Item, all: set<Item>)
    requires Structure(all) && c in all && c.isContainer
    ensures Reading(c, [c], [], 0, all)
  {
    hide Structure, Above;
    AboveStep(c, all);
    assert [c] + [] == [c];
  }

  lemma ReadStep(c: Item, ds: seq<Item>, queue: seq<Item>, n: nat, all: set<Item>)
    requires Structure(all) && c in all && Reading(c, ds, queue, n, all) && n < |ds[|ds| - 1].itemlist|
    ensures var x := ds[|ds| - 1].itemlist[n];
            x in all && x.parent == ds[|ds| - 1] &&
            Reading(c, ds, queue + if x.isContainer then [x] else [], n + 1, all)
  {
    hide Structure, Above, Distinct;
    var d := ds[|ds| - 1];
    assert d in ds + queue;
    var x := d.itemlist[n];
    Listed(d, x, all);
    AboveStep(x, all);
    NoContainerInItself(x, all);
    DistinctList(d, all);
    FirstTime(d.itemlist, n);
    assert d.itemlist[..n + 1] == d.itemlist[..n] + [x];
    var more := queue + if x.isContainer then [x] else [];
    if x.isContainer {
      assert ds + more == ds + queue + [x];
      assert d in ds;
      Iteration.DistinctSnoc(ds + queue, x);
    } else {
      assert ds + more == ds + queue;
    }
  }

  lemma FirstTime(s: seq<Item>, n: nat)
    requires Distinct(s) && n < |s|
    ensures s[n] !in s[..n]
  {
  }

  lemma ReadDone(c: Item, ds: seq<Item>, queue: seq<Item>, all: set<Item>)
    requires Structure(all) && ds != [] && Reading(c, ds, queue, |ds[|ds| - 1].itemlist|, all)
    ensures Walking(c, ds, queue, all)
  {
    hide Structure, Above, Distinct;
    var d := ds[|ds| - 1];
    assert d.itemlist[..|d.itemlist|] == d.itemlist;
    forall x | x in all && x.isContainer && x.parent in ds ensures x in ds + queue {
      ListedBack(x, all);
    }
  }

  lemma NextContainer(c: Item, ds: seq<Item>, queue: seq<Item>, all: set<Item>)
    requires Structure(all) && Walking(c, ds, queue, all) && queue != []
    ensures Reading(c, ds + [queue[0]], queue[1..], 0, all)
  {
    hide Structure, Above;
    var next := ds + [queue[0]];
    assert next + queue[1..] == ds + queue;
    assert (ds + queue)[|ds|] == queue[0];
    assert next[..|next| - 1] == ds;
    FirstTime(ds + queue, |ds|);
    assert (ds + queue)[..|ds|] == ds;
  }

  lemma WalkDone(c: Item, ds: seq<Item>, all: set<Item>)
    requires Structure(all) && Walking(c, ds, [], all)
    ensures Cover(ds, c, all)
  {
    hide Structure, Chain;
    assert ds + [] == ds;
    forall d | d in all && d.isContainer && c in Above(d, all) ensures d in ds {
      Reached(c, ds, d, all);
    }
  }

  lemma {:induction false} Reached(c: Item, ds: seq<Item>, d: Item, all: set<Item>)
    requires Structure(all) && Walking(c, ds, [], all) && d in all && d.isContainer && c in Above(d, all)
    ensures d in ds
    decreases d.rank
  {
    hide Structure, Above, Distinct;
    assert ds + [] == ds;
    AboveStep(d, all);
    ParentHolds(d, all);
    if d != c {
      Reached(c, ds, d.parent, all);
    }
  }

  lemma WalkBounded(c: Item, ds: seq<Item>, queue: seq<Item>, all: set<Item>)
    requires Structure(all) && Walking(c, ds, queue, all)
    ensures |ds| + |queue| <= |all|
  {
    hide Structure, Above, Distinct;
    Iteration.DistinctSize(ds + queue);
    Iteration.SubsetSize(Iteration.Members(ds + queue), all);
  }

  // ----- The coins found, sorted -----

  /** The multimap from worth to coins, smallest worth first. */
  type MoneyMap = seq<(nat, Item)>

  ghost predicate Ascending(coins: MoneyMap) {
    forall i, j | 0 <= i < j < |coins| :: coins[i].0 <= coins[j].0
  }

  /** Adds an entry behind all entries of at most its worth. */
  method Insert(coins: MoneyMap, entry: (nat, Item)) returns (more: MoneyMap, ghost at: nat)
    requires Ascending(coins)
    ensures at <= |coins| && more == coins[..at] + [entry] + coins[at..] && Ascending(more)
  {
    var i := |coins|;
    while i > 0 && coins[i - 1].0 > entry.0
      invariant 0 <= i <= |coins| && forall j | i <= j < |coins| :: coins[j].0 > entry.0
    {
      i := i - 1;
    }
    return coins[..i] + [entry] + coins[i..], i;
  }

  ghost function Total(coins: MoneyMap): nat {
    if coins == [] then 0 else coins[0].0 + Total(coins[1..])
  }

  lemma {:induction false} TotalConcat(a: MoneyMap, b: MoneyMap)
    ensures Total(a + b) == Total(a) + Total(b)
  {
    if a == [] {
      assert a + b == b;
    } else {
      assert (a + b)[1..] == a[1..] + b;
      TotalConcat(a[1..], b);
    }
  }

  ghost predicate DistinctItems(coins: MoneyMap) {
    forall i, j | 0 <= i < j < |coins| :: coins[i].1 != coins[j].1
  }

  /** The entries are coin stacks listed somewhere in `ds`, with what they are worth, each once. */
  ghost predicate Collected(coins: MoneyMap, ds: seq<Item>, all: set<Item>)
    reads all`parent, all`kind, all`count
  {
    Ascending(coins) && DistinctItems(coins) &&
    forall e | e in coins :: e.1 in all && e.0 == Worth(e.1.kind, e.1.count) && e.0 > 0 && !e.1.isContainer &&
      e.1.parent in ds
  }

  /** Coin types are not containers. */
  ghost predicate PlainCoins(all: set<Item>)
    reads all`kind
  {
    forall x | x in all && x.isContainer :: Worth(x.kind, 1) == 0
  }

  lemma WorthByCoin(kind: ItemType, count: nat)
    ensures Worth(kind, count) == count * Worth(kind, 1)
  {
  }

  /** What the first n items of a list are worth. */
  ghost function PrefixWorth(d: Item, n: nat, all: set<Item>): int
    requires n <= |d.itemlist|
    reads d`itemlist, all`kind, all`count
  {
    var s := d.itemlist[..n];
    Sum(s, Amounts(all, GOLD)) + 100 * Sum(s, Amounts(all, PLATINUM)) + 10000 * Sum(s, Amounts(all, CRYSTAL))
  }

  lemma AmountPrefix(d: Item, n: nat, kind: ItemType, all: set<Item>)
    requires Structure(all) && d in all && n < |d.itemlist|
    ensures Sum(d.itemlist[..n + 1], Amounts(all, kind)) ==
            Sum(d.itemlist[..n], Amounts(all, kind)) + if d.itemlist[n].kind == kind then d.itemlist[n].count else 0
  {
    hide Structure;
    Listed(d, d.itemlist[n], all);
    assert d.itemlist[..n + 1] == d.itemlist[..n] + [d.itemlist[n]];
    SumConcat(d.itemlist[..n], [d.itemlist[n]], Amounts(all, kind));
  }

  lemma PrefixWorthStep(d: Item, n: nat, all: set<Item>)
    requires Structure(all) && d in all && n < |d.itemlist|
    ensures PrefixWorth(d, n + 1, all) == PrefixWorth(d, n, all) + Worth(d.itemlist[n].kind, d.itemlist[n].count)
  {
    hide Structure, Sum, Amounts;
    AmountPrefix(d, n, GOLD, all);
    AmountPrefix(d, n, PLATINUM, all);
    AmountPrefix(d, n, CRYSTAL, all);
  }

  lemma PrefixWorthEnds(d: Item, all: set<Item>)
    ensures PrefixWorth(d, 0, all) == 0 && PrefixWorth(d, |d.itemlist|, all) == WorthIn(d, all)
  {
    assert d.itemlist[..|d.itemlist|] == d.itemlist;
  }

  lemma InsertedTotal(coins: MoneyMap, e: (nat, Item), at: nat)
    requires at <= |coins|
    ensures Total(coins[..at] + [e] + coins[at..]) == Total(coins) + e.0
  {
    assert coins == coins[..at] + coins[at..];
    TotalConcat(coins[..at], coins[at..]);
    TotalConcat(coins[..at] + [e], coins[at..]);
    TotalConcat(coins[..at], [e]);
  }

  lemma InsertedDistinct(coins: MoneyMap, e: (nat, Item), at: nat)
    requires at <= |coins| && DistinctItems(coins) && forall d | d in coins :: d.1 != e.1
    ensures DistinctItems(coins[..at] + [e] + coins[at..])
  {
    var more := coins[..at] + [e] + coins[at..];
    forall i, j | 0 <= i < j < |more| ensures more[i].1 != more[j].1 {
      if i == at {
        assert more[j] == coins[j - 1];
        assert coins[j - 1] in coins;
      } else if j == at {
        assert more[i] == coins[i];
        assert coins[i] in coins;
      }
    }
  }

  lemma InsertedMembers(coins: MoneyMap, e: (nat, Item), at: nat)
    requires at <= |coins|
    ensures forall d | d in coins[..at] + [e] + coins[at..] :: d in coins || d == e
  {
  }

  lemma CollectOne(coins: MoneyMap, x: Item, at: nat, ds: seq<Item>, all: set<Item>)
    requires Collected(coins, ds, all) && at <= |coins|
    requires x in all && !x.isContainer && x.parent in ds && Worth(x.kind, x.count) > 0
    requires forall e | e in coins :: e.1 != x
    requires Ascending(coins[..at] + [(Worth(x.kind, x.count), x)] + coins[at..])
    ensures var more := coins[..at] + [(Worth(x.kind, x.count), x)] + coins[at..];
            Collected(more, ds, all) && Total(more) == Total(coins) + Worth(x.kind, x.count) &&
            forall e | e in more :: e in coins || e.1 == x
  {
    hide Ascending, Worth, DistinctItems, Total;
    var e := (Worth(x.kind, x.count), x);
    InsertedTotal(coins, e, at);
    InsertedDistinct(coins, e, at);
    InsertedMembers(coins, e, at);
  }

  /** Reads one container: its coins go into the multimap, its containers into the queue. */
  method ReadContainer(c: Item, d: Item, count: nat, coins: MoneyMap, queue: seq<Item>, ghost ds: seq<Item>,
                       ghost all: set<Item>)
    returns (moneyCount: nat, moneyMap: MoneyMap, listContainer: seq<Item>)
    requires Structure(all) && PlainCoins(all) && c in all && Reading(c, ds + [d], queue, 0, all)
    requires Collected(coins, ds, all) && Total(coins) == count
    ensures Walking(c, ds + [d], listContainer, all)
    ensures Collected(moneyMap, ds + [d], all) && Total(moneyMap) == moneyCount && moneyCount == count + WorthIn(d, all)
  {
    hide Structure, Reading, Walking, Sum, Worth, Ascending, WorthIn, PrefixWorth;
    moneyCount, moneyMap, listContainer := count, coins, queue;
    ghost var read := ds + [d];
    ReadingHere(c, ds, d, queue, all);
    PrefixWorthEnds(d, all);
    for n := 0 to |d.itemlist|
      invariant Reading(c, read, listContainer, n, all)
      invariant Collected(moneyMap, read, all) && Total(moneyMap) == moneyCount
      invariant forall e | e in moneyMap :: e.1.parent in ds || e.1 in d.itemlist[..n]
      invariant moneyCount == count + PrefixWorth(d, n, all)
    {
      var item := d.itemlist[n];
      ReadStep(c, read, listContainer, n, all);
      PrefixWorthStep(d, n, all);
      assert d.itemlist[..n + 1] == d.itemlist[..n] + [item];
      if item.isContainer {
        WorthByCoin(item.kind, item.count);
        listContainer := listContainer + [item];
      } else {
        assert listContainer + [] == listContainer;
        if Worth(item.kind, item.count) != 0 {
          DistinctList(d, all);
          FirstTime(d.itemlist, n);
          moneyCount := moneyCount + Worth(item.kind, item.count);
          ghost var before := moneyMap;
          ghost var at;
          moneyMap, at := Insert(moneyMap, (Worth(item.kind, item.count), item));
          CollectOne(before, item, at, read, all);
        }
      }
    }
    ReadDone(c, read, listContainer, all);
  }

  lemma ReadingHere(c: Item, ds: seq<Item>, d: Item, queue: seq<Item>, all: set<Item>)
    requires Structure(all) && Reading(c, ds + [d], queue, 0, all)
    ensures d in all && d !in ds && (ds + [d])[|ds + [d]| - 1] == d
  {
    hide Structure, Above;
    FirstTime(ds + [d] + queue, |ds|);
    assert (ds + [d] + queue)[..|ds|] == ds;
  }

  lemma WealthSnoc(ds: seq<Item>, d: Item, all: set<Item>)
    requires d in all
    ensures Wealth(ds + [d], all) == Wealth(ds, all) + WorthIn(d, all)
  {
    hide WorthIn;
    SumConcat(ds, [d], Purses(all));
  }

  /** The walk that getMoney and removeMoney share: containers one after another, in the order found. */
  method Gather(c: Item, ghost all: set<Item>) returns (moneyCount: nat, moneyMap: MoneyMap, ghost ds: seq<Item>)
    requires Structure(all) && PlainCoins(all) && c in all && c.isContainer
    ensures Cover(ds, c, all) && moneyCount == Wealth(ds, all)
    ensures Collected(moneyMap, ds, all) && Total(moneyMap) == moneyCount
  {
    hide Structure, Reading, Walking, Ascending, WorthIn, Wealth, Cover, PlainCoins;
    var listContainer: seq<Item>;
    ds := [];
    assert [] + [c] == [c];
    StartReading(c, all);
    NothingYet(all);
    moneyCount, moneyMap, listContainer := ReadContainer(c, c, 0, [], [], ds, all);
    WealthSnoc(ds, c, all);
    ds := ds + [c];
    WalkBounded(c, ds, listContainer, all);
    while listContainer != []
      invariant Walking(c, ds, listContainer, all) && |ds| <= |all|
      invariant Collected(moneyMap, ds, all) && Total(moneyMap) == moneyCount && moneyCount == Wealth(ds, all)
      decreases |all| - |ds|
    {
      var container := listContainer[0];
      NextContainer(c, ds, listContainer, all);
      ReadingHere(c, ds, container, listContainer[1..], all);
      WealthSnoc(ds, container, all);
      moneyCount, moneyMap, listContainer := ReadContainer(c, container, moneyCount, moneyMap, listContainer[1..], ds,
        all);
      ds := ds + [container];
      WalkBounded(c, ds, listContainer, all);
    }
    WalkDone(c, ds, all);
  }

  lemma NothingYet(all: set<Item>)
    ensures Wealth([], all) == 0 && Collected([], [], all) && Total([]) == 0
  {
  }

  /** getMoney: the worth of all coins in the container, at every depth. */
  method GetMoney(c: Item, ghost ds: seq<Item>, ghost all: set<Item>) returns (moneyCount: nat)
    requires Structure(all) && PlainCoins(all) && c in all && c.isContainer && Cover(ds, c, all)
    ensures moneyCount == Wealth(ds, all)
  {
    hide Structure, Cover, Wealth, PlainCoins;
    var moneyMap;
    ghost var es;
    moneyCount, moneyMap, es := Gather(c, all);
    WealthIsUnique(ds, es, c, all);
  }

  // ----- Giving change -----

  /** Coin stacks, as type and count. */
  type Pile = seq<(ItemType, nat)>

  ghost function PileWorth(pile: Pile): nat {
    if pile == [] then 0 else PileWorth(pile[..|pile| - 1]) + Worth(pile[|pile| - 1].0, pile[|pile| - 1].1)
  }

  ghost predicate IsCoin(kind: ItemType) {
    kind == GOLD || kind == PLATINUM || kind == CRYSTAL
  }

  /** Only coins, in stacks of 1 to 100. */
  ghost predicate CoinStacks(pile: Pile) {
    forall s | s in pile :: IsCoin(s.0) && 1 <= s.1 <= STACK
  }

  /** So many crystal coins, in stacks of at most a hundred. */
  ghost function Crystals(n: nat): Pile {
    if n == 0 then [] else if n <= 100 then [(CRYSTAL, n)] else [(CRYSTAL, 100)] + Crystals(n - 100)
  }

  /** What an amount is paid out in: as much as can be in crystal coins, the rest as much as can be in platinum
      coins, and the last in gold. */
  ghost function Coins(amount: nat): Pile {
    Crystals(amount / 10000) +
    (if amount % 10000 < 100 then [] else [(PLATINUM, amount % 10000 / 100)]) +
    if amount % 100 == 0 then [] else [(GOLD, amount % 100)]
  }

  lemma PilePush(pile: Pile, kind: ItemType, count: nat)
    ensures PileWorth(pile + [(kind, count)]) == PileWorth(pile) + Worth(kind, count)
    ensures CoinStacks(pile) && IsCoin(kind) && 1 <= count <= STACK ==> CoinStacks(pile + [(kind, count)])
  {
    assert (pile + [(kind, count)])[..|pile|] == pile;
  }

  /** A new stack is added to the container when it fits there. */
  method AddNew(c: Item, kind: ItemType, count: nat, ghost all: set<Item>) returns (added: bool, ghost more: set<Item>)
    requires Consistent(all) && StacksOk(all) && PlainCoins(all) && c in all && c.isContainer
    requires IsCoin(kind) && 1 <= count <= STACK
    modifies c`itemlist, all`kind, all`count, all`rank, all`totalWeight
    ensures all <= more && Consistent(more) && StacksOk(more) && PlainCoins(more)
    ensures added <==> old(Room(c, kind, all)) >= count
    ensures forall d, k | d in all ::
              CountIn(d, k, more) == old(CountIn(d, k, all)) + if d == c && k == kind && added then count else 0
    ensures fresh(more - all) && forall y | y in more && y !in all :: !y.isContainer
  {
    hide Structure, Weighted, Sum, Above, Room, CountIn, StacksOk, Spread, Gaps, Counts, IsOpen;
    var remaindItem;
    remaindItem, more := CreateItem(kind, count, all);
    JoinKeepsCounts(c, all, remaindItem);
    var ret, remainderCount;
    ret, remainderCount, more := InternalAddItem(c, remaindItem, false, more);
    added := ret == NoError;
  }

  /** One new stack: into the container when it fits there, else onto the tile below it. */
  method AddStack(c: Item, kind: ItemType, count: nat, pile: Pile, ghost made: Pile, ghost all: set<Item>)
    returns (dropped: Pile, ghost built: Pile, ghost more: set<Item>)
    requires Consistent(all) && StacksOk(all) && PlainCoins(all) && c in all && c.isContainer
    requires IsCoin(kind) && 1 <= count <= STACK && CoinStacks(pile) && CoinStacks(made)
    modifies c`itemlist, all`kind, all`count, all`rank, all`totalWeight
    ensures all <= more && Consistent(more) && StacksOk(more) && PlainCoins(more)
    ensures built == made + [(kind, count)]
    ensures CoinStacks(built) && PileWorth(built) == PileWorth(made) + Worth(kind, count)
    ensures dropped == if old(Room(c, kind, all)) >= count then pile else pile + [(kind, count)]
    ensures CoinStacks(dropped)
    ensures WorthIn(c, more) + PileWorth(dropped) == old(WorthIn(c, all)) + PileWorth(pile) + Worth(kind, count)
    ensures forall d | d in all && d != c :: WorthIn(d, more) == old(WorthIn(d, all))
    ensures fresh(more - all) && forall y | y in more && y !in all :: !y.isContainer
  {
    hide Consistent, Room, CountIn, StacksOk, PlainCoins, PileWorth, CoinStacks, Worth;
    WorthOfStack(kind, count);
    PilePush(made, kind, count);
    PilePush(pile, kind, count);
    dropped, built := pile, made + [(kind, count)];
    var added;
    added, more := AddNew(c, kind, count, all);
    if !added {
      dropped := dropped + [(kind, count)];
    }
  }

  const MAX_INT32: nat := 0x7FFF_FFFF

  /** The loop of addMoney: so many crystal coins, in stacks of at most 100. */
  method AddCrystals(c: Item, amount: nat, ghost all: set<Item>)
    returns (dropped: Pile, ghost built: Pile, ghost more: set<Item>)
    requires Consistent(all) && StacksOk(all) && PlainCoins(all) && c in all && c.isContainer
    modifies c`itemlist, all`kind, all`count, all`rank, all`totalWeight
    ensures all <= more && Consistent(more) && StacksOk(more) && PlainCoins(more)
    ensures built == Crystals(amount) && CoinStacks(built) && PileWorth(built) == amount * 10000
    ensures CoinStacks(dropped) && WorthIn(c, more) + PileWorth(dropped) == old(WorthIn(c, all)) + amount * 10000
    ensures forall d | d in all && d != c :: WorthIn(d, more) == old(WorthIn(d, all))
    ensures fresh(more - all) && forall y | y in more && y !in all :: !y.isContainer
  {
    hide Consistent, StacksOk, PlainCoins, WorthIn, PileWorth, CoinStacks, Room, Crystals;
    NoPile();
    CrystalsStep(0);
    more, dropped, built := all, [], [];
    var crys := amount;
    assert built + Crystals(crys) == Crystals(amount);
    while crys > 0
      invariant 0 <= crys <= amount && built + Crystals(crys) == Crystals(amount)
      invariant all <= more && Consistent(more) && StacksOk(more) && PlainCoins(more)
      invariant CoinStacks(built) && PileWorth(built) + crys * 10000 == amount * 10000
      invariant CoinStacks(dropped) && WorthIn(c, more) + PileWorth(dropped) == old(WorthIn(c, all)) + PileWorth(built)
      invariant forall d | d in all && d != c :: WorthIn(d, more) == old(WorthIn(d, all))
      invariant fresh(more - all) && forall y | y in more && y !in all :: !y.isContainer
    {
      CrystalsStep(crys);
      ghost var made := built;
      dropped, built, more := AddStack(c, CRYSTAL, Min(100, crys), dropped, built, more);
      crys := crys - Min(100, crys);
      assert built + Crystals(crys) == made + ([built[|made|]] + Crystals(crys));
    }
    assert built + [] == built;
  }

  /** addMoney: crystal stacks of at most 100, then the rest in platinum and gold. The signed 32-bit product
      of the crystal coins must not overflow, which the language leaves undefined. */
  method AddMoney(c: Item, amount: nat, ghost all: set<Item>)
    returns (dropped: Pile, ghost built: Pile, ghost more: set<Item>)
    requires Consistent(all) && StacksOk(all) && PlainCoins(all) && c in all && c.isContainer
    requires amount / 10000 * 10000 <= MAX_INT32
    modifies c`itemlist, all`kind, all`count, all`rank, all`totalWeight
    ensures all <= more && Consistent(more) && StacksOk(more) && PlainCoins(more)
    ensures built == Coins(amount) && CoinStacks(built) && PileWorth(built) == amount
    ensures CoinStacks(dropped) && WorthIn(c, more) + PileWorth(dropped) == old(WorthIn(c, all)) + amount
    ensures forall d | d in all && d != c :: WorthIn(d, more) == old(WorthIn(d, all))
    ensures fresh(more - all) && forall y | y in more && y !in all :: !y.isContainer
  {
    hide Consistent, StacksOk, PlainCoins, WorthIn, PileWorth, CoinStacks, Room, Crystals, Coins;
    var money := amount;
    var crys := money / 10000;
    money := money - crys * 10000;
    var plat := money / 100;
    money := money - plat * 100;
    var gold := money;
    CoinsAre(amount, crys, plat, gold);
    dropped, built, more := AddCrystals(c, crys, all);
    if plat != 0 {
      dropped, built, more := AddStack(c, PLATINUM, plat, dropped, built, more);
    }
    if gold != 0 {
      dropped, built, more := AddStack(c, GOLD, gold, dropped, built, more);
    }
  }

  lemma CoinsAre(amount: nat, crys: nat, plat: nat, gold: nat)
    requires amount == crys * 10000 + plat * 100 + gold && plat < 100 && gold < 100
    ensures Coins(amount) ==
            Crystals(crys) + (if plat == 0 then [] else [(PLATINUM, plat)]) +
            if gold == 0 then [] else [(GOLD, gold)]
  {
    hide Crystals;
    TenThousands(crys, plat * 100 + gold);
    Hundreds(plat, gold);
    Hundreds(crys * 100 + plat, gold);
  }

  lemma TenThousands(q: nat, r: nat)
    requires r < 10000
    ensures (q * 10000 + r) / 10000 == q && (q * 10000 + r) % 10000 == r
  {
  }

  lemma Hundreds(q: nat, r: nat)
    requires r < 100
    ensures (q * 100 + r) / 100 == q && (q * 100 + r) % 100 == r
  {
  }

  lemma CrystalsStep(n: nat)
    ensures if n == 0 then Crystals(n) == []
            else Crystals(n) == [(CRYSTAL, Min(100, n))] + Crystals(n - Min(100, n))
  {
    if 0 < n <= 100 {
      assert [(CRYSTAL, n)] + Crystals(0) == [(CRYSTAL, n)];
    }
  }

  lemma NoPile()
    ensures CoinStacks([]) && PileWorth([]) == 0
  {
  }

  // ----- Paying -----

  lemma {:induction false} AroundIsContainer(d: Item, y: Item, all: set<Item>)
    requires Structure(all) && d in all && y in Above(d, all)
    ensures y == d || y.isContainer
    decreases d.rank
  {
    hide Structure, Above;
    AboveStep(d, all);
    ParentHolds(d, all);
    if y != d {
      AroundIsContainer(d.parent, y, all);
    }
  }

  /** Taking out an item that is no container leaves the containers where they are. */
  lemma CoverWithout(ds: seq<Item>, c: Item, all: set<Item>, parents: map<Item, Item?>, ranks: map<Item, nat>, x: Item)
    requires parents.Keys == ranks.Keys == all && Falling(all, parents, ranks) && x in all && !x.isContainer
    requires Falling(all, parents[x := null], ranks)
    requires forall d | d in all && d.isContainer :: x !in Chain(d, all, parents, ranks)
    requires Covers(ds, c, all, parents, ranks)
    ensures Covers(ds, c, all, parents[x := null], ranks)
  {
    hide Chain, Falling, Distinct;
    forall d | d in all && d.isContainer
      ensures Chain(d, all, parents[x := null], ranks) == Chain(d, all, parents, ranks)
    {
      ChainWithout(d, all, parents, ranks, x);
    }
  }

  /** New loose or listed items that are no containers do not matter either, nor do the ranks. */
  lemma CoverWith(ds: seq<Item>, c: Item, all: set<Item>, parents: map<Item, Item?>, ranks: map<Item, nat>,
                  more: set<Item>, parents': map<Item, Item?>, ranks': map<Item, nat>)
    requires parents.Keys == ranks.Keys == all && Falling(all, parents, ranks)
    requires parents'.Keys == ranks'.Keys == more && Falling(more, parents', ranks')
    requires all <= more && forall y | y in all :: parents'[y] == parents[y]
    requires forall y | y in more && y !in all :: !y.isContainer
    requires Covers(ds, c, all, parents, ranks)
    ensures Covers(ds, c, more, parents', ranks')
  {
    hide Chain, Falling, Distinct;
    forall d | d in all ensures Chain(d, more, parents', ranks') == Chain(d, all, parents, ranks) {
      ChainWith(d, all, parents, ranks, more, parents', ranks');
    }
  }

  lemma {:induction false} ChainWith(d: Item, all: set<Item>, parents: map<Item, Item?>, ranks: map<Item, nat>,
                                     more: set<Item>, parents': map<Item, Item?>, ranks': map<Item, nat>)
    requires parents.Keys == ranks.Keys == all && Falling(all, parents, ranks) && d in all
    requires parents'.Keys == ranks'.Keys == more && Falling(more, parents', ranks')
    requires all <= more && forall y | y in all :: parents'[y] == parents[y]
    ensures Chain(d, more, parents', ranks') == Chain(d, all, parents, ranks)
    decreases ranks[d]
  {
    if parents[d] != null {
      ChainWith(parents[d], all, parents, ranks, more, parents', ranks');
    }
  }

  lemma CollectedRest(coins: MoneyMap, ds: seq<Item>, all: set<Item>)
    requires Collected(coins, ds, all) && coins != []
    ensures Collected(coins[1..], ds, all) && forall e | e in coins[1..] :: e.1 != coins[0].1
    ensures var x := coins[0].1;
            x in all && x.parent in ds && !x.isContainer && coins[0].0 == Worth(x.kind, x.count) > 0
  {
    assert coins[0] in coins;
  }

  lemma WealthChange(ds: seq<Item>, d: Item, before: map<Item, int>, after: map<Item, int>)
    requires Distinct(ds) && d in before && d in after && after == before[d := after[d]]
    ensures Sum(ds, after) == Sum(ds, before) + if d in ds then after[d] - before[d] else 0
  {
    SumUpdate(ds, before, d, after[d]);
  }

  lemma CoverIsDistinct(ds: seq<Item>, c: Item, all: set<Item>)
    requires Structure(all) && Cover(ds, c, all)
    ensures Distinct(ds) && forall d | d in ds :: d in all && d.isContainer
    ensures c in all && c.isContainer ==> c in ds
  {
    hide Structure, Distinct;
    if c in all {
      AboveStep(c, all);
    }
  }

  lemma FallingNow(all: set<Item>)
    requires Structure(all)
    ensures Falling(all, Parents(all), Ranks(all))
  {
  }

  /** Removes a whole stack of coins, with the effect on links and on what each container holds. */
  method RemoveStack(item: Item, ghost p: Item, ghost all: set<Item>)
    requires Consistent(all) && StacksOk(all) && item in all && item.parent == p && p in all
    requires !item.isContainer && item.kind.stackable
    modifies item`parent, item`kind, item`count, all`itemlist, all`totalWeight
    ensures Consistent(all) && StacksOk(all) && item.kind == old(item.kind) && item.count == old(item.count)
    ensures Parents(all) == old(Parents(all))[item := null] && Ranks(all) == old(Ranks(all)) && item.parent == null
    ensures forall d | d in all ::
              WorthIn(d, all) == old(WorthIn(d, all)) - if d == p then old(Worth(item.kind, item.count)) else 0
  {
    hide Structure, Weighted, CountIn, StacksOk, Worth;
    StackSize(item, all);
    WorthOfStack(item.kind, item.count);
    var ret := InternalRemoveItem(item, -1, all);
  }

  lemma WorthOfStack(kind: ItemType, count: nat)
    ensures Worth(kind, count) == (if kind == GOLD then count else 0) +
            100 * (if kind == PLATINUM then count else 0) + 10000 * (if kind == CRYSTAL then count else 0)
  {
  }

  lemma PursesAfter(all: set<Item>, before: map<Item, int>, p: Item, v: int)
    requires p in all && before.Keys == all
    requires forall d | d in all :: WorthIn(d, all) == if d == p then before[d] - v else before[d]
    ensures Purses(all) == before[p := before[p] - v]
  {
    hide WorthIn;
  }

  lemma StackSize(x: Item, all: set<Item>)
    requires StacksOk(all) && x in all && x.kind.stackable
    ensures 1 <= x.count <= STACK
  {
  }

  lemma CoinsStack(kind: ItemType, count: nat)
    requires Worth(kind, count) > 0
    ensures IsCoin(kind) && kind.stackable
  {
  }

  lemma PursesAt(d: Item, all: set<Item>)
    requires d in all
    ensures Purses(all)[d] == WorthIn(d, all)
  {
  }

  lemma PlainInside(item: Item, all: set<Item>)
    requires Structure(all) && item in all && !item.isContainer
    ensures Falling(all, Parents(all), Ranks(all))
    ensures forall d | d in all && d.isContainer :: item !in Chain(d, all, Parents(all), Ranks(all))
  {
    hide Structure, Chain;
    FallingNow(all);
    forall d | d in all && d.isContainer ensures item !in Chain(d, all, Parents(all), Ranks(all)) {
      if item in Above(d, all) {
        AroundIsContainer(d, item, all);
      }
    }
  }

  /** Removes the first stack of the multimap from wherever it lies. */
  method TakeStack(item: Item, ghost coins: MoneyMap, c: Item, ghost ds: seq<Item>, ghost all: set<Item>)
    requires Consistent(all) && StacksOk(all) && Cover(ds, c, all) && Collected(coins, ds, all)
    requires coins != [] && coins[0].1 == item
    modifies item`parent, item`kind, item`count, all`itemlist, all`totalWeight
    ensures Consistent(all) && StacksOk(all) && Cover(ds, c, all)
    ensures item.kind == old(item.kind) && item.count == old(item.count) && item.parent == null
    ensures Wealth(ds, all) == old(Wealth(ds, all)) - coins[0].0
    ensures forall d | d in all && d !in ds :: WorthIn(d, all) == old(WorthIn(d, all))
  {
    hide Structure, Weighted, Sum, WorthIn, Chain, Covers, Falling, Distinct, Collected, StacksOk, Parents, Ranks,
      Purses, Worth;
    CollectedRest(coins, ds, all);
    CoverIsDistinct(ds, c, all);
    CoinsStack(item.kind, item.count);
    PlainInside(item, all);
    ghost var p: Item := item.parent;
    ghost var parents, ranks, purses := Parents(all), Ranks(all), Purses(all);
    forall d | d in all ensures purses[d] == WorthIn(d, all) {
      PursesAt(d, all);
    }
    RemoveStack(item, p, all);
    PursesAfter(all, purses, p, coins[0].0);
    FallingNow(all);
    CoverWithout(ds, c, all, parents, ranks, item);
    WealthChange(ds, p, purses, Purses(all));
    forall d | d in all && d !in ds ensures WorthIn(d, all) == old(WorthIn(d, all)) {
      PursesAt(d, all);
    }
  }

  /** The same, with the multimap moving on to its next entry. */
  method TakeNext(item: Item, ghost coins: MoneyMap, c: Item, ghost ds: seq<Item>, ghost all: set<Item>)
    requires Consistent(all) && StacksOk(all) && PlainCoins(all) && Cover(ds, c, all) && Collected(coins, ds, all)
    requires coins != [] && coins[0].1 == item
    modifies item`parent, item`kind, item`count, all`itemlist, all`totalWeight
    ensures Consistent(all) && StacksOk(all) && PlainCoins(all) && Cover(ds, c, all) && Collected(coins[1..], ds, all)
    ensures Worth(item.kind, item.count) == coins[0].0 && item.parent == null
    ensures Wealth(ds, all) == old(Wealth(ds, all)) - coins[0].0
    ensures forall d | d in all && d !in ds :: WorthIn(d, all) == old(WorthIn(d, all))
  {
    hide Consistent, StacksOk, Cover, Wealth, WorthIn, Worth, Ascending, DistinctItems;
    CollectedRest(coins, ds, all);
    TakeStack(item, coins, c, ds, all);
  }

  /** Change goes back to the container paid from. */
  method GiveChange(c: Item, remaind: nat, ghost ds: seq<Item>, ghost all: set<Item>)
    returns (dropped: Pile, ghost built: Pile, ghost more: set<Item>)
    requires Consistent(all) && StacksOk(all) && PlainCoins(all) && c in all && c.isContainer && Cover(ds, c, all)
    requires remaind / 10000 * 10000 <= MAX_INT32
    modifies c`itemlist, all`kind, all`count, all`rank, all`totalWeight
    ensures all <= more && Consistent(more) && StacksOk(more) && PlainCoins(more) && Cover(ds, c, more) &&
            fresh(more - all)
    ensures built == Coins(remaind)
    ensures CoinStacks(dropped) && Wealth(ds, more) + PileWorth(dropped) == old(Wealth(ds, all)) + remaind
    ensures forall d | d in all && d !in ds :: WorthIn(d, more) == old(WorthIn(d, all))
  {
    hide Structure, Weighted, Sum, WorthIn, Chain, Covers, Falling, Distinct, StacksOk, Purses, PlainCoins, PileWorth,
      CoinStacks;
    CoverIsDistinct(ds, c, all);
    FallingNow(all);
    ghost var parents, ranks, purses := Parents(all), Ranks(all), Purses(all);
    forall d | d in all ensures purses[d] == WorthIn(d, all) {
      PursesAt(d, all);
    }
    dropped, built, more := AddMoney(c, remaind, all);
    FallingNow(more);
    CoverWith(ds, c, all, parents, ranks, more, Parents(more), Ranks(more));
    ghost var gain := WorthIn(c, more) - purses[c];
    WealthGrew(ds, c, all, purses, more, gain);
  }

  lemma WealthGrew(ds: seq<Item>, c: Item, all: set<Item>, before: map<Item, int>, more: set<Item>, gain: int)
    requires all <= more && c in all && c in ds && Distinct(ds) && before.Keys == all && forall d | d in ds :: d in all
    requires forall d | d in all :: WorthIn(d, more) == before[d] + if d == c then gain else 0
    ensures Sum(ds, Purses(more)) == Sum(ds, before) + gain
  {
    hide WorthIn, Sum, Distinct;
    var after := before[c := before[c] + gain];
    SumUpdate(ds, before, c, before[c] + gain);
    SumSame(ds, after, Purses(more));
  }

  lemma CollectedElsewhere(coins: MoneyMap, es: seq<Item>, ds: seq<Item>, c: Item, all: set<Item>)
    requires Structure(all) && Cover(es, c, all) && Cover(ds, c, all) && Collected(coins, es, all)
    ensures Collected(coins, ds, all)
  {
    hide Structure, Ascending, DistinctItems, Chain;
  }

  lemma StackWorth(item: Item, all: set<Item>)
    requires StacksOk(all) && item in all
    ensures Worth(item.kind, item.count) <= 1000000
  {
  }

  /** removeMoney. It pays exactly when the coins in the container, at every depth, are worth the price;
      then the worth of the container and of the change that did not fit falls by exactly the price. Stacks go
      from the one worth least upwards until they cover it, and the change is what the last covers beyond.
      Otherwise nothing changes. Coins outside the container are never touched. `ds` lists the container
      and all containers in it. */
  method RemoveMoney(c: Item, price: nat, ghost ds: seq<Item>, ghost all: set<Item>)
    returns (paid: bool, dropped: Pile, ghost more: set<Item>, ghost coins: MoneyMap, ghost n: nat,
             ghost change: Pile)
    requires Consistent(all) && StacksOk(all) && PlainCoins(all) && c in all && c.isContainer && Cover(ds, c, all)
    modifies all`parent, all`itemlist, all`kind, all`count, all`rank, all`totalWeight
    ensures all <= more && Consistent(more) && StacksOk(more) && PlainCoins(more) && Cover(ds, c, more)
    ensures paid <==> old(Wealth(ds, all)) >= price
    ensures paid ==> Wealth(ds, more) + PileWorth(dropped) == old(Wealth(ds, all)) - price
    ensures paid && price > 0 ==>
              Ascending(coins) && DistinctItems(coins) &&
              (forall k | 0 <= k < |coins| ::
                 var (worth, x) := coins[k];
                 x in all && old(x.parent) in ds && worth == old(Worth(x.kind, x.count)) > 0 &&
                 x.parent == if k < n then null else old(x.parent)) &&
              Total(coins) == old(Wealth(ds, all)) && 1 <= n <= |coins| &&
              Total(coins[..n - 1]) < price <= Total(coins[..n]) && change == Coins(Total(coins[..n]) - price)
    ensures !paid ==> more == all && dropped == [] &&
                      forall x | x in all :: x.itemlist == old(x.itemlist) && x.kind == old(x.kind) &&
                                             x.count == old(x.count)
    ensures CoinStacks(dropped) && forall d | d in all && d !in ds :: WorthIn(d, more) == old(WorthIn(d, all))
  {
    hide Structure, Weighted, StacksOk, Cover, Wealth, WorthIn, Worth, Collected, PlainCoins, PileWorth, CoinStacks,
      Total, Coins, Ascending, DistinctItems;
    NoPile();
    NothingLeft([], 0);
    dropped, more, coins, n, change := [], all, [], 0, [];
    WealthNotNegative(ds, c, all);
    if price <= 0 {
      return true, dropped, more, coins, n, change;
    }
    var moneyCount, moneyMap;
    ghost var es;
    moneyCount, moneyMap, es := Gather(c, all);
    WealthIsUnique(ds, es, c, all);
    CollectedElsewhere(moneyMap, es, ds, c, all);
    if moneyCount < price {
      return false, dropped, more, coins, n, change;
    }
    coins := moneyMap;
    OnceEach(coins, ds, all);
    paid, dropped, more, n, change := PayWith(moneyMap, price, c, ds, all);
  }

  /** The second loop of removeMoney: stacks go in the order of the multimap until the price is covered. */
  method PayWith(coins: MoneyMap, price: nat, c: Item, ghost ds: seq<Item>, ghost all: set<Item>)
    returns (paid: bool, dropped: Pile, ghost more: set<Item>, ghost n: nat, ghost change: Pile)
    requires Consistent(all) && StacksOk(all) && PlainCoins(all) && c in all && c.isContainer && Cover(ds, c, all)
    requires Collected(coins, ds, all) && 0 < price <= Total(coins)
    modifies all`parent, all`itemlist, all`kind, all`count, all`rank, all`totalWeight
    ensures all <= more && Consistent(more) && StacksOk(more) && PlainCoins(more) && Cover(ds, c, more)
    ensures paid && Wealth(ds, more) + PileWorth(dropped) == old(Wealth(ds, all)) - price
    ensures 1 <= n <= |coins| && Total(coins[..n - 1]) < price <= Total(coins[..n]) &&
            change == Coins(Total(coins[..n]) - price)
    ensures forall k | 0 <= k < |coins| ::
              coins[k].1 in all && coins[k].1.parent == if k < n then null else old(coins[k].1.parent)
    ensures CoinStacks(dropped) && forall d | d in all && d !in ds :: WorthIn(d, more) == old(WorthIn(d, all))
  {
    hide Structure, Weighted, StacksOk, Cover, Wealth, WorthIn, Worth, Collected, PlainCoins, PileWorth, CoinStacks,
      Total, Coins, Ascending, DistinctItems;
    NoPile();
    NoCoins();
    NothingLeft([], 0);
    dropped, more, change := [], all, [];
    OnceEach(coins, ds, all);
    var money := price;
    var i := 0;
    assert coins[0..] == coins;
    while i < |coins| && money > 0
      invariant i <= |coins| && 0 <= money <= price
      invariant money > 0 ==> price == money + Total(coins[..i]) && change == []
      invariant money == 0 ==>
                  i > 0 && Total(coins[..i - 1]) < price <= Total(coins[..i]) &&
                  change == Coins(Total(coins[..i]) - price)
      invariant forall k | 0 <= k < |coins| ::
                  coins[k].1 in all && coins[k].1.parent == if k < i then null else old(coins[k].1.parent)
      invariant all <= more && Consistent(more) && StacksOk(more) && PlainCoins(more) && Cover(ds, c, more) &&
                fresh(more - all)
      invariant money > 0 ==>
                more == all && dropped == [] && Collected(coins[i..], ds, all) && Total(coins[i..]) >= money
      invariant Wealth(ds, more) + PileWorth(dropped) == old(Wealth(ds, all)) - (price - money)
      invariant CoinStacks(dropped) && forall d | d in all && d !in ds :: WorthIn(d, more) == old(WorthIn(d, all))
    {
      var item := coins[i].1;
      TotalHead(coins[i..]);
      TotalSnoc(coins, i);
      assert coins[i..][1..] == coins[i + 1..];
      CollectedRest(coins[i..], ds, all);
      StackWorth(item, all);
      TakeNext(item, coins[i..], c, ds, all);
      if coins[i].0 > money {
        var remaind := Worth(item.kind, item.count) - money;
        dropped, change, more := GiveChange(c, remaind, ds, all);
        money := 0;
      } else {
        money := money - coins[i].0;
      }
      i := i + 1;
    }
    NothingLeft(coins, i);
    paid, n := money == 0, i;
  }

  lemma NoCoins()
    ensures Coins(0) == []
  {
  }

  lemma TotalSnoc(coins: MoneyMap, i: nat)
    requires i < |coins|
    ensures Total(coins[..i + 1]) == Total(coins[..i]) + coins[i].0
  {
    assert coins[..i + 1] == coins[..i] + [coins[i]];
    TotalConcat(coins[..i], [coins[i]]);
    assert Total([coins[i]]) == coins[i].0 + Total([]);
  }

  lemma OnceEach(coins: MoneyMap, ds: seq<Item>, all: set<Item>)
    requires Collected(coins, ds, all)
    ensures Ascending(coins) && DistinctItems(coins) && forall i, j | 0 <= i < j < |coins| :: coins[i].1 != coins[j].1
    ensures forall e | e in coins :: e.1 in all && e.1.parent in ds && e.0 == Worth(e.1.kind, e.1.count) > 0
  {
  }

  lemma TotalHead(coins: MoneyMap)
    requires coins != []
    ensures Total(coins) == coins[0].0 + Total(coins[1..])
  {
  }

  lemma NothingLeft(coins: MoneyMap, i: nat)
    requires i <= |coins|
    ensures i == |coins| ==> Total(coins[i..]) == 0
  {
  }

  lemma WealthNotNegative(ds: seq<Item>, c: Item, all: set<Item>)
    requires Structure(all) && StacksOk(all) && Cover(ds, c, all)
    ensures Wealth(ds, all) >= 0
  {
    hide Structure, WorthIn, Sum, Distinct, Chain;
    forall d | d in ds ensures Purses(all)[d] >= 0 {
      WorthNotNegative(d, all);
    }
    SumNotNegative(ds, Purses(all));
  }

  lemma WorthNotNegative(d: Item, all: set<Item>)
    ensures WorthIn(d, all) >= 0
  {
    SumNotNegative(d.itemlist, Amounts(all, GOLD));
    SumNotNegative(d.itemlist, Amounts(all, PLATINUM));
    SumNotNegative(d.itemlist, Amounts(all, CRYSTAL));
  }
}
