/** The market: money and wares held in escrow while an offer stands. */
module Market {

  type Guid = nat
  type OfferId = nat
  type ItemId = nat

  datatype Action = Buy | Sell
  datatype Kind = Kind(stackable: bool, ware: bool)
  datatype Offer = Offer(player: Guid, action: Action, item: ItemId, amount: nat, price: nat, created: int)

  /** Items of one id lying together. `plain` are those with the charges and duration of a new one; only
      these may be sold. */
  datatype Ware = Ware(item: ItemId, count: nat, plain: bool)

  const MAX_AMOUNT := 64000
  const MAX_PRICE := 999999999
  const STACK := 100

  // ----- Sums over a table -----

  ghost function Total(m: map<nat, int>): int
    decreases |m|
  {
    if m == map[] then 0
    else
      var k :| k in m;
      m[k] + Total(m - {k})
  }

  lemma TotalTake(m: map<nat, int>, k: nat)
    requires k in m
    ensures Total(m) == m[k] + Total(m - {k})
    decreases |m|
  {
    var j :| j in m && Total(m) == m[j] + Total(m - {j});
    if j != k {
      TotalTake(m - {j}, k);
      TotalTake(m - {k}, j);
      assert m - {j} - {k} == m - {k} - {j};
    }
  }

  lemma TotalSet(m: map<nat, int>, k: nat, v: int)
    ensures Total(m[k := v]) == Total(m) + v - if k in m then m[k] else 0
  {
    TotalTake(m[k := v], k);
    assert m[k := v] - {k} == m - {k};
    if k in m {
      TotalTake(m, k);
    } else {
      assert m - {k} == m;
    }
  }

  // ----- Wares -----

  ghost predicate Wanted(w: Ware, item: ItemId) {
    w.item == item && w.plain
  }

  /** How many of an item could be sold out of a list. */
  ghost function CountOf(s: seq<Ware>, item: ItemId): nat {
    if s == [] then 0 else CountOf(s[..|s| - 1], item) + if Wanted(s[|s| - 1], item) then s[|s| - 1].count else 0
  }

  lemma CountPush(s: seq<Ware>, w: Ware, item: ItemId)
    ensures CountOf(s + [w], item) == CountOf(s, item) + if Wanted(w, item) then w.count else 0
  {
    assert (s + [w])[..|s|] == s;
  }

  lemma {:induction false} CountConcat(s: seq<Ware>, t: seq<Ware>, item: ItemId)
    ensures CountOf(s + t, item) == CountOf(s, item) + CountOf(t, item)
  {
    if t == [] {
      assert s + t == s;
    } else {
      CountConcat(s, t[..|t| - 1], item);
      assert (s + t)[..|s + t| - 1] == s + t[..|t| - 1];
    }
  }

  lemma {:induction false} CountGrows(s: seq<Ware>, n: nat, item: ItemId)
    requires n <= |s|
    ensures CountOf(s[..n], item) <= CountOf(s, item)
  {
    if n < |s| {
      CountGrows(s[..|s| - 1], n, item);
      assert s[..|s| - 1][..n] == s[..n];
    } else {
      assert s[..n] == s;
    }
  }

  /** Only stackable items lie in numbers. */
  ghost predicate Sound(s: seq<Ware>, items: map<ItemId, Kind>) {
    forall w | w in s :: w.item in items && (!items[w.item].stackable ==> w.count == 1) && 1 <= w.count <= STACK
  }

  // ----- Wares that go -----

  /** What a withdrawal takes from a ware when so many lie before it: first come, first served. */
  ghost function Draw(before: nat, w: Ware, item: ItemId, amount: nat): nat {
    if !Wanted(w, item) || before >= amount then 0
    else if amount - before < w.count then amount - before
    else w.count
  }

  /** What it leaves of every ware. */
  ghost function Drawn(s: seq<Ware>, item: ItemId, amount: nat): (rest: seq<Ware>)
    ensures |rest| == |s|
  {
    if s == [] then []
    else
      var front, w := s[..|s| - 1], s[|s| - 1];
      Drawn(front, item, amount) + [w.(count := w.count - Draw(CountOf(front, item), w, item, amount))]
  }

  /** The wares there are; places left empty are none. */
  ghost function Remaining(s: seq<Ware>): seq<Ware> {
    if s == [] then [] else Remaining(s[..|s| - 1]) + if s[|s| - 1].count == 0 then [] else [s[|s| - 1]]
  }

  /** The wares left when so many of an item have gone. */
  ghost function Without(s: seq<Ware>, item: ItemId, amount: nat): seq<Ware> {
    Remaining(Drawn(s, item, amount))
  }

  lemma {:induction false} DrawnAt(s: seq<Ware>, item: ItemId, amount: nat, i: nat)
    requires i < |s|
    ensures Drawn(s, item, amount)[i] ==
            s[i].(count := s[i].count - Draw(CountOf(s[..i], item), s[i], item, amount))
  {
    if i < |s| - 1 {
      DrawnAt(s[..|s| - 1], item, amount, i);
      assert s[..|s| - 1][..i] == s[..i];
    }
  }

  lemma {:induction false} DrawnCounts(s: seq<Ware>, item: ItemId, amount: nat, k: ItemId)
    ensures CountOf(Drawn(s, item, amount), k) ==
            CountOf(s, k) - if k != item then 0 else if amount < CountOf(s, item) then amount else CountOf(s, item)
  {
    if s != [] {
      var front, w := s[..|s| - 1], s[|s| - 1];
      DrawnCounts(front, item, amount, k);
      CountPush(Drawn(front, item, amount), w.(count := w.count - Draw(CountOf(front, item), w, item, amount)), k);
    }
  }

  lemma {:induction false} RemainingCounts(s: seq<Ware>, k: ItemId)
    ensures CountOf(Remaining(s), k) == CountOf(s, k)
  {
    if s != [] {
      RemainingCounts(s[..|s| - 1], k);
      CountPush(Remaining(s[..|s| - 1]), s[|s| - 1], k);
      assert Remaining(s[..|s| - 1]) + [] == Remaining(s[..|s| - 1]);
    }
  }

  /** A withdrawal takes exactly the amount of the item and nothing else, where there is enough. */
  lemma WithoutCounts(s: seq<Ware>, item: ItemId, amount: nat)
    requires CountOf(s, item) >= amount
    ensures forall k :: CountOf(Without(s, item, amount), k) == CountOf(s, k) - if k == item then amount else 0
  {
    hide CountOf, Drawn, Remaining;
    forall k ensures CountOf(Without(s, item, amount), k) == CountOf(s, k) - if k == item then amount else 0 {
      DrawnCounts(s, item, amount, k);
      RemainingCounts(Drawn(s, item, amount), k);
    }
  }

  lemma {:induction false} WithoutSound(s: seq<Ware>, item: ItemId, amount: nat, items: map<ItemId, Kind>)
    requires Sound(s, items)
    ensures Sound(Without(s, item, amount), items)
  {
    if s != [] {
      var front, w := s[..|s| - 1], s[|s| - 1];
      assert w in s && forall v | v in front :: v in s;
      WithoutSound(front, item, amount, items);
      assert Drawn(s, item, amount)[..|s| - 1] == Drawn(front, item, amount);
    }
  }

  // ----- The places of the wares that go -----

  ghost predicate Within(at: seq<nat>, n: nat) {
    forall i | 0 <= i < |at| :: at[i] < n
  }

  ghost predicate Ascending(at: seq<nat>) {
    forall i, j | 0 <= i < j < |at| :: at[i] < at[j]
  }

  /** The places, in order, of all wanted wares among the first n. */
  ghost predicate Places(s: seq<Ware>, at: seq<nat>, n: nat, item: ItemId) {
    n <= |s| && Ascending(at) && Within(at, n) && (forall i | 0 <= i < |at| :: Wanted(s[at[i]], item)) &&
    forall j | 0 <= j < n && Wanted(s[j], item) :: j in at
  }

  lemma PlacesNext(s: seq<Ware>, at: seq<nat>, n: nat, item: ItemId)
    requires Places(s, at, n, item) && n < |s|
    ensures Wanted(s[n], item) ==> Places(s, at + [n], n + 1, item)
    ensures !Wanted(s[n], item) ==> Places(s, at, n + 1, item)
    ensures CountOf(s[..n + 1], item) == CountOf(s[..n], item) + if Wanted(s[n], item) then s[n].count else 0
  {
    hide Wanted;
    assert s[..n + 1][..n] == s[..n];
    forall j | 0 <= j < n + 1 && Wanted(s[j], item) ensures j in at + [n] {
    }
  }

  /** Collects places of matching wares, first come first served, until they hold enough. */
  method Gather(s: seq<Ware>, item: ItemId, amount: nat) returns (itemList: seq<nat>, enough: bool, ghost n: nat)
    requires amount > 0
    ensures enough <==> CountOf(s, item) >= amount
    ensures Places(s, itemList, n, item)
    ensures enough ==> CountOf(s[..n], item) >= amount
    ensures forall i | 0 <= i < |itemList| :: CountOf(s[..itemList[i]], item) < amount
  {
    hide CountOf, Places;
    itemList, enough := [], false;
    var count := 0;
    NoPlaces(s, item);
    for m := 0 to |s|
      invariant Places(s, itemList, m, item) && Within(itemList, m)
      invariant count == CountOf(s[..m], item) < amount
      invariant forall i | 0 <= i < |itemList| :: CountOf(s[..itemList[i]], item) < amount
    {
      PlacesNext(s, itemList, m, item);
      if s[m].item == item && s[m].plain {
        itemList := itemList + [m];
        count := count + s[m].count;
        if count >= amount {
          CountGrows(s, m + 1, item);
          return itemList, true, m + 1;
        }
      }
    }
    assert s[..|s|] == s;
    n := |s|;
  }

  lemma NoPlaces(s: seq<Ware>, item: ItemId)
    ensures Places(s, [], 0, item) && CountOf(s[..0], item) == 0
  {
  }

  /** Taking has reached the n-th of the places. */
  ghost predicate Taking(s: seq<Ware>, rest: seq<Ware>, at: seq<nat>, n: nat, item: ItemId, amount: nat) {
    n <= |at| && |rest| == |s| &&
    forall i | 0 <= i < |s| :: rest[i] == if i in at[..n] then Drawn(s, item, amount)[i] else s[i]
  }

  lemma TakeNext(s: seq<Ware>, rest: seq<Ware>, at: seq<nat>, n: nat, m: nat, item: ItemId, amount: nat)
    requires Places(s, at, m, item) && n < |at| && Taking(s, rest, at, n, item, amount)
    ensures at[n] < |s| && rest[at[n]] == s[at[n]]
    ensures var i := at[n];
            Taking(s, rest[i := s[i].(count := s[i].count - Draw(CountOf(s[..i], item), s[i], item, amount))], at,
              n + 1, item, amount)
  {
    hide Draw, Drawn, CountOf, Wanted;
    DrawnAt(s, item, amount, at[n]);
    assert at[..n + 1] == at[..n] + [at[n]];
  }

  /** With all places gone through, everything is as drawn: what has no place is not wanted or comes too late. */
  lemma TakenAll(s: seq<Ware>, rest: seq<Ware>, at: seq<nat>, m: nat, item: ItemId, amount: nat)
    requires Places(s, at, m, item) && CountOf(s[..m], item) >= amount
    requires Taking(s, rest, at, |at|, item, amount)
    ensures rest == Drawn(s, item, amount)
  {
    hide Drawn, CountOf, Wanted;
    assert at[..|at|] == at;
    forall i | 0 <= i < |s| ensures rest[i] == Drawn(s, item, amount)[i] {
      DrawnAt(s, item, amount, i);
      if i >= m {
        CountGrows(s[..i], m, item);
        assert s[..i][..m] == s[..m];
      }
    }
  }

  /** Before the n-th place there lie as many as up to and with the one before it. */
  lemma {:induction false} BetweenPlaces(s: seq<Ware>, at: seq<nat>, m: nat, item: ItemId, n: nat, j: nat)
    requires Places(s, at, m, item) && n < |at| && at[n] < j <= m
    requires n + 1 < |at| ==> j <= at[n + 1]
    ensures j <= |s| && CountOf(s[..j], item) == CountOf(s[..at[n]], item) + s[at[n]].count
    decreases j
  {
    hide CountOf, Wanted;
    PlacesApart(s, at, m, item, n, j - 1);
    CountPush(s[..j - 1], s[j - 1], item);
    assert s[..j] == s[..j - 1] + [s[j - 1]];
    if j - 1 > at[n] {
      BetweenPlaces(s, at, m, item, n, j - 1);
    }
  }

  lemma PlacesApart(s: seq<Ware>, at: seq<nat>, m: nat, item: ItemId, n: nat, j: nat)
    requires Places(s, at, m, item) && n < |at| && at[n] <= j < m && (n + 1 < |at| ==> j < at[n + 1])
    ensures Wanted(s[j], item) <==> j == at[n]
  {
    hide Wanted;
    if Wanted(s[j], item) {
      var i :| 0 <= i < |at| && at[i] == j;
      assert i <= n;
    }
  }

  lemma {:induction false} BeforePlaces(s: seq<Ware>, at: seq<nat>, m: nat, item: ItemId, j: nat)
    requires Places(s, at, m, item) && j <= m && forall i | 0 <= i < |at| :: j <= at[i]
    ensures CountOf(s[..j], item) == 0
  {
    if j > 0 {
      BeforePlaces(s, at, m, item, j - 1);
      assert s[..j] == s[..j - 1] + [s[j - 1]];
      CountPush(s[..j - 1], s[j - 1], item);
    }
  }

  lemma BeforeNext(s: seq<Ware>, at: seq<nat>, m: nat, item: ItemId, n: nat)
    requires Places(s, at, m, item) && n < |at|
    ensures Within(at, |s|) && Wanted(s[at[n]], item)
    ensures CountOf(s[..if n + 1 < |at| then at[n + 1] else m], item) ==
            CountOf(s[..at[n]], item) + s[at[n]].count
  {
    hide CountOf, Wanted;
    BetweenPlaces(s, at, m, item, n, if n + 1 < |at| then at[n + 1] else m);
  }

  /** Takes `amount` out of collected stacks, from the last only what is still wanted. */
  method TakeFromStacks(s: seq<Ware>, itemList: seq<nat>, item: ItemId, amount: nat, ghost m: nat)
    returns (rest: seq<Ware>)
    requires amount > 0 && Places(s, itemList, m, item) && CountOf(s[..m], item) >= amount
    requires forall i | 0 <= i < |itemList| :: CountOf(s[..itemList[i]], item) < amount
    ensures rest == Drawn(s, item, amount)
  {
    hide Places, Taking, CountOf, Drawn;
    rest := s;
    var tmpAmount: nat := amount;
    StartTaking(s, itemList, m, item, amount);
    for n := 0 to |itemList|
      invariant Taking(s, rest, itemList, n, item, amount)
      invariant n < |itemList| ==> tmpAmount == amount - CountOf(s[..itemList[n]], item)
      invariant |rest| == |s|
    {
      TakeNext(s, rest, itemList, n, m, item, amount);
      BeforeNext(s, itemList, m, item, n);
      var at := itemList[n];
      var removeCount := if tmpAmount < rest[at].count then tmpAmount else rest[at].count;
      tmpAmount := tmpAmount - removeCount;
      rest := rest[at := rest[at].(count := rest[at].count - removeCount)];
      if tmpAmount == 0 {
        assert n + 1 == |itemList|;
        break;
      }
    }
    TakenAll(s, rest, itemList, m, item, amount);
  }

  lemma StartTaking(s: seq<Ware>, itemList: seq<nat>, m: nat, item: ItemId, amount: nat)
    requires Places(s, itemList, m, item)
    ensures Taking(s, s, itemList, 0, item, amount) && Within(itemList, |s|)
    ensures itemList != [] ==> CountOf(s[..itemList[0]], item) == 0
  {
    if itemList != [] {
      BeforePlaces(s, itemList, m, item, itemList[0]);
    }
  }

  /** Takes all collected items that do not stack; they are exactly as many as wanted. */
  method TakeEach(s: seq<Ware>, itemList: seq<nat>, item: ItemId, amount: nat, ghost m: nat) returns (rest: seq<Ware>)
    requires Places(s, itemList, m, item) && CountOf(s[..m], item) >= amount
    requires forall i | 0 <= i < |itemList| ::
               CountOf(s[..itemList[i]], item) < amount && itemList[i] < |s| && s[itemList[i]].count == 1
    ensures rest == Drawn(s, item, amount)
  {
    hide Places, Taking, CountOf, Drawn;
    rest := s;
    StartTaking(s, itemList, m, item, amount);
    for n := 0 to |itemList|
      invariant Taking(s, rest, itemList, n, item, amount) && |rest| == |s|
    {
      TakeNext(s, rest, itemList, n, m, item, amount);
      BeforeNext(s, itemList, m, item, n);
      rest := rest[itemList[n] := rest[itemList[n]].(count := 0)];
    }
    TakenAll(s, rest, itemList, m, item, amount);
  }

  /** Places left empty are given up. */
  method Clear(s: seq<Ware>) returns (rest: seq<Ware>)
    ensures rest == Remaining(s)
  {
    rest := [];
    for n := 0 to |s|
      invariant rest == Remaining(s[..n])
    {
      assert s[..n + 1][..n] == s[..n];
      if s[n].count != 0 {
        rest := rest + [s[n]];
      }
    }
    assert s[..|s|] == s;
  }

  /** Whether and what is taken from a player's wares: exactly `amount` of the item when there is enough, from
      the first that come. */
  method TakeWares(s: seq<Ware>, item: ItemId, amount: nat, items: map<ItemId, Kind>)
    returns (enough: bool, rest: seq<Ware>)
    requires amount > 0 && item in items && Sound(s, items)
    ensures enough <==> CountOf(s, item) >= amount
    ensures rest == if enough then Without(s, item, amount) else s
    ensures Sound(rest, items)
    ensures forall k :: CountOf(rest, k) == CountOf(s, k) - if enough && k == item then amount else 0
  {
    hide CountOf, Remaining, Drawn;
    var itemList;
    ghost var m;
    itemList, enough, m := Gather(s, item, amount);
    if !enough {
      return enough, s;
    }
    var thin;
    if items[item].stackable {
      thin := TakeFromStacks(s, itemList, item, amount, m);
    } else {
      PlainPlaces(s, itemList, m, item, items);
      thin := TakeEach(s, itemList, item, amount, m);
    }
    rest := Clear(thin);
    WithoutSound(s, item, amount, items);
    WithoutCounts(s, item, amount);
  }

  lemma PlainPlaces(s: seq<Ware>, at: seq<nat>, m: nat, item: ItemId, items: map<ItemId, Kind>)
    requires Places(s, at, m, item) && Sound(s, items) && item in items && !items[item].stackable
    ensures forall i | 0 <= i < |at| :: at[i] < |s| && s[at[i]].count == 1
  {
    forall i | 0 <= i < |at| ensures at[i] < |s| && s[at[i]].count == 1 {
      assert s[at[i]] in s;
    }
  }

  // ----- Wares that come -----

  /** New items of a kind: in full stacks but for the last, or one by one. */
  ghost function New(item: ItemId, amount: nat, stackable: bool): seq<Ware> {
    if amount == 0 then []
    else if !stackable then New(item, amount - 1, stackable) + [Ware(item, 1, true)]
    else if amount <= STACK then [Ware(item, amount, true)]
    else [Ware(item, STACK, true)] + New(item, amount - STACK, stackable)
  }

  lemma {:induction false} NewCounts(item: ItemId, amount: nat, stackable: bool, k: ItemId)
    ensures CountOf(New(item, amount, stackable), k) == if k == item then amount else 0
  {
    hide CountOf;
    if amount == 0 {
      CountNone(k);
    } else if !stackable {
      NewCounts(item, amount - 1, stackable, k);
      CountPush(New(item, amount - 1, stackable), Ware(item, 1, true), k);
    } else {
      var n := if amount <= STACK then amount else STACK;
      CountNone(k);
      CountPush([], Ware(item, n, true), k);
      assert [] + [Ware(item, n, true)] == [Ware(item, n, true)];
      if amount > STACK {
        NewCounts(item, amount - STACK, stackable, k);
        CountConcat([Ware(item, STACK, true)], New(item, amount - STACK, stackable), k);
      }
    }
  }

  lemma CountNone(k: ItemId)
    ensures CountOf([], k) == 0
  {
  }

  lemma {:induction false} NewSound(item: ItemId, amount: nat, items: map<ItemId, Kind>)
    requires item in items
    ensures Sound(New(item, amount, items[item].stackable), items)
  {
    if amount > 0 && !items[item].stackable {
      NewSound(item, amount - 1, items);
    } else if amount > STACK {
      NewSound(item, amount - STACK, items);
    }
  }

  /** New items for an inbox, which takes any number: stacks of at most a hundred, or one by one. */
  method Deliver(s: seq<Ware>, item: ItemId, amount: nat, items: map<ItemId, Kind>) returns (more: seq<Ware>)
    requires item in items && Sound(s, items)
    ensures more == s + New(item, amount, items[item].stackable)
    ensures Sound(more, items)
    ensures forall k :: CountOf(more, k) == CountOf(s, k) + if k == item then amount else 0
  {
    hide CountOf;
    more := s;
    if items[item].stackable {
      var tmpAmount := amount;
      while tmpAmount > 0
        invariant 0 <= tmpAmount <= amount
        invariant s + New(item, amount, true) == more + New(item, tmpAmount, true)
      {
        var stackCount := if tmpAmount < 100 then tmpAmount else 100;
        more := more + [Ware(item, stackCount, true)];
        tmpAmount := tmpAmount - stackCount;
      }
    } else {
      for i := 0 to amount
        invariant more == s + New(item, i, false)
      {
        more := more + [Ware(item, 1, true)];
      }
    }
    assert more == s + New(item, amount, items[item].stackable);
    NewSound(item, amount, items);
    forall k ensures CountOf(more, k) == CountOf(s, k) + if k == item then amount else 0 {
      NewCounts(item, amount, items[item].stackable, k);
      CountConcat(s, New(item, amount, items[item].stackable), k);
    }
  }

  // ----- The market -----

  /** What the money behind a buy offer amounts to. */
  ghost function Escrow(o: Offer): nat { if o.action.Buy? then o.price * o.amount else 0 }

  /** How many of an item lie behind a sell offer. */
  ghost function Stored(o: Offer, item: ItemId): nat { if o.action.Sell? && o.item == item then o.amount else 0 }

  lemma StoredOwn(o: Offer)
    ensures Stored(o, o.item) == if o.action.Sell? then o.amount else 0
  {
  }

  ghost function Escrows(offers: map<OfferId, Offer>): map<nat, int> {
    map i | i in offers :: Escrow(offers[i])
  }

  ghost function Stores(offers: map<OfferId, Offer>, item: ItemId): map<nat, int> {
    map i | i in offers :: Stored(offers[i], item)
  }

  ghost function Balances(bank: map<Guid, nat>): map<nat, int> {
    map g | g in bank :: bank[g]
  }

  ghost function Holdings(wares: map<Guid, seq<Ware>>, item: ItemId): map<nat, int> {
    map g | g in wares :: CountOf(wares[g], item)
  }

  /** All money: in banks and behind buy offers. */
  ghost function AllMoney(bank: map<Guid, nat>, offers: map<OfferId, Offer>): int {
    Total(Balances(bank)) + Total(Escrows(offers))
  }

  /** All wares of an item: with players and behind sell offers. */
  ghost function AllWares(wares: map<Guid, seq<Ware>>, offers: map<OfferId, Offer>, item: ItemId): int {
    Total(Holdings(wares, item)) + Total(Stores(offers, item))
  }

  lemma BankSet(bank: map<Guid, nat>, g: Guid, v: nat)
    requires g in bank
    ensures Total(Balances(bank[g := v])) == Total(Balances(bank)) + v - bank[g]
  {
    assert Balances(bank[g := v]) == Balances(bank)[g := v];
    TotalSet(Balances(bank), g, v);
  }

  lemma WaresSet(wares: map<Guid, seq<Ware>>, g: Guid, s: seq<Ware>, item: ItemId)
    requires g in wares
    ensures Total(Holdings(wares[g := s], item)) ==
              Total(Holdings(wares, item)) + CountOf(s, item) - CountOf(wares[g], item)
  {
    assert Holdings(wares[g := s], item) == Holdings(wares, item)[g := CountOf(s, item)];
    TotalSet(Holdings(wares, item), g, CountOf(s, item));
  }

  lemma OfferSet(offers: map<OfferId, Offer>, i: OfferId, o: Offer, item: ItemId)
    ensures Total(Escrows(offers[i := o])) ==
              Total(Escrows(offers)) + Escrow(o) - if i in offers then Escrow(offers[i]) else 0
    ensures Total(Stores(offers[i := o], item)) ==
            Total(Stores(offers, item)) + Stored(o, item) - if i in offers then Stored(offers[i], item) else 0
  {
    hide Escrow, Stored;
    assert Escrows(offers[i := o]) == Escrows(offers)[i := Escrow(o)];
    TotalSet(Escrows(offers), i, Escrow(o));
    assert Stores(offers[i := o], item) == Stores(offers, item)[i := Stored(o, item)];
    TotalSet(Stores(offers, item), i, Stored(o, item));
  }

  lemma OfferGone(offers: map<OfferId, Offer>, i: OfferId, item: ItemId)
    requires i in offers
    ensures Total(Escrows(offers - {i})) == Total(Escrows(offers)) - Escrow(offers[i])
    ensures Total(Stores(offers - {i}, item)) == Total(Stores(offers, item)) - Stored(offers[i], item)
  {
    hide Escrow, Stored;
    assert Escrows(offers - {i}) == Escrows(offers) - {i};
    TotalTake(Escrows(offers), i);
    assert Stores(offers - {i}, item) == Stores(offers, item) - {i};
    TotalTake(Stores(offers, item), i);
  }

  /** The creation fee, from the hundredth part of the turnover as computed in floating point. */
  ghost function Fee(share: nat): nat {
    if share < 20 then 20 else if share > 1000 then 1000 else share
  }

  /** One player's wares of an item changed in number, nobody else's and no others. */
  ghost predicate Hands(before: map<Guid, seq<Ware>>, after: map<Guid, seq<Ware>>, guid: Guid, item: ItemId,
                        delta: int) {
    after.Keys == before.Keys &&
    forall g, k | g in before :: CountOf(after[g], k) == CountOf(before[g], k) +
      if g == guid && k == item then delta else 0
  }

  /** Wares went from one player, and so many came to another. */
  ghost predicate Passed(before: map<Guid, seq<Ware>>, after: map<Guid, seq<Ware>>, giver: Guid, taker: Guid,
                         item: ItemId, given: nat, taken: nat) {
    after.Keys == before.Keys &&
    forall g, k | g in before ::
      CountOf(after[g], k) == CountOf(before[g], k) - (if g == giver && k == item then given else 0) +
                              if g == taker && k == item then taken else 0
  }

  ghost predicate WithinLimits(amount: nat, price: nat) {
    1 <= amount <= MAX_AMOUNT && 1 <= price <= MAX_PRICE
  }

  // ----- Events -----

  datatype Event =
    | Create(guid: Guid, action: Action, item: ItemId, amount: nat, price: nat, share: nat, maxOfferCount: int,
             admitted: bool, hasChest: bool, created: int)
    | Cancel(guid: Guid, created: int, counter: nat, admitted: bool)
    | Accept(guid: Guid, created: int, counter: nat, amount: nat, admitted: bool, hasChest: bool, loads: bool)
    | Expire(lastExpireDate: int, unloadable: set<Guid>)

  ghost predicate Possible(e: Event, players: set<Guid>) {
    match e
    case Create(guid, _, _, _, _, _, _, _, _, _) => guid in players
    case Cancel(guid, _, _, _) => guid in players
    case Accept(guid, _, _, _, _, _, _) => guid in players
    case Expire(_, _) => true
  }

  ghost predicate Settled(o: Offer, lastExpireDate: int, unloadable: set<Guid>) {
    o.created <= lastExpireDate && (o.action.Buy? || o.player !in unloadable)
  }

  /** An offer of that time whose id ends in the counter, or 0 when there is none. */
  ghost predicate Found(offers: map<OfferId, Offer>, created: int, counter: nat, id: OfferId) {
    if id != 0 then id in offers && offers[id].created == created && id % 65536 == counter
    else forall i | i in offers :: !(offers[i].created == created && i % 65536 == counter)
  }

  ghost function Reduced(offers: map<OfferId, Offer>, id: OfferId, amount: nat): map<OfferId, Offer>
    requires id in offers && amount <= offers[id].amount
  {
    if offers[id].amount == amount then offers - {id}
    else offers[id := offers[id].(amount := offers[id].amount - amount)]
  }

  lemma LessEscrow(price: nat, held: nat, amount: nat)
    requires amount <= held
    ensures price * (held - amount) == price * held - price * amount
  {
  }

  // ----- What expired offers leave to their owners -----

  ghost function BuysOver(offers: map<OfferId, Offer>, lastExpireDate: int): set<OfferId> {
    set i | i in offers && offers[i].action.Buy? && offers[i].created <= lastExpireDate
  }

  ghost function SellsOver(offers: map<OfferId, Offer>, lastExpireDate: int, unloadable: set<Guid>): set<OfferId> {
    set i | i in offers && offers[i].action.Sell? && Settled(offers[i], lastExpireDate, unloadable)
  }

  ghost function EscrowsOf(offers: map<OfferId, Offer>, ids: set<OfferId>, guid: Guid): map<nat, int> {
    map i | i in ids && i in offers && offers[i].player == guid :: Escrow(offers[i])
  }

  ghost function StoresOf(offers: map<OfferId, Offer>, ids: set<OfferId>, guid: Guid, item: ItemId): map<nat, int> {
    map i | i in ids && i in offers && offers[i].player == guid :: Stored(offers[i], item)
  }

  /** The money behind those of the offers that a player made. */
  ghost function OwedMoney(offers: map<OfferId, Offer>, ids: set<OfferId>, guid: Guid): int {
    Total(EscrowsOf(offers, ids, guid))
  }

  /** The wares of an item behind them. */
  ghost function OwedWares(offers: map<OfferId, Offer>, ids: set<OfferId>, guid: Guid, item: ItemId): int {
    Total(StoresOf(offers, ids, guid, item))
  }

  lemma NothingOwed(offers: map<OfferId, Offer>, g: Guid, k: ItemId)
    ensures OwedMoney(offers, {}, g) == 0 && OwedWares(offers, {}, g, k) == 0
  {
    assert EscrowsOf(offers, {}, g) == map[] && StoresOf(offers, {}, g, k) == map[];
  }

  lemma OneMoreOwed(offers: map<OfferId, Offer>, ids: set<OfferId>, id: OfferId, g: Guid, k: ItemId)
    requires id in offers && id !in ids
    ensures OwedMoney(offers, ids + {id}, g) ==
            OwedMoney(offers, ids, g) + if offers[id].player == g then Escrow(offers[id]) else 0
    ensures OwedWares(offers, ids + {id}, g, k) ==
            OwedWares(offers, ids, g, k) + if offers[id].player == g then Stored(offers[id], k) else 0
  {
    hide Escrow, Stored, Total;
    if offers[id].player == g {
      assert EscrowsOf(offers, ids + {id}, g) == EscrowsOf(offers, ids, g)[id := Escrow(offers[id])];
      assert StoresOf(offers, ids + {id}, g, k) == StoresOf(offers, ids, g, k)[id := Stored(offers[id], k)];
      TotalSet(EscrowsOf(offers, ids, g), id, Escrow(offers[id]));
      TotalSet(StoresOf(offers, ids, g, k), id, Stored(offers[id], k));
    } else {
      assert EscrowsOf(offers, ids + {id}, g) == EscrowsOf(offers, ids, g);
      assert StoresOf(offers, ids + {id}, g, k) == StoresOf(offers, ids, g, k);
    }
  }

  lemma SameOwed(offers: map<OfferId, Offer>, left: map<OfferId, Offer>, ids: set<OfferId>, g: Guid, k: ItemId)
    requires forall i | i in ids :: i in offers && i in left && offers[i] == left[i]
    ensures OwedWares(left, ids, g, k) == OwedWares(offers, ids, g, k)
  {
    hide Total;
    assert StoresOf(left, ids, g, k) == StoresOf(offers, ids, g, k);
  }

  // ----- What comes of events -----

  /** What an event came to: an offer made for a fee, taken back or accepted, by some player and with the wares
      delivered or not, or the expired ones of the offers settled. */
  datatype Deed =
    | Nothing
    | Makes(id: OfferId, offer: Offer, fee: nat)
    | TakesBack(id: OfferId, offer: Offer)
    | Accepts(guid: Guid, id: OfferId, offer: Offer, amount: nat, delivered: bool)
    | Settles(offers: map<OfferId, Offer>, lastExpireDate: int, unloadable: set<Guid>)

  /** Whether a deed is one the event asks for. */
  ghost predicate Answers(e: Event, d: Deed) {
    match e
    case Create(guid, action, item, amount, price, share, _, _, _, created) =>
      d.Nothing? || (d.Makes? && d.offer == Offer(guid, action, item, amount, price, created) && d.fee == Fee(share))
    case Cancel(guid, created, counter, _) =>
      d.Nothing? ||
      (d.TakesBack? && d.offer.player == guid && d.offer.created == created && d.id % 65536 == counter)
    case Accept(guid, created, counter, amount, _, _, loads) =>
      d.Nothing? ||
      (d.Accepts? && d.guid == guid && d.offer.created == created && d.id % 65536 == counter &&
       1 <= d.amount == amount && d.delivered == (d.offer.action.Sell? || loads))
    case Expire(lastExpireDate, unloadable) =>
      d.Settles? && d.lastExpireDate == lastExpireDate && d.unloadable == unloadable
  }

  /** Whether a deed is about offers that stand. */
  ghost predicate Fits(d: Deed, offers: map<OfferId, Offer>) {
    match d
    case Nothing => true
    case Makes(id, _, _) => id !in offers
    case TakesBack(id, offer) => id in offers && offers[id] == offer
    case Accepts(_, id, offer, amount, _) => id in offers && offers[id] == offer && amount <= offer.amount
    case Settles(all, _, _) => all == offers
  }

  /** The offers that stand after a deed. */
  ghost function Then(d: Deed, offers: map<OfferId, Offer>): map<OfferId, Offer>
    requires Fits(d, offers)
  {
    match d
    case Nothing => offers
    case Makes(id, offer, _) => offers[id := offer]
    case TakesBack(id, _) => offers - {id}
    case Accepts(_, id, _, amount, delivered) => if delivered then Reduced(offers, id, amount) else offers
    case Settles(_, lastExpireDate, unloadable) =>
      map i | i in offers && !Settled(offers[i], lastExpireDate, unloadable) :: offers[i]
  }

  /** What a deed brings a player in money. */
  ghost function MoneyOf(d: Deed, g: Guid): int {
    match d
    case Nothing => 0
    case Makes(_, offer, fee) => if g == offer.player then 0 - fee - Escrow(offer) else 0
    case TakesBack(_, offer) => if g == offer.player then Escrow(offer) else 0
    case Accepts(guid, _, offer, amount, _) =>
      if offer.action.Buy? then (if g == guid then offer.price * amount else 0)
      else (if g == offer.player then offer.price * amount else 0) - if g == guid then offer.price * amount else 0
    case Settles(offers, lastExpireDate, _) => OwedMoney(offers, BuysOver(offers, lastExpireDate), g)
  }

  /** What it brings him in wares of an item. */
  ghost function WaresOf(d: Deed, g: Guid, k: ItemId): int {
    match d
    case Nothing => 0
    case Makes(_, offer, _) => if g == offer.player then 0 - Stored(offer, k) else 0
    case TakesBack(_, offer) => if g == offer.player then Stored(offer, k) else 0
    case Accepts(guid, _, offer, amount, delivered) =>
      if k != offer.item then 0
      else if offer.action.Sell? then (if g == guid then amount else 0)
      else (if g == offer.player && delivered then amount else 0) - if g == guid then amount else 0
    case Settles(offers, lastExpireDate, unloadable) =>
      OwedWares(offers, SellsOver(offers, lastExpireDate, unloadable), g, k)
  }

  ghost function FeeOf(d: Deed): nat {
    if d.Makes? then d.fee else 0
  }

  /** A sale to a buyer who could not be loaded. */
  ghost predicate Loss(d: Deed) {
    d.Accepts? && !d.delivered
  }

  /** What the seller keeps for it. */
  ghost function MintedBy(d: Deed): nat {
    if Loss(d) then d.offer.price * d.amount else 0
  }

  /** How many of an item are gone with it. */
  ghost function LostBy(d: Deed, k: ItemId): nat {
    if Loss(d) && d.offer.item == k then d.amount else 0
  }

  lemma NothingBrings()
    ensures forall g :: MoneyOf(Nothing, g) == 0
    ensures forall g, k :: WaresOf(Nothing, g, k) == 0
  {
  }

  lemma AcceptBringsMoney(d: Deed, before: map<Guid, nat>, after: map<Guid, nat>)
    requires d.Accepts? && d.guid in before && d.offer.player in before
    requires var price := d.offer.price * d.amount;
             if d.offer.action.Buy? then after == before[d.guid := before[d.guid] + price]
             else
               before[d.guid] >= price &&
               var paid := before[d.guid := before[d.guid] - price];
               after == paid[d.offer.player := paid[d.offer.player] + price]
    ensures forall g | g in before :: after[g] == before[g] + MoneyOf(d, g)
  {
  }

  lemma AcceptBringsWares(d: Deed, before: map<Guid, seq<Ware>>, after: map<Guid, seq<Ware>>)
    requires d.Accepts? && before.Keys == after.Keys
    requires if d.offer.action.Sell? then Hands(before, after, d.guid, d.offer.item, d.amount)
             else Passed(before, after, d.guid, d.offer.player, d.offer.item, d.amount,
                         if d.delivered then d.amount else 0)
    ensures forall g, k | g in before :: CountOf(after[g], k) == CountOf(before[g], k) + WaresOf(d, g, k)
  {
  }

  // ----- Sums over deeds -----

  ghost predicate FitAll(deeds: seq<Deed>, offers: map<OfferId, Offer>) {
    deeds == [] || (Fits(deeds[0], offers) && FitAll(deeds[1..], Then(deeds[0], offers)))
  }

  ghost function ThenAll(deeds: seq<Deed>, offers: map<OfferId, Offer>): map<OfferId, Offer>
    requires FitAll(deeds, offers)
  {
    if deeds == [] then offers else ThenAll(deeds[1..], Then(deeds[0], offers))
  }

  ghost function MoneyIn(deeds: seq<Deed>, g: Guid): int {
    if deeds == [] then 0 else MoneyOf(deeds[0], g) + MoneyIn(deeds[1..], g)
  }

  ghost function WaresIn(deeds: seq<Deed>, g: Guid, k: ItemId): int {
    if deeds == [] then 0 else WaresOf(deeds[0], g, k) + WaresIn(deeds[1..], g, k)
  }

  ghost function Fees(deeds: seq<Deed>): nat {
    if deeds == [] then 0 else FeeOf(deeds[0]) + Fees(deeds[1..])
  }

  ghost function Minted(deeds: seq<Deed>): nat {
    if deeds == [] then 0 else MintedBy(deeds[0]) + Minted(deeds[1..])
  }

  ghost function LostOf(deeds: seq<Deed>, k: ItemId): nat {
    if deeds == [] then 0 else LostBy(deeds[0], k) + LostOf(deeds[1..], k)
  }

  ghost function Made(deeds: seq<Deed>): nat {
    if deeds == [] then 0 else (if deeds[0].Makes? then 1 else 0) + Made(deeds[1..])
  }

  lemma NoDeeds(offers: map<OfferId, Offer>)
    ensures FitAll([], offers) && ThenAll([], offers) == offers
    ensures forall g :: MoneyIn([], g) == 0
    ensures forall g, k :: WaresIn([], g, k) == 0
    ensures Fees([]) == Minted([]) == Made([]) == 0
    ensures forall k :: LostOf([], k) == 0
  {
  }

  lemma OneDeed(d: Deed, deeds: seq<Deed>, offers: map<OfferId, Offer>)
    requires Fits(d, offers) && FitAll(deeds, Then(d, offers))
    ensures FitAll([d] + deeds, offers) && ThenAll([d] + deeds, offers) == ThenAll(deeds, Then(d, offers))
    ensures forall g :: MoneyIn([d] + deeds, g) == MoneyOf(d, g) + MoneyIn(deeds, g)
    ensures forall g, k :: WaresIn([d] + deeds, g, k) == WaresOf(d, g, k) + WaresIn(deeds, g, k)
    ensures Fees([d] + deeds) == FeeOf(d) + Fees(deeds)
    ensures Minted([d] + deeds) == MintedBy(d) + Minted(deeds)
    ensures forall k :: LostOf([d] + deeds, k) == LostBy(d, k) + LostOf(deeds, k)
    ensures Made([d] + deeds) == (if d.Makes? then 1 else 0) + Made(deeds)
  {
    hide MoneyOf, WaresOf, FeeOf, MintedBy, LostBy, Then, Fits;
    assert ([d] + deeds)[1..] == deeds;
  }

  ghost predicate AnswersAll(events: seq<Event>, deeds: seq<Deed>) {
    |events| == |deeds| && forall i | 0 <= i < |events| :: Answers(events[i], deeds[i])
  }

  /** Each offer made costs 20 to 1000. */
  lemma {:induction false} FeesPerOffer(events: seq<Event>, deeds: seq<Deed>)
    requires AnswersAll(events, deeds)
    ensures 20 * Made(deeds) <= Fees(deeds) <= 1000 * Made(deeds)
  {
    if deeds != [] {
      assert Answers(events[0], deeds[0]);
      FeesPerOffer(events[1..], deeds[1..]);
    }
  }

  /** Where every buyer can be loaded nothing is lost. */
  lemma {:induction false} NoneLost(events: seq<Event>, deeds: seq<Deed>, k: ItemId)
    requires AnswersAll(events, deeds) && forall e | e in events && e.Accept? :: e.loads
    ensures Minted(deeds) == 0 && LostOf(deeds, k) == 0
  {
    if deeds != [] {
      assert Answers(events[0], deeds[0]) && events[0] in events;
      assert forall e | e in events[1..] :: e in events;
      NoneLost(events[1..], deeds[1..], k);
    }
  }

  // ----- The market itself -----

  class Market {
    const items: map<ItemId, Kind>
    var bank: map<Guid, nat>
    var wares: map<Guid, seq<Ware>>
    var offers: map<OfferId, Offer>
    var nextId: OfferId

    ghost predicate Valid()
      reads this
    {
      nextId > 0 && bank.Keys == wares.Keys && (forall g | g in wares :: Sound(wares[g], items)) &&
      forall i | i in offers ::
        0 < i < nextId && offers[i].player in bank && offers[i].item in items &&
          WithinLimits(offers[i].amount, offers[i].price)
    }

    ghost function Money(): int
      reads this`bank, this`offers
    {
      AllMoney(bank, offers)
    }

    ghost function Wares(item: ItemId): int
      reads this`wares, this`offers
    {
      AllWares(wares, offers, item)
    }

    ghost function OfferCount(guid: Guid): nat
      reads this
    {
      |set i | i in offers && offers[i].player == guid|
    }

    constructor (items: map<ItemId, Kind>, bank: map<Guid, nat>, wares: map<Guid, seq<Ware>>)
      requires bank.Keys == wares.Keys && forall g | g in wares :: Sound(wares[g], items)
      ensures Valid() && fresh(this) && this.items == items && this.bank == bank && this.wares == wares
      ensures offers == map[] && nextId == 1
    {
      this.items, this.bank, this.wares, offers, nextId := items, bank, wares, map[], 1;
    }

    /** Whether a player could sell that many of an item. */
    ghost predicate HasWares(guid: Guid, item: ItemId, amount: nat)
      requires guid in wares
      reads this
    {
      CountOf(wares[guid], item) >= amount
    }

    // ----- Moves of money and wares -----

    method Pay(guid: Guid, amount: int)
      requires Valid() && guid in bank && bank[guid] + amount >= 0
      modifies this`bank
      ensures Valid() && bank == old(bank)[guid := old(bank[guid]) + amount]
      ensures Money() == old(Money()) + amount
    {
      hide Sound, Total;
      BankSet(bank, guid, bank[guid] + amount);
      bank := bank[guid := bank[guid] + amount];
    }

    method Withdraw(guid: Guid, item: ItemId, amount: nat) returns (enough: bool)
      requires Valid() && guid in bank && item in items && amount > 0
      modifies this`wares
      ensures Valid() && (enough <==> old(HasWares(guid, item, amount)))
      ensures wares == if enough then old(wares)[guid := Without(old(wares)[guid], item, amount)] else old(wares)
      ensures forall k :: Wares(k) == old(Wares(k)) - if enough && k == item then amount else 0
      ensures Hands(old(wares), wares, guid, item, if enough then 0 - amount else 0)
    {
      hide Sound, Total, CountOf, Without;
      var rest;
      enough, rest := TakeWares(wares[guid], item, amount, items);
      forall k ensures Total(Holdings(wares[guid := rest], k)) ==
                       Total(Holdings(wares, k)) - if enough && k == item then amount else 0 {
        WaresSet(wares, guid, rest, k);
      }
      if enough {
        wares := wares[guid := rest];
      }
    }

    method Stock(guid: Guid, item: ItemId, amount: nat)
      requires Valid() && guid in bank && item in items
      modifies this`wares
      ensures Valid()
      ensures wares == old(wares)[guid := old(wares)[guid] + New(item, amount, items[item].stackable)]
      ensures forall k :: Wares(k) == old(Wares(k)) + if k == item then amount else 0
      ensures Hands(old(wares), wares, guid, item, amount)
    {
      hide Sound, Total, CountOf, New;
      var more := Deliver(wares[guid], item, amount, items);
      forall k ensures Total(Holdings(wares[guid := more], k)) ==
                       Total(Holdings(wares, k)) + if k == item then amount else 0 {
        WaresSet(wares, guid, more, k);
      }
      wares := wares[guid := more];
    }

    method PutOffer(id: OfferId, o: Offer)
      requires Valid() && 0 < id < nextId && o.player in bank && o.item in items && WithinLimits(o.amount, o.price)
      modifies this`offers
      ensures Valid() && offers == old(offers)[id := o]
      ensures Money() == old(Money()) + Escrow(o) - if id in old(offers) then Escrow(old(offers)[id]) else 0
      ensures forall k :: Wares(k) ==
                old(Wares(k)) + Stored(o, k) - if id in old(offers) then Stored(old(offers)[id], k) else 0
    {
      hide Sound, Total, Escrow, Stored;
      forall k {
        OfferSet(offers, id, o, k);
      }
      OfferSet(offers, id, o, 0);
      offers := offers[id := o];
    }

    method DeleteOffer(id: OfferId)
      requires Valid() && id in offers
      modifies this`offers
      ensures Valid() && offers == old(offers) - {id}
      ensures Money() == old(Money()) - Escrow(old(offers)[id])
      ensures forall k :: Wares(k) == old(Wares(k)) - Stored(old(offers)[id], k)
    {
      hide Sound, Total, Escrow, Stored;
      forall k {
        OfferGone(offers, id, k);
      }
      OfferGone(offers, id, 0);
      offers := offers - {id};
    }

    // ----- What players do -----

    /** Whether the player has what lies behind an offer, and the fee. */
    ghost predicate CanBack(o: Offer, fee: nat, hasChest: bool)
      requires o.player in bank && o.player in wares
      reads this
    {
      match o.action
      case Sell => fee <= bank[o.player] && hasChest && HasWares(o.player, o.item, o.amount)
      case Buy => o.price * o.amount + fee <= bank[o.player]
    }

    /** Takes what lies behind an offer from the player, with the fee. */
    method Back(o: Offer, fee: nat, hasChest: bool) returns (ok: bool)
      requires Valid() && o.player in bank && o.item in items && WithinLimits(o.amount, o.price)
      modifies this`bank, this`wares
      ensures Valid() && (ok <==> old(CanBack(o, fee, hasChest)))
      ensures !ok ==> bank == old(bank) && wares == old(wares)
      ensures ok ==> bank == old(bank)[o.player := old(bank[o.player]) - fee - Escrow(o)]
      ensures Money() == old(Money()) - if ok then fee + Escrow(o) else 0
      ensures forall k :: Wares(k) == old(Wares(k)) - if ok then Stored(o, k) else 0
      ensures Hands(old(wares), wares, o.player, o.item, if ok then 0 - Stored(o, o.item) else 0)
      ensures ok ==> wares == if o.action.Sell?
                              then old(wares)[o.player := Without(old(wares)[o.player], o.item, o.amount)]
                              else old(wares)
    {
      hide Sound, AllMoney, AllWares, HasWares, Without;
      ok := false;
      if o.action.Sell? {
        if fee > bank[o.player] || !hasChest {
          return;
        }
        ok := Withdraw(o.player, o.item, o.amount);
        if !ok {
          return;
        }
        Pay(o.player, 0 - fee);
      } else {
        var totalPrice := o.price * o.amount + fee;
        if totalPrice > bank[o.player] {
          return;
        }
        Pay(o.player, 0 - totalPrice);
        ok := true;
      }
    }

    /** Whether an offer may be created. `admitted` stands for the player being online, at the market and,
        where asked for, premium; `hasChest` for the depot at hand. */
    ghost predicate MayCreate(guid: Guid, action: Action, item: ItemId, amount: nat, price: nat, share: nat,
                              maxOfferCount: int, admitted: bool, hasChest: bool)
      requires guid in bank && guid in wares
      reads this
    {
      1 <= amount <= MAX_AMOUNT && 1 <= price <= MAX_PRICE && admitted && item in items && items[item].ware &&
      (maxOfferCount > 0 ==> OfferCount(guid) < maxOfferCount) &&
      CanBack(Offer(guid, action, item, amount, price, 0), Fee(share), hasChest)
    }

    method GetPlayerOfferCount(guid: Guid) returns (n: nat)
      ensures n == OfferCount(guid)
    {
      n := |set i | i in offers && offers[i].player == guid|;
    }

    method ComputeFee(share: nat) returns (fee: nat)
      ensures fee == Fee(share)
    {
      fee := share;
      if fee < 20 {
        fee := 20;
      } else if fee > 1000 {
        fee := 1000;
      }
    }

    /** playerCreateMarketOffer: wares or money move behind the offer, and the fee is gone. */
    method CreateOffer(guid: Guid, action: Action, item: ItemId, amount: nat, price: nat, share: nat,
                       maxOfferCount: int, admitted: bool, hasChest: bool, created: int) returns (ok: bool)
      requires Valid() && guid in bank
      modifies this`bank, this`wares, this`offers, this`nextId
      ensures Valid() && (ok <==> old(MayCreate(guid, action, item, amount, price, share, maxOfferCount, admitted,
              hasChest)))
      ensures !ok ==> bank == old(bank) && wares == old(wares) && offers == old(offers)
      ensures ok ==> old(nextId) !in old(offers) &&
                     offers == old(offers)[old(nextId) := Offer(guid, action, item, amount, price, created)]
      ensures ok ==> bank == old(bank)[guid := old(bank[guid]) - Fee(share) - Escrow(offers[old(nextId)])]
      ensures ok ==> Hands(old(wares), wares, guid, item, if action.Sell? then 0 - amount else 0)
      ensures ok ==> wares == if action.Sell? then old(wares)[guid := Without(old(wares)[guid], item, amount)]
                              else old(wares)
      ensures nextId == old(nextId) + if ok then 1 else 0
      ensures Money() == old(Money()) - if ok then Fee(share) else 0
      ensures forall k :: Wares(k) == old(Wares(k))
    {
      hide Sound, AllMoney, AllWares, HasWares, Escrow, Stored, Fee, Hands, CountOf, Without, OfferCount, Valid;
      SamePlayers();
      ok := false;
      if amount == 0 || amount > MAX_AMOUNT || price == 0 || price > MAX_PRICE || !admitted || item !in items {
        return;
      }
      if !items[item].ware {
        return;
      }
      if maxOfferCount > 0 {
        var offerCount := GetPlayerOfferCount(guid);
        if offerCount >= maxOfferCount {
          return;
        }
      }
      var fee := ComputeFee(share);
      var offer := Offer(guid, action, item, amount, price, created);
      assert Stored(offer, item) == if action.Sell? then amount else 0 by { StoredOwn(offer); }
      ok := Back(offer, fee, hasChest);
      if ok {
        AddOffer(offer);
      }
    }

    /** createOffer: the offer stands under a new id. */
    method AddOffer(o: Offer)
      requires Valid() && o.player in bank && o.item in items && WithinLimits(o.amount, o.price)
      modifies this`offers, this`nextId
      ensures Valid() && nextId == old(nextId) + 1
      ensures old(nextId) !in old(offers) && offers == old(offers)[old(nextId) := o]
      ensures Money() == old(Money()) + Escrow(o)
      ensures forall k :: Wares(k) == old(Wares(k)) + Stored(o, k)
    {
      hide Sound, AllMoney, AllWares, Escrow, Stored;
      nextId := nextId + 1;
      PutOffer(nextId - 1, o);
    }

    /** getOfferIdByCounter: some offer of that time whose id ends in the counter, or 0. */
    method GetOfferIdByCounter(created: int, counter: nat) returns (id: OfferId)
      requires Valid()
      ensures Found(offers, created, counter, id)
    {
      var matches := set i | i in offers && offers[i].created == created && i % 65536 == counter;
      if matches == {} {
        assert forall i | i in offers && offers[i].created == created && i % 65536 == counter :: i in matches;
        return 0;
      }
      id :| id in matches;
    }

    /** playerCancelMarketOffer: whatever lies behind the player's own offer comes back. */
    method CancelOffer(guid: Guid, created: int, counter: nat, admitted: bool) returns (ok: bool, id: OfferId)
      requires Valid() && guid in bank
      modifies this`bank, this`wares, this`offers
      ensures Valid() && (id != 0 ==> id in old(offers)) && (admitted ==> Found(old(offers), created, counter, id))
      ensures ok <==> admitted && id != 0 && old(offers)[id].player == guid
      ensures !ok ==> bank == old(bank) && wares == old(wares) && offers == old(offers)
      ensures ok ==> offers == old(offers) - {id} &&
                     bank == old(bank)[guid := old(bank[guid]) + Escrow(old(offers)[id])]
      ensures ok ==> var o := old(offers)[id]; Hands(old(wares), wares, guid, o.item, Stored(o, o.item))
      ensures ok ==>
                var o := old(offers)[id];
                wares == if o.action.Buy? then old(wares)
                         else old(wares)[guid := old(wares)[guid] + New(o.item, o.amount, items[o.item].stackable)]
      ensures Money() == old(Money()) && forall k :: Wares(k) == old(Wares(k))
    {
      hide Sound, AllMoney, AllWares, CountOf, New;
      ok, id := false, 0;
      if !admitted {
        return;
      }
      id := GetOfferIdByCounter(created, counter);
      if id == 0 || offers[id].player != guid {
        return;
      }
      var offer := offers[id];
      if offer.action.Buy? {
        Pay(guid, offer.price * offer.amount);
        assert bank[guid] == old(bank[guid]) + Escrow(offer);
      } else {
        Stock(guid, offer.item, offer.amount);
        assert bank[guid := bank[guid]] == bank;
      }
      DeleteOffer(id);
      ok := true;
    }

    /** The wares of one who answers a buy offer go to the one who made it, against the money behind it.
        `loads` tells whether a buyer who is not online can be loaded; by then the seller has been paid. */
    method SellTo(guid: Guid, o: Offer, amount: nat, hasChest: bool, loads: bool) returns (ok: bool, sold: bool)
      requires Valid() && guid in bank && o.player in bank && o.item in items && amount > 0
      modifies this`bank, this`wares
      ensures Valid() && (sold <==> hasChest && old(HasWares(guid, o.item, amount))) && (ok <==> sold && loads)
      ensures !sold ==> bank == old(bank) && wares == old(wares)
      ensures sold ==> bank == old(bank)[guid := old(bank[guid]) + o.price * amount]
      ensures Money() == old(Money()) + if sold then o.price * amount else 0
      ensures forall k :: Wares(k) == old(Wares(k)) - if sold && !loads && k == o.item then amount else 0
      ensures sold ==> Passed(old(wares), wares, guid, o.player, o.item, amount, if loads then amount else 0)
      ensures sold ==>
                var rest := old(wares)[guid := Without(old(wares)[guid], o.item, amount)];
                wares == if loads
                         then rest[o.player := rest[o.player] + New(o.item, amount, items[o.item].stackable)]
                         else rest
    {
      hide Sound, AllMoney, AllWares, HasWares, Without, New;
      ok, sold := false, false;
      if !hasChest {
        return;
      }
      sold := Withdraw(guid, o.item, amount);
      if !sold {
        return;
      }
      Pay(guid, o.price * amount);
      if !loads {
        return;
      }
      Stock(o.player, o.item, amount);
      ok := true;
    }

    /** The wares behind a sell offer go to the one who answers it, against money for the one who made it. */
    method BuyFrom(guid: Guid, seller: Guid, item: ItemId, amount: nat, totalPrice: nat) returns (ok: bool)
      requires Valid() && guid in bank && seller in bank && item in items
      modifies this`bank, this`wares
      ensures Valid() && (ok <==> totalPrice <= old(bank[guid]))
      ensures !ok ==> bank == old(bank) && wares == old(wares)
      ensures ok ==>
                var paid := old(bank)[guid := old(bank[guid]) - totalPrice];
                bank == paid[seller := paid[seller] + totalPrice]
      ensures Money() == old(Money())
      ensures forall k :: Wares(k) == old(Wares(k)) + if ok && k == item then amount else 0
      ensures Hands(old(wares), wares, guid, item, if ok then amount else 0)
      ensures ok ==> wares == old(wares)[guid := old(wares)[guid] + New(item, amount, items[item].stackable)]
    {
      hide Sound, AllMoney, AllWares, New;
      ok := false;
      if totalPrice > bank[guid] {
        return;
      }
      Pay(guid, 0 - totalPrice);
      Stock(guid, item, amount);
      Pay(seller, totalPrice);
      ok := true;
    }

    /** What remains of an offer; none is no offer. */
    method Reduce(id: OfferId, amount: nat)
      requires Valid() && id in offers && 1 <= amount <= offers[id].amount
      modifies this`offers
      ensures Valid() && offers == Reduced(old(offers), id, amount)
      ensures Money() == old(Money()) - if old(offers)[id].action.Buy? then old(offers)[id].price * amount else 0
      ensures forall k :: Wares(k) == old(Wares(k)) - if old(offers)[id].action.Sell? &&
              k == old(offers)[id].item then amount else 0
    {
      hide Sound, AllMoney, AllWares;
      var offer := offers[id];
      if offer.amount == amount {
        DeleteOffer(id);
      } else {
        LessEscrow(offer.price, offer.amount, amount);
        PutOffer(id, offer.(amount := offer.amount - amount));
      }
    }

    /** Whether an offer can be accepted, whoever is to receive the wares. */
    ghost predicate CanAccept(guid: Guid, id: OfferId, amount: nat, admitted: bool, hasChest: bool)
      requires guid in bank && guid in wares
      reads this
    {
      admitted && 1 <= amount <= MAX_AMOUNT && id in offers && amount <= offers[id].amount &&
      match offers[id].action
      case Buy => hasChest && HasWares(guid, offers[id].item, amount)
      case Sell => offers[id].price * amount <= bank[guid]
    }

    /** playerAcceptMarketOffer: money and wares change hands in step with the offer. The one way to break the
        balance is a buyer who cannot be loaded: then the seller keeps the price, the wares are gone, and
        the offer stands. */
    method AcceptOffer(guid: Guid, created: int, counter: nat, amount: nat, admitted: bool, hasChest: bool, loads: bool)
      returns (ok: bool, id: OfferId)
      requires Valid() && guid in bank
      modifies this`bank, this`wares, this`offers
      ensures Valid() && bank.Keys == old(bank).Keys && (id != 0 ==> id in old(offers))
      ensures admitted && 1 <= amount <= MAX_AMOUNT ==> Found(old(offers), created, counter, id)
      ensures ok <==>
              id != 0 && old(CanAccept(guid, id, amount, admitted, hasChest)) &&
              (old(offers)[id].action.Buy? ==> loads)
      ensures offers == if ok then Reduced(old(offers), id, amount) else old(offers)
      ensures id != 0 && old(CanAccept(guid, id, amount, admitted, hasChest)) ==>
                var o := old(offers)[id];
                if o.action.Buy? then Passed(old(wares), wares, guid, o.player, o.item, amount,
                  if loads then amount else 0)
                else Hands(old(wares), wares, guid, o.item, amount)
      ensures id != 0 && old(CanAccept(guid, id, amount, admitted, hasChest)) ==>
                var o := old(offers)[id];
                var rest := old(wares)[guid := Without(old(wares)[guid], o.item, amount)];
                var coming := New(o.item, amount, items[o.item].stackable);
                if o.action.Sell? then
                  var paid := old(bank)[guid := old(bank)[guid] - o.price * amount];
                  bank == paid[o.player := paid[o.player] + o.price * amount] &&
                  wares == old(wares)[guid := old(wares)[guid] + coming]
                else
                  bank == old(bank)[guid := old(bank)[guid] + o.price * amount] &&
                  wares == if loads then rest[o.player := rest[o.player] + coming] else rest
      ensures !(id != 0 && old(CanAccept(guid, id, amount, admitted, hasChest))) ==>
                bank == old(bank) && wares == old(wares)
      ensures var lost := id != 0 && old(CanAccept(guid, id, amount, admitted, hasChest)) &&
              old(offers)[id].action.Buy? && !loads;
              Money() == old(Money()) + (if lost then old(offers)[id].price * amount else 0) &&
              forall k :: Wares(k) == old(Wares(k)) - if lost && k == old(offers)[id].item then amount else 0
    {
      hide Sound, AllMoney, AllWares, HasWares, Reduced, Without, New, CountOf, Hands, Passed;
      ok, id := false, 0;
      if amount == 0 || amount > MAX_AMOUNT || !admitted {
        return;
      }
      id := GetOfferIdByCounter(created, counter);
      if id == 0 || amount > offers[id].amount {
        return;
      }
      if offers[id].action.Buy? {
        ok := AcceptBuyOffer(guid, id, amount, hasChest, loads);
      } else {
        ok := AcceptSellOffer(guid, id, amount);
      }
    }

    method AcceptBuyOffer(guid: Guid, id: OfferId, amount: nat, hasChest: bool, loads: bool) returns (ok: bool)
      requires Valid() && guid in bank && id in offers && offers[id].action.Buy? && 1 <= amount <= offers[id].amount
      modifies this`bank, this`wares, this`offers
      ensures Valid()
      ensures var o := old(offers)[id];
              var taken := hasChest && old(HasWares(guid, o.item, amount));
              var rest := old(wares)[guid := Without(old(wares)[guid], o.item, amount)];
              (ok <==> taken && loads) &&
              offers == (if ok then Reduced(old(offers), id, amount) else old(offers)) &&
              if !taken then bank == old(bank) && wares == old(wares)
              else bank == old(bank)[guid := old(bank)[guid] + o.price * amount] &&
                   wares == (if !loads then rest
                             else rest[o.player := rest[o.player] + New(o.item, amount, items[o.item].stackable)]) &&
                   Passed(old(wares), wares, guid, o.player, o.item, amount, if loads then amount else 0)
      ensures var o := old(offers)[id];
              var lost := hasChest && old(HasWares(guid, o.item, amount)) && !loads;
              Money() == old(Money()) + (if lost then o.price * amount else 0) &&
              forall k :: Wares(k) == old(Wares(k)) - if lost && k == o.item then amount else 0
    {
      hide Sound, AllMoney, AllWares, HasWares, Reduced, Without, New, CountOf, Hands, Passed;
      var sold;
      ok, sold := SellTo(guid, offers[id], amount, hasChest, loads);
      if ok {
        Reduce(id, amount);
      }
    }

    method AcceptSellOffer(guid: Guid, id: OfferId, amount: nat) returns (ok: bool)
      requires Valid() && guid in bank && id in offers && offers[id].action.Sell? && 1 <= amount <= offers[id].amount
      modifies this`bank, this`wares, this`offers
      ensures Valid() && (ok <==> old(offers[id].price * amount <= bank[guid]))
      ensures !ok ==> bank == old(bank) && wares == old(wares) && offers == old(offers)
      ensures ok ==>
                var o := old(offers)[id];
                var paid := old(bank)[guid := old(bank)[guid] - o.price * amount];
                offers == Reduced(old(offers), id, amount) &&
                bank == paid[o.player := paid[o.player] + o.price * amount] &&
                wares == old(wares)[guid := old(wares)[guid] + New(o.item, amount, items[o.item].stackable)] &&
                Hands(old(wares), wares, guid, o.item, amount)
      ensures Money() == old(Money()) && forall k :: Wares(k) == old(Wares(k))
    {
      hide Sound, AllMoney, AllWares, HasWares, Reduced, Without, New, CountOf, Hands, Passed;
      var offer := offers[id];
      ok := BuyFrom(guid, offer.player, offer.item, amount, offer.price * amount);
      if ok {
        Reduce(id, amount);
      }
    }

    /** One expired buy offer: the money goes back to the player who made it. */
    method ReturnMoney(id: OfferId)
      requires Valid() && id in offers && offers[id].action.Buy?
      modifies this`bank, this`offers
      ensures Valid() && offers == old(offers) - {id}
      ensures var o := old(offers)[id]; bank == old(bank)[o.player := old(bank)[o.player] + Escrow(o)]
      ensures Money() == old(Money()) && forall k :: Wares(k) == old(Wares(k))
    {
      hide Sound, AllMoney, AllWares;
      var offer := offers[id];
      Pay(offer.player, offer.price * offer.amount);
      DeleteOffer(id);
    }

    /** One expired sell offer: the wares go back to the player who made it. */
    method ReturnWares(id: OfferId)
      requires Valid() && id in offers && offers[id].action.Sell?
      modifies this`wares, this`offers
      ensures Valid() && offers == old(offers) - {id}
      ensures var o := old(offers)[id]; Hands(old(wares), wares, o.player, o.item, o.amount)
      ensures Money() == old(Money()) && forall k :: Wares(k) == old(Wares(k))
    {
      hide Sound, AllMoney, AllWares, CountOf;
      var offer := offers[id];
      Stock(offer.player, offer.item, offer.amount);
      DeleteOffer(id);
    }

    method ExpireBuyOffers(lastExpireDate: int)
      requires Valid()
      modifies this`bank, this`offers
      ensures Valid() && bank.Keys == old(bank).Keys
      ensures offers == old(offers) - BuysOver(old(offers), lastExpireDate)
      ensures forall g | g in bank ::
                bank[g] == old(bank)[g] + OwedMoney(old(offers), BuysOver(old(offers), lastExpireDate), g)
      ensures Money() == old(Money()) && forall k :: Wares(k) == old(Wares(k))
    {
      hide Sound, AllMoney, AllWares, Valid, OwedMoney, OwedWares, Escrow;
      var expired := set i | i in offers && offers[i].action.Buy? && offers[i].created <= lastExpireDate;
      ghost var all, done := expired, {};
      forall g ensures OwedMoney(offers, {}, g) == 0 {
        NothingOwed(offers, g, 0);
      }
      while expired != {}
        invariant Valid() && bank.Keys == old(bank).Keys && expired <= all && done == all - expired
        invariant offers == old(offers) - done
        invariant forall g | g in bank :: bank[g] == old(bank)[g] + OwedMoney(old(offers), done, g)
        invariant Money() == old(Money()) && forall k :: Wares(k) == old(Wares(k))
        decreases expired
      {
        var id :| id in expired;
        OfferKnown(id);
        ghost var offer := offers[id];
        forall g ensures OwedMoney(old(offers), done + {id}, g) ==
                         OwedMoney(old(offers), done, g) + if offer.player == g then Escrow(offer) else 0 {
          OneMoreOwed(old(offers), done, id, g, 0);
        }
        ReturnMoney(id);
        expired := expired - {id};
        done := done + {id};
      }
      assert done == all;
    }

    lemma OffersKnown()
      requires Valid()
      ensures forall i | i in offers :: offers[i].player in bank && offers[i].player in wares
    {
    }

    lemma OfferKnown(id: OfferId)
      requires Valid() && id in offers
      ensures offers[id].player in bank && offers[id].player in wares
    {
    }

    method ExpireSellOffers(lastExpireDate: int, unloadable: set<Guid>)
      requires Valid()
      modifies this`wares, this`offers
      ensures Valid() && wares.Keys == old(wares).Keys
      ensures offers == old(offers) - SellsOver(old(offers), lastExpireDate, unloadable)
      ensures forall g, k | g in wares ::
                CountOf(wares[g], k) ==
                CountOf(old(wares)[g], k) +
                  OwedWares(old(offers), SellsOver(old(offers), lastExpireDate, unloadable), g, k)
      ensures Money() == old(Money()) && forall k :: Wares(k) == old(Wares(k))
    {
      hide Sound, AllMoney, AllWares, Valid, CountOf, OwedMoney, OwedWares;
      var expired := set i | i in offers && offers[i].action.Sell? && offers[i].created <= lastExpireDate;
      ghost var done: set<OfferId> := {};
      forall g, k ensures OwedWares(offers, {}, g, k) == 0 {
        NothingOwed(offers, g, k);
      }
      while expired != {}
        invariant Valid() && wares.Keys == old(wares).Keys && done !! expired
        invariant done + (set i | i in expired && old(offers)[i].player !in unloadable) ==
                  SellsOver(old(offers), lastExpireDate, unloadable)
        invariant offers == old(offers) - done && forall i | i in expired ::
                  i in old(offers) && old(offers)[i].action.Sell?
        invariant forall g, k | g in wares ::
                    CountOf(wares[g], k) == CountOf(old(wares)[g], k) + OwedWares(old(offers), done, g, k)
        invariant Money() == old(Money()) && forall k :: Wares(k) == old(Wares(k))
        decreases expired
      {
        var id :| id in expired;
        if offers[id].player !in unloadable {
          ghost var offer := offers[id];
          forall g, k ensures OwedWares(old(offers), done + {id}, g, k) ==
                              OwedWares(old(offers), done, g, k) + if offer.player == g then Stored(offer, k) else 0 {
            OneMoreOwed(old(offers), done, id, g, k);
          }
          ReturnWares(id);
          done := done + {id};
        }
        expired := expired - {id};
      }
      assert done == SellsOver(old(offers), lastExpireDate, unloadable);
    }

    /** checkExpiredMarketOffers: every expired offer is settled and gone, but for sell offers of players who
        cannot be loaded, which stand. Everyone gets back exactly what lay behind the expired offers he made. */
    method CheckExpired(lastExpireDate: int, unloadable: set<Guid>)
      requires Valid()
      modifies this`bank, this`wares, this`offers
      ensures Valid() && bank.Keys == old(bank).Keys && wares.Keys == old(wares).Keys
      ensures offers == map i | i in old(offers) && !Settled(old(offers)[i], lastExpireDate, unloadable) ::
              old(offers)[i]
      ensures forall g | g in bank ::
                bank[g] == old(bank)[g] + OwedMoney(old(offers), BuysOver(old(offers), lastExpireDate), g)
      ensures forall g, k | g in wares ::
                CountOf(wares[g], k) ==
                CountOf(old(wares)[g], k) +
                  OwedWares(old(offers), SellsOver(old(offers), lastExpireDate, unloadable), g, k)
      ensures Money() == old(Money()) && forall k :: Wares(k) == old(Wares(k))
    {
      hide Sound, AllMoney, AllWares, Valid, CountOf, OwedMoney, OwedWares;
      ghost var overdue := SellsOver(offers, lastExpireDate, unloadable);
      ExpireBuyOffers(lastExpireDate);
      assert SellsOver(offers, lastExpireDate, unloadable) == overdue;
      forall g, k ensures OwedWares(offers, overdue, g, k) == OwedWares(old(offers), overdue, g, k) {
        SameOwed(old(offers), offers, overdue, g, k);
      }
      ExpireSellOffers(lastExpireDate, unloadable);
    }

    // ----- Runs -----

    lemma SamePlayers()
      requires Valid()
      ensures bank.Keys == wares.Keys
    {
    }

    /** Whether an offer that an event may mean is not the player's own. */
    ghost predicate NotOwn(guid: Guid, created: int, counter: nat)
      reads this`offers
    {
      forall i | i in offers && offers[i].created == created && i % 65536 == counter && offers[i].player == guid ::
        exists j | j in offers && offers[j].created == created && j % 65536 == counter :: offers[j].player != guid
    }

    /** Whether an offer that an event may mean cannot be accepted. */
    ghost predicate NotAcceptable(guid: Guid, created: int, counter: nat, amount: nat, admitted: bool, hasChest: bool)
      requires guid in bank && guid in wares
      reads this
    {
      forall i | i in offers && offers[i].created == created && i % 65536 == counter &&
                 CanAccept(guid, i, amount, admitted, hasChest) ::
        exists j | j in offers && offers[j].created == created && j % 65536 == counter ::
          !CanAccept(guid, j, amount, admitted, hasChest)
    }

    method Creating(e: Event) returns (ghost d: Deed)
      requires Valid() && e.Create? && e.guid in bank
      modifies this
      ensures Valid() && bank.Keys == old(bank).Keys && Answers(e, d)
      ensures Fits(d, old(offers)) && offers == Then(d, old(offers))
      ensures nextId == old(nextId) + if d.Makes? then 1 else 0
      ensures forall g | g in bank :: bank[g] == old(bank)[g] + MoneyOf(d, g)
      ensures forall g, k | g in wares :: CountOf(wares[g], k) == CountOf(old(wares)[g], k) + WaresOf(d, g, k)
      ensures Money() == old(Money()) - FeeOf(d) + MintedBy(d)
      ensures forall k :: Wares(k) == old(Wares(k)) - LostBy(d, k)
      ensures d.Makes? <==> old(MayCreate(e.guid, e.action, e.item, e.amount, e.price, e.share, e.maxOfferCount,
                                          e.admitted, e.hasChest))
    {
      hide Sound, AllMoney, AllWares, CountOf, Without, MayCreate, Fee;
      d := Nothing;
      var ok := CreateOffer(e.guid, e.action, e.item, e.amount, e.price, e.share, e.maxOfferCount, e.admitted,
                            e.hasChest, e.created);
      if ok {
        d := Makes(nextId - 1, Offer(e.guid, e.action, e.item, e.amount, e.price, e.created), Fee(e.share));
      }
    }

    method Settling(e: Event) returns (ghost d: Deed)
      requires Valid() && e.Expire?
      modifies this
      ensures Valid() && bank.Keys == old(bank).Keys && Answers(e, d) && nextId == old(nextId) && d.Settles?
      ensures Fits(d, old(offers)) && offers == Then(d, old(offers))
      ensures forall g | g in bank :: bank[g] == old(bank)[g] + MoneyOf(d, g)
      ensures forall g, k | g in wares :: CountOf(wares[g], k) == CountOf(old(wares)[g], k) + WaresOf(d, g, k)
      ensures Money() == old(Money()) - FeeOf(d) + MintedBy(d)
      ensures forall k :: Wares(k) == old(Wares(k)) - LostBy(d, k)
    {
      hide Sound, AllMoney, AllWares, CountOf, OwedMoney, OwedWares, Valid;
      d := Settles(offers, e.lastExpireDate, e.unloadable);
      CheckExpired(e.lastExpireDate, e.unloadable);
    }

    method Cancelling(e: Event) returns (ghost d: Deed)
      requires Valid() && e.Cancel? && e.guid in bank
      modifies this
      ensures Valid() && bank.Keys == old(bank).Keys && Answers(e, d) && nextId == old(nextId) && !d.Makes?
      ensures Fits(d, old(offers)) && offers == Then(d, old(offers))
      ensures forall g | g in bank :: bank[g] == old(bank)[g] + MoneyOf(d, g)
      ensures forall g, k | g in wares :: CountOf(wares[g], k) == CountOf(old(wares)[g], k) + WaresOf(d, g, k)
      ensures Money() == old(Money()) - FeeOf(d) + MintedBy(d)
      ensures forall k :: Wares(k) == old(Wares(k)) - LostBy(d, k)
      ensures d.Nothing? ==> !e.admitted || old(NotOwn(e.guid, e.created, e.counter))
    {
      hide Sound, AllMoney, AllWares, CountOf, New;
      d := Nothing;
      var ok, id := CancelOffer(e.guid, e.created, e.counter, e.admitted);
      if ok {
        d := TakesBack(id, old(offers)[id]);
      }
    }

    lemma Acceptable(guid: Guid, created: int, counter: nat, amount: nat, admitted: bool, hasChest: bool)
      requires guid in bank && guid in wares
      ensures forall i | i in offers && CanAccept(guid, i, amount, admitted, hasChest) ::
                admitted && 1 <= amount <= offers[i].amount && amount <= MAX_AMOUNT &&
                (offers[i].action.Sell? ==> offers[i].price * amount <= bank[guid])
      ensures !(admitted && 1 <= amount <= MAX_AMOUNT) ==>
                NotAcceptable(guid, created, counter, amount, admitted, hasChest)
      ensures Found(offers, created, counter, 0) ==>
                NotAcceptable(guid, created, counter, amount, admitted, hasChest)
      ensures forall i | i in offers && !CanAccept(guid, i, amount, admitted, hasChest) &&
                         offers[i].created == created && i % 65536 == counter ::
                NotAcceptable(guid, created, counter, amount, admitted, hasChest)
    {
    }

    method Accepting(e: Event) returns (ghost d: Deed)
      requires Valid() && e.Accept? && e.guid in bank
      modifies this
      ensures Valid() && bank.Keys == old(bank).Keys && Answers(e, d) && nextId == old(nextId) && !d.Makes?
      ensures Fits(d, old(offers)) && offers == Then(d, old(offers))
      ensures forall g | g in bank :: bank[g] == old(bank)[g] + MoneyOf(d, g)
      ensures forall g, k | g in wares :: CountOf(wares[g], k) == CountOf(old(wares)[g], k) + WaresOf(d, g, k)
      ensures Money() == old(Money()) - FeeOf(d) + MintedBy(d)
      ensures forall k :: Wares(k) == old(Wares(k)) - LostBy(d, k)
      ensures d.Nothing? ==>
                old(NotAcceptable(e.guid, e.created, e.counter, e.amount, e.admitted, e.hasChest))
    {
      hide Sound, AllMoney, AllWares, CountOf, New, Without, HasWares, Valid, Reduced, MoneyOf, WaresOf,
        Possible, CanAccept, NotAcceptable, Hands, Passed;
      d := Nothing;
      SamePlayers();
      OffersKnown();
      Acceptable(e.guid, e.created, e.counter, e.amount, e.admitted, e.hasChest);
      NothingBrings();
      var ok, id := AcceptOffer(e.guid, e.created, e.counter, e.amount, e.admitted, e.hasChest, e.loads);
      if id != 0 && old(CanAccept(e.guid, id, e.amount, e.admitted, e.hasChest)) {
        d := Accepts(e.guid, id, old(offers)[id], e.amount, ok);
        AcceptBringsMoney(d, old(bank), bank);
        AcceptBringsWares(d, old(wares), wares);
      }
    }

    /** One event and what it comes to. Nothing comes of it only where it is refused. */
    method Step(e: Event) returns (ghost d: Deed)
      requires Valid() && Possible(e, bank.Keys)
      modifies this
      ensures Valid() && bank.Keys == old(bank).Keys && Answers(e, d)
      ensures Fits(d, old(offers)) && offers == Then(d, old(offers))
      ensures nextId == old(nextId) + if d.Makes? then 1 else 0
      ensures forall g | g in bank :: bank[g] == old(bank)[g] + MoneyOf(d, g)
      ensures forall g, k | g in wares :: CountOf(wares[g], k) == CountOf(old(wares)[g], k) + WaresOf(d, g, k)
      ensures Money() == old(Money()) - FeeOf(d) + MintedBy(d)
      ensures forall k :: Wares(k) == old(Wares(k)) - LostBy(d, k)
      ensures e.Create? ==>
                (d.Makes? <==> old(MayCreate(e.guid, e.action, e.item, e.amount, e.price, e.share, e.maxOfferCount,
                                             e.admitted, e.hasChest)))
      ensures e.Cancel? && d.Nothing? ==> !e.admitted || old(NotOwn(e.guid, e.created, e.counter))
      ensures e.Accept? && d.Nothing? ==>
                old(NotAcceptable(e.guid, e.created, e.counter, e.amount, e.admitted, e.hasChest))
    {
      hide Valid, Answers, Fits, Then, MoneyOf, WaresOf, AllMoney, AllWares, CountOf, FeeOf, MintedBy, LostBy,
        MayCreate, NotOwn, NotAcceptable;
      SamePlayers();
      match e {
        case Create(guid, action, item, amount, price, share, maxOfferCount, admitted, hasChest, created) =>
          d := Creating(e);
        case Cancel(guid, created, counter, admitted) =>
          d := Cancelling(e);
        case Accept(guid, created, counter, amount, admitted, hasChest, loads) =>
          d := Accepting(e);
        case Expire(lastExpireDate, unloadable) =>
          d := Settling(e);
      }
    }

    /** Over any run every player's money and wares are what he had and what the deeds brought him, and the offers
        that stand are what the deeds left. The money in banks and behind buy offers falls by the fees, and the
        wares of every item, with players and behind sell offers, stay as many, but for the losses: each is a
        sale to a buyer who could not be loaded, which adds its price and takes its wares away. */
    method Run(events: seq<Event>) returns (ghost deeds: seq<Deed>)
      requires Valid() && forall e | e in events :: Possible(e, bank.Keys)
      modifies this
      ensures Valid() && bank.Keys == old(bank).Keys && nextId == old(nextId) + Made(deeds)
      ensures AnswersAll(events, deeds)
      ensures FitAll(deeds, old(offers)) && offers == ThenAll(deeds, old(offers))
      ensures forall g | g in bank :: bank[g] == old(bank)[g] + MoneyIn(deeds, g)
      ensures forall g, k | g in wares :: CountOf(wares[g], k) == CountOf(old(wares)[g], k) + WaresIn(deeds, g, k)
      ensures Money() == old(Money()) - Fees(deeds) + Minted(deeds)
      ensures forall k :: Wares(k) == old(Wares(k)) - LostOf(deeds, k)
      decreases |events|
    {
      hide Sound, AllMoney, AllWares, HasWares, CountOf, Valid, Minted, LostOf, MoneyIn, WaresIn, Fees, Made, Then,
        ThenAll, FitAll, Fits, MoneyOf, WaresOf, FeeOf, MintedBy, LostBy, Answers, Possible;
      deeds := [];
      NoDeeds(offers);
      SamePlayers();
      if events != [] {
        assert events[0] in events && forall e | e in events[1..] :: e in events;
        ghost var d := Step(events[0]);
        SamePlayers();
        deeds := Run(events[1..]);
        SamePlayers();
        OneDeed(d, deeds, old(offers));
        deeds := [d] + deeds;
      }
    }
  }

  /** The loss does happen: five items sold to a buyer who cannot be loaded leave five coins more and no
      items, and the offer still stands. */
  method UnloadableBuyer() returns (m: Market, ghost gain: int, ghost wares: int)
    ensures gain == 5 && wares == -5 && 1 in m.offers && m.offers[1].amount == 5
  {
    hide Total, Sound, AllMoney, AllWares;
    var sold := [Ware(1, 5, true)];
    CountPush([], Ware(1, 5, true), 1);
    assert [] + sold == sold;
    assert CountOf(sold, 1) == 5;
    OneWareIsSound(sold[0], map[1 := Kind(true, true)]);
    m := new Market(map[1 := Kind(true, true)], map[1 := 1000, 2 := 0], map[1 := [], 2 := sold]);
    var made := m.CreateOffer(1, Buy, 1, 5, 1, 0, 0, true, true, 0);
    assert made && m.offers == map[1 := Offer(1, Buy, 1, 5, 1, 0)];
    ghost var before, waresBefore := m.Money(), m.Wares(1);
    var ok, id := m.AcceptOffer(2, 0, 1, 5, true, true, false);
    assert id == 1;
    gain, wares := m.Money() - before, m.Wares(1) - waresBefore;
  }

  lemma OneWareIsSound(w: Ware, items: map<ItemId, Kind>)
    requires w.item in items && items[w.item].stackable && 1 <= w.count <= STACK
    ensures Sound([w], items) && Sound([], items)
  {
  }
}
