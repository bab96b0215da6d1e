/** The wheel of four buckets that decaying items turn on, one bucket a tick of 250 ms. */
module DecayWheel {

  const DECAY_INTERVAL := 250
  const DECAY_BUCKETS := 4
  const TURN := DECAY_INTERVAL * DECAY_BUCKETS

  class Item {
    var canDecay: bool
    var duration: int
    var decaying: bool
    var useCount: int
  }

  // ----- When an item is due -----

  /** How many ticks until the given bucket is read. */
  ghost function Distance(bucket: nat, lastBucket: nat): nat
    requires bucket < DECAY_BUCKETS && lastBucket < DECAY_BUCKETS
  {
    (bucket + DECAY_BUCKETS - 1 - lastBucket) % DECAY_BUCKETS + 1
  }

  /** In how many ticks an item leaves whose bucket is read in `distance` ticks: each reading takes up to a
      second off, and a rest of 875 ms or more earns one tick longer. */
  ghost function Due(distance: nat, duration: int): nat
    decreases duration
  {
    if duration < TURN + 875 then distance
    else if duration < TURN + TURN then distance + 1
    else distance + Due(DECAY_BUCKETS, duration - TURN)
  }

  /** The same, from the duration an item is placed with. */
  ghost function Lifetime(duration: nat): nat {
    if duration < TURN then 1 else DECAY_BUCKETS * (duration / TURN) + if duration % TURN >= 875 then 1 else 0
  }

  lemma LifetimePositive()
    ensures forall duration: nat :: Lifetime(duration) > 0
  {
  }

  lemma {:induction false} DueWhenPlaced(duration: nat)
    ensures Due(if duration < TURN then 1 else DECAY_BUCKETS, duration) == Lifetime(duration)
  {
    if duration >= TURN + TURN {
      DueWhenPlaced(duration - TURN);
    }
  }

  /** An item placed with a second or more leaves at most 875 ms early and never late. */
  lemma LifetimeBound(duration: nat)
    requires duration >= TURN
    ensures 0 <= duration - DECAY_INTERVAL * Lifetime(duration) < 875
  {
  }

  // ----- The wheel -----

  /** What transformItem makes of an item: an object (the same or a new one) and its attributes. */
  datatype Stage = Stage(item: Item, canDecay: bool, duration: nat)

  /** The successive transformations of an item that decays, were each of them to decay at once. */
  type Chain = seq<Stage>

  /** The stage at which the item comes to rest: the first with time left, if all before can decay. */
  ghost function Settles(chain: Chain): Chain {
    if chain == [] || !chain[0].canDecay then []
    else if chain[0].duration > 0 then [chain[0]]
    else Settles(chain[1..])
  }

  lemma {:induction false} SettlesWhere(chain: Chain)
    ensures |Settles(chain)| <= 1
    ensures forall s | s in Settles(chain) :: s in chain && s.canDecay && s.duration > 0
  {
    if chain != [] {
      SettlesWhere(chain[1..]);
    }
  }

  ghost function Started(chain: Chain): seq<Item> {
    if Settles(chain) == [] then [] else [Settles(chain)[0].item]
  }

  ghost function Objects(chain: Chain): set<Item> {
    set s | s in chain :: s.item
  }

  lemma StartedStep(chain: Chain)
    ensures chain == [] ==> Started(chain) == []
    ensures chain != [] ==>
              chain[0].item in Objects(chain) && Objects(chain[1..]) <= Objects(chain) &&
              Started(chain) == if !chain[0].canDecay then [] else if chain[0].duration > 0 then [chain[0].item]
                                else Started(chain[1..])
  {
    if chain != [] {
      assert chain[0] in chain;
    }
  }

  // ----- What decay makes of items -----

  /** What decay changes about an item. */
  datatype Form = Form(canDecay: bool, duration: int, decaying: bool)

  ghost function Forms(all: set<Item>): (m: map<Item, Form>)
    ensures m.Keys == all
    reads all`canDecay, all`duration, all`decaying
  {
    map x | x in all :: Form(x.canDecay, x.duration, x.decaying)
  }

  lemma FormsShow(all: set<Item>)
    ensures forall x | x in all :: Forms(all)[x] == Form(x.canDecay, x.duration, x.decaying)
  {
  }

  /** An item decays through the stages of a chain: each is carried out up to the first that comes to rest,
      because it cannot decay or because it has time left, when it is marked. */
  ghost function Carried(chain: Chain, m: map<Item, Form>): (r: map<Item, Form>)
    ensures Objects(chain) <= m.Keys ==> r.Keys == m.Keys
  {
    StartedStep(chain);
    if chain == [] then m
    else
      var s := chain[0];
      if !s.canDecay || s.duration > 0 then m[s.item := Form(s.canDecay, s.duration, s.canDecay)]
      else Carried(chain[1..], m[s.item := Form(true, 0, false)])
  }

  /** The item that vanishes when no stage comes to rest. */
  ghost function Vanished(item: Item, chain: Chain): seq<Item> {
    if chain == [] then [item]
    else if !chain[0].canDecay || chain[0].duration > 0 then []
    else Vanished(chain[0].item, chain[1..])
  }

  lemma CarriedStep(item: Item, chain: Chain, m: map<Item, Form>)
    ensures chain == [] ==> Carried(chain, m) == m && Vanished(item, chain) == [item]
    ensures chain != [] ==>
              var s := chain[0];
              var n := m[s.item := Form(s.canDecay, s.duration, false)];
              if !s.canDecay then Carried(chain, m) == n && Vanished(item, chain) == []
              else if s.duration > 0
              then Carried(chain, m) == n[s.item := n[s.item].(decaying := true)] && Vanished(item, chain) == []
              else Carried(chain, m) == Carried(chain[1..], n) && Vanished(item, chain) == Vanished(s.item, chain[1..])
  {
    if chain != [] {
      var s := chain[0];
      assert m[s.item := Form(s.canDecay, s.duration, false)][s.item := Form(s.canDecay, s.duration, true)] ==
             m[s.item := Form(s.canDecay, s.duration, true)];
    }
  }

  /** The first stage at rest is what has become of the item; nothing but the stages up to it is touched. */
  lemma {:induction false} ComesToRest(chain: Chain, m: map<Item, Form>, k: nat)
    requires k < |chain| && (!chain[k].canDecay || chain[k].duration > 0)
    requires forall i | 0 <= i < k :: chain[i].canDecay && chain[i].duration == 0
    ensures chain[k].item in Carried(chain, m)
    ensures Carried(chain, m)[chain[k].item] ==
            Form(chain[k].canDecay, chain[k].duration, chain[k].canDecay && chain[k].duration > 0)
    ensures forall x | x in m && x !in Objects(chain[..k + 1]) :: x in Carried(chain, m) && Carried(chain, m)[x] == m[x]
    ensures forall item :: Vanished(item, chain) == []
  {
    assert chain[0] in chain[..k + 1];
    if k > 0 {
      var s := chain[0];
      forall i | 0 <= i < k - 1 ensures chain[1..][i].canDecay && chain[1..][i].duration == 0 {
        assert chain[1..][i] == chain[i + 1];
      }
      ComesToRest(chain[1..], m[s.item := Form(true, 0, false)], k - 1);
      forall x | x in Objects(chain[1..][..k]) ensures x in Objects(chain[..k + 1]) {
        var t :| t in chain[1..][..k] && t.item == x;
        assert t in chain[..k + 1];
      }
    }
  }

  /** What reading one entry of a bucket makes of the items. */
  ghost function Aged(item: Item, chain: Chain, m: map<Item, Form>): (r: map<Item, Form>)
    requires item in m
    ensures Objects(chain) <= m.Keys ==> r.Keys == m.Keys
  {
    var f := m[item];
    if !f.canDecay then m[item := f.(decaying := false)]
    else if f.duration >= TURN + 875 then m[item := f.(duration := f.duration - TURN)]
    else Carried(chain, m[item := f.(duration := if f.duration < TURN then 0 else f.duration - TURN)])
  }

  ghost function AgedAway(item: Item, chain: Chain, m: map<Item, Form>): seq<Item>
    requires item in m
  {
    if m[item].canDecay && m[item].duration < TURN + 875 then Vanished(item, chain) else []
  }

  /** What reading the entries of a list in turn makes of the items, and who vanishes. */
  ghost function AgedAll(list: seq<Item>, heirs: map<Item, Chain>, m: map<Item, Form>): (map<Item, Form>, seq<Item>) {
    if list == [] then (m, [])
    else
      var (n, gone) := AgedAll(list[..|list| - 1], heirs, m);
      var x := list[|list| - 1];
      if x in n then (Aged(x, ChainOf(heirs, x), n), gone + AgedAway(x, ChainOf(heirs, x), n)) else (n, gone)
  }

  lemma NoneAged(heirs: map<Item, Chain>, m: map<Item, Form>)
    ensures AgedAll([], heirs, m) == (m, [])
  {
  }

  lemma AgedNext(was: seq<Item>, done: nat, heirs: map<Item, Chain>, m: map<Item, Form>, n: map<Item, Form>,
                 gone: seq<Item>)
    requires done < |was| && AgedAll(was[..done], heirs, m) == (n, gone) && was[done] in n
    ensures AgedAll(was[..done + 1], heirs, m) ==
            (Aged(was[done], ChainOf(heirs, was[done]), n), gone + AgedAway(was[done], ChainOf(heirs, was[done]), n))
  {
    assert was[..done + 1][..done] == was[..done];
  }

  type Buckets = b: seq<seq<Item>> | |b| == DECAY_BUCKETS witness [[], [], [], []]

  ghost function InBuckets(b: Buckets): multiset<Item> {
    multiset(b[0]) + multiset(b[1]) + multiset(b[2]) + multiset(b[3])
  }

  lemma BucketChange(b: Buckets, i: nat, list: seq<Item>)
    requires i < DECAY_BUCKETS
    ensures InBuckets(b[i := list]) + multiset(b[i]) == InBuckets(b) + multiset(list)
  {
  }

  /** x lies in a bucket and, with that much time left, leaves the wheel at the n-th tick from now. */
  ghost predicate DueAt(b: Buckets, lastBucket: nat, x: Item, duration: int, n: nat)
    requires lastBucket < DECAY_BUCKETS
  {
    exists i: nat | i < DECAY_BUCKETS :: x in b[i] && Due(Distance(i, lastBucket), duration) == n
  }

  ghost predicate Grown(before: Buckets, after: Buckets) {
    forall i: nat | i < DECAY_BUCKETS :: before[i] <= after[i]
  }

  lemma GrownTwice(a: Buckets, b: Buckets, c: Buckets)
    requires Grown(a, b) && Grown(b, c)
    ensures Grown(a, c)
  {
  }

  lemma DueWhenGrown(before: Buckets, after: Buckets, lastBucket: nat, x: Item, duration: int, n: nat)
    requires lastBucket < DECAY_BUCKETS && Grown(before, after) && DueAt(before, lastBucket, x, duration, n)
    ensures DueAt(after, lastBucket, x, duration, n)
  {
    var i: nat :| i < DECAY_BUCKETS && x in before[i] && Due(Distance(i, lastBucket), duration) == n;
    assert x in after[i];
  }

  ghost function Erased(b: Buckets, i: nat, it: nat): Buckets
    requires i < DECAY_BUCKETS && it < |b[i]|
  {
    b[i := b[i][..it] + b[i][it + 1..]]
  }

  lemma OnWheel(b: Buckets, i: nat, it: nat)
    requires i < DECAY_BUCKETS && it < |b[i]|
    ensures b[i][it] in InBuckets(b)
  {
  }

  ghost function NewBucket(bucket: nat, duration: nat): nat {
    (bucket + (duration + DECAY_INTERVAL / 2) / 1000) % DECAY_BUCKETS
  }

  lemma RestDecides(bucket: nat, duration: nat)
    requires bucket < DECAY_BUCKETS && duration < TURN
    ensures NewBucket(bucket, duration) == if duration < 875 then bucket else (bucket + 1) % DECAY_BUCKETS
    ensures (bucket + 1) % DECAY_BUCKETS != bucket && (bucket + 1) % DECAY_BUCKETS < DECAY_BUCKETS
  {
  }

  lemma LessOne(m: multiset<Item>, item: Item)
    requires item in m
    ensures forall x :: (m - multiset{item})[x] == m[x] - if x == item then 1 else 0
  {
  }

  lemma TakenOut(wheel: multiset<Item>, waiting: multiset<Item>, released: multiset<Item>, x: Item)
    requires x in wheel
    ensures wheel - multiset{x} + waiting == wheel + waiting - multiset{x}
    ensures wheel - multiset{x} + waiting + released == wheel + waiting + released - multiset{x}
    ensures forall y ::
              (wheel + waiting - multiset{x})[y] == (wheel + waiting)[y] - if y == x then 1 else 0
  {
  }

  lemma NoMore(tracked: multiset<Item>, started: seq<Item>, x: Item)
    ensures tracked - multiset{x} + multiset(started) <= tracked + multiset(started)
    ensures tracked - multiset{x} <= tracked + multiset(started) && tracked <= tracked + multiset(started)
  {
  }

  lemma BackAgain(m: multiset<Item>, x: Item)
    ensures x in m ==> m - multiset{x} + multiset{x} == m
  {
  }

  /** What the wheel looks at. */
  datatype Look = Look(canDecay: bool, duration: int)

  ghost function Looks(all: set<Item>): (m: map<Item, Look>)
    ensures m.Keys == all
    reads all`canDecay, all`duration
  {
    map x | x in all :: Look(x.canDecay, x.duration)
  }

  ghost predicate Stays(l: Look) { l.canDecay && l.duration >= TURN + TURN }
  ghost predicate Moves(l: Look) { l.canDecay && TURN + 875 <= l.duration < TURN + TURN }
  ghost predicate Expires(l: Look) { l.canDecay && l.duration < TURN + 875 }

  ghost function Later(l: Look): Look { l.(duration := l.duration - TURN) }

  /** What became of the first `done` entries of the bucket that is read: `kept` is what it holds of them,
      `next` what the next bucket gained, `gone` who decayed. */
  ghost predicate Read(was: seq<Item>, done: nat, before: map<Item, Look>, now: map<Item, Look>,
                       kept: seq<Item>, next: seq<Item>, gone: seq<(Item, nat)>, tick: nat) {
    done <= |was| &&
    (forall j | 0 <= j < done && was[j] in before && Stays(before[was[j]]) ::
       was[j] in kept && was[j] in now && now[was[j]] == Later(before[was[j]])) &&
    (forall j | 0 <= j < done && was[j] in before && Moves(before[was[j]]) ::
       was[j] in next && was[j] in now && now[was[j]] == Later(before[was[j]])) &&
    (forall j | 0 <= j < done && was[j] in before && Expires(before[was[j]]) :: (was[j], tick) in gone) &&
    (forall e | e in gone :: e.1 == tick && e.0 in was[..done] && e.0 in before && Expires(before[e.0])) &&
    (forall x | x in kept :: x in was[..done] && x in before && Stays(before[x])) &&
    (forall x | x in next :: x in was[..done] && x in before && Moves(before[x]))
  }

  lemma NothingRead(was: seq<Item>, looks: map<Item, Look>, tick: nat)
    ensures Read(was, 0, looks, looks, [], [], [], tick)
  {
  }

  lemma ReadWithin(was: seq<Item>, done: nat, before: map<Item, Look>, now: map<Item, Look>,
                   kept: seq<Item>, next: seq<Item>, gone: seq<(Item, nat)>, tick: nat)
    requires Read(was, done, before, now, kept, next, gone, tick)
    ensures forall x | x in kept + next :: x in was[..done]
  {
  }

  lemma ReadOne(was: seq<Item>, done: nat, before: map<Item, Look>, now: map<Item, Look>, after: map<Item, Look>,
                kept: seq<Item>, next: seq<Item>, gone: seq<(Item, nat)>, tick: nat)
    requires done < |was| && Read(was, done, before, now, kept, next, gone, tick)
    requires was[done] in before && was[done] !in was[..done]
    requires forall x | x in kept + next && x in now :: x in after && after[x] == now[x]
    requires Stays(before[was[done]]) || Moves(before[was[done]]) ==>
               was[done] in after && after[was[done]] == Later(before[was[done]])
    ensures var x := was[done];
            Read(was, done + 1, before, after, if Stays(before[x]) then kept + [x] else kept,
                 if Moves(before[x]) then next + [x] else next,
                 if Expires(before[x]) then gone + [(x, tick)] else gone, tick)
  {
    var x := was[done];
    assert was[..done + 1] == was[..done] + [x];
    forall j | 0 <= j < done ensures was[j] in was[..done] {
      assert was[j] == was[..done][j];
    }
  }

  /** The wheel while `bucket` is read: `list` is in it, `next` was added behind the next one. */
  ghost function Shape(start: Buckets, bucket: nat, list: seq<Item>, next: seq<Item>): Buckets
    requires bucket < DECAY_BUCKETS
  {
    var n := (bucket + 1) % DECAY_BUCKETS;
    start[bucket := list][n := start[n] + next]
  }

  lemma ShapeStep(start: Buckets, bucket: nat, kept: seq<Item>, rest: seq<Item>, next: seq<Item>)
    requires bucket < DECAY_BUCKETS && rest != []
    ensures Shape(start, bucket, kept + rest, next)[bucket] == kept + rest && (kept + rest)[|kept|] == rest[0]
    ensures Erased(Shape(start, bucket, kept + rest, next), bucket, |kept|) == Shape(start, bucket, kept + rest[1..],
            next)
    ensures Shape(start, bucket, kept + rest[1..], next)[(bucket + 1) % DECAY_BUCKETS := Shape(start, bucket,
            kept + rest, next)[(bucket + 1) % DECAY_BUCKETS] + [rest[0]]] ==
            Shape(start, bucket, kept + rest[1..], next + [rest[0]])
    ensures kept + [rest[0]] + rest[1..] == kept + rest
  {
    var n := (bucket + 1) % DECAY_BUCKETS;
    assert start[n] + (next + [rest[0]]) == start[n] + next + [rest[0]];
    assert (kept + rest)[..|kept|] == kept;
    assert (kept + rest)[|kept| + 1..] == rest[1..];
  }

  lemma Held(b: Buckets, x: Item)
    ensures x in InBuckets(b) <==> exists i: nat | i < DECAY_BUCKETS :: x in b[i]
  {
    assert x in InBuckets(b) <==> x in b[0] || x in b[1] || x in b[2] || x in b[3];
  }

  lemma ShapeStart(start: Buckets, bucket: nat)
    requires bucket < DECAY_BUCKETS
    ensures Shape(start, bucket, [] + start[bucket][0..], []) == start
    ensures start[bucket][|start[bucket]|..] == []
  {
    assert [] + start[bucket][0..] == start[bucket];
    var n := (bucket + 1) % DECAY_BUCKETS;
    assert start[n] + [] == start[n];
  }

  lemma ShapeList(start: Buckets, bucket: nat, list: seq<Item>, next: seq<Item>)
    requires bucket < DECAY_BUCKETS
    ensures Shape(start, bucket, list, next)[bucket] == list
  {
  }

  /** What was on the wheel and is not among the entries read so far is still on it. */
  lemma ShapeHolds(start: Buckets, bucket: nat, done: nat, kept: seq<Item>, next: seq<Item>, x: Item)
    requires bucket < DECAY_BUCKETS && done <= |start[bucket]|
    requires x in kept + next || (x in InBuckets(start) && x !in start[bucket][..done])
    ensures x in InBuckets(Shape(start, bucket, kept + start[bucket][done..], next))
  {
    hide InBuckets;
    var now := Shape(start, bucket, kept + start[bucket][done..], next);
    Held(start, x);
    Held(now, x);
    var n := (bucket + 1) % DECAY_BUCKETS;
    if x in kept {
      assert x in now[bucket];
    } else if x in next {
      assert x in now[n];
    } else {
      var i: nat :| i < DECAY_BUCKETS && x in start[i];
      assert start[bucket] == start[bucket][..done] + start[bucket][done..];
      assert x in now[i];
    }
  }

  lemma Twice(s: seq<Item>, i: nat, j: nat)
    requires i < j < |s| && s[i] == s[j]
    ensures multiset(s)[s[i]] >= 2
  {
    assert s == s[..i] + [s[i]] + s[i + 1..j] + [s[j]] + s[j + 1..];
  }

  lemma InOneBucket(b: Buckets, bucket: nat)
    requires bucket < DECAY_BUCKETS && forall x | x in InBuckets(b) :: InBuckets(b)[x] == 1
    ensures forall i, j | 0 <= i < j < |b[bucket]| :: b[bucket][i] != b[bucket][j]
  {
    var s := b[bucket];
    forall i, j | 0 <= i < j < |s| ensures s[i] != s[j] {
      OnWheel(b, bucket, i);
      if s[i] == s[j] {
        Twice(s, i, j);
        assert false;
      }
    }
  }

  function ChainOf(heirs: map<Item, Chain>, x: Item): Chain {
    if x in heirs then heirs[x] else []
  }

  /** What a sweep leaves alone before it reads an entry: all but the entries already read look as before,
      and what the others decay into is not on the wheel. */
  ghost predicate Untouched(start: Buckets, waiting: seq<Item>, bucket: nat, done: nat, before: map<Item, Look>,
                            looks: map<Item, Look>, tracked: multiset<Item>, heirs: map<Item, Chain>, all: set<Item>)
    requires bucket < DECAY_BUCKETS && done <= |start[bucket]| && before.Keys == looks.Keys == all
  {
    var was := start[bucket];
    (forall x | x in InBuckets(start) + multiset(waiting) && x !in was[..done] :: x in all && looks[x] == before[x]) &&
    (forall y | y in was[done..] :: Objects(ChainOf(heirs, y)) <= all && forall o | o in Objects(ChainOf(heirs, y)) ::
      o == y || o !in tracked) &&
    (forall i, j | 0 <= i < j < |was| :: was[i] != was[j]) &&
    forall x, y | x in heirs && y in heirs && x != y :: Objects(heirs[x]) !! Objects(heirs[y])
  }

  lemma UntouchedItem(start: Buckets, waiting: seq<Item>, bucket: nat, done: nat, before: map<Item, Look>,
                      looks: map<Item, Look>, tracked: multiset<Item>, heirs: map<Item, Chain>, all: set<Item>)
    requires bucket < DECAY_BUCKETS && done < |start[bucket]| && before.Keys == looks.Keys == all
    requires Untouched(start, waiting, bucket, done, before, looks, tracked, heirs, all)
    ensures var item := start[bucket][done];
            item !in start[bucket][..done] && item in all && looks[item] == before[item] &&
            Objects(ChainOf(heirs, item)) <= all && forall o | o in Objects(ChainOf(heirs, item)) ::
              o == item || o !in tracked
  {
    hide InBuckets;
    OnWheel(start, bucket, done);
    assert start[bucket][done] in start[bucket][done..];
  }

  lemma UntouchedNext(start: Buckets, waiting: seq<Item>, bucket: nat, done: nat, before: map<Item, Look>,
                      looks: map<Item, Look>, after: map<Item, Look>, tracked: multiset<Item>, left: multiset<Item>,
                      heirs: map<Item, Chain>, all: set<Item>)
    requires bucket < DECAY_BUCKETS && done < |start[bucket]| && before.Keys == looks.Keys == after.Keys == all
    requires Untouched(start, waiting, bucket, done, before, looks, tracked, heirs, all)
    requires forall x | x in tracked && x in all && x != start[bucket][done] :: after[x] == looks[x]
    requires forall x | x in InBuckets(start) + multiset(waiting) && x !in start[bucket][..done] :: x in tracked
    requires left <= tracked + multiset(Started(ChainOf(heirs, start[bucket][done])))
    ensures Untouched(start, waiting, bucket, done + 1, before, after, left, heirs, all)
  {
    hide InBuckets, Started;
    var was, item := start[bucket], start[bucket][done];
    assert was[..done + 1] == was[..done] + [item] && was[done..] == [item] + was[done + 1..];
    forall y, o | y in was[done + 1..] && o in Objects(ChainOf(heirs, y)) ensures o == y || o !in left {
      StartedWhere(ChainOf(heirs, item));
      var k :| done < k < |was| && was[k] == y;
      assert y != item;
      assert o !in Objects(ChainOf(heirs, item));
      assert o !in multiset(Started(ChainOf(heirs, item)));
    }
  }

  lemma StartedWhere(chain: Chain)
    ensures forall x | x in Started(chain) :: x in Objects(chain)
  {
    SettlesWhere(chain);
  }

  /** The departures that come to nothing when a bucket is read: of the items in it that can no longer decay. */
  ghost function Refused(list: seq<Item>, before: map<Item, Look>, now: nat): set<(Item, nat)> {
    set x | x in list && x in before && !before[x].canDecay :: (x, now + Due(1, before[x].duration))
  }

  lemma RefusedCannot(list: seq<Item>, before: map<Item, Look>, now: nat)
    ensures forall e | e in Refused(list, before, now) :: e.0 in list && e.0 in before && !before[e.0].canDecay
  {
  }

  /** Reading one bucket brings every item one tick closer, wherever it is, unless it can no longer decay. */
  lemma TickDue(start: Buckets, last: nat, bucket: nat, kept: seq<Item>, next: seq<Item>, gone: seq<(Item, nat)>,
                before: map<Item, Look>, looks: map<Item, Look>, now: nat, x: Item, i: nat)
    requires last < DECAY_BUCKETS && bucket == (last + 1) % DECAY_BUCKETS && i < DECAY_BUCKETS && x in start[i]
    requires Read(start[bucket], |start[bucket]|, before, looks, kept, next, gone, now + 1)
    requires x in before && x in looks && (i != bucket ==> looks[x] == before[x])
    ensures var n := Due(Distance(i, last), before[x].duration);
            n > 0 &&
            ((x, now + n) in Refused(start[bucket], before, now) ||
             ((n == 1 ==> (x, now + 1) in gone) &&
              (n > 1 ==> looks[x].canDecay == before[x].canDecay &&
                         DueAt(Shape(start, bucket, kept, next), bucket, x, looks[x].duration, n - 1))))
  {
    hide Read, Refused, Shape, Due, Distance;
    if i == bucket {
      TickRead(start, last, bucket, kept, next, gone, before, looks, now, x);
    } else {
      InShape(start, bucket, kept, next, i, x);
      Distances(last, bucket, i);
      DueShift(Distance(i, last), before[x].duration);
    }
  }

  lemma InShape(start: Buckets, bucket: nat, kept: seq<Item>, next: seq<Item>, i: nat, x: Item)
    requires bucket < DECAY_BUCKETS && i < DECAY_BUCKETS
    ensures (i != bucket && x in start[i]) || (i == bucket && x in kept) ||
            (i == (bucket + 1) % DECAY_BUCKETS && x in next) ==>
              x in Shape(start, bucket, kept, next)[i]
  {
  }

  /** The same in the bucket that is read. */
  lemma TickRead(start: Buckets, last: nat, bucket: nat, kept: seq<Item>, next: seq<Item>, gone: seq<(Item, nat)>,
                 before: map<Item, Look>, looks: map<Item, Look>, now: nat, x: Item)
    requires last < DECAY_BUCKETS && bucket == (last + 1) % DECAY_BUCKETS && x in start[bucket]
    requires Read(start[bucket], |start[bucket]|, before, looks, kept, next, gone, now + 1)
    requires x in before && x in looks
    ensures var n := Due(Distance(bucket, last), before[x].duration);
            n > 0 &&
            ((x, now + n) in Refused(start[bucket], before, now) ||
             ((n == 1 ==> (x, now + 1) in gone) &&
              (n > 1 ==> looks[x].canDecay == before[x].canDecay &&
                         DueAt(Shape(start, bucket, kept, next), bucket, x, looks[x].duration, n - 1))))
  {
    hide Shape, Due;
    var j :| 0 <= j < |start[bucket]| && start[bucket][j] == x;
    var n := (bucket + 1) % DECAY_BUCKETS;
    Distances(last, bucket, n);
    DueOnReading(before[x]);
    InShape(start, bucket, kept, next, bucket, x);
    InShape(start, bucket, kept, next, n, x);
  }

  lemma DueShift(distance: nat, duration: int)
    requires distance > 1
    ensures Due(distance - 1, duration) == Due(distance, duration) - 1 > 0
  {
  }

  lemma NotTwice(b: Buckets, i: nat, k: nat, x: Item)
    requires i < DECAY_BUCKETS && k < DECAY_BUCKETS && i != k && InBuckets(b)[x] <= 1
    ensures !(x in b[i] && x in b[k])
  {
  }

  lemma Closer(start: Buckets, waiting: seq<Item>, last: nat, bucket: nat, kept: seq<Item>, next: seq<Item>,
               gone: seq<(Item, nat)>, before: map<Item, Look>, looks: map<Item, Look>, tracked: multiset<Item>,
               heirs: map<Item, Chain>, all: set<Item>, now: nat, x: Item, n: nat)
    requires last < DECAY_BUCKETS && bucket == (last + 1) % DECAY_BUCKETS && before.Keys == looks.Keys == all
    requires Read(start[bucket], |start[bucket]|, before, looks, kept, next, gone, now + 1)
    requires Untouched(start, waiting, bucket, |start[bucket]|, before, looks, tracked, heirs, all)
    requires x in all && InBuckets(start)[x] <= 1 && DueAt(start, last, x, before[x].duration, n)
    ensures n > 0 &&
            ((x, now + n) in Refused(start[bucket], before, now) ||
             ((n == 1 ==> (x, now + 1) in gone) &&
              (n > 1 ==> looks[x].canDecay == before[x].canDecay &&
                         DueAt(Shape(start, bucket, kept, next), bucket, x, looks[x].duration, n - 1))))
  {
    hide InBuckets, Read, Shape, Refused;
    var i: nat :| i < DECAY_BUCKETS && x in start[i] && Due(Distance(i, last), before[x].duration) == n;
    Held(start, x);
    if i != bucket {
      NotTwice(start, i, bucket, x);
      assert start[bucket][..|start[bucket]|] == start[bucket];
    }
    TickDue(start, last, bucket, kept, next, gone, before, looks, now, x, i);
  }

  /** Between two states of the wheel every item came one tick closer, but for those refused: what was due at
      the n-th tick is due at the one before, and what was due at the first has left, as noted with the tick. */
  ghost predicate OneCloser(b: Buckets, last: nat, before: map<Item, Look>, b': Buckets, last': nat,
                            looks: map<Item, Look>, left: seq<(Item, nat)>, refused: set<(Item, nat)>, now: nat)
    requires last < DECAY_BUCKETS && last' < DECAY_BUCKETS && before.Keys == looks.Keys
  {
    forall x, n: nat | x in before && DueAt(b, last, x, before[x].duration, n) ::
      n > 0 &&
      ((x, now + n) in refused ||
       ((n == 1 ==> (x, now + 1) in left) &&
        (n > 1 ==> looks[x].canDecay == before[x].canDecay && DueAt(b', last', x, looks[x].duration, n - 1))))
  }

  /** Only what was due has left. */
  ghost predicate OnlyDue(b: Buckets, last: nat, before: map<Item, Look>, gone: seq<(Item, nat)>, tick: nat)
    requires last < DECAY_BUCKETS
  {
    forall e | e in gone ::
      e.1 == tick && e.0 in before && before[e.0].canDecay && DueAt(b, last, e.0, before[e.0].duration, 1)
  }

  lemma AllCloser(start: Buckets, waiting: seq<Item>, last: nat, bucket: nat, kept: seq<Item>, next: seq<Item>,
                  gone: seq<(Item, nat)>, before: map<Item, Look>, looks: map<Item, Look>, tracked: multiset<Item>,
                  heirs: map<Item, Chain>, all: set<Item>, now: nat)
    requires last < DECAY_BUCKETS && bucket == (last + 1) % DECAY_BUCKETS && before.Keys == looks.Keys == all
    requires Read(start[bucket], |start[bucket]|, before, looks, kept, next, gone, now + 1)
    requires Untouched(start, waiting, bucket, |start[bucket]|, before, looks, tracked, heirs, all)
    requires forall x | x in all :: InBuckets(start)[x] <= 1
    ensures OneCloser(start, last, before, Shape(start, bucket, kept, next), bucket, looks, gone,
                      Refused(start[bucket], before, now), now)
    ensures OnlyDue(start, last, before, gone, now + 1)
  {
    hide InBuckets, Read, Shape, Untouched, DueAt, Refused;
    forall x, n: nat | x in before && DueAt(start, last, x, before[x].duration, n)
      ensures n > 0 &&
              ((x, now + n) in Refused(start[bucket], before, now) ||
               ((n == 1 ==> (x, now + 1) in gone) &&
                (n > 1 ==> looks[x].canDecay == before[x].canDecay &&
                           DueAt(Shape(start, bucket, kept, next), bucket, x, looks[x].duration, n - 1))))
    {
      Closer(start, waiting, last, bucket, kept, next, gone, before, looks, tracked, heirs, all, now, x, n);
    }
    forall e | e in gone
      ensures e.1 == now + 1 && e.0 in before && before[e.0].canDecay &&
              DueAt(start, last, e.0, before[e.0].duration, 1)
    {
      DueNow(start, last, bucket, kept, next, gone, before, looks, now + 1, e);
    }
  }

  lemma DueNow(start: Buckets, last: nat, bucket: nat, kept: seq<Item>, next: seq<Item>, gone: seq<(Item, nat)>,
               before: map<Item, Look>, looks: map<Item, Look>, tick: nat, e: (Item, nat))
    requires last < DECAY_BUCKETS && bucket == (last + 1) % DECAY_BUCKETS && e in gone
    requires Read(start[bucket], |start[bucket]|, before, looks, kept, next, gone, tick)
    ensures e.1 == tick && e.0 in before && before[e.0].canDecay && DueAt(start, last, e.0, before[e.0].duration, 1)
  {
    assert start[bucket][..|start[bucket]|] == start[bucket];
    assert e.0 in start[bucket] && Distance(bucket, last) == 1;
  }

  /** Nothing is due that was not due one tick later before. */
  ghost predicate NoneNew(b: Buckets, last: nat, before: map<Item, Look>, b': Buckets, last': nat,
                          looks: map<Item, Look>)
    requires last < DECAY_BUCKETS && last' < DECAY_BUCKETS && before.Keys == looks.Keys
  {
    forall x, n: nat | x in looks && DueAt(b', last', x, looks[x].duration, n) ::
      DueAt(b, last, x, before[x].duration, n + 1)
  }

  lemma TurnAddsNothing(start: Buckets, waiting: seq<Item>, last: nat, bucket: nat, kept: seq<Item>, next: seq<Item>,
                        gone: seq<(Item, nat)>, before: map<Item, Look>, looks: map<Item, Look>,
                        tracked: multiset<Item>, heirs: map<Item, Chain>, all: set<Item>, tick: nat)
    requires last < DECAY_BUCKETS && bucket == (last + 1) % DECAY_BUCKETS && before.Keys == looks.Keys == all
    requires Read(start[bucket], |start[bucket]|, before, looks, kept, next, gone, tick)
    requires Untouched(start, waiting, bucket, |start[bucket]|, before, looks, tracked, heirs, all)
    requires forall x | x in all :: InBuckets(start)[x] <= 1
    ensures NoneNew(start, last, before, Shape(start, bucket, kept, next), bucket, looks)
  {
    hide InBuckets, Read, Shape, Untouched, DueAt;
    var now := Shape(start, bucket, kept, next);
    forall x, n: nat | x in looks && DueAt(now, bucket, x, looks[x].duration, n)
      ensures DueAt(start, last, x, before[x].duration, n + 1)
    {
      DueBefore(start, waiting, last, bucket, kept, next, gone, before, looks, tracked, heirs, all, tick, x, n);
    }
  }

  lemma DueBefore(start: Buckets, waiting: seq<Item>, last: nat, bucket: nat, kept: seq<Item>, next: seq<Item>,
                  gone: seq<(Item, nat)>, before: map<Item, Look>, looks: map<Item, Look>, tracked: multiset<Item>,
                  heirs: map<Item, Chain>, all: set<Item>, tick: nat, x: Item, n: nat)
    requires last < DECAY_BUCKETS && bucket == (last + 1) % DECAY_BUCKETS && before.Keys == looks.Keys == all
    requires Read(start[bucket], |start[bucket]|, before, looks, kept, next, gone, tick)
    requires Untouched(start, waiting, bucket, |start[bucket]|, before, looks, tracked, heirs, all)
    requires x in all && InBuckets(start)[x] <= 1
    requires DueAt(Shape(start, bucket, kept, next), bucket, x, looks[x].duration, n)
    ensures DueAt(start, last, x, before[x].duration, n + 1)
  {
    hide InBuckets, Read, Shape, Due, Untouched, Distance;
    var now := Shape(start, bucket, kept, next);
    var i: nat :| i < DECAY_BUCKETS && x in now[i] && Due(Distance(i, bucket), looks[x].duration) == n;
    ShapeCases(start, bucket, kept, next, i, x);
    if i != bucket && x in start[i] {
      ElsewhereUntouched(start, waiting, bucket, before, looks, tracked, heirs, all, x, i);
      Distances(last, bucket, i);
      DueShift(Distance(i, last), before[x].duration);
    } else {
      ReadKept(start[bucket], before, looks, kept, next, gone, tick, x);
      DueOnReading(before[x]);
      Distances(last, bucket, i);
      assert x in start[bucket] && Due(Distance(bucket, last), before[x].duration) == n + 1;
    }
  }

  /** Distances before and after the next bucket is read. */
  lemma Distances(last: nat, bucket: nat, i: nat)
    requires last < DECAY_BUCKETS && bucket == (last + 1) % DECAY_BUCKETS && i < DECAY_BUCKETS
    ensures Distance(bucket, last) == 1 && Distance(bucket, bucket) == DECAY_BUCKETS
    ensures Distance((bucket + 1) % DECAY_BUCKETS, bucket) == 1
    ensures i != bucket ==> Distance(i, last) > 1 && Distance(i, bucket) == Distance(i, last) - 1
  {
  }

  lemma ShapeCases(start: Buckets, bucket: nat, kept: seq<Item>, next: seq<Item>, i: nat, x: Item)
    requires bucket < DECAY_BUCKETS && i < DECAY_BUCKETS && x in Shape(start, bucket, kept, next)[i]
    ensures if i == bucket then x in kept else x in start[i] || (x in next && i == (bucket + 1) % DECAY_BUCKETS)
  {
  }

  lemma DueOnReading(l: Look)
    ensures Stays(l) ==> Due(1, l.duration) == Due(DECAY_BUCKETS, Later(l).duration) + 1
    ensures Moves(l) ==> Due(1, l.duration) == Due(1, Later(l).duration) + 1
    ensures Due(1, l.duration) > 0 && (Expires(l) ==> Due(1, l.duration) == 1)
    ensures Stays(l) || Moves(l) ==> Due(1, l.duration) > 1
  {
  }

  lemma ElsewhereUntouched(start: Buckets, waiting: seq<Item>, bucket: nat, before: map<Item, Look>,
                           looks: map<Item, Look>, tracked: multiset<Item>, heirs: map<Item, Chain>, all: set<Item>,
                           x: Item, i: nat)
    requires bucket < DECAY_BUCKETS && before.Keys == looks.Keys == all
    requires Untouched(start, waiting, bucket, |start[bucket]|, before, looks, tracked, heirs, all)
    requires x in all && InBuckets(start)[x] <= 1 && i < DECAY_BUCKETS && i != bucket && x in start[i]
    ensures looks[x] == before[x]
  {
    hide InBuckets;
    assert start[bucket][..|start[bucket]|] == start[bucket];
    Held(start, x);
    NotTwice(start, i, bucket, x);
  }

  lemma ReadKept(was: seq<Item>, before: map<Item, Look>, now: map<Item, Look>, kept: seq<Item>, next: seq<Item>,
                 gone: seq<(Item, nat)>, tick: nat, x: Item)
    requires Read(was, |was|, before, now, kept, next, gone, tick) && x in kept + next
    ensures x in was && x in before && x in now && now[x] == Later(before[x])
    ensures x in kept ==> Stays(before[x])
    ensures x in next ==> Moves(before[x])
  {
    assert was[..|was|] == was;
    var j :| 0 <= j < |was| && was[j] == x;
  }

  // ----- The book: when each item placed on the wheel is to leave -----

  type Book = seq<(Item, nat)>

  /** Whatever was booked has left at its tick, was dropped, or is on its way; and nothing else leaves, is
      dropped or is on its way. */
  ghost predicate Keeps(b: Buckets, last: nat, looks: map<Item, Look>, now: nat, left: Book,
                        dropped: set<(Item, nat)>, booked: Book)
    requires last < DECAY_BUCKETS
  {
    (forall e | e in booked ::
       e in left || e in dropped ||
       (e.0 in looks && e.1 > now && DueAt(b, last, e.0, looks[e.0].duration, e.1 - now))) &&
    (forall e | e in left :: e in booked && e.1 <= now) &&
    (forall e | e in dropped :: e in booked) &&
    (forall x, n: nat | x in looks && DueAt(b, last, x, looks[x].duration, n) :: (x, now + n) in booked)
  }

  lemma TurnKeeps(b: Buckets, last: nat, before: map<Item, Look>, b': Buckets, last': nat, looks: map<Item, Look>,
                  now: nat, left: Book, gone: Book, dropped: set<(Item, nat)>, booked: Book)
    requires last < DECAY_BUCKETS && last' == (last + 1) % DECAY_BUCKETS && before.Keys == looks.Keys
    requires Keeps(b, last, before, now, left, dropped, booked)
    requires OneCloser(b, last, before, b', last', looks, gone, Refused(b[last'], before, now), now)
    requires OnlyDue(b, last, before, gone, now + 1) && NoneNew(b, last, before, b', last', looks)
    ensures Keeps(b', last', looks, now + 1, left + gone, dropped + Refused(b[last'], before, now), booked)
  {
    hide DueAt, Refused;
    var refused := Refused(b[last'], before, now);
    forall x, n: nat | x in looks && DueAt(b', last', x, looks[x].duration, n)
      ensures (x, now + 1 + n) in booked
    {
      assert (x, now + (n + 1)) in booked;
    }
    forall e | e in booked && e !in left + gone && e !in dropped + refused
      ensures e.0 in looks && e.1 > now + 1 && DueAt(b', last', e.0, looks[e.0].duration, e.1 - (now + 1))
    {
      var n: nat := e.1 - now;
      assert DueAt(b, last, e.0, before[e.0].duration, n);
      assert (e.0, now + n) == e;
    }
    forall e | e in gone ensures e in booked {
      assert (e.0, now + 1) in booked && e == (e.0, e.1);
    }
    forall x | x in b[last'] && x in before ensures (x, now + Due(1, before[x].duration)) in booked {
      DueFirst(b, last, last', x, before[x].duration);
    }
    RefusedIn(b[last'], before, now, booked);
  }

  lemma DueFirst(b: Buckets, last: nat, bucket: nat, x: Item, duration: int)
    requires last < DECAY_BUCKETS && bucket == (last + 1) % DECAY_BUCKETS && x in b[bucket]
    ensures DueAt(b, last, x, duration, Due(1, duration))
  {
    assert Distance(bucket, last) == 1;
  }

  lemma RefusedIn(list: seq<Item>, before: map<Item, Look>, now: nat, booked: Book)
    requires forall x | x in list && x in before :: (x, now + Due(1, before[x].duration)) in booked
    ensures forall e | e in Refused(list, before, now) :: e in booked
  {
  }

  /** The time left of what is on the wheel is all that counts. */
  lemma SameTimeKeeps(b: Buckets, last: nat, before: map<Item, Look>, looks: map<Item, Look>, now: nat, left: Book,
                      dropped: set<(Item, nat)>, booked: Book)
    requires last < DECAY_BUCKETS && before.Keys == looks.Keys && Keeps(b, last, before, now, left, dropped, booked)
    requires forall x | x in before && x in InBuckets(b) :: looks[x].duration == before[x].duration
    ensures Keeps(b, last, looks, now, left, dropped, booked)
  {
    hide InBuckets;
    forall x, duration, n: nat | DueAt(b, last, x, duration, n) ensures x in InBuckets(b) {
      Held(b, x);
    }
  }

  lemma Booked(waiting: seq<Item>, looks: map<Item, Look>, now: nat, booked: Book, booked': Book)
    requires BookedFor(waiting, looks, now, booked, booked')
    ensures booked <= booked'
    ensures forall x | x in waiting && x in looks && looks[x].duration > 0 ::
              (x, now + Lifetime(looks[x].duration)) in booked'
  {
  }

  lemma CleanedLater(e: Event, rest: seq<Event>)
    requires e.Start? || e.Change?
    ensures NextCleanup([e] + rest) == NextCleanup(rest)
  {
    assert ([e] + rest)[1..] == rest;
  }

  /** What waits is booked for its lifetime. */
  ghost predicate BookedFor(waiting: seq<Item>, looks: map<Item, Look>, now: nat, booked: Book, booked': Book) {
    booked <= booked' &&
    (forall x | x in waiting && x in looks && looks[x].duration > 0 ::
       (x, now + Lifetime(looks[x].duration)) in booked') &&
    forall e | e in booked' && e !in booked ::
      e.0 in waiting && e.0 in looks && looks[e.0].duration > 0 && e.1 == now + Lifetime(looks[e.0].duration)
  }

  lemma BookOne(waiting: seq<Item>, x: Item, looks: map<Item, Look>, now: nat, booked: Book, booked': Book)
    requires BookedFor(waiting, looks, now, booked, booked') && x in looks && looks[x].duration > 0
    ensures BookedFor(waiting + [x], looks, now, booked, booked' + [(x, now + Lifetime(looks[x].duration))])
  {
    hide Lifetime;
  }

  lemma OneDue(b: Buckets, last: nat, x: Item, duration: int, n: nat, m: nat)
    requires last < DECAY_BUCKETS && InBuckets(b)[x] <= 1
    requires DueAt(b, last, x, duration, n) && DueAt(b, last, x, duration, m)
    ensures n == m
  {
    hide InBuckets;
    var i: nat :| i < DECAY_BUCKETS && x in b[i] && Due(Distance(i, last), duration) == n;
    var k: nat :| k < DECAY_BUCKETS && x in b[k] && Due(Distance(k, last), duration) == m;
    if i != k {
      NotTwice(b, i, k, x);
    }
  }

  /** The wheel with `done` placed on it, each for its lifetime, and booked. */
  ghost predicate Placed(b: Buckets, last: nat, start: Buckets, done: seq<Item>, looks: map<Item, Look>, now: nat,
                         booked: Book, booked': Book)
    requires last < DECAY_BUCKETS
  {
    InBuckets(b) == InBuckets(start) + multiset(done) && Grown(start, b) &&
    BookedFor(done, looks, now, booked, booked') &&
    forall x | x in done ::
      x in looks && looks[x].duration > 0 &&
      DueAt(b, last, x, looks[x].duration, Lifetime(looks[x].duration))
  }

  lemma NonePlaced(b: Buckets, last: nat, looks: map<Item, Look>, now: nat, booked: Book)
    requires last < DECAY_BUCKETS
    ensures Placed(b, last, b, [], looks, now, booked, booked)
  {
    hide InBuckets;
  }

  lemma PlaceOne(b: Buckets, b': Buckets, last: nat, start: Buckets, done: seq<Item>, x: Item,
                 looks: map<Item, Look>, now: nat, booked: Book, noted: Book)
    requires last < DECAY_BUCKETS && Placed(b, last, start, done, looks, now, booked, noted)
    requires Grown(b, b') && InBuckets(b') == InBuckets(b) + multiset{x} && x in looks && looks[x].duration > 0
    requires DueAt(b', last, x, looks[x].duration, Lifetime(looks[x].duration))
    ensures Placed(b', last, start, done + [x], looks, now, booked, noted + [(x, now + Lifetime(looks[x].duration))])
  {
    hide InBuckets, Lifetime, DueAt, Grown, BookedFor;
    GrownTwice(start, b, b');
    BookOne(done, x, looks, now, booked, noted);
    forall y | y in done ensures DueAt(b', last, y, looks[y].duration, Lifetime(looks[y].duration)) {
      DueWhenGrown(b, b', last, y, looks[y].duration, Lifetime(looks[y].duration));
    }
  }

  lemma CleanKeeps(b: Buckets, b': Buckets, last: nat, waiting: seq<Item>, looks: map<Item, Look>, now: nat,
                   left: Book, dropped: set<(Item, nat)>, booked: Book, booked': Book)
    requires last < DECAY_BUCKETS && Keeps(b, last, looks, now, left, dropped, booked)
    requires Placed(b', last, b, waiting, looks, now, booked, booked')
    requires forall x | x in looks :: InBuckets(b')[x] <= 1
    ensures Keeps(b', last, looks, now, left, dropped, booked')
  {
    hide InBuckets, DueAt, Grown;
    forall e | e in booked' && e !in left && e !in dropped
      ensures e.0 in looks && e.1 > now && DueAt(b', last, e.0, looks[e.0].duration, e.1 - now)
    {
      if e in booked {
        DueWhenGrown(b, b', last, e.0, looks[e.0].duration, e.1 - now);
      }
    }
    forall x, n: nat | x in looks && DueAt(b', last, x, looks[x].duration, n)
      ensures (x, now + n) in booked'
    {
      if x in waiting {
        OneDue(b', last, x, looks[x].duration, n, Lifetime(looks[x].duration));
      } else {
        DueWasThere(b, b', last, waiting, x, looks[x].duration, n);
      }
    }
  }

  lemma DueWasThere(b: Buckets, b': Buckets, last: nat, waiting: seq<Item>, x: Item, duration: int, n: nat)
    requires last < DECAY_BUCKETS && DueAt(b', last, x, duration, n) && Grown(b, b') && x !in waiting
    requires InBuckets(b') == InBuckets(b) + multiset(waiting) && InBuckets(b')[x] <= 1
    ensures DueAt(b, last, x, duration, n)
  {
    hide InBuckets;
    var i: nat :| i < DECAY_BUCKETS && x in b'[i] && Due(Distance(i, last), duration) == n;
    Held(b', x);
    Held(b, x);
    var k: nat :| k < DECAY_BUCKETS && x in b[k];
    assert x in b'[k];
    if i != k {
      NotTwice(b', i, k, x);
    }
  }

  // ----- Runs -----

  /** A start of decay, a tick, a cleanup, or a change of what an item is from outside: removed from the game it
      can no longer decay, and its time is only changed while it is not decaying. */
  datatype Event =
    | Start(item: Item, chain: Chain)
    | Tick(heirs: map<Item, Chain>)
    | Clean
    | Change(item: Item, canDecay: bool, duration: nat)

  ghost function Ticks(events: seq<Event>): nat {
    if events == [] then 0 else (if events[0].Tick? then 1 else 0) + Ticks(events[1..])
  }

  /** How many ticks pass until what waits is placed; -1 if it is not. */
  ghost function NextCleanup(events: seq<Event>): int {
    if events == [] then -1
    else match events[0]
         case Start(_, _) => NextCleanup(events[1..])
         case Tick(_) => 1
         case Clean => 0
         case Change(_, _, _) => NextCleanup(events[1..])
  }

  /** The items that are changed from outside. */
  ghost function Changed(events: seq<Event>): set<Item> {
    if events == [] then {} else (if events[0].Change? then {events[0].item} else {}) + Changed(events[1..])
  }

  ghost function Heirs(heirs: map<Item, Chain>): set<Item> {
    set x, o | x in heirs && o in Objects(heirs[x]) :: o
  }

  lemma ChainIsHeirs(heirs: map<Item, Chain>, x: Item)
    ensures Objects(ChainOf(heirs, x)) <= Heirs(heirs)
  {
  }

  /** What an item turns into is itself or was not in use so far. */
  ghost predicate Unused(item: Item, chain: Chain, used: set<Item>, all: set<Item>) {
    Objects(chain) <= all && forall o | o in Objects(chain) :: o == item || o !in used
  }

  ghost predicate Disjoint(heirs: map<Item, Chain>) {
    forall x, y | x in heirs && y in heirs && x != y :: Objects(heirs[x]) !! Objects(heirs[y])
  }

  /** Starts, ticks and cleanups in which the objects made by decay are new ones, each made once. */
  ghost predicate Possible(events: seq<Event>, used: set<Item>, all: set<Item>)
    decreases |events|
  {
    events == [] ||
    match events[0]
    case Start(item, chain) =>
      item in all && Unused(item, chain, used, all) &&
      Possible(events[1..], used + {item} + Objects(chain), all)
    case Tick(heirs) =>
      (forall x | x in heirs :: Unused(x, heirs[x], used, all)) && Disjoint(heirs) &&
      Possible(events[1..], used + Heirs(heirs), all)
    case Clean => Possible(events[1..], used, all)
    case Change(item, _, _) => item in all && Possible(events[1..], used, all)
  }

  lemma CloserWhenGrown(b: Buckets, last: nat, before: map<Item, Look>, b': Buckets, b'': Buckets, last': nat,
                        looks: map<Item, Look>, gone: Book, left: Book, refused: set<(Item, nat)>, now: nat)
    requires last < DECAY_BUCKETS && last' < DECAY_BUCKETS && before.Keys == looks.Keys && Grown(b', b'')
    requires OneCloser(b, last, before, b', last', looks, gone, refused, now) && forall e | e in gone :: e in left
    ensures OneCloser(b, last, before, b'', last', looks, left, refused, now)
  {
    hide DueAt, Grown;
    forall x, n: nat | x in before && DueAt(b, last, x, before[x].duration, n) && n > 1 && (x, now + n) !in refused
      ensures DueAt(b'', last', x, looks[x].duration, n - 1)
    {
      DueWhenGrown(b', b'', last', x, looks[x].duration, n - 1);
    }
  }

  lemma WaitingUntouched(start: Buckets, waiting: seq<Item>, bucket: nat, before: map<Item, Look>,
                         looks: map<Item, Look>,
                         tracked: multiset<Item>, heirs: map<Item, Chain>, all: set<Item>, x: Item)
    requires bucket < DECAY_BUCKETS && before.Keys == looks.Keys == all && x in waiting
    requires Untouched(start, waiting, bucket, |start[bucket]|, before, looks, tracked, heirs, all)
    requires InBuckets(start)[x] + multiset(waiting)[x] <= 1
    ensures x in all && looks[x] == before[x]
  {
    hide InBuckets;
    assert start[bucket][..|start[bucket]|] == start[bucket];
    assert x !in InBuckets(start);
    Held(start, x);
  }

  class Wheel {
    const decayItems: array<seq<Item>>
    var toDecayItems: seq<Item>
    var lastBucket: nat
    var toReleaseThings: seq<Item>
    var removed: seq<Item>
    ghost var now: nat
    ghost var left: Book
    ghost var booked: Book
    ghost var dropped: set<(Item, nat)>

    ghost function Slots(): Buckets
      requires decayItems.Length == DECAY_BUCKETS
      reads decayItems
    {
      decayItems[..]
    }

    /** The items on the wheel or waiting for it. */
    ghost function Tracked(): multiset<Item>
      requires decayItems.Length == DECAY_BUCKETS
      reads this`toDecayItems, decayItems
    {
      InBuckets(Slots()) + multiset(toDecayItems)
    }

    /** The references the wheel holds, those to be released included. */
    ghost function Refs(): multiset<Item>
      requires decayItems.Length == DECAY_BUCKETS
      reads this`toDecayItems, this`toReleaseThings, decayItems
    {
      Tracked() + multiset(toReleaseThings)
    }

    /** Every tracked item is in one place only, is marked so, and has time left. */
    ghost predicate Valid(all: set<Item>)
      reads this`toDecayItems, this`lastBucket, decayItems, all`duration, all`decaying
    {
      decayItems.Length == DECAY_BUCKETS && lastBucket < DECAY_BUCKETS &&
      forall x | x in Tracked() :: x in all && Tracked()[x] == 1 && x.decaying && x.duration > 0
    }

    constructor ()
      ensures Valid({}) && Refs() == multiset{} && fresh(decayItems) && left == booked == [] && now == 0
      ensures dropped == {} && OnTime({}) && lastBucket == 0 && removed == []
    {
      decayItems := new seq<Item>[DECAY_BUCKETS](i => []);
      toDecayItems, lastBucket, toReleaseThings, removed := [], 0, [], [];
      now, left, booked, dropped := 0, [], [], {};
    }

    /** Items leave as booked. */
    ghost predicate OnTime(all: set<Item>)
      requires decayItems.Length == DECAY_BUCKETS && lastBucket < DECAY_BUCKETS
      reads this`lastBucket, this`now, this`left, this`booked, this`dropped, decayItems, all`canDecay, all`duration
    {
      Keeps(Slots(), lastBucket, Looks(all), now, left, dropped, booked)
    }

    lemma NothingTracked(all: set<Item>)
      requires Valid({}) && Refs() == multiset{}
      ensures Valid(all) && Tracked() == multiset{}
    {
      hide InBuckets;
      assert Tracked() <= Refs();
    }

    lemma TrackedTwice(x: Item, all: set<Item>)
      requires decayItems.Length == DECAY_BUCKETS && Tracked()[x] == 2
      ensures !Valid(all) && Refs()[x] >= 2
    {
      hide InBuckets;
    }

    // ----- Starting and decaying -----

    /** An item that waits for the wheel has just been referenced, once. */
    method Wait(item: Item, ghost all: set<Item>)
      requires decayItems.Length == DECAY_BUCKETS && item in all && !item.decaying && item.duration > 0
      modifies item`decaying, item`useCount, this`toDecayItems
      ensures old(Valid(all)) ==> Valid(all)
      ensures item.decaying && toDecayItems == old(toDecayItems) + [item]
      ensures Forms(all) == old(Forms(all))[item := Form(item.canDecay, item.duration, true)]
      ensures Tracked() == old(Tracked()) + multiset{item}
      ensures forall x | x in all :: x.useCount - Refs()[x] == old(x.useCount) - old(Refs())[x]
    {
      hide InBuckets, Slots;
      item.useCount := item.useCount + 1;
      item.decaying := true;
      toDecayItems := toDecayItems + [item];
      assert Tracked() == old(Tracked()) + multiset{item};
    }

    /** transformItem, as far as decay is concerned: new attributes, and no longer marked as decaying. */
    method Transform(stage: Stage, ghost all: set<Item>)
      requires Valid(all) && stage.item !in Tracked()
      modifies stage.item`canDecay, stage.item`duration, stage.item`decaying
      ensures Valid(all)
      ensures stage.item.canDecay == stage.canDecay && stage.item.duration == stage.duration && !stage.item.decaying
      ensures stage.item in all ==>
                Forms(all) == old(Forms(all))[stage.item := Form(stage.canDecay, stage.duration, false)]
    {
      hide InBuckets;
      stage.item.canDecay, stage.item.duration, stage.item.decaying := stage.canDecay, stage.duration, false;
    }

    /** startDecay: an item that can decay, is not decaying yet and has time left waits for the wheel;
        without time left it decays at once, into the stages of `chain`. */
    method StartDecay(item: Item, chain: Chain, ghost all: set<Item>)
      requires decayItems.Length == DECAY_BUCKETS && (Valid(all) || item.duration > 0)
      requires item in all && Objects(chain) <= all
      requires item.decaying || forall x | x in Objects(chain) :: x !in Tracked()
      modifies item`decaying, item`useCount, this`toDecayItems, this`removed
      modifies Objects(chain)`canDecay, Objects(chain)`duration, Objects(chain)`decaying, Objects(chain)`useCount
      ensures old(Valid(all)) ==> Valid(all)
      ensures old(!item.canDecay || item.decaying || item.duration > 0) ==>
                forall x | x in all :: x.canDecay == old(x.canDecay) && x.duration == old(x.duration)
      ensures var begun := if !old(item.canDecay) || old(item.decaying) then []
                           else if old(item.duration) > 0 then [item] else Started(chain);
              toDecayItems == old(toDecayItems) + begun && Tracked() == old(Tracked()) + multiset(begun) &&
              forall x | x in begun :: x.canDecay && x.decaying && x.duration > 0
      ensures forall x | x in all :: x.useCount - Refs()[x] == old(x.useCount) - old(Refs())[x]
      ensures var m := old(Forms(all));
              if !m[item].canDecay || m[item].decaying then Forms(all) == m && removed == old(removed)
              else if m[item].duration > 0
              then Forms(all) == m[item := m[item].(decaying := true)] && removed == old(removed)
              else Forms(all) == Carried(chain, m) && removed == old(removed) + Vanished(item, chain)
      decreases |chain|, 1
    {
      hide InBuckets, Tracked, Refs, Valid, Started, Forms, Carried, Vanished, Objects;
      FormsShow(all);
      if !item.canDecay || item.decaying {
        return;
      }
      if item.duration > 0 {
        Wait(item, all);
      } else {
        InternalDecayItem(item, chain, all);
      }
    }

    /** internalDecayItem: the item turns into the next stage, whose decay starts; with none it is removed. */
    method InternalDecayItem(item: Item, chain: Chain, ghost all: set<Item>)
      requires Valid(all) && Objects(chain) <= all
      requires forall x | x in Objects(chain) :: x !in Tracked()
      modifies this`toDecayItems, this`removed
      modifies Objects(chain)`canDecay, Objects(chain)`duration, Objects(chain)`decaying, Objects(chain)`useCount
      ensures Valid(all) && toDecayItems == old(toDecayItems) + Started(chain)
      ensures Tracked() == old(Tracked()) + multiset(Started(chain))
      ensures forall x | x in all :: x.useCount - Refs()[x] == old(x.useCount) - old(Refs())[x]
      ensures forall x | x in Started(chain) :: x.canDecay && x.decaying && x.duration > 0
      ensures Forms(all) == Carried(chain, old(Forms(all))) && removed == old(removed) + Vanished(item, chain)
      decreases |chain|, 0
    {
      hide InBuckets, Settles, Refs, Tracked, Valid, Forms, Objects, Carried, Vanished, Started;
      LengthHolds(all);
      StartedStep(chain);
      CarriedStep(item, chain, Forms(all));
      if chain != [] {
        Transform(chain[0], all);
        StartDecay(chain[0].item, chain[1..], all);
      } else {
        removed := removed + [item];
      }
    }

    // ----- Turning -----

    method Push(bucket: nat, item: Item)
      requires decayItems.Length == DECAY_BUCKETS && bucket < DECAY_BUCKETS
      modifies decayItems
      ensures Slots() == old(Slots())[bucket := old(decayItems[bucket]) + [item]]
      ensures InBuckets(Slots()) == old(InBuckets(Slots())) + multiset{item}
    {
      BucketChange(Slots(), bucket, decayItems[bucket] + [item]);
      decayItems[bucket] := decayItems[bucket] + [item];
      assert Slots() == old(Slots())[bucket := old(decayItems[bucket]) + [item]];
    }

    method Erase(bucket: nat, it: nat)
      requires decayItems.Length == DECAY_BUCKETS && bucket < DECAY_BUCKETS && it < |decayItems[bucket]|
      modifies decayItems
      ensures Slots() == Erased(old(Slots()), bucket, it)
      ensures InBuckets(Slots()) == old(InBuckets(Slots())) - multiset{old(decayItems[bucket])[it]}
    {
      var list := decayItems[bucket];
      BucketChange(Slots(), bucket, list[..it] + list[it + 1..]);
      assert list == list[..it] + [list[it]] + list[it + 1..];
      decayItems[bucket] := list[..it] + list[it + 1..];
      assert Slots() == old(Slots())[bucket := list[..it] + list[it + 1..]];
    }

    /** cleanup, first half: the references given up are released. */
    method ReleaseThings(ghost all: set<Item>)
      requires forall x | x in toReleaseThings :: x in all
      modifies all`useCount, this`toReleaseThings
      ensures toReleaseThings == []
      ensures forall x | x in all :: x.useCount == old(x.useCount) - multiset(old(toReleaseThings))[x]
    {
      for n := 0 to |toReleaseThings|
        invariant toReleaseThings == old(toReleaseThings)
        invariant forall x | x in all :: x.useCount == old(x.useCount) - multiset(toReleaseThings[..n])[x]
      {
        var thing := toReleaseThings[n];
        assert toReleaseThings[..n + 1] == toReleaseThings[..n] + [thing];
        thing.useCount := thing.useCount - 1;
      }
      assert toReleaseThings[..|toReleaseThings|] == toReleaseThings;
      toReleaseThings := [];
    }

    ghost predicate DueIn(x: Item, n: nat)
      requires decayItems.Length == DECAY_BUCKETS && lastBucket < DECAY_BUCKETS
      reads this`lastBucket, decayItems, x`duration
    {
      DueAt(Slots(), lastBucket, x, x.duration, n)
    }

    method Place(item: Item)
      requires decayItems.Length == DECAY_BUCKETS && lastBucket < DECAY_BUCKETS && item.duration > 0
      modifies decayItems, this`booked
      ensures Grown(old(Slots()), Slots()) && InBuckets(Slots()) == old(InBuckets(Slots())) + multiset{item}
      ensures DueIn(item, Lifetime(item.duration))
      ensures booked == old(booked) + [(item, now + Lifetime(item.duration))]
    {
      hide InBuckets;
      var dur := item.duration;
      var bucket := if dur >= TURN then lastBucket else (lastBucket + 1 + dur / 1000) % DECAY_BUCKETS;
      DueWhenPlaced(dur);
      Push(bucket, item);
      booked := booked + [(item, now + Lifetime(dur))];
      assert item in Slots()[bucket] && Distance(bucket, lastBucket) == if dur < TURN then 1 else DECAY_BUCKETS;
    }

    /** cleanup, second half: what waits goes onto the wheel, to be read at the next tick if less than a
        second is left and after a whole turn if not. */
    method PlaceAll(ghost all: set<Item>)
      requires decayItems.Length == DECAY_BUCKETS && lastBucket < DECAY_BUCKETS
      requires forall x | x in toDecayItems :: x in all && x.duration > 0
      modifies decayItems, this`toDecayItems, this`booked
      ensures toDecayItems == []
      ensures Placed(Slots(), lastBucket, old(Slots()), old(toDecayItems), Looks(all), now, old(booked), booked)
    {
      hide Placed, InBuckets, Lifetime, DueAt, Grown, BookedFor, Looks, Slots;
      ghost var looks, start, book := Looks(all), Slots(), booked;
      NonePlaced(start, lastBucket, looks, now, book);
      for n := 0 to |toDecayItems|
        invariant toDecayItems == old(toDecayItems)
        invariant Placed(Slots(), lastBucket, start, toDecayItems[..n], looks, now, book, booked)
      {
        var x := toDecayItems[n];
        PlaceNext(x, start, toDecayItems[..n], book, all);
        assert toDecayItems[..n + 1] == toDecayItems[..n] + [x];
      }
      assert toDecayItems[..|toDecayItems|] == toDecayItems;
      toDecayItems := [];
    }

    method PlaceNext(x: Item, ghost start: Buckets, ghost done: seq<Item>, ghost book: Book, ghost all: set<Item>)
      requires decayItems.Length == DECAY_BUCKETS && lastBucket < DECAY_BUCKETS && x in all && x.duration > 0
      requires Placed(Slots(), lastBucket, start, done, Looks(all), now, book, booked)
      modifies decayItems, this`booked
      ensures Placed(Slots(), lastBucket, start, done + [x], Looks(all), now, book, booked)
    {
      hide Placed, InBuckets, Lifetime, DueAt, Grown, BookedFor, Looks, Slots;
      ghost var before, noted, looks := Slots(), booked, Looks(all);
      LooksAt(x, all);
      Place(x);
      PlaceOne(before, Slots(), lastBucket, start, done, x, looks, now, book, noted);
    }

    lemma LooksAt(x: Item, all: set<Item>)
      requires x in all
      ensures Looks(all)[x] == Look(x.canDecay, x.duration)
    {
    }

    method Cleanup(ghost all: set<Item>)
      requires Valid(all) && forall x | x in toReleaseThings :: x in all
      modifies decayItems, all`useCount, this`toReleaseThings, this`toDecayItems, this`booked
      ensures Valid(all) && Tracked() == old(Tracked()) && toReleaseThings == [] && toDecayItems == []
      ensures BookedFor(old(toDecayItems), Looks(all), now, old(booked), booked)
      ensures old(OnTime(all)) ==> OnTime(all)
      ensures forall x | x in all :: x.useCount - Refs()[x] == old(x.useCount) - old(Refs())[x]
      ensures Grown(old(Slots()), Slots())
      ensures forall x | x in old(toDecayItems) :: DueIn(x, Lifetime(x.duration))
    {
      hide InBuckets, Lifetime, DueAt, Grown, BookedFor, Keeps, Looks, Tracked, Slots, Valid;
      LengthHolds(all);
      ReleaseThings(all);
      PlaceWaiting(all);
    }

    method PlaceWaiting(ghost all: set<Item>)
      requires Valid(all)
      modifies decayItems, this`toDecayItems, this`booked
      ensures Valid(all) && Tracked() == old(Tracked()) && toDecayItems == []
      ensures BookedFor(old(toDecayItems), Looks(all), now, old(booked), booked)
      ensures old(OnTime(all)) ==> OnTime(all)
      ensures Grown(old(Slots()), Slots())
      ensures forall x | x in old(toDecayItems) :: DueIn(x, Lifetime(x.duration))
    {
      hide InBuckets, Lifetime, Placed, DueAt, Grown, BookedFor, Keeps, Looks, Tracked, Slots;
      ghost var start, waiting, book, looks := Slots(), toDecayItems, booked, Looks(all);
      Queued(all);
      TrackedNow();
      PlaceAll(all);
      TrackedNow();
      PlacedShows(start, waiting, book, all);
      if old(OnTime(all)) {
        PlacedOnTime(start, waiting, book, all);
      }
    }

    lemma LengthHolds(all: set<Item>)
      requires Valid(all)
      ensures decayItems.Length == DECAY_BUCKETS && lastBucket < DECAY_BUCKETS
    {
    }

    lemma TrackedNow()
      requires decayItems.Length == DECAY_BUCKETS
      ensures Tracked() == InBuckets(Slots()) + multiset(toDecayItems)
    {
    }

    lemma PlacedShows(start: Buckets, waiting: seq<Item>, book: Book, all: set<Item>)
      requires decayItems.Length == DECAY_BUCKETS && lastBucket < DECAY_BUCKETS
      requires Placed(Slots(), lastBucket, start, waiting, Looks(all), now, book, booked)
      ensures InBuckets(Slots()) == InBuckets(start) + multiset(waiting) && Grown(start, Slots())
      ensures BookedFor(waiting, Looks(all), now, book, booked)
      ensures forall x | x in waiting :: x in all && x.duration > 0 && DueIn(x, Lifetime(x.duration))
    {
      hide InBuckets, Lifetime, Grown, BookedFor;
    }

    lemma PlacedOnTime(start: Buckets, waiting: seq<Item>, book: Book, all: set<Item>)
      requires Valid(all) && Keeps(start, lastBucket, Looks(all), now, left, dropped, book)
      requires Placed(Slots(), lastBucket, start, waiting, Looks(all), now, book, booked)
      ensures OnTime(all)
    {
      hide InBuckets, Placed, Keeps;
      forall x | x in all ensures InBuckets(Slots())[x] <= 1 {
        assert x in Tracked() ==> Tracked()[x] == 1;
      }
      CleanKeeps(start, Slots(), lastBucket, waiting, Looks(all), now, left, dropped, book, booked);
    }

    /** What waits has time left. */
    lemma Queued(all: set<Item>)
      requires Valid(all)
      ensures forall x | x in toDecayItems :: x in all && x.duration > 0
    {
      hide InBuckets;
      forall x | x in toDecayItems ensures x in all && x.duration > 0 {
        assert x in Tracked();
      }
    }

    method FreeThing(item: Item)
      requires decayItems.Length == DECAY_BUCKETS
      modifies this`toReleaseThings
      ensures toReleaseThings == old(toReleaseThings) + [item] && Refs() == old(Refs()) + multiset{item}
    {
      toReleaseThings := toReleaseThings + [item];
    }

    /** `item` is the it-th of the bucket; Valid, but for the time it has left. */
    ghost predicate Reading(bucket: nat, it: nat, item: Item, all: set<Item>)
      reads this`toDecayItems, this`lastBucket, decayItems, all
    {
      decayItems.Length == DECAY_BUCKETS && lastBucket < DECAY_BUCKETS && bucket < DECAY_BUCKETS &&
      it < |decayItems[bucket]| && decayItems[bucket][it] == item &&
      forall x | x in Tracked() :: x in all && Tracked()[x] == 1 && x.decaying && (x != item ==> x.duration > 0)
    }

    method EraseTracked(bucket: nat, it: nat, item: Item, ghost all: set<Item>)
      requires Reading(bucket, it, item, all)
      modifies decayItems
      ensures Valid(all) && item !in Tracked() && Slots() == Erased(old(Slots()), bucket, it)
      ensures decayItems.Length == DECAY_BUCKETS && bucket < DECAY_BUCKETS && it < |old(Slots())[bucket]|
      ensures item in all && item.decaying
      ensures Tracked() == old(Tracked()) - multiset{item}
      ensures item in old(Tracked()) && item in old(Refs()) && Refs() == old(Refs()) - multiset{item}
      ensures Refs() + multiset{item} == old(Refs()) && Forms(all) == old(Forms(all))
    {
      hide InBuckets, Forms;
      OnWheel(Slots(), bucket, it);
      TakenOut(InBuckets(Slots()), multiset(toDecayItems), multiset(toReleaseThings), item);
      Erase(bucket, it);
      assert Tracked() == old(Tracked()) - multiset{item};
      BackAgain(old(Refs()), item);
    }

    method Unmark(item: Item, ghost all: set<Item>)
      requires Valid(all) && item !in Tracked()
      modifies item`decaying
      ensures Valid(all) && !item.decaying
      ensures item in all ==> Forms(all) == old(Forms(all))[item := old(Forms(all))[item].(decaying := false)]
    {
      hide InBuckets, Tracked;
      item.decaying := false;
    }

    /** An item that may no longer decay is let go. */
    method LetGo(bucket: nat, it: nat, item: Item, ghost all: set<Item>)
      requires Reading(bucket, it, item, all)
      modifies decayItems, item`decaying, this`toReleaseThings
      ensures Valid(all) && Refs() == old(Refs())
      ensures Tracked() == old(Tracked()) - multiset{item}
      ensures !item.decaying && toReleaseThings == old(toReleaseThings) + [item]
      ensures Slots() == Erased(old(Slots()), bucket, it)
      ensures item in all && Forms(all) == old(Forms(all))[item := old(Forms(all))[item].(decaying := false)]
    {
      hide InBuckets, Tracked, Reading, Valid, Refs, Erased, Slots, Forms;
      EraseTracked(bucket, it, item, all);
      Unmark(item, all);
      FreeThing(item);
    }

    /** The item, already off the wheel, decays and is let go. */
    method DecayAndFree(item: Item, chain: Chain, ghost all: set<Item>)
      requires Valid(all) && Objects(chain) <= all && forall x | x in Objects(chain) :: x !in Tracked()
      modifies this`toDecayItems, this`toReleaseThings, this`removed, this`left
      modifies Objects(chain)`canDecay, Objects(chain)`duration, Objects(chain)`decaying, Objects(chain)`useCount
      ensures Valid(all) && toReleaseThings == old(toReleaseThings) + [item]
      ensures left == old(left) + [(item, now)]
      ensures toDecayItems == old(toDecayItems) + Started(chain)
      ensures Tracked() == old(Tracked()) + multiset(Started(chain))
      ensures forall x | x in all ::
                x.useCount - Refs()[x] == old(x.useCount) - old(Refs())[x] - if x == item then 1 else 0
      ensures Forms(all) == Carried(chain, old(Forms(all))) && removed == old(removed) + Vanished(item, chain)
    {
      hide InBuckets, Started, Refs, Tracked, Slots, Forms, Carried, Vanished, Valid, Objects;
      LengthHolds(all);
      InternalDecayItem(item, chain, all);
      FreeThing(item);
      left := left + [(item, now)];
    }

    /** An item whose time is up decays, and is let go. */
    method Expire(bucket: nat, it: nat, item: Item, chain: Chain, ghost all: set<Item>)
      requires Reading(bucket, it, item, all) && Objects(chain) <= all
      requires forall x | x in Objects(chain) :: x == item || x !in Tracked()
      modifies decayItems, this`toDecayItems, this`toReleaseThings, this`removed, this`left
      modifies Objects(chain)`canDecay, Objects(chain)`duration, Objects(chain)`decaying, Objects(chain)`useCount
      ensures Valid(all) && Slots() == Erased(old(Slots()), bucket, it)
      ensures Tracked() == old(Tracked()) - multiset{item} + multiset(Started(chain))
      ensures toReleaseThings == old(toReleaseThings) + [item] && left == old(left) + [(item, now)]
      ensures toDecayItems == old(toDecayItems) + Started(chain)
      ensures forall x | x in all :: x.useCount - Refs()[x] == old(x.useCount) - old(Refs())[x]
      ensures Forms(all) == Carried(chain, old(Forms(all))) && removed == old(removed) + Vanished(item, chain)
    {
      hide InBuckets, Started, Erased, Refs, Tracked, Reading, Valid, Slots, Forms, Carried, Vanished, Objects;
      EraseTracked(bucket, it, item, all);
      ghost var forms := Forms(all);
      LessOne(old(Refs()), item);
      DecayAndFree(item, chain, all);
      assert Forms(all) == Carried(chain, forms);
    }

    method PushTracked(bucket: nat, item: Item, ghost all: set<Item>)
      requires Valid(all) && bucket < DECAY_BUCKETS && item !in Tracked() && item in all && item.decaying &&
               item.duration > 0
      modifies decayItems
      ensures Valid(all) && Tracked() == old(Tracked()) + multiset{item}
      ensures Slots() == old(Slots())[bucket := old(decayItems[bucket]) + [item]]
    {
      hide InBuckets;
      Push(bucket, item);
      assert Tracked() == old(Tracked()) + multiset{item};
    }

    /** An item with more than a full turn's rest left moves to the next bucket. */
    method MoveOn(bucket: nat, it: nat, item: Item, newBucket: nat, ghost all: set<Item>)
      requires decayItems.Length == DECAY_BUCKETS && newBucket < DECAY_BUCKETS && newBucket != bucket
      requires Reading(bucket, it, item, all) && item.duration > 0
      modifies decayItems
      ensures Valid(all) && Tracked() == old(Tracked()) && Refs() == old(Refs())
      ensures Slots() == Erased(old(Slots()), bucket, it)[newBucket := old(decayItems[newBucket]) + [item]]
    {
      hide InBuckets, Tracked, Reading, Valid;
      BackAgain(Tracked(), item);
      EraseTracked(bucket, it, item, all);
      PushTracked(newBucket, item, all);
    }

    /** What reading one bucket entry may touch: the chain starts from the item itself or from objects not
        on the wheel. */
    ghost predicate Fresh(item: Item, chain: Chain, all: set<Item>)
      requires decayItems.Length == DECAY_BUCKETS
      reads this`toDecayItems, decayItems
    {
      Objects(chain) <= all && forall x | x in Objects(chain) :: x == item || x !in Tracked()
    }

    method TakeTime(bucket: nat, it: nat, item: Item, ghost all: set<Item>)
      requires Valid(all) && Reading(bucket, it, item, all)
      modifies item`duration
      ensures Reading(bucket, it, item, all) && (item.duration > 0 ==> Valid(all))
      ensures item.duration == if old(item.duration) < TURN then 0 else old(item.duration) - TURN
      ensures item in all && Forms(all) == old(Forms(all))[item := old(Forms(all))[item].(duration := item.duration)]
    {
      hide InBuckets;
      OnWheel(Slots(), bucket, it);
      var decreaseTime := TURN;
      if item.duration - decreaseTime < 0 {
        decreaseTime := item.duration;
      }
      item.duration := item.duration - decreaseTime;
    }

    /** One entry of the bucket being read. A second is taken off its time (or all that is left). It leaves
        the wheel when less than 1875 ms were left, moves on one bucket when less than 2000 ms were, and
        stays otherwise. */
    method Visit(bucket: nat, it: nat, item: Item, chain: Chain, ghost all: set<Item>) returns (stays: bool)
      requires decayItems.Length == DECAY_BUCKETS && bucket < DECAY_BUCKETS
      requires Valid(all) && Reading(bucket, it, item, all) && Fresh(item, chain, all)
      modifies decayItems, this`toDecayItems, this`toReleaseThings, this`removed, this`left
      modifies item`canDecay, item`duration, item`decaying, item`useCount
      modifies Objects(chain)`canDecay, Objects(chain)`duration, Objects(chain)`decaying, Objects(chain)`useCount
      ensures Valid(all)
      ensures stays <==> old(item.canDecay) && old(item.duration) >= TURN + TURN
      ensures old(item.canDecay) && old(item.duration) >= TURN + 875 ==>
                item.duration == old(item.duration) - TURN && item.canDecay && left == old(left) &&
                toReleaseThings == old(toReleaseThings) && toDecayItems == old(toDecayItems)
      ensures stays ==> Slots() == old(Slots())
      ensures old(item.canDecay) && TURN + 875 <= old(item.duration) < TURN + TURN ==>
                var next := (bucket + 1) % DECAY_BUCKETS;
                Slots() == Erased(old(Slots()), bucket, it)[next := old(decayItems[next]) + [item]]
      ensures !old(item.canDecay) || old(item.duration) < TURN + 875 ==>
                Slots() == Erased(old(Slots()), bucket, it) && toReleaseThings == old(toReleaseThings) + [item]
      ensures !old(item.canDecay) ==> !item.decaying && left == old(left) && toDecayItems == old(toDecayItems)
      ensures old(item.canDecay) && old(item.duration) < TURN + 875 ==>
                left == old(left) + [(item, now)] && toDecayItems == old(toDecayItems) + Started(chain)
      ensures Tracked() <= old(Tracked()) + multiset(Started(chain))
      ensures forall x | x in all :: x.useCount - Refs()[x] == old(x.useCount) - old(Refs())[x]
      ensures item in all && Forms(all) == Aged(item, chain, old(Forms(all))) &&
              removed == old(removed) + AgedAway(item, chain, old(Forms(all)))
    {
      hide InBuckets, Tracked, Refs, Started, Erased, Valid, Reading, Slots, Fresh, Objects,
        Forms, Carried, Vanished;
      ReadingShows(bucket, it, item, all);
      FormsShow(all);
      NoMore(Tracked(), Started(chain), item);
      if !item.canDecay {
        LetGo(bucket, it, item, all);
        return false;
      }
      stays := Age(bucket, it, item, chain, all);
    }

    /** The same for an item that can decay. */
    method Age(bucket: nat, it: nat, item: Item, chain: Chain, ghost all: set<Item>) returns (stays: bool)
      requires decayItems.Length == DECAY_BUCKETS && bucket < DECAY_BUCKETS
      requires Valid(all) && Reading(bucket, it, item, all) && Fresh(item, chain, all) && item.canDecay
      modifies decayItems, this`toDecayItems, this`toReleaseThings, this`removed, this`left
      modifies item`canDecay, item`duration, item`decaying, item`useCount
      modifies Objects(chain)`canDecay, Objects(chain)`duration, Objects(chain)`decaying, Objects(chain)`useCount
      ensures Valid(all) && (stays <==> old(item.duration) >= TURN + TURN)
      ensures old(item.duration) >= TURN + 875 ==>
                item.duration == old(item.duration) - TURN && item.canDecay == old(item.canDecay) &&
                left == old(left) && toReleaseThings == old(toReleaseThings) && toDecayItems == old(toDecayItems)
      ensures stays ==> Slots() == old(Slots())
      ensures TURN + 875 <= old(item.duration) < TURN + TURN ==>
                var next := (bucket + 1) % DECAY_BUCKETS;
                Slots() == Erased(old(Slots()), bucket, it)[next := old(decayItems[next]) + [item]]
      ensures old(item.duration) < TURN + 875 ==>
                Slots() == Erased(old(Slots()), bucket, it) && toReleaseThings == old(toReleaseThings) + [item] &&
                left == old(left) + [(item, now)] && toDecayItems == old(toDecayItems) + Started(chain)
      ensures Tracked() <= old(Tracked()) + multiset(Started(chain))
      ensures forall x | x in all :: x.useCount - Refs()[x] == old(x.useCount) - old(Refs())[x]
      ensures item in all && Forms(all) == Aged(item, chain, old(Forms(all))) &&
              removed == old(removed) + AgedAway(item, chain, old(Forms(all)))
    {
      hide InBuckets, Tracked, Refs, Started, Erased, Valid, Reading, Slots, Fresh, Objects,
        Forms, Carried, Vanished;
      ReadingShows(bucket, it, item, all);
      FormsShow(all);
      NoMore(Tracked(), Started(chain), item);
      TakeTime(bucket, it, item, all);
      if item.duration < TURN {
        PassOn(bucket, it, item, chain, all);
        return false;
      }
      return true;
    }

    /** What is left of an entry's time is less than a second: it leaves or moves on. */
    method PassOn(bucket: nat, it: nat, item: Item, chain: Chain, ghost all: set<Item>)
      requires decayItems.Length == DECAY_BUCKETS && bucket < DECAY_BUCKETS && 0 <= item.duration < TURN
      requires Reading(bucket, it, item, all) && Fresh(item, chain, all)
      modifies decayItems, this`toDecayItems, this`toReleaseThings, this`removed, this`left
      modifies Objects(chain)`canDecay, Objects(chain)`duration, Objects(chain)`decaying, Objects(chain)`useCount
      ensures Valid(all)
      ensures old(item.duration) >= 875 ==>
                item.duration == old(item.duration) && item.canDecay == old(item.canDecay) && left == old(left) &&
                toReleaseThings == old(toReleaseThings) && toDecayItems == old(toDecayItems) &&
                (var next := (bucket + 1) % DECAY_BUCKETS;
                 Slots() == Erased(old(Slots()), bucket, it)[next := old(decayItems[next]) + [item]])
      ensures old(item.duration) < 875 ==>
                Slots() == Erased(old(Slots()), bucket, it) && toReleaseThings == old(toReleaseThings) + [item] &&
                left == old(left) + [(item, now)] && toDecayItems == old(toDecayItems) + Started(chain)
      ensures Tracked() <= old(Tracked()) + multiset(Started(chain))
      ensures forall x | x in all :: x.useCount - Refs()[x] == old(x.useCount) - old(Refs())[x]
      ensures if old(item.duration) >= 875 then Forms(all) == old(Forms(all)) && removed == old(removed)
              else Forms(all) == Carried(chain, old(Forms(all))) && removed == old(removed) + Vanished(item, chain)
    {
      hide InBuckets, Tracked, Refs, Started, Erased, Valid, Reading, Slots, NewBucket, Forms, Carried, Vanished;
      NoMore(Tracked(), Started(chain), item);
      if item.duration <= 0 {
        Expire(bucket, it, item, chain, all);
        return;
      }
      var newBucket := BucketFor(bucket, item.duration);
      RestDecides(bucket, item.duration);
      if newBucket == bucket {
        Expire(bucket, it, item, chain, all);
      } else {
        MoveOn(bucket, it, item, newBucket, all);
      }
    }

    /** The bucket for what is left of a duration. */
    method BucketFor(bucket: nat, duration: nat) returns (newBucket: nat)
      ensures newBucket == NewBucket(bucket, duration)
    {
      newBucket := (bucket + (duration + DECAY_INTERVAL / 2) / 1000) % DECAY_BUCKETS;
    }

    /** The next entry of the bucket, `kept` before it and `rest` from it on. */
    method ReadEntry(bucket: nat, it: nat, item: Item, chain: Chain, ghost all: set<Item>,
                     ghost start: Buckets, ghost kept: seq<Item>, ghost rest: seq<Item>, ghost next: seq<Item>)
      returns (stays: bool)
      requires Valid(all) && bucket < DECAY_BUCKETS && rest != [] && rest[0] == item && it == |kept|
      requires Slots() == Shape(start, bucket, kept + rest, next) && Fresh(item, chain, all) && item in all
      modifies decayItems, this`toDecayItems, this`toReleaseThings, this`removed, this`left
      modifies item`canDecay, item`duration, item`decaying, item`useCount
      modifies Objects(chain)`canDecay, Objects(chain)`duration, Objects(chain)`decaying, Objects(chain)`useCount
      ensures Valid(all)
      ensures forall x | x in old(Tracked()) && x in all && x != item :: Looks(all)[x] == old(Looks(all))[x]
      ensures var l := old(Looks(all))[item];
              stays == Stays(l) && (Stays(l) || Moves(l) ==> Looks(all)[item] == Later(l)) &&
              Slots() == Shape(start, bucket, (if Stays(l) then kept + [item] else kept) + rest[1..],
                if Moves(l) then next + [item] else next) &&
              left == (if Expires(l) then old(left) + [(item, now)] else old(left)) &&
              (forall x | x in toReleaseThings :: x in old(toReleaseThings) || x == item)
      ensures old(toDecayItems) <= toDecayItems
      ensures Tracked() <= old(Tracked()) + multiset(Started(chain))
      ensures forall x | x in Tracked() :: x in old(Tracked()) || x in Objects(chain)
      ensures forall x | x in all :: x.useCount - Refs()[x] == old(x.useCount) - old(Refs())[x]
      ensures item in all && Forms(all) == Aged(item, chain, old(Forms(all))) &&
              removed == old(removed) + AgedAway(item, chain, old(Forms(all)))
    {
      hide InBuckets, Tracked, Refs, Started, Erased, Shape, Reading, Fresh, Objects,
        Forms, Aged, AgedAway;
      StartedWhere(chain);
      ShapeStep(start, bucket, kept, rest, next);
      ReadingNow(bucket, it, item, all);
      FreshOnly(item, chain, all);
      stays := Visit(bucket, it, item, chain, all);
    }

    lemma FreshOnly(item: Item, chain: Chain, all: set<Item>)
      requires decayItems.Length == DECAY_BUCKETS && Fresh(item, chain, all)
      ensures forall o | o in Objects(chain) && o != item :: o !in Tracked()
    {
    }

    lemma ReadingShows(bucket: nat, it: nat, item: Item, all: set<Item>)
      requires Reading(bucket, it, item, all)
      ensures item in all && item.decaying
    {
      hide InBuckets;
      OnWheel(Slots(), bucket, it);
    }

    lemma ReadingNow(bucket: nat, it: nat, item: Item, all: set<Item>)
      requires Valid(all) && bucket < DECAY_BUCKETS && it < |Slots()[bucket]| && Slots()[bucket][it] == item
      ensures Reading(bucket, it, item, all)
    {
      hide InBuckets;
    }

    /** What holds before each entry is read. */
    ghost predicate Sweeping(start: Buckets, waiting: seq<Item>, bucket: nat, done: nat, kept: seq<Item>,
                             next: seq<Item>, before: map<Item, Look>, heirs: map<Item, Chain>, all: set<Item>)
      requires bucket < DECAY_BUCKETS && done <= |start[bucket]| && before.Keys == all
      reads this`toDecayItems, this`lastBucket, decayItems, all
    {
      Valid(all) && Slots() == Shape(start, bucket, kept + start[bucket][done..], next) && waiting <= toDecayItems &&
      Untouched(start, waiting, bucket, done, before, Looks(all), Tracked(), heirs, all)
    }

    lemma StillTracked(start: Buckets, waiting: seq<Item>, bucket: nat, done: nat, kept: seq<Item>, next: seq<Item>,
                       before: map<Item, Look>, heirs: map<Item, Chain>, all: set<Item>, x: Item)
      requires bucket < DECAY_BUCKETS && done <= |start[bucket]| && before.Keys == all
      requires Sweeping(start, waiting, bucket, done, kept, next, before, heirs, all)
      requires x in kept + next || (x in InBuckets(start) + multiset(waiting) && x !in start[bucket][..done])
      ensures x in Tracked() && x in all
    {
      hide InBuckets, Shape;
      if x in multiset(waiting) && x !in kept + next {
        assert x in toDecayItems;
      } else {
        ShapeHolds(start, bucket, done, kept, next, x);
      }
    }

    lemma AllTracked(start: Buckets, waiting: seq<Item>, bucket: nat, done: nat, kept: seq<Item>, next: seq<Item>,
                     before: map<Item, Look>, heirs: map<Item, Chain>, all: set<Item>)
      requires bucket < DECAY_BUCKETS && done <= |start[bucket]| && before.Keys == all
      requires Sweeping(start, waiting, bucket, done, kept, next, before, heirs, all)
      ensures forall x | x in InBuckets(start) + multiset(waiting) && x !in start[bucket][..done] :: x in Tracked()
      ensures forall x | x in kept + next :: x in Tracked() && x in all
    {
      hide InBuckets, Sweeping, Tracked;
      SweepingShows(start, waiting, bucket, done, kept, next, before, heirs, all);
      forall x | x in InBuckets(start) + multiset(waiting) && x !in start[bucket][..done] ensures x in Tracked() {
        StillTracked(start, waiting, bucket, done, kept, next, before, heirs, all, x);
      }
      forall x | x in kept + next ensures x in Tracked() && x in all {
        StillTracked(start, waiting, bucket, done, kept, next, before, heirs, all, x);
      }
    }

    method SweepOne(bucket: nat, it: nat, item: Item, chain: Chain, ghost all: set<Item>, ghost start: Buckets,
                    ghost waiting: seq<Item>, ghost done: nat, ghost kept: seq<Item>, ghost next: seq<Item>,
                    ghost before: map<Item, Look>, ghost heirs: map<Item, Chain>, ghost keeps: seq<Item>,
                    ghost moves: seq<Item>)
      returns (stays: bool)
      requires decayItems.Length == DECAY_BUCKETS && bucket < DECAY_BUCKETS && done < |start[bucket]|
      requires before.Keys == all && it == |kept|
      requires item == start[bucket][done] && chain == ChainOf(heirs, item) && item in all
      requires forall x | x in kept + next :: x in start[bucket][..done]
      requires Sweeping(start, waiting, bucket, done, kept, next, before, heirs, all)
      requires keeps == (if Stays(before[item]) then kept + [item] else kept)
      requires moves == if Moves(before[item]) then next + [item] else next
      modifies decayItems, this`toDecayItems, this`toReleaseThings, this`removed, this`left
      modifies item`canDecay, item`duration, item`decaying, item`useCount
      modifies Objects(chain)`canDecay, Objects(chain)`duration, Objects(chain)`decaying, Objects(chain)`useCount
      ensures var l := before[item];
              stays == Stays(l) && (Stays(l) || Moves(l) ==> Looks(all)[item] == Later(l)) &&
              left == (if Expires(l) then old(left) + [(item, now)] else old(left))
      ensures Sweeping(start, waiting, bucket, done + 1, keeps, moves, before, heirs, all)
      ensures forall x | x in kept + next :: x in all && Looks(all)[x] == old(Looks(all))[x]
      ensures forall x | x in toReleaseThings :: x in old(toReleaseThings) || x == item
      ensures forall x | x in Tracked() :: x in old(Tracked()) || x in Objects(chain)
      ensures forall x | x in all :: x.useCount - Refs()[x] == old(x.useCount) - old(Refs())[x]
      ensures item in all && Forms(all) == Aged(item, chain, old(Forms(all))) &&
              removed == old(removed) + AgedAway(item, chain, old(Forms(all)))
    {
      hide InBuckets, Started, Shape, Refs, Objects, ChainOf, Untouched, Valid, Tracked, Slots, Stays, Moves, Expires,
        Later, Settles, Reading, Erased, Sweeping, Fresh, Looks,
        Forms, Aged, AgedAway;
      ghost var was, tracked, looks := start[bucket], Tracked(), Looks(all);
      assert was[done..][0] == item && was[done..][1..] == was[done + 1..];
      SweepingShows(start, waiting, bucket, done, kept, next, before, heirs, all);
      UntouchedItem(start, waiting, bucket, done, before, looks, tracked, heirs, all);
      AllTracked(start, waiting, bucket, done, kept, next, before, heirs, all);
      IsFresh(item, chain, all);
      stays := ReadEntry(bucket, it, item, chain, all, start, kept, was[done..], next);
      UntouchedNext(start, waiting, bucket, done, before, looks, Looks(all), tracked, Tracked(), heirs, all);
      SweepingAgain(start, waiting, bucket, done + 1, keeps, moves, before, heirs, all);
    }

    lemma IsFresh(item: Item, chain: Chain, all: set<Item>)
      requires decayItems.Length == DECAY_BUCKETS
      requires Objects(chain) <= all && forall o | o in Objects(chain) :: o == item || o !in Tracked()
      ensures Fresh(item, chain, all)
    {
    }

    lemma SweepingAgain(start: Buckets, waiting: seq<Item>, bucket: nat, done: nat, kept: seq<Item>, next: seq<Item>,
                        before: map<Item, Look>, heirs: map<Item, Chain>, all: set<Item>)
      requires bucket < DECAY_BUCKETS && done <= |start[bucket]| && before.Keys == all
      requires Valid(all) && waiting <= toDecayItems
      requires Slots() == Shape(start, bucket, kept + start[bucket][done..], next)
      requires Untouched(start, waiting, bucket, done, before, Looks(all), Tracked(), heirs, all)
      ensures Sweeping(start, waiting, bucket, done, kept, next, before, heirs, all)
    {
      hide InBuckets, Shape;
    }

    /** The objects that items decay into are different ones, and not on the wheel. */
    ghost predicate HeirsOk(heirs: map<Item, Chain>, all: set<Item>)
      requires decayItems.Length == DECAY_BUCKETS
      reads this`toDecayItems, decayItems
    {
      (forall x | x in heirs :: Fresh(x, heirs[x], all)) &&
      forall x, y | x in heirs && y in heirs && x != y :: Objects(heirs[x]) !! Objects(heirs[y])
    }

    lemma SweepStart(bucket: nat, heirs: map<Item, Chain>, all: set<Item>)
      requires Valid(all) && bucket < DECAY_BUCKETS && HeirsOk(heirs, all)
      ensures Sweeping(Slots(), toDecayItems, bucket, 0, [], [], Looks(all), heirs, all)
    {
      hide InBuckets, Shape;
      ShapeStart(Slots(), bucket);
      forall x | x in InBuckets(Slots()) ensures InBuckets(Slots())[x] == 1 {
        assert x in Tracked();
      }
      InOneBucket(Slots(), bucket);
    }

    lemma SweepingShows(start: Buckets, waiting: seq<Item>, bucket: nat, done: nat, kept: seq<Item>, next: seq<Item>,
                        before: map<Item, Look>, heirs: map<Item, Chain>, all: set<Item>)
      requires bucket < DECAY_BUCKETS && done <= |start[bucket]| && before.Keys == all
      requires Sweeping(start, waiting, bucket, done, kept, next, before, heirs, all)
      ensures decayItems.Length == DECAY_BUCKETS && decayItems[bucket] == kept + start[bucket][done..]
      ensures Slots() == Shape(start, bucket, kept + start[bucket][done..], next)
      ensures Untouched(start, waiting, bucket, done, before, Looks(all), Tracked(), heirs, all)
      ensures Valid(all) && waiting <= toDecayItems
    {
      hide InBuckets, Shape;
      ShapeList(start, bucket, kept + start[bucket][done..], next);
    }

    /** checkDecay's loop over one bucket. */
    method Sweep(bucket: nat, heirs: map<Item, Chain>, ghost all: set<Item>)
      returns (ghost kept: seq<Item>, ghost next: seq<Item>, ghost gone: seq<(Item, nat)>)
      requires decayItems.Length == DECAY_BUCKETS && bucket < DECAY_BUCKETS
      requires Valid(all) && HeirsOk(heirs, all) && forall x | x in toReleaseThings :: x in all
      modifies decayItems, this`toDecayItems, this`toReleaseThings, this`removed, this`left
      modifies all`canDecay, all`duration, all`decaying, all`useCount
      ensures left == old(left) + gone && forall x | x in toReleaseThings :: x in all
      ensures Sweeping(old(Slots()), old(toDecayItems), bucket, |old(Slots())[bucket]|, kept, next, old(Looks(all)),
              heirs, all)
      ensures Slots() == Shape(old(Slots()), bucket, kept, next)
      ensures forall x | x in Tracked() :: x in old(Tracked()) || x in Heirs(heirs)
      ensures var was := old(Slots())[bucket]; Read(was, |was|, old(Looks(all)), Looks(all), kept, next, gone, now)
      ensures forall x | x in all :: x.useCount - Refs()[x] == old(x.useCount) - old(Refs())[x]
      ensures var (forms, gone) := AgedAll(old(Slots())[bucket], heirs, old(Forms(all)));
              Forms(all) == forms && removed == old(removed) + gone
    {
      hide InBuckets, Started, Shape, Read, Refs, Looks, Untouched, Tracked, Objects, ChainOf, Stays, Moves, Expires,
        Valid, Later, Sweeping, Slots, Heirs, Forms, Aged,
        AgedAway, AgedAll;
      ghost var start, waiting, was, before := Slots(), toDecayItems, Slots()[bucket], Looks(all);
      ghost var done := 0;
      kept, next, gone := [], [], [];
      SweepStart(bucket, heirs, all);
      NothingRead(was, before, now);
      SweepingShows(start, waiting, bucket, 0, [], [], before, heirs, all);
      ghost var forms, out, vanished := Forms(all), removed, [];
      NoneAged(heirs, forms);
      assert was[..0] == [];
      var it := 0;
      while it < |decayItems[bucket]|
        invariant done <= |was| && it == |kept| && left == old(left) + gone
        invariant forall x | x in toReleaseThings :: x in all
        invariant Sweeping(start, waiting, bucket, done, kept, next, before, heirs, all)
        invariant decayItems.Length == DECAY_BUCKETS && decayItems[bucket] == kept + was[done..]
        invariant Read(was, done, before, Looks(all), kept, next, gone, now)
        invariant forall x | x in Tracked() :: x in old(Tracked()) || x in Heirs(heirs)
        invariant AgedAll(was[..done], heirs, forms) == (Forms(all), vanished) && removed == out + vanished
        invariant forall x | x in all :: x.useCount - Refs()[x] == old(x.useCount) - old(Refs())[x]
        decreases |was| - done
      {
        var stays;
        ghost var at, chain := Forms(all), ChainOf(heirs, was[done]);
        stays, kept, next, gone := SweepNext(bucket, it, heirs, all, start, waiting, done, kept, next, before, gone);
        if stays {
          it := it + 1;
        }
        AgedNext(was, done, heirs, forms, at, vanished);
        vanished := vanished + AgedAway(was[done], chain, at);
        done := done + 1;
        SweepingShows(start, waiting, bucket, done, kept, next, before, heirs, all);
      }
      SweepingShows(start, waiting, bucket, done, kept, next, before, heirs, all);
      assert kept + [] == kept && was[..done] == was;
    }

    /** One turn of the loop, with what it keeps noted. */
    method SweepNext(bucket: nat, it: nat, heirs: map<Item, Chain>, ghost all: set<Item>, ghost start: Buckets,
                     ghost waiting: seq<Item>, ghost done: nat, ghost kept: seq<Item>, ghost next: seq<Item>,
                     ghost before: map<Item, Look>, ghost gone: seq<(Item, nat)>)
      returns (stays: bool, ghost keeps: seq<Item>, ghost moves: seq<Item>, ghost leaves: seq<(Item, nat)>)
      requires decayItems.Length == DECAY_BUCKETS && bucket < DECAY_BUCKETS && done < |start[bucket]|
      requires before.Keys == all && it == |kept| && decayItems[bucket] == kept + start[bucket][done..]
      requires Sweeping(start, waiting, bucket, done, kept, next, before, heirs, all)
      requires Read(start[bucket], done, before, Looks(all), kept, next, gone, now)
      requires forall x | x in toReleaseThings :: x in all
      modifies decayItems, this`toDecayItems, this`toReleaseThings, this`removed, this`left
      modifies all`canDecay, all`duration, all`decaying, all`useCount
      ensures Sweeping(start, waiting, bucket, done + 1, keeps, moves, before, heirs, all)
      ensures Read(start[bucket], done + 1, before, Looks(all), keeps, moves, leaves, now)
      ensures gone <= leaves && left == old(left) + leaves[|gone|..] && |keeps| == if stays then it + 1 else it
      ensures forall x | x in toReleaseThings :: x in all
      ensures forall x | x in Tracked() :: x in old(Tracked()) || x in Heirs(heirs)
      ensures forall x | x in all :: x.useCount - Refs()[x] == old(x.useCount) - old(Refs())[x]
      ensures var item := start[bucket][done];
              item in all && Forms(all) == Aged(item, ChainOf(heirs, item), old(Forms(all))) &&
              removed == old(removed) + AgedAway(item, ChainOf(heirs, item), old(Forms(all)))
    {
      hide InBuckets, Started, Shape, Read, Refs, Looks, Untouched, Tracked, Objects, ChainOf, Stays, Moves, Expires,
        Valid, Later, Sweeping, Slots, Heirs, Forms, Aged, AgedAway;
      var item := decayItems[bucket][it];
      ghost var was, looks := start[bucket], Looks(all);
      SweepingShows(start, waiting, bucket, done, kept, next, before, heirs, all);
      UntouchedItem(start, waiting, bucket, done, before, looks, Tracked(), heirs, all);
      ReadWithin(was, done, before, looks, kept, next, gone, now);
      keeps := if Stays(before[item]) then kept + [item] else kept;
      moves := if Moves(before[item]) then next + [item] else next;
      stays := SweepOne(bucket, it, item, ChainOf(heirs, item), all, start, waiting, done, kept, next, before, heirs,
        keeps, moves);
      ReadOne(was, done, before, looks, Looks(all), kept, next, gone, now);
      ChainIsHeirs(heirs, item);
      leaves := if Expires(before[item]) then gone + [(item, now)] else gone;
    }

    lemma OnceEach(all: set<Item>)
      requires Valid(all)
      ensures decayItems.Length == DECAY_BUCKETS && lastBucket < DECAY_BUCKETS
      ensures forall x | x in all :: InBuckets(Slots())[x] + multiset(toDecayItems)[x] <= 1
    {
      hide InBuckets;
      forall x | x in all ensures InBuckets(Slots())[x] + multiset(toDecayItems)[x] <= 1 {
        if x in Tracked() {
        }
      }
    }

    method TurnTo(bucket: nat, ghost all: set<Item>)
      requires Valid(all) && bucket < DECAY_BUCKETS
      modifies this`lastBucket
      ensures Valid(all) && lastBucket == bucket && Forms(all) == old(Forms(all)) && Looks(all) == old(Looks(all))
    {
      hide InBuckets, Tracked, Forms, Looks;
      lastBucket := bucket;
    }

    /** The reading half of checkDecay. */
    method Turn(heirs: map<Item, Chain>, ghost all: set<Item>) returns (ghost gone: seq<(Item, nat)>)
      requires Valid(all) && HeirsOk(heirs, all) && forall x | x in toReleaseThings :: x in all
      modifies decayItems, this`toDecayItems, this`toReleaseThings, this`removed
      modifies this`left, this`dropped, this`lastBucket, this`now
      modifies all`canDecay, all`duration, all`decaying, all`useCount
      ensures Valid(all) && now == old(now) + 1 && left == old(left) + gone && old(toDecayItems) <= toDecayItems
      ensures lastBucket == (old(lastBucket) + 1) % DECAY_BUCKETS
      ensures var refused := Refused(old(Slots())[lastBucket], old(Looks(all)), old(now));
              dropped == old(dropped) + refused &&
              OneCloser(old(Slots()), old(lastBucket), old(Looks(all)), Slots(), lastBucket, Looks(all), gone, refused,
                        old(now))
      ensures OnlyDue(old(Slots()), old(lastBucket), old(Looks(all)), gone, now)
      ensures booked == old(booked) && (old(OnTime(all)) ==> OnTime(all))
      ensures forall x | x in Tracked() :: x in old(Tracked()) || x in Heirs(heirs)
      ensures forall x | x in old(toDecayItems) && x in all :: Looks(all)[x] == old(Looks(all))[x]
      ensures forall x | x in all :: x.useCount - Refs()[x] == old(x.useCount) - old(Refs())[x]
      ensures forall x | x in toReleaseThings :: x in all
      ensures var (forms, gone) := AgedAll(old(Slots())[lastBucket], heirs, old(Forms(all)));
              Forms(all) == forms && removed == old(removed) + gone
    {
      hide InBuckets, Read, Refs, Shape, Untouched, HeirsOk, OneCloser, OnlyDue, NoneNew, Tracked, Sweeping, Valid,
        Looks, Slots, Heirs, Keeps, Refused, Forms, AgedAll;
      OnceEach(all);
      ghost var start, waiting, last, before := Slots(), toDecayItems, lastBucket, Looks(all);
      ghost var kept, next;
      kept, next, gone := ReadBucket(heirs, all);
      var bucket := lastBucket;
      assert start[bucket] == start[bucket][..|start[bucket]|];
      SweepingShows(start, waiting, bucket, |start[bucket]|, kept, next, before, heirs, all);
      AllCloser(start, waiting, last, bucket, kept, next, gone, before, Looks(all), Tracked(), heirs, all, now - 1);
      TurnAddsNothing(start, waiting, last, bucket, kept, next, gone, before, Looks(all), Tracked(), heirs, all, now);
      if old(OnTime(all)) {
        TurnKeeps(start, last, before, Slots(), bucket, Looks(all), now - 1, old(left), gone, old(dropped), booked);
      }
      forall x | x in waiting && x in all ensures Looks(all)[x] == before[x] {
        WaitingUntouched(start, waiting, bucket, before, Looks(all), Tracked(), heirs, all, x);
      }
    }

    /** The next bucket is read. */
    method ReadBucket(heirs: map<Item, Chain>, ghost all: set<Item>)
      returns (ghost kept: seq<Item>, ghost next: seq<Item>, ghost gone: seq<(Item, nat)>)
      requires Valid(all) && HeirsOk(heirs, all) && forall x | x in toReleaseThings :: x in all
      modifies decayItems, this`toDecayItems, this`toReleaseThings, this`removed
      modifies this`left, this`dropped, this`lastBucket, this`now
      modifies all`canDecay, all`duration, all`decaying, all`useCount
      ensures decayItems.Length == DECAY_BUCKETS && old(lastBucket) < DECAY_BUCKETS
      ensures lastBucket == (old(lastBucket) + 1) % DECAY_BUCKETS
      ensures now == old(now) + 1 && left == old(left) + gone && forall x | x in toReleaseThings :: x in all
      ensures dropped == old(dropped) + Refused(old(Slots())[lastBucket], old(Looks(all)), old(now))
      ensures Sweeping(old(Slots()), old(toDecayItems), lastBucket, |old(Slots())[lastBucket]|, kept, next,
                       old(Looks(all)), heirs, all)
      ensures Slots() == Shape(old(Slots()), lastBucket, kept, next)
      ensures forall x | x in Tracked() :: x in old(Tracked()) || x in Heirs(heirs)
      ensures var was := old(Slots())[lastBucket]; Read(was, |was|, old(Looks(all)), Looks(all), kept, next, gone, now)
      ensures forall x | x in all :: x.useCount - Refs()[x] == old(x.useCount) - old(Refs())[x]
      ensures var (forms, vanished) := AgedAll(old(Slots())[lastBucket], heirs, old(Forms(all)));
              Forms(all) == forms && removed == old(removed) + vanished
    {
      hide InBuckets, Read, Refs, Shape, Untouched, HeirsOk, Tracked, Sweeping, Valid, Looks, Slots, Heirs, Refused,
        Forms, AgedAll;
      LengthHolds(all);
      ghost var start, waiting, before := Slots(), toDecayItems, Looks(all);
      now := now + 1;
      var bucket := (lastBucket + 1) % DECAY_BUCKETS;
      dropped := dropped + Refused(start[bucket], before, now - 1);
      kept, next, gone := Sweep(bucket, heirs, all);
      SweepingShows(start, waiting, bucket, |start[bucket]|, kept, next, before, heirs, all);
      TurnTo(bucket, all);
      SweepingAgain(start, waiting, bucket, |start[bucket]|, kept, next, before, heirs, all);
    }

    /** checkDecay: the items on the wheel are read in turn. Each comes one tick closer to leaving, whatever
        the others do, but for those in the bucket read that can no longer decay and are let go; what waits is
        placed for its lifetime; only what is due leaves; and each reference the wheel took is given back once. */
    method CheckDecay(heirs: map<Item, Chain>, ghost all: set<Item>)
      requires Valid(all) && HeirsOk(heirs, all) && forall x | x in toReleaseThings :: x in all
      modifies decayItems, this, all`canDecay, all`duration, all`decaying, all`useCount
      ensures Valid(all) && toDecayItems == [] && toReleaseThings == [] && now == old(now) + 1
      ensures old(left) <= left && old(booked) <= booked && lastBucket == (old(lastBucket) + 1) % DECAY_BUCKETS
      ensures var refused := Refused(old(Slots())[lastBucket], old(Looks(all)), old(now));
              dropped == old(dropped) + refused &&
              OneCloser(old(Slots()), old(lastBucket), old(Looks(all)), Slots(), lastBucket, Looks(all), left, refused,
                        old(now))
      ensures OnlyDue(old(Slots()), old(lastBucket), old(Looks(all)), left[|old(left)|..], now)
      ensures forall x | x in old(toDecayItems) && x in all ::
                x.canDecay == old(x.canDecay) && x.duration == old(x.duration) && DueIn(x, Lifetime(x.duration)) &&
                (x, now + Lifetime(x.duration)) in booked
      ensures old(OnTime(all)) ==> OnTime(all)
      ensures forall x | x in Tracked() :: x in old(Tracked()) || x in Heirs(heirs)
      ensures forall x | x in all :: x.useCount - Refs()[x] == old(x.useCount) - old(Refs())[x]
      ensures var (forms, gone) := AgedAll(old(Slots())[lastBucket], heirs, old(Forms(all)));
              Forms(all) == forms && removed == old(removed) + gone
    {
      hide InBuckets, Refs, HeirsOk, OneCloser, OnlyDue, Grown, Lifetime, DueAt, Tracked, Keeps, Heirs, BookedFor,
        Refused, Valid, Slots, OnTime, Forms, AgedAll;
      LengthHolds(all);
      ghost var start, last, before, book := Slots(), lastBucket, Looks(all), booked;
      ghost var gone := Turn(heirs, all);
      ghost var turned := Slots();
      Queued(all);
      ghost var queue := toDecayItems;
      Cleanup(all);
      CloserWhenGrown(start, last, before, turned, Slots(), lastBucket, Looks(all), gone, left,
        Refused(start[lastBucket], before, now - 1), now - 1);
      Booked(queue, Looks(all), now, book, booked);
    }

    // ----- Runs -----

    /** The item has left the wheel at that tick, or is on its way to. */
    ghost predicate Expected(x: Item, at: nat)
      requires decayItems.Length == DECAY_BUCKETS && lastBucket < DECAY_BUCKETS
      reads this, decayItems, x`canDecay, x`duration
    {
      (x, at) in left || (x.canDecay && at > now && DueIn(x, at - now))
    }

    /** The same, or the item waits and what is to happen places it in time. */
    ghost predicate Promised(x: Item, at: nat, events: seq<Event>)
      requires decayItems.Length == DECAY_BUCKETS && lastBucket < DECAY_BUCKETS
      reads this, decayItems, x`canDecay, x`duration
    {
      Expected(x, at) ||
      (x in toDecayItems && x.canDecay && x.duration > 0 && NextCleanup(events) >= 0 &&
       at == now + NextCleanup(events) + Lifetime(x.duration))
    }

    lemma StartPossible(item: Item, chain: Chain, used: set<Item>, all: set<Item>)
      requires Valid(all) && item in all && Unused(item, chain, used, all) && forall x | x in Tracked() :: x in used
      ensures Objects(chain) <= all && (item.decaying || forall x | x in Objects(chain) :: x !in Tracked())
      ensures forall x | x in Objects(chain) :: x == item || x !in Tracked()
    {
      hide InBuckets;
    }

    lemma TickPossible(heirs: map<Item, Chain>, used: set<Item>, all: set<Item>)
      requires decayItems.Length == DECAY_BUCKETS && Disjoint(heirs) && forall x | x in Tracked() :: x in used
      requires forall x | x in heirs :: Unused(x, heirs[x], used, all)
      ensures HeirsOk(heirs, all)
    {
      hide InBuckets, Tracked;
    }

    /** A start leaves alone whatever is tracked already. */
    method Begin(item: Item, chain: Chain, ghost used: set<Item>, ghost all: set<Item>)
      requires Valid(all) && item in all && Unused(item, chain, used, all) && forall x | x in Tracked() :: x in used
      modifies all, this`toDecayItems, this`removed
      ensures Valid(all) && forall x | x in Tracked() :: x in used + {item} + Objects(chain)
      ensures Slots() == old(Slots()) && old(toDecayItems) <= toDecayItems
      ensures forall x | x in old(Tracked()) :: x in all && Looks(all)[x] == old(Looks(all))[x]
      ensures old(item.canDecay && !item.decaying && item.duration > 0) ==>
                item in toDecayItems && item.canDecay && item.duration == old(item.duration)
      ensures forall x | x in all :: x.useCount - Refs()[x] == old(x.useCount) - old(Refs())[x]
    {
      hide InBuckets, Refs, DueAt, Tracked, Started, Valid, Slots, Objects, Unused;
      StartedWhere(chain);
      LengthHolds(all);
      StartPossible(item, chain, used, all);
      Marked(all);
      StartDecay(item, chain, all);
    }

    method RunStart(item: Item, chain: Chain, ghost rest: seq<Event>, ghost used: set<Item>, ghost all: set<Item>)
      requires Valid(all) && (forall x | x in toReleaseThings :: x in all) && forall x | x in Tracked() :: x in used
      requires item in all && Unused(item, chain, used, all)
      modifies all, this`toDecayItems, this`removed
      ensures Valid(all) && forall x | x in Tracked() :: x in used + {item} + Objects(chain)
      ensures forall x, at: nat | x in all && old(Promised(x, at, [Start(item, chain)] + rest)) :: Promised(x, at, rest)
      ensures old(item.canDecay && !item.decaying && item.duration > 0) ==>
                item in toDecayItems && item.canDecay && item.duration == old(item.duration)
      ensures old(OnTime(all)) ==> OnTime(all)
      ensures forall x | x in all :: x.useCount - Refs()[x] == old(x.useCount) - old(Refs())[x]
    {
      hide InBuckets, Refs, DueAt, Tracked, Valid, Slots, Objects, Keeps, Unused, NextCleanup, Lifetime;
      LengthHolds(all);
      Marked(all);
      ghost var start, last, before := Slots(), lastBucket, Looks(all);
      DueTracked(all);
      Begin(item, chain, used, all);
      CleanedLater(Start(item, chain), rest);
      if old(OnTime(all)) {
        SameTimeKeeps(start, last, before, Looks(all), now, left, dropped, booked);
      }
    }

    lemma Marked(all: set<Item>)
      requires Valid(all)
      ensures forall x | x in toDecayItems :: x in Tracked() && x in all && x.decaying
      ensures forall x | x in Tracked() :: x in all && x.decaying
    {
      hide InBuckets;
    }

    lemma DueTracked(all: set<Item>)
      requires Valid(all)
      ensures forall x, n: nat | x in all && DueAt(Slots(), lastBucket, x, Looks(all)[x].duration, n) :: x in Tracked()
      ensures forall x | x in InBuckets(Slots()) :: x in Tracked()
    {
      hide InBuckets;
      forall x, n: nat | x in all && DueAt(Slots(), lastBucket, x, Looks(all)[x].duration, n) ensures x in Tracked() {
        Held(Slots(), x);
      }
    }

    method RunTick(heirs: map<Item, Chain>, ghost rest: seq<Event>, ghost used: set<Item>, ghost all: set<Item>)
      requires Valid(all) && (forall x | x in toReleaseThings :: x in all) && forall x | x in Tracked() :: x in used
      requires Disjoint(heirs) && forall x | x in heirs :: Unused(x, heirs[x], used, all)
      modifies decayItems, this, all
      ensures Valid(all) && toReleaseThings == [] && now == old(now) + 1
      ensures old(left) <= left && old(booked) <= booked && old(dropped) <= dropped
      ensures forall x | x in Tracked() :: x in used + Heirs(heirs)
      ensures forall x, at: nat | x in all && old(Promised(x, at, [Tick(heirs)] + rest)) :: Promised(x, at, rest)
      ensures old(OnTime(all)) ==> OnTime(all)
      ensures forall x | x in all :: x.useCount - Refs()[x] == old(x.useCount) - old(Refs())[x]
    {
      hide InBuckets, Refs, DueAt, Tracked, Valid, HeirsOk, OnlyDue, Keeps, Heirs, Lifetime, Disjoint, Unused, Refused;
      LengthHolds(all);
      TickPossible(heirs, used, all);
      LifetimePositive();
      RefusedCannot(Slots()[(lastBucket + 1) % DECAY_BUCKETS], Looks(all), now);
      CheckDecay(heirs, all);
    }

    /** An item is changed from outside: what decides whether it can decay and, while it is not decaying, the
        time it has left. */
    method RunChange(item: Item, canDecay: bool, duration: nat, ghost rest: seq<Event>, ghost all: set<Item>)
      requires Valid(all) && item in all
      modifies item`canDecay, item`duration
      ensures Valid(all) && item.canDecay == canDecay
      ensures item.duration == if item.decaying then old(item.duration) else duration
      ensures var e := Change(item, canDecay, duration);
              forall x, at: nat | x in all && x != item && old(Promised(x, at, [e] + rest)) :: Promised(x, at, rest)
      ensures old(OnTime(all)) ==> OnTime(all)
    {
      hide InBuckets, DueAt, Keeps, Lifetime, Tracked, NextCleanup;
      Marked(all);
      DueTracked(all);
      ghost var before := Looks(all);
      item.canDecay := canDecay;
      if !item.decaying {
        item.duration := duration;
      }
      CleanedLater(Change(item, canDecay, duration), rest);
      if old(OnTime(all)) {
        SameTimeKeeps(Slots(), lastBucket, before, Looks(all), now, left, dropped, booked);
      }
    }

    method RunCleanup(ghost rest: seq<Event>, ghost all: set<Item>)
      requires Valid(all) && forall x | x in toReleaseThings :: x in all
      modifies decayItems, this`toDecayItems, this`toReleaseThings, this`booked, all`useCount
      ensures Valid(all) && toReleaseThings == [] && Tracked() == old(Tracked()) && old(booked) <= booked
      ensures forall x, at: nat | x in all && old(Promised(x, at, [Clean] + rest)) :: Promised(x, at, rest)
      ensures old(OnTime(all)) ==> OnTime(all)
      ensures forall x | x in all :: x.useCount - Refs()[x] == old(x.useCount) - old(Refs())[x]
    {
      hide InBuckets, Refs, DueAt, Grown, Keeps, Lifetime, Slots, Tracked, Valid, BookedFor;
      LengthHolds(all);
      ghost var before, waiting, book := Slots(), toDecayItems, booked;
      LifetimePositive();
      Queued(all);
      Cleanup(all);
      Booked(waiting, Looks(all), now, book, booked);
      forall x, at: nat | x in all && old(Promised(x, at, [Clean] + rest)) ensures Promised(x, at, rest) {
        if old(Expected(x, at)) && (x, at) !in left {
          DueWhenGrown(before, Slots(), lastBucket, x, x.duration, at - now);
        }
      }
    }

    /** Any run of starts, ticks, cleanups and changes from outside, items turning into themselves or into new
        objects as they decay, brings every item that is not changed to leave at exactly the tick that is
        promised for it: its lifetime after it is placed; so does one that the run starts. If before the run
        items leave as booked, they do so afterwards, but for those that could no longer decay when they were
        read. Each reference taken is given back once, whatever is changed. */
    method Run(events: seq<Event>, ghost used: set<Item>, ghost all: set<Item>)
      requires Valid(all) && (forall x | x in toReleaseThings :: x in all) && forall x | x in Tracked() :: x in used
      requires Possible(events, used, all)
      modifies decayItems, this, all
      ensures Valid(all) && now == old(now) + Ticks(events)
      ensures old(left) <= left && old(booked) <= booked && old(dropped) <= dropped
      ensures forall x, at: nat | x in all && x !in Changed(events) && old(Promised(x, at, events)) ::
                Expected(x, at) && (at <= now ==> (x, at) in left)
      ensures events != [] && events[0].Start? ==>
                var item, rest := events[0].item, events[1..];
                old(item.canDecay && !item.decaying && item.duration > 0) && item !in Changed(rest) &&
                NextCleanup(rest) >= 0 ==>
                  var at := old(now) + NextCleanup(rest) + Lifetime(old(item.duration));
                  Expected(item, at) && (at <= now ==> (item, at) in left)
      ensures old(OnTime(all)) ==> OnTime(all)
      ensures forall x | x in all :: x.useCount - Refs()[x] == old(x.useCount) - old(Refs())[x]
      decreases |events|
    {
      hide InBuckets, Refs, DueAt, Tracked, Valid, Keeps, Unused, Disjoint, Heirs, Objects, Lifetime, OnTime,
        Looks, Forms;
      LengthHolds(all);
      if events != [] {
        assert events == [events[0]] + events[1..];
        match events[0] {
          case Start(item, chain) =>
            RunStart(item, chain, events[1..], used, all);
            Run(events[1..], used + {item} + Objects(chain), all);
          case Tick(heirs) =>
            RunTick(heirs, events[1..], used, all);
            Run(events[1..], used + Heirs(heirs), all);
          case Clean =>
            RunCleanup(events[1..], all);
            Run(events[1..], used, all);
          case Change(item, canDecay, duration) =>
            RunChange(item, canDecay, duration, events[1..], all);
            Run(events[1..], used, all);
        }
      }
    }

    /** An item that starts to decay with some time left leaves that lifetime after the next cleanup. */
    method StartAndRun(item: Item, chain: Chain, events: seq<Event>, ghost used: set<Item>, ghost all: set<Item>)
      requires Valid(all) && (forall x | x in toReleaseThings :: x in all) && forall x | x in Tracked() :: x in used
      requires Possible([Start(item, chain)] + events, used, all)
      modifies decayItems, this, all
      ensures Valid(all) && now == old(now) + Ticks(events)
      ensures old(item.canDecay && !item.decaying && item.duration > 0) && item !in Changed(events) &&
              NextCleanup(events) >= 0 ==>
                var at := old(now) + NextCleanup(events) + Lifetime(old(item.duration));
                Expected(item, at) && (at <= now ==> (item, at) in left)
    {
      hide InBuckets, Refs, DueAt, Tracked, Valid, Keeps, Unused, Disjoint, Heirs, Objects, Lifetime, Possible;
      LengthHolds(all);
      assert ([Start(item, chain)] + events)[1..] == events;
      Run([Start(item, chain)] + events, used, all);
    }

    /** transformItem from outside, into a type with a duration of its own: the item gets that duration and is
        no longer marked as decaying, even if it is tracked. Exactly then it may be tracked twice. */
    method Reform(item: Item, canDecay: bool, duration: nat, ghost all: set<Item>)
      requires Valid(all) && item in all
      modifies item`canDecay, item`duration, item`decaying
      ensures item.canDecay == canDecay && item.duration == duration && !item.decaying
      ensures Valid(all) <==> item !in old(Tracked())
      ensures Tracked() == old(Tracked())
    {
      hide InBuckets;
      item.canDecay, item.duration, item.decaying := canDecay, duration, false;
    }
  }

  /** It does happen: a lit torch that is used turns into one that burns longer, whose decay is started; the
      wheel then holds it twice. */
  method RelitTorch() returns (wheel: Wheel, torch: Item)
    ensures wheel.decayItems.Length == DECAY_BUCKETS && wheel.Tracked()[torch] == 2 && torch.useCount >= 2
    ensures !wheel.Valid({torch})
  {
    hide InBuckets, Wheel.Valid, Wheel.Tracked, Wheel.Slots, Wheel.Refs, Wheel.OnTime, Forms, Carried, Vanished;
    wheel, torch := LitTorch();
    wheel.LengthHolds({torch});
    wheel.Reform(torch, true, 600000, {torch});
    wheel.StartDecay(torch, [], {torch});
    wheel.TrackedTwice(torch, {torch});
  }

  method LitTorch() returns (wheel: Wheel, torch: Item)
    ensures fresh(wheel) && fresh(torch) && wheel.Valid({torch}) && fresh(wheel.decayItems)
    ensures wheel.decayItems.Length == DECAY_BUCKETS && wheel.Tracked() == multiset{torch}
    ensures torch.useCount == wheel.Refs()[torch]
  {
    hide InBuckets, Wheel.Valid, Wheel.Tracked, Wheel.Slots, Wheel.Refs, Wheel.OnTime, Forms, Carried, Vanished;
    torch := new Item;
    torch.canDecay, torch.duration, torch.decaying, torch.useCount := true, 300000, false, 0;
    wheel := new Wheel();
    wheel.NothingTracked({torch});
    wheel.StartDecay(torch, [], {torch});
  }
}
