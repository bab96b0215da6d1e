/** ConditionDamage: how an amount of damage is split into a fading list of hits. */
module DamageList {
  import opened Bits

  function Abs(x: int): nat { if x < 0 then -x else x }

  function Max(a: int, b: int): (m: int)
    ensures a <= m && b <= m && (m == a || m == b)
  {
    if a < b then b else a
  }

  /** 1 + 2 + ... + k: the least a list holding every value from k down to 1 can add up to. */
  ghost function Triangle(k: nat): nat {
    if k == 0 then 0 else k + Triangle(k - 1)
  }

  lemma {:induction false} TriangleFormula(k: nat)
    ensures 2 * Triangle(k) == k * (k + 1)
  {
    if k > 0 {
      TriangleFormula(k - 1);
      assert k * (k + 1) == (k - 1) * k + 2 * k;
    }
  }

  ghost function Sum(s: seq<int>): int {
    if s == [] then 0 else Sum(s[..|s| - 1]) + s[|s| - 1]
  }

  lemma SumPush(s: seq<int>, x: int)
    ensures Sum(s + [x]) == Sum(s) + x
  {
    assert (s + [x])[..|s|] == s;
  }

  // ----- The stopping test -----

  function AbsReal(x: real): real { if x < 0.0 then -x else x }

  /** |1 - x / med|, the relative distance of x from the target. */
  function Gap(x: nat, med: nat): real
    requires med != 0
  {
    AbsReal(1.0 - x as real / med as real)
  }

  /** The test x1 < x2 that keeps the inner loop going. With a target of 0 both quotients are infinite
      and the comparison is false. */
  predicate CloserWithOneMore(sum: nat, i: nat, med: nat) {
    med != 0 && Gap(sum + i, med) < Gap(sum, med)
  }

  lemma ScaledGap(x: nat, med: nat)
    requires med > 0
    ensures Gap(x, med) * med as real == Abs(med - x) as real
  {
    var q := x as real / med as real;
    assert q * med as real == x as real;
    assert (1.0 - q) * med as real == (med - x) as real;
  }

  lemma ScaledLess(a: real, b: real, m: real)
    requires m > 0.0
    ensures a < b <==> a * m < b * m
  {
    assert (b - a) * m == b * m - a * m;
    if a < b {
      assert (b - a) * m > 0.0;
    } else {
      assert (a - b) * m >= 0.0;
    }
  }

  /** The quotients only ask whether the sum is more than half a step short of the target. */
  lemma CloserMeans(sum: nat, i: nat, med: nat)
    requires i > 0
    ensures CloserWithOneMore(sum, i, med) <==> 2 * (med - sum) > i
  {
    hide Gap;
    if med > 0 {
      ScaledGap(sum + i, med);
      ScaledGap(sum, med);
      ScaledLess(Gap(sum + i, med), Gap(sum, med), med as real);
    }
  }

  // ----- Bounds on the running targets -----

  lemma MulMono(k: nat, a: int, b: int)
    requires a <= b
    ensures k * a <= k * b
  {
    assert k * (b - a) >= 0;
  }

  lemma MulStrict(k: nat, a: int, b: int)
    requires k > 0 && a < b
    ensures k * a < k * b
  {
    MulMono(k, a + 1, b);
    assert k * (a + 1) == k * a + k;
  }

  lemma MulCancel(k: nat, a: int, b: int)
    requires k > 0 && k * a <= k * b
    ensures a <= b
  {
    if a > b {
      MulStrict(k, b, a);
    }
  }

  /** With s(s+1) <= a, the share (s-k)/s of a is at most a - k(s+1). */
  lemma ShareAtMost(a: nat, s: nat, k: nat)
    requires s * (s + 1) <= a && k <= s
    ensures (s - k) * a <= s * (a - k * (s + 1))
  {
    MulMono(k, s * (s + 1), a);
    assert (s - k) * a == s * a - k * a;
    assert s * (a - k * (s + 1)) == s * a - s * (k * (s + 1));
    assert s * (k * (s + 1)) == k * (s * (s + 1));
  }

  /** With a <= s(s+1), the share n/s of a is at most n(s+1). */
  lemma ShareAtMostSmall(a: nat, s: nat, n: nat)
    requires a <= s * (s + 1)
    ensures n * a <= s * (n * (s + 1))
  {
    MulMono(n, a, s * (s + 1));
    assert n * (s * (s + 1)) == s * (n * (s + 1));
  }

  lemma HalfShare(p: nat, s: nat, bound: int)
    requires s > 0 && 2 * p <= s * bound
    ensures 2 * (p / s) <= bound
  {
    var m := p / s;
    assert s * m <= p;
    assert s * (2 * m) == 2 * (s * m);
    MulCancel(s, 2 * m, bound);
  }

  lemma Doubling(n: nat, amount: nat)
    ensures n * (2 * amount) == 2 * (n * amount)
  {
  }

  lemma SquareBelow(s: nat, i: nat)
    requires 1 <= i <= s
    ensures i * (i - 1) + i - 1 <= (i - 1) * (s + 1)
    ensures (s + 1 - i) * (s + 1) <= s * (s + 1) - i * (i - 1)
  {
    MulMono(i - 1, i + 1, s + 1);
    assert (i - 1) * (i + 1) == i * (i - 1) + i - 1;
    assert (s + 1 - i) * (s + 1) == s * (s + 1) - (i - 1) * (s + 1);
  }

  /** The running target after value i of a list from `start`. */
  ghost function Target(amount: nat, start: nat, i: nat): nat
    requires 1 <= i <= start
  {
    Share(start + 1 - i, amount, start)
  }

  /** The share n/s of an amount, rounded down. */
  ghost function Share(n: nat, amount: nat, s: nat): nat
    requires s > 0
  {
    ProductIsNat(n, amount);
    QuotientIsNat(n * amount, s);
    n * amount / s
  }

  lemma ProductIsNat(a: nat, b: nat)
    ensures a * b >= 0
  {
  }

  lemma QuotientIsNat(p: nat, s: nat)
    requires s > 0
    ensures p / s >= 0
  {
  }

  /** The target leaves room for the values below i. */
  lemma TargetLeavesRoom(amount: nat, start: nat, i: nat)
    requires 1 <= i <= start && Triangle(start) <= amount
    ensures 2 * Target(amount, start, i) + i - 1 <= 2 * amount - i * (i - 1)
  {
    hide Triangle;
    TriangleFormula(start);
    var n := start + 1 - i;
    ProductIsNat(n, amount);
    assert start - (i - 1) == n;
    ShareAtMost(2 * amount, start, i - 1);
    Doubling(n, amount);
    HalfShare(n * amount, start, 2 * amount - (i - 1) * (start + 1));
    SquareBelow(start, i);
  }

  /** Below the triangle number the targets never ask for a second copy of a value. */
  lemma TargetAlreadyMet(amount: nat, start: nat, i: nat)
    requires 1 <= i <= start && amount < Triangle(start)
    ensures 2 * Target(amount, start, i) <= start * (start + 1) - i * (i - 1)
  {
    hide Triangle;
    TriangleFormula(start);
    var n := start + 1 - i;
    ProductIsNat(n, amount);
    ShareAtMostSmall(2 * amount, start, n);
    Doubling(n, amount);
    HalfShare(n * amount, start, n * (start + 1));
    SquareBelow(start, i);
  }

  // ----- The loop -----

  /** The list holds exactly the values from start down to `last`, each at least once, never rising. */
  ghost predicate Fading(list: seq<int>, start: int, last: int) {
    (forall v :: v in list <==> last <= v <= start) &&
    forall j, k | 0 <= j < k < |list| :: list[j] >= list[k]
  }

  /** What the values from v up in a list come to. */
  ghost function SumFrom(list: seq<int>, v: int): int {
    if list == [] then 0 else SumFrom(list[..|list| - 1], v) + if list[|list| - 1] >= v then list[|list| - 1] else 0
  }

  lemma SumFromPush(list: seq<int>, x: int)
    ensures forall v :: SumFrom(list + [x], v) == SumFrom(list, v) + if x >= v then x else 0
  {
    assert (list + [x])[..|list|] == list;
  }

  lemma {:induction false} SumFromAll(list: seq<int>, v: int)
    requires forall k | 0 <= k < |list| :: list[k] >= v
    ensures SumFrom(list, v) == Sum(list)
  {
    if list != [] {
      SumFromAll(list[..|list| - 1], v);
    }
  }

  /** With its copies of v the list comes to the share of the amount due by then, but for half of v either way;
      it comes to more than that only where one copy does. */
  ghost predicate Nearest(list: seq<int>, amount: nat, start: nat, v: nat)
    requires 1 <= v <= start
  {
    ProductIsNat(start + 1 - v, amount);
    var short := 2 * ((start + 1 - v) * amount / start - SumFrom(list, v));
    multiset(list)[v] >= 1 && short <= v && (multiset(list)[v] > 1 ==> short + v > 0)
  }

  lemma NearestStays(a: seq<int>, b: seq<int>, amount: nat, start: nat, v: nat)
    requires 1 <= v <= start && Nearest(a, amount, start, v)
    requires SumFrom(a, v) == SumFrom(b, v) && multiset(a)[v] == multiset(b)[v]
    ensures Nearest(b, amount, start, v)
  {
  }

  /** What the sum satisfies once the values from start down to i + 1 are all in the list. */
  ghost predicate OnTrack(sum: int, amount: nat, start: nat, i: nat) {
    if Triangle(start) <= amount then sum + Triangle(i) <= amount else sum + Triangle(i) == Triangle(start)
  }

  lemma PushKeepsFading(list: seq<int>, start: int, i: int, first: bool)
    requires Fading(list, start, if first then i + 1 else i) && i <= start
    ensures Fading(list + [i], start, i)
  {
    forall v ensures v in list + [i] <==> i <= v <= start {
      assert v in list + [i] <==> v in list || v == i;
    }
    forall j | 0 <= j < |list| ensures list[j] >= i {
      assert list[j] in list;
    }
  }

  /** Splits |amount| into hits that fade from `start` to 1: every value from start down to 1 occurs as often as
      brings the list nearest to the share due by then, and together they come to |amount|, or to
      1 + ... + start where |amount| is less than that. */
  method GenerateDamageList(amount: int, start: int) returns (list: seq<int>)
    ensures Fading(list, start, 1)
    ensures Sum(list) ==
            if start <= 0 then 0 else Max(if amount < 0 then -amount else amount, Triangle(start))
    ensures var total := if amount < 0 then -amount else amount;
            forall v | 1 <= v <= start :: Nearest(list, total, start, v)
  {
    hide Fading, Triangle, Target, Nearest, SumFrom;
    list := [];
    var total, sum := Abs(amount), 0;
    var i := start;
    StartOnTrack(total, start);
    while i > 0
      invariant start <= 0 ==> i == start && list == []
      invariant start > 0 ==> 0 <= i <= start && Fading(list, start, i + 1) && OnTrack(sum, total, start, i)
      invariant Sum(list) == sum >= 0
      invariant forall v | i < v <= start :: Nearest(list, total, start, v)
      invariant i == 0 < start ==> 2 * (Target(total, start, 1) - sum) <= 1
    {
      ghost var list0 := list;
      list, sum := PushValue(list, sum, total, start, i);
      forall v | i < v <= start ensures Nearest(list, total, start, v) {
        NearestStays(list0, list, total, start, v);
      }
      i := i - 1;
    }
    EndOnTrack(sum, total, start);
  }

  lemma StartOnTrack(total: nat, start: int)
    ensures start > 0 ==> OnTrack(0, total, start, start)
    ensures Fading([], start, Max(1, start + 1))
  {
  }

  lemma EndOnTrack(sum: int, total: nat, start: int)
    requires start > 0 ==> OnTrack(sum, total, start, 0) && 2 * (Target(total, start, 1) - sum) <= 1
    ensures start > 0 ==> sum == Max(total, Triangle(start))
  {
    assert Triangle(0) == 0;
    if start > 0 {
      DivCancel(start, total);
    }
  }

  lemma DivCancel(s: nat, t: nat)
    requires s > 0
    ensures s * t / s == t
  {
    DivModUnique(s * t, s, t, 0);
  }

  /** The do-while loop for one value i, whose target is `med`. */
  method PushValue(list0: seq<int>, sum0: nat, total: nat, start: nat, i: nat) returns (list: seq<int>, sum: nat)
    requires 1 <= i <= start
    requires Fading(list0, start, i + 1) && Sum(list0) == sum0 && OnTrack(sum0, total, start, i)
    ensures Fading(list, start, i) && Sum(list) == sum && OnTrack(sum, total, start, i - 1)
    ensures 2 * (Target(total, start, i) - sum) <= i
    ensures Nearest(list, total, start, i)
    ensures forall v | v > i :: SumFrom(list, v) == SumFrom(list0, v) && multiset(list)[v] == multiset(list0)[v]
  {
    hide CloserWithOneMore, Fading, OnTrack, Target, Triangle, Sum, SumFrom, Nearest;
    TargetIs(total, start, i);
    var n := start + 1 - i;
    var med := n * total / start;
    list, sum := list0, sum0;
    NoneYet(list, start, i);
    ghost var first := true;
    while true
      invariant Sum(list) == sum && Fading(list, start, if first then i + 1 else i)
      invariant OnTrack(sum, total, start, if first then i else i - 1)
      invariant first || 2 * (med - sum) > i
      invariant forall v | v > i :: SumFrom(list, v) == SumFrom(list0, v) && multiset(list)[v] == multiset(list0)[v]
      invariant first <==> multiset(list)[i] == 0
      decreases first, med - sum
    {
      PushKeepsTrack(sum, total, start, i, first);
      PushKeepsFading(list, start, i, first);
      SumPush(list, i);
      SumFromPush(list, i);
      sum := sum + i;
      list := list + [i];
      CloserMeans(sum, i, med);
      if !CloserWithOneMore(sum, i, med) {
        IsNearest(list, sum, total, start, i, first);
        break;
      }
      first := false;
    }
  }

  lemma TargetIs(total: nat, start: nat, i: nat)
    requires 1 <= i <= start
    ensures (start + 1 - i) * total >= 0 && Target(total, start, i) == (start + 1 - i) * total / start
  {
    ProductIsNat(start + 1 - i, total);
  }

  lemma NoneYet(list: seq<int>, start: nat, i: nat)
    requires Fading(list, start, i + 1)
    ensures multiset(list)[i] == 0
  {
    assert i !in list;
  }

  lemma IsNearest(list: seq<int>, sum: int, total: nat, start: nat, i: nat, first: bool)
    requires 1 <= i <= start && Fading(list, start, i) && Sum(list) == sum
    requires multiset(list)[i] >= 1 && 2 * (Target(total, start, i) - sum) <= i
    requires multiset(list)[i] > 1 ==> 2 * (Target(total, start, i) - (sum - i)) > i
    ensures Nearest(list, total, start, i)
  {
    hide Target, Sum, SumFrom;
    TargetIs(total, start, i);
    forall k | 0 <= k < |list| ensures list[k] >= i {
      assert list[k] in list;
    }
    SumFromAll(list, i);
  }

  /** One more copy of i stays on track: the first always, a further one only when the target asks. */
  lemma PushKeepsTrack(sum: nat, total: nat, start: nat, i: nat, first: bool)
    requires 1 <= i <= start
    requires OnTrack(sum, total, start, if first then i else i - 1)
    requires first || 2 * (Target(total, start, i) - sum) > i
    ensures OnTrack(sum + i, total, start, i - 1)
  {
    hide Target, Triangle;
    TriangleStep(i);
    if !first {
      TriangleFormula(start);
      if Triangle(start) <= total {
        TargetLeavesRoom(total, start, i);
      } else {
        TargetAlreadyMet(total, start, i);
      }
    }
  }

  lemma TriangleStep(i: nat)
    requires i > 0
    ensures Triangle(i) == i + Triangle(i - 1) && 2 * Triangle(i - 1) == i * (i - 1)
  {
    TriangleFormula(i - 1);
  }

  // ----- When the split is exact -----

  /** The start value `init` chooses when the script gave none: the twentieth part of the amount, rounded up,
      but 1 at least. */
  ghost function DefaultStart(amount: int): (s: nat)
    ensures amount > 0 ==> 20 * (s - 1) < amount <= 20 * s
    ensures amount <= 0 ==> s == 1
  {
    Max(1, (amount + 19) / 20)
  }

  /** With the default start the hits add up to the amount for every amount up to 760 and for 780,
      and to more for every other. */
  lemma DefaultStartExact(amount: nat)
    requires amount > 0
    ensures Max(amount, Triangle(DefaultStart(amount))) == amount <==> amount <= 760 || amount == 780
  {
    hide Triangle;
    var s := DefaultStart(amount);
    TriangleFormula(s);
    assert 20 * (s - 1) < amount <= 20 * s;
    DefaultRange(s);
  }

  /** No amount from the square of the start up is exceeded. */
  lemma LargeAmountExact(amount: nat, start: nat)
    requires amount >= start * start
    ensures Max(amount, Triangle(start)) == amount
  {
    TriangleFormula(start);
    MulMono(1, start, start);
  }

  lemma DefaultRange(s: nat)
    requires s > 0
    ensures s <= 38 ==> s * (s + 1) <= 40 * s - 38
    ensures s == 39 ==> s * (s + 1) == 1560
    ensures s > 39 ==> s * (s + 1) > 40 * s
  {
    if s <= 38 {
      assert (s - 1) * (38 - s) >= 0;
      assert (s - 1) * (38 - s) == 39 * s - s * s - 38;
    } else if s > 39 {
      MulMono(s, 41, s + 1);
    }
  }

  // ----- Filling the condition's queue -----

  datatype IntervalInfo = IntervalInfo(timeLeft: int, value: int, interval: int)

  ghost function TotalDamage(queue: seq<IntervalInfo>): int {
    if queue == [] then 0 else TotalDamage(queue[..|queue| - 1]) + queue[|queue| - 1].value
  }

  ghost function TotalTime(queue: seq<IntervalInfo>): int {
    if queue == [] then 0 else TotalTime(queue[..|queue| - 1]) + queue[|queue| - 1].interval
  }

  /** How hard each queued hit strikes. */
  ghost function Hits(queue: seq<IntervalInfo>): seq<int> {
    seq(|queue|, k requires 0 <= k < |queue| => -queue[k].value)
  }

  ghost predicate Timed(queue: seq<IntervalInfo>, interval: int) {
    forall info | info in queue :: info.timeLeft == info.interval == interval
  }

  /** The value the list starts from: what is configured, at most the maximum, or the default. */
  ghost function StartFor(amount: nat, configured: nat, maxDamage: nat): nat {
    if configured > maxDamage then maxDamage else if configured == 0 then DefaultStart(amount) else configured
  }

  lemma TotalsPush(queue: seq<IntervalInfo>, info: IntervalInfo)
    ensures TotalDamage(queue + [info]) == TotalDamage(queue) + info.value
    ensures TotalTime(queue + [info]) == TotalTime(queue) + info.interval
    ensures Hits(queue + [info]) == Hits(queue) + [-info.value]
  {
    assert (queue + [info])[..|queue|] == queue;
  }

  lemma TimedPush(queue: seq<IntervalInfo>, info: IntervalInfo)
    requires Timed(queue, info.interval) && info.timeLeft == info.interval
    ensures Timed(queue + [info], info.interval)
  {
  }

  lemma NoHits(interval: int)
    ensures TotalDamage([]) == TotalTime([]) == Sum([]) == 0 && Hits([]) == [] && Timed([], interval)
  {
  }

  class ConditionDamage {
    var minDamage: nat
    var maxDamage: nat
    var startDamage: nat
    var periodDamage: int
    var tickInterval: nat
    var ticks: int
    var damageList: seq<IntervalInfo>

    /** Queues `rounds` equal hits and extends the condition by their intervals; -1 rounds makes
        the damage periodic and endless instead. */
    method AddDamage(rounds: int, time: int, value: int) returns (ok: bool)
      modifies this`periodDamage, this`tickInterval, this`ticks, this`damageList
      ensures rounds == -1 ==> ok && periodDamage == value && ticks == -1
      ensures rounds == -1 ==> tickInterval == if time < 0 then -time else time
      ensures rounds == -1 ==> damageList == old(damageList)
      ensures rounds != -1 ==> periodDamage == old(periodDamage) && tickInterval == old(tickInterval)
      ensures rounds != -1 ==> ok == (periodDamage <= 0)
      ensures rounds != -1 && !ok ==> damageList == old(damageList) && ticks == old(ticks)
      ensures rounds != -1 && ok ==>
                damageList == old(damageList) + seq(Max(0, rounds), _ => IntervalInfo(time, value, time))
      ensures rounds != -1 && old(ticks) == -1 ==> ticks == -1
      ensures rounds != -1 && ok && 0 <= old(ticks) && 0 <= time ==>
                ticks - TotalTime(damageList) == old(ticks - TotalTime(damageList))
    {
      if rounds == -1 {
        periodDamage := value;
        tickInterval := Abs(time);
        ticks := -1;
        return true;
      }
      if periodDamage > 0 {
        return false;
      }
      var i := 0;
      while i < rounds
        invariant 0 <= i <= Max(0, rounds) && periodDamage == old(periodDamage) && tickInterval == old(tickInterval)
        invariant damageList == old(damageList) + seq(i, _ => IntervalInfo(time, value, time))
        invariant old(ticks) == -1 ==> ticks == -1
        invariant 0 <= old(ticks) && 0 <= time ==>
                    0 <= ticks && ticks - TotalTime(damageList) == old(ticks - TotalTime(damageList))
      {
        var info := IntervalInfo(time, value, time);
        TotalsPush(damageList, info);
        damageList := damageList + [info];
        if ticks != -1 {
          ticks := ticks + info.interval;
        }
        i := i + 1;
      }
      return true;
    }

    /** Rolls the damage (`amount` is the roll) into an empty queue: the queued hits add up to the roll,
        or to 1 + ... + start if that is more, and the condition lasts exactly as long as they do. */
    method Init(amount: int) returns (ok: bool)
      requires minDamage <= amount <= maxDamage
      modifies this`startDamage, this`periodDamage, this`tickInterval, this`ticks, this`damageList
      ensures ok <==> periodDamage != 0 || damageList != []
      ensures periodDamage == old(periodDamage) && tickInterval == old(tickInterval)
      ensures old(periodDamage) != 0 || old(damageList) != [] ==>
                damageList == old(damageList) && ticks == old(ticks) && startDamage == old(startDamage)
      ensures old(periodDamage) == 0 && old(damageList) == [] ==>
                ticks == TotalTime(damageList) && (amount == 0 ==> damageList == [])
      ensures old(periodDamage) == 0 && old(damageList) == [] && amount != 0 ==>
                startDamage == StartFor(amount, old(startDamage), maxDamage) > 0 &&
                TotalDamage(damageList) == -Max(amount, Triangle(startDamage)) &&
                Fading(Hits(damageList), startDamage, 1) &&
                (forall v | 1 <= v <= startDamage :: Nearest(Hits(damageList), amount, startDamage, v)) &&
                Timed(damageList, tickInterval)
    {
      hide Triangle, Fading, Hits, TotalDamage, TotalTime, Timed, Sum, Nearest;
      NoHits(tickInterval);
      if periodDamage != 0 {
        return true;
      }
      if damageList == [] {
        ticks := 0;
        if amount != 0 {
          if startDamage > maxDamage {
            startDamage := maxDamage;
          } else if startDamage == 0 {
            var twentieth := (amount + 19) / 20;
            startDamage := Max(1, twentieth);
          }
          ghost var start := startDamage;
          var list := GenerateDamageList(amount, startDamage);
          for k := 0 to |list|
            invariant periodDamage == 0 && tickInterval == old(tickInterval) && 0 <= ticks == TotalTime(damageList)
            invariant startDamage == start
            invariant TotalDamage(damageList) == -Sum(list[..k]) && Hits(damageList) == list[..k]
            invariant Timed(damageList, tickInterval)
          {
            var info := IntervalInfo(tickInterval, -list[k], tickInterval);
            assert seq(1, _ => info) == [info];
            TotalsPush(damageList, info);
            TimedPush(damageList, info);
            assert list[..k + 1] == list[..k] + [list[k]];
            SumPush(list[..k], list[k]);
            var added := AddDamage(1, tickInterval, -list[k]);
          }
          assert list[..|list|] == list;
          TrianglePositive(startDamage);
        }
      }
      return damageList != [];
    }
  }

  lemma TrianglePositive(k: nat)
    ensures k > 0 ==> Triangle(k) > 0
  {
  }
}
