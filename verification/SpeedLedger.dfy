/** A creature's conditions and the speed they add up to. */
module SpeedLedger {
  import opened Wrappers

  const CONDITION_HASTE := 16
  const CONDITION_PARALYZE := 32
  const CONDITION_EXHAUST_COMBAT := 8388608

  /** What the rest of the game answers: the time, the game's own clock, which types are suppressed on the
      creature, whether conditions count until they are removed, and how long the creature still walks. */
  datatype World = World(now: int, stateTime: int, suppressed: set<int>, oldAccuracy: bool, walkDelay: int)

  class Condition {
    const conditionType: int
    const id: int
    const subId: nat
    var ticks: int
    var endTime: int
    var speedDelta: int

    constructor (conditionType: int, id: int, subId: nat, ticks: int, speedDelta: int)
      ensures this.conditionType == conditionType && this.id == id && this.subId == subId
      ensures this.ticks == ticks && endTime == 0 && this.speedDelta == speedDelta
    {
      this.conditionType, this.id, this.subId, this.ticks, this.endTime, this.speedDelta :=
        conditionType, id, subId, ticks, 0, speedDelta;
    }

    /** Whether it is of the kind that changes speed. */
    predicate IsSpeed() {
      conditionType == CONDITION_HASTE || conditionType == CONDITION_PARALYZE
    }

    ghost predicate SameKey(other: Condition) {
      conditionType == other.conditionType && id == other.id && subId == other.subId
    }

    /** What the condition contributes to the speed of the creature it is listed on. */
    ghost function Part(): int
      reads this`speedDelta
    {
      if Speeds(this) then speedDelta else 0
    }
  }

  /** Haste and paralysis are the conditions that change speed. */
  ghost predicate Speeds(c: Condition) {
    c.conditionType in {CONDITION_HASTE, CONDITION_PARALYZE}
  }

  // ----- Lists of conditions -----

  ghost function Parts(all: set<Condition>): (m: map<Condition, int>)
    ensures m.Keys == all
    reads all`speedDelta
  {
    map c | c in all :: c.Part()
  }

  ghost function Sum(s: seq<Condition>, parts: map<Condition, int>): int {
    if s == [] then 0 else Sum(s[..|s| - 1], parts) + if s[|s| - 1] in parts then parts[s[|s| - 1]] else 0
  }

  ghost predicate Unique(s: seq<Condition>) {
    forall i, j | 0 <= i < j < |s| :: !s[i].SameKey(s[j])
  }

  lemma SumPush(s: seq<Condition>, c: Condition, parts: map<Condition, int>)
    requires c in parts
    ensures Sum(s + [c], parts) == Sum(s, parts) + parts[c]
  {
    assert (s + [c])[..|s|] == s;
  }

  lemma {:induction false} SumSame(s: seq<Condition>, a: map<Condition, int>, b: map<Condition, int>)
    requires forall c | c in s :: c in a && c in b && a[c] == b[c]
    ensures Sum(s, a) == Sum(s, b)
  {
    if s != [] {
      SumSame(s[..|s| - 1], a, b);
    }
  }

  lemma {:induction false} SumWithout(s: seq<Condition>, i: nat, parts: map<Condition, int>)
    requires i < |s| && s[i] in parts
    ensures Sum(s[..i] + s[i + 1..], parts) == Sum(s, parts) - parts[s[i]]
  {
    if i == |s| - 1 {
      assert s[..i] + s[i + 1..] == s[..i];
    } else {
      var front := s[..|s| - 1];
      SumWithout(front, i, parts);
      assert (s[..i] + s[i + 1..])[..|s| - 2] == front[..i] + front[i + 1..];
    }
  }

  /** Changing one listed condition's part changes the sum by as much. */
  lemma {:induction false} SumSet(s: seq<Condition>, i: nat, parts: map<Condition, int>, v: int)
    requires i < |s| && Unique(s) && s[i] in parts
    ensures Sum(s, parts[s[i] := v]) == Sum(s, parts) + v - parts[s[i]]
  {
    var front := s[..|s| - 1];
    if i == |s| - 1 {
      forall c | c in front ensures c != s[i] {
        var j :| 0 <= j < |front| && front[j] == c;
        assert !s[j].SameKey(s[i]);
      }
      SumAway(front, parts, s[i], v);
    } else {
      SumSet(front, i, parts, v);
      assert !s[i].SameKey(s[|s| - 1]);
    }
  }

  lemma {:induction false} SumAway(s: seq<Condition>, parts: map<Condition, int>, c: Condition, v: int)
    requires c !in s
    ensures Sum(s, parts[c := v]) == Sum(s, parts)
  {
    if s != [] {
      SumAway(s[..|s| - 1], parts, c, v);
    }
  }

  ghost function Listed(s: seq<Condition>): set<Condition> {
    set c | c in s
  }

  /** What the listed conditions add up to. */
  ghost function Total(s: seq<Condition>): int
    reads Listed(s)`speedDelta
  {
    Sum(s, Parts(Listed(s)))
  }

  lemma TotalPush(s: seq<Condition>, c: Condition)
    ensures Total(s + [c]) == Total(s) + c.Part()
  {
    SumPush(s, c, Parts(Listed(s + [c])));
    SumSame(s, Parts(Listed(s + [c])), Parts(Listed(s)));
  }

  lemma TotalWithout(s: seq<Condition>, i: nat)
    requires i < |s|
    ensures Total(s[..i] + s[i + 1..]) == Total(s) - s[i].Part()
  {
    SumWithout(s, i, Parts(Listed(s)));
    SumSame(s[..i] + s[i + 1..], Parts(Listed(s)), Parts(Listed(s[..i] + s[i + 1..])));
  }

  lemma UniqueWithout(s: seq<Condition>, i: nat)
    requires Unique(s) && i < |s|
    ensures Unique(s[..i] + s[i + 1..])
  {
  }

  /** The conditions that are not of a type and, where asked for, an id. */
  ghost function Others(s: seq<Condition>, drop: Condition -> bool): seq<Condition> {
    if s == [] then [] else Others(s[..|s| - 1], drop) + if drop(s[|s| - 1]) then [] else [s[|s| - 1]]
  }

  lemma {:induction false} OthersConcat(a: seq<Condition>, b: seq<Condition>, drop: Condition -> bool)
    ensures Others(a + b, drop) == Others(a, drop) + Others(b, drop)
  {
    if b == [] {
      assert a + b == a;
    } else {
      assert (a + b)[..|a + b| - 1] == a + b[..|b| - 1];
      OthersConcat(a, b[..|b| - 1], drop);
    }
  }

  /** Dropping one more condition from behind those kept. */
  lemma OthersStep(kept: seq<Condition>, c: Condition, rest: seq<Condition>, drop: Condition -> bool)
    requires Others(kept, drop) == kept
    ensures drop(c) ==> Others(kept + ([c] + rest), drop) == Others(kept + rest, drop)
    ensures !drop(c) ==> Others(kept + [c], drop) == kept + [c]
  {
    hide Others;
    OthersConcat(kept, [c] + rest, drop);
    OthersConcat([c], rest, drop);
    OthersConcat(kept, rest, drop);
    OthersConcat(kept, [c], drop);
    OthersOne(c, drop);
    assert [] + Others(rest, drop) == Others(rest, drop);
  }

  lemma OthersOne(c: Condition, drop: Condition -> bool)
    ensures Others([c], drop) == if drop(c) then [] else [c]
  {
  }

  // ----- What ends -----

  ghost function Counter(conditionType: int): Option<int> {
    if conditionType == CONDITION_PARALYZE then Some(CONDITION_HASTE)
    else if conditionType == CONDITION_HASTE then Some(CONDITION_PARALYZE)
    else None
  }

  function Key(c: Condition): (int, int, nat) {
    (c.conditionType, c.id, c.subId)
  }

  /** Whether a listed condition counts just now: it has no end, or neither its end nor the game's clock is past. */
  ghost predicate InForce(c: Condition, w: World)
    reads c`endTime
  {
    w.oldAccuracy || c.endTime == 0 || w.stateTime == 0 || c.endTime >= w.now || w.stateTime >= w.now
  }

  /** The ticks left when time has passed. */
  ghost function Passed(c: Condition, ticks: int, interval: nat): int {
    if !Speeds(c) || ticks == -1 then ticks else if ticks > interval then ticks - interval else 0
  }

  /** Whether a condition's time is up. */
  ghost predicate Expires(c: Condition, now: int, fails: bool)
    reads c`ticks, c`endTime
  {
    if Speeds(c) then c.ticks != -1 && c.endTime < now else fails
  }

  ghost function Expiring(all: set<Condition>, now: int, failing: set<(int, int, nat)>): set<Condition>
    reads all`ticks, all`endTime
  {
    set c | c in all && Expires(c, now, Key(c) in failing)
  }

  lemma ExpiringIs(s: seq<Condition>, now: int, failing: set<(int, int, nat)>)
    ensures forall c | c in s ::
              Members(Expiring(Listed(s), now, failing))(c) <==> Expires(c, now, Key(c) in failing)
    ensures forall c | c in s && Speeds(c) ::
              Expires(c, now, Key(c) in failing) <==> c.ticks != -1 && c.endTime < now
    ensures forall c | c in s && !Speeds(c) ::
              Expires(c, now, Key(c) in failing) <==> (c.conditionType, c.id, c.subId) in failing
  {
  }

  ghost predicate ListedOnce(s: seq<Condition>) {
    forall i, j | 0 <= i < j < |s| :: s[i] != s[j]
  }

  /** No time has passed for these yet. */
  ghost predicate Untouched(s: seq<Condition>, ticks: map<Condition, int>, drop: Condition -> bool, now: int,
                            failing: set<(int, int, nat)>)
    reads s`ticks, s`endTime
  {
    forall c | c in s :: c in ticks && c.ticks == ticks[c] && (drop(c) <==> Expires(c, now, Key(c) in failing))
  }

  /** Time has passed for these. */
  ghost predicate Served(s: seq<Condition>, ticks: map<Condition, int>, interval: nat)
    reads s`ticks
  {
    forall c | c in s :: c in ticks && c.ticks == Passed(c, ticks[c], interval)
  }

  lemma FromTheStart(s: seq<Condition>, ticks: map<Condition, int>, drop: Condition -> bool, interval: nat,
                     now: int, failing: set<(int, int, nat)>)
    requires forall c | c in s ::
               c in ticks && c.ticks == ticks[c] && (drop(c) <==> Expires(c, now, Key(c) in failing))
    ensures Untouched(s, ticks, drop, now, failing) && Served([], ticks, interval)
  {
  }

  lemma ServedAll(s: seq<Condition>, ticks: map<Condition, int>, interval: nat)
    requires Served(s, ticks, interval)
    ensures forall c | c in s :: c in ticks && c.ticks == Passed(c, ticks[c], interval)
  {
  }

  ghost function Members(all: set<Condition>): Condition -> bool {
    (c: Condition) => c in all
  }

  lemma AllUnique(s: seq<Condition>)
    requires Unique(s)
    ensures forall i, j | 0 <= i < j < |s| :: s[i] != s[j]
  {
  }

  lemma OneWithKey(s: seq<Condition>, at: nat)
    requires Unique(s) && at < |s|
    ensures forall c | c in s && c.SameKey(s[at]) :: c == s[at]
  {
  }

  lemma OnlyOnce(s: seq<Condition>, at: nat)
    requires Unique(s) && at < |s|
    ensures s[at] !in s[..at] + s[at + 1..]
  {
  }

  /** What a removal is aimed at. */
  ghost predicate Hit(c: Condition, conditionType: int, ofId: bool, id: int) {
    c.conditionType == conditionType && (ofId ==> c.id == id)
  }

  ghost function Aimed(conditionType: int, ofId: bool, id: int): Condition -> bool {
    (c: Condition) => Hit(c, conditionType, ofId, id)
  }

  lemma OthersOfNone(drop: Condition -> bool)
    ensures Others([], drop) == []
  {
  }

  lemma TotalSet(s: seq<Condition>, at: nat, before: map<Condition, int>)
    requires at < |s| && Unique(s) && before.Keys == Listed(s)
    requires forall c | c in s && c != s[at] :: c.Part() == before[c]
    ensures Total(s) == Sum(s, before) + s[at].Part() - before[s[at]]
  {
    SumSet(s, at, before, s[at].Part());
    assert Parts(Listed(s)) == before[s[at] := s[at].Part()];
  }

  lemma UniquePush(s: seq<Condition>, c: Condition)
    requires Unique(s) && forall d | d in s :: !d.SameKey(c)
    ensures Unique(s + [c])
  {
  }

  lemma {:induction false} OthersOfNoneIn(s: seq<Condition>, drop: Condition -> bool)
    requires forall c | c in s :: !drop(c)
    ensures Others(s, drop) == s
  {
    if s != [] {
      OthersOfNoneIn(s[..|s| - 1], drop);
    }
  }

  lemma OthersAround(front: seq<Condition>, c: Condition, back: seq<Condition>, drop: Condition -> bool)
    requires drop(c) && Others(front, drop) == front && Others(back, drop) == back
    ensures Others(front + ([c] + back), drop) == front + back
  {
    hide Others;
    OthersOne(c, drop);
    OthersConcat(front, [c] + back, drop);
    OthersConcat([c], back, drop);
    assert [] + back == back;
  }

  lemma OthersExcept(s: seq<Condition>, at: nat)
    requires Unique(s) && at < |s|
    ensures Others(s, Members({s[at]})) == s[..at] + s[at + 1..]
  {
    hide Others, Unique;
    var drop := Members({s[at]});
    OnlyOnce(s, at);
    OthersOfNoneIn(s[..at], drop);
    OthersOfNoneIn(s[at + 1..], drop);
    OthersAround(s[..at], s[at], s[at + 1..], drop);
    assert s == s[..at] + ([s[at]] + s[at + 1..]);
  }

  /** The element behind those kept is kept as well, or left out. */
  lemma Spliced(kept: seq<Condition>, s: seq<Condition>, n: nat)
    requires n < |s|
    ensures kept + s[n..] == kept + [s[n]] + s[n + 1..]
    ensures (kept + s[n..])[..|kept|] + (kept + s[n..])[|kept| + 1..] == kept + s[n + 1..]
  {
  }

  lemma {:induction false} OthersListed(s: seq<Condition>, drop: Condition -> bool)
    ensures forall c | c in Others(s, drop) :: c in s && !drop(c)
    ensures forall c | c in s && !drop(c) :: c in Others(s, drop)
  {
    if s != [] {
      OthersListed(s[..|s| - 1], drop);
      assert s == s[..|s| - 1] + [s[|s| - 1]];
    }
  }

  lemma OthersSnoc(s: seq<Condition>, c: Condition, drop: Condition -> bool)
    ensures Others(s + [c], drop) == Others(s, drop) + if drop(c) then [] else [c]
  {
    assert (s + [c])[..|s|] == s;
  }

  // ----- Runs of events -----

  datatype Event =
    | Add(conditionType: int, id: int, subId: nat, ticks: int, speedDelta: int, force: bool, w: World, roll: int,
      starts: bool)
    | Remove(conditionType: int, ofId: bool, id: int, force: bool, walkDelay: int)
    | RemoveOne(conditionType: int, id: int, subId: nat, force: bool, walkDelay: int)
    | Execute(interval: nat, now: int, failing: set<(int, int, nat)>)
    | Elsewhere(delta: int)

  ghost function Elsewheres(events: seq<Event>): int {
    if events == [] then 0 else (if events[0].Elsewhere? then events[0].delta else 0) + Elsewheres(events[1..])
  }

  /** Whether an event neither removes the condition, nor merges another into it, nor counters it. */
  ghost predicate Spares(e: Event, c: Condition) {
    match e
    case Add(conditionType, id, subId, _, _, _, _, _, _) =>
      !(conditionType == c.conditionType && id == c.id && subId == c.subId) &&
      Counter(conditionType) != Some(c.conditionType)
    case Remove(conditionType, ofId, id, _, _) =>
      conditionType != c.conditionType || (ofId && id != c.id)
    case RemoveOne(conditionType, id, subId, _, _) =>
      !(conditionType == c.conditionType && id == c.id && subId == c.subId)
    case _ => true
  }

  ghost predicate Spared(events: seq<Event>, c: Condition) {
    forall e | e in events :: Spares(e, c)
  }

  /** Every turn of the events is taken by that time. */
  ghost predicate InTime(events: seq<Event>, endTime: int) {
    forall e | e in events && e.Execute? :: e.now <= endTime
  }

  // ----- The creature -----

  class Creature {
    var conditions: seq<Condition>
    var baseSpeed: int
    var varSpeed: int
    ghost var offset: int

    /** No two conditions share type, id and subid, and the speed change is that of the listed ones beside
        whatever else (equipment, a mount) adds. */
    ghost predicate Valid()
      reads this, Listed(conditions)`speedDelta
    {
      Unique(conditions) && varSpeed == offset + Total(conditions)
    }

    constructor (baseSpeed: int)
      ensures Valid() && conditions == [] && offset == 0 && this.baseSpeed == baseSpeed
    {
      conditions, this.baseSpeed, varSpeed, offset := [], baseSpeed, 0, 0;
    }

    function GetSpeed(): int
      reads this
    {
      baseSpeed + varSpeed
    }

    /** changeSpeed: by way of the whole speed and back. */
    method ChangeSpeed(varSpeedDelta: int)
      modifies this`varSpeed
      ensures varSpeed == old(varSpeed) + varSpeedDelta
    {
      var v := GetSpeed() - baseSpeed;
      v := v + varSpeedDelta;
      varSpeed := v;
    }

    /** Equipment and mounts change the speed beside the conditions. */
    method ChangeSpeedElsewhere(varSpeedDelta: int)
      requires Valid()
      modifies this`varSpeed, this`offset
      ensures Valid() && offset == old(offset) + varSpeedDelta
    {
      ChangeSpeed(varSpeedDelta);
      offset := offset + varSpeedDelta;
    }

    /** Whether the creature is under a condition of the type just now. */
    ghost predicate Under(conditionType: int, subId: nat, w: World)
      reads this, Listed(conditions)`endTime
    {
      (conditionType == CONDITION_EXHAUST_COMBAT && w.stateTime == 0) ||
      (conditionType !in w.suppressed &&
       exists c | c in conditions :: c.conditionType == conditionType && c.subId == subId && InForce(c, w))
    }

    method HasCondition(conditionType: int, subId: nat, w: World) returns (has: bool)
      ensures has <==> Under(conditionType, subId, w)
    {
      if conditionType == CONDITION_EXHAUST_COMBAT && w.stateTime == 0 {
        return true;
      }
      if conditionType in w.suppressed {
        return false;
      }
      for n := 0 to |conditions|
        invariant forall c | c in conditions[..n] ::
                    !(c.conditionType == conditionType && c.subId == subId && InForce(c, w))
      {
        var c := conditions[n];
        if c.conditionType == conditionType && c.subId == subId {
          if w.oldAccuracy || c.endTime == 0 || w.stateTime == 0 {
            return true;
          }
          var seekTime := if c.endTime >= w.stateTime then c.endTime else w.stateTime;
          if seekTime >= w.now {
            return true;
          }
        }
      }
      return false;
    }

    /** The place of the condition with that key. */
    method GetCondition(conditionType: int, id: int, subId: nat) returns (at: int)
      ensures -1 <= at < |conditions|
      ensures at >= 0 ==>
              conditions[at].conditionType == conditionType && conditions[at].id == id && conditions[at].subId == subId
      ensures at == -1 ==>
              forall c | c in conditions :: !(c.conditionType == conditionType && c.id == id && c.subId == subId)
    {
      for n := 0 to |conditions|
        invariant forall c | c in conditions[..n] ::
                    !(c.conditionType == conditionType && c.id == id && c.subId == subId)
      {
        if conditions[n].conditionType == conditionType && conditions[n].id == id && conditions[n].subId == subId {
          return n;
        }
      }
      return -1;
    }

    /** The list without its i-th condition, which ends. */
    method EraseAndEnd(i: nat)
      requires Valid() && i < |conditions|
      modifies this`conditions, this`varSpeed
      ensures Valid() && conditions == old(conditions)[..i] + old(conditions)[i + 1..]
    {
      hide Unique, Sum;
      var condition := conditions[i];
      TotalWithout(conditions, i);
      UniqueWithout(conditions, i);
      conditions := conditions[..i] + conditions[i + 1..];
      if condition.IsSpeed() {
        ChangeSpeed(0 - condition.speedDelta);
      }
    }

    /** A new condition starts and is listed. `roll` is what the formula gives when no delta is set; `starts`
        is the answer of a kind that does not change speed. */
    method StartAndList(condition: Condition, now: int, roll: int, starts: bool) returns (ok: bool)
      requires Valid() && condition !in conditions && forall c | c in conditions :: !c.SameKey(condition)
      modifies this`conditions, this`varSpeed, condition`endTime, condition`speedDelta
      ensures Valid() && ok == (Speeds(condition) || starts)
      ensures conditions == if ok then old(conditions) + [condition] else old(conditions)
      ensures condition.speedDelta ==
              if old(condition.speedDelta) == 0 && Speeds(condition) then roll else old(condition.speedDelta)
      ensures condition.endTime == if condition.ticks > 0 then condition.ticks + now else old(condition.endTime)
    {
      hide Unique, Total;
      ghost var list := conditions;
      assert condition !in Listed(list);
      ok := condition.IsSpeed() || starts;
      if condition.ticks > 0 {
        condition.endTime := condition.ticks + now;
      }
      if condition.IsSpeed() {
        if condition.speedDelta == 0 {
          condition.speedDelta := roll;
        }
        ChangeSpeed(condition.speedDelta);
      }
      assert Total(list) == old(Total(conditions));
      if ok {
        TotalPush(conditions, condition);
        UniquePush(conditions, condition);
        conditions := conditions + [condition];
      }
    }

    /** addCondition of a listed speed condition: it takes over the other's ticks and delta, unless it lasts
        for ever and the other does not. Other kinds take over what their own rules say, which is no speed. */
    method Merge(at: nat, c: Condition, other: Condition, now: int, roll: int)
      requires Valid() && at < |conditions| && conditions[at] == c && c.SameKey(other) && other !in conditions
      modifies this`varSpeed, c`ticks, c`endTime, c`speedDelta
      ensures Valid()
      ensures Speeds(c) && !(old(c.ticks) == -1 && other.ticks > 0) ==>
                c.ticks == other.ticks && c.endTime == other.ticks + now &&
                c.speedDelta == if other.speedDelta == 0 then roll else other.speedDelta
      ensures !Speeds(c) || (old(c.ticks) == -1 && other.ticks > 0) ==>
                c.speedDelta == old(c.speedDelta) && varSpeed == old(varSpeed) &&
                c.ticks == old(c.ticks) && c.endTime == old(c.endTime)
    {
      hide Unique, Sum;
      if !c.IsSpeed() || (c.ticks == -1 && other.ticks > 0) {
        return;
      }
      c.ticks := other.ticks;
      c.endTime := c.ticks + now;
      var oldSpeedDelta := c.speedDelta;
      ghost var parts := Parts(Listed(conditions));
      c.speedDelta := other.speedDelta;
      if c.speedDelta == 0 {
        c.speedDelta := roll;
      }
      TotalSet(conditions, at, parts);
      var newSpeedChange := c.speedDelta - oldSpeedDelta;
      if newSpeedChange != 0 {
        ChangeSpeed(newSpeedChange);
      }
    }

    /** removeCondition of a type, or of a type and an id: the conditions end one by one, wherever they are
        listed. A paralysed creature that still walks is left alone until it stands. */
    method RemoveWhere(conditionType: int, ofId: bool, id: int, force: bool, walkDelay: int) returns (delayed: bool)
      requires Valid()
      modifies this`conditions, this`varSpeed
      ensures Valid()
      ensures delayed <==> !force && conditionType == CONDITION_PARALYZE && walkDelay > 0 &&
                           exists c | c in old(conditions) :: Hit(c, conditionType, ofId, id)
      ensures conditions == if delayed then old(conditions) else Others(old(conditions), Aimed(conditionType, ofId, id))
    {
      hide Unique, Total, Others;
      ghost var drop := Aimed(conditionType, ofId, id);
      ghost var erased := false;
      delayed := false;
      OthersOfNone(drop);
      var it := 0;
      while it < |conditions|
        invariant 0 <= it <= |conditions| && Valid()
        invariant Others(conditions[..it], drop) == conditions[..it]
        invariant Others(conditions, drop) == Others(old(conditions), drop)
        invariant erased ==> force || conditionType != CONDITION_PARALYZE || walkDelay <= 0
        invariant forall c | c in conditions :: c in old(conditions)
        invariant !erased ==>
                  conditions == old(conditions) &&
                  forall k | 0 <= k < it :: !Hit(conditions[k], conditionType, ofId, id)
        decreases |conditions| - it
      {
        var condition := conditions[it];
        OthersStep(conditions[..it], condition, conditions[it + 1..], drop);
        assert conditions == conditions[..it] + ([condition] + conditions[it + 1..]);
        assert conditions[..it + 1] == conditions[..it] + [condition];
        if condition.conditionType != conditionType || (ofId && condition.id != id) {
          it := it + 1;
        } else {
          if !force && condition.conditionType == CONDITION_PARALYZE && walkDelay > 0 {
            return true;
          }
          ghost var front := conditions[..it];
          EraseAndEnd(it);
          erased := true;
          assert conditions[..it] == front;
        }
      }
      assert conditions[..it] == conditions;
    }

    /** removeCondition of one condition. */
    method RemoveCondition(condition: Condition, force: bool, walkDelay: int)
      requires Valid()
      modifies this`conditions, this`varSpeed
      ensures Valid()
      ensures conditions == if !force && condition.conditionType == CONDITION_PARALYZE && walkDelay > 0
                            then old(conditions) else Others(old(conditions), Members({condition}))
    {
      hide Unique, Total, Others;
      var at := 0;
      while at < |conditions| && conditions[at] != condition
        invariant at <= |conditions| && condition !in conditions[..at]
      {
        at := at + 1;
      }
      if at == |conditions| {
        assert conditions[..at] == conditions;
        OthersOfNoneIn(conditions, Members({condition}));
        return;
      }
      if !force && condition.conditionType == CONDITION_PARALYZE && walkDelay > 0 {
        return;
      }
      OthersExcept(conditions, at);
      EraseAndEnd(at);
    }

    /** executeCondition: time passes. What does not change speed has rules of its own, which say whether it
        `fails`. */
    method ExecuteCondition(c: Condition, interval: nat, now: int, fails: bool) returns (goesOn: bool)
      modifies c`ticks
      ensures goesOn == !old(Expires(c, now, fails)) && (c.ticks == -1 <==> old(c.ticks) == -1)
      ensures c.ticks == Passed(c, old(c.ticks), interval)
      ensures old(Valid()) ==> Valid()
    {
      if !c.IsSpeed() {
        return !fails;
      }
      if c.ticks == -1 {
        return true;
      }
      c.ticks := if c.ticks > interval then c.ticks - interval else 0;
      return c.endTime >= now;
    }

    lemma AllListedOnce()
      requires Valid()
      ensures ListedOnce(conditions)
    {
    }

    /** One turn of the loop of executeConditions. The conditions before the n-th of the list have had theirs. */
    method ExecuteAt(it: nat, c: Condition, interval: nat, now: int, failing: set<(int, int, nat)>,
                     ghost list: seq<Condition>, ghost n: nat, ghost kept: seq<Condition>,
                     ghost drop: Condition -> bool, ghost ticks: map<Condition, int>)
      returns (goesOn: bool)
      requires Valid() && ListedOnce(list) && n < |list| && c == list[n]
      requires it == |kept| && conditions == kept + list[n..]
      requires Untouched(list[n..], ticks, drop, now, failing) && Served(list[..n], ticks, interval)
      modifies this`conditions, this`varSpeed, c`ticks
      ensures Valid() && goesOn == !drop(c)
      ensures conditions == (if goesOn then kept + [c] else kept) + list[n + 1..]
      ensures Untouched(list[n + 1..], ticks, drop, now, failing) && Served(list[..n + 1], ticks, interval)
    {
      hide Unique, Total, Valid, Passed;
      Spliced(kept, list, n);
      assert list[..n + 1] == list[..n] + [c];
      assert c in list[n..];
      goesOn := ExecuteCondition(c, interval, now, Key(c) in failing);
      if !goesOn {
        EraseAndEnd(it);
      }
    }

    /** executeConditions: the conditions whose time is up end, the others stay in their order. `failing` holds
        the keys of those that end by their own rules. */
    method ExecuteConditions(interval: nat, now: int, failing: set<(int, int, nat)>)
      requires Valid()
      modifies this`conditions, this`varSpeed, Listed(conditions)`ticks
      ensures Valid()
      ensures conditions == Others(old(conditions), Members(old(Expiring(Listed(conditions), now, failing))))
      ensures forall c | c in old(conditions) ::
                c in conditions <==>
                if Speeds(c) then old(c.ticks) == -1 || old(c.endTime) >= now
                else (c.conditionType, c.id, c.subId) !in failing
      ensures forall c | c in old(conditions) :: c.ticks == Passed(c, old(c.ticks), interval)
    {
      hide Valid, Others, Passed, Expiring, Members, Expires, ListedOnce, Untouched, Served;
      ghost var list := conditions;
      ghost var expiring := Expiring(Listed(list), now, failing);
      ghost var drop := Members(expiring);
      ghost var ticks := map c | c in list :: c.ticks;
      OthersOfNone(drop);
      AllListedOnce();
      ExpiringIs(list, now, failing);
      FromTheStart(list, ticks, drop, interval, now, failing);
      var it := 0;
      ghost var n, kept := 0, [];
      assert list[..0] == [] && list[0..] == list && kept + list == list;
      while it < |conditions|
        invariant n <= |list| && Valid() && it == |kept|
        invariant kept == Others(list[..n], drop) && conditions == kept + list[n..]
        invariant Untouched(list[n..], ticks, drop, now, failing) && Served(list[..n], ticks, interval)
        decreases |list| - n
      {
        var condition := conditions[it];
        assert condition == list[n];
        assert list[..n + 1] == list[..n] + [condition];
        OthersSnoc(list[..n], condition, drop);
        var goesOn := ExecuteAt(it, condition, interval, now, failing, list, n, kept, drop, ticks);
        if goesOn {
          it := it + 1;
          kept := kept + [condition];
        }
        n := n + 1;
      }
      assert list[..n] == list && list[n..] == [];
      OthersListed(list, drop);
      ServedAll(list, ticks, interval);
    }

    /** A condition with that key is listed. */
    ghost predicate HasKey(c: Condition)
      reads this`conditions
    {
      exists d | d in conditions :: d.SameKey(c)
    }

    /** Whether a condition of that type, once listed, ends its counterparts: there are some just now, and
        a paralysed creature stands. */
    ghost predicate Counters(conditionType: int, w: World)
      reads this, Listed(conditions)`endTime
    {
      Counter(conditionType).Some? && Under(Counter(conditionType).value, 0, w) &&
      !(conditionType == CONDITION_HASTE && w.walkDelay > 0)
    }

    /** onAddCondition: haste ends paralysis and paralysis ends haste. */
    method OnAddCondition(conditionType: int, w: World)
      requires Valid()
      modifies this`conditions, this`varSpeed
      ensures Valid()
      ensures var counter := Counter(conditionType);
              conditions == if old(Counters(conditionType, w))
                            then Others(old(conditions), Aimed(counter.value, false, 0)) else old(conditions)
    {
      hide Unique, Sum, Others;
      var hasted := HasCondition(CONDITION_HASTE, 0, w);
      var paralyzed := HasCondition(CONDITION_PARALYZE, 0, w);
      if conditionType == CONDITION_PARALYZE && hasted {
        var delayed := RemoveWhere(CONDITION_HASTE, false, 0, false, w.walkDelay);
      } else if conditionType == CONDITION_HASTE && paralyzed {
        var delayed := RemoveWhere(CONDITION_PARALYZE, false, 0, false, w.walkDelay);
      }
    }

    /** addCondition. Haste waits for a paralysed creature to stand; a listed condition with the same key takes
        the new one in; otherwise the new one starts, is listed and ends its counterpart. */
    method AddCondition(condition: Condition, force: bool, w: World, roll: int, starts: bool) returns (ok: bool)
      requires Valid() && condition !in conditions
      modifies this`conditions, this`varSpeed, condition, Listed(conditions)
      ensures Valid()
      ensures var waits := !force && condition.conditionType == CONDITION_HASTE && w.walkDelay > 0 &&
                           old(Under(CONDITION_PARALYZE, 0, w));
              (ok <==> !waits && (old(HasKey(condition)) || Speeds(condition) || starts)) &&
              (waits || old(HasKey(condition)) || !ok ==> conditions == old(conditions)) &&
              (!waits && !old(HasKey(condition)) && ok ==>
                 conditions == (if old(Counters(condition.conditionType, w))
                                then Others(old(conditions), Aimed(Counter(condition.conditionType).value, false, 0))
                                else old(conditions)) + [condition])
      ensures forall c | c in old(conditions) && Speeds(c) ::
                c.speedDelta == if ok && c.SameKey(condition) && !(old(c.ticks) == -1 && condition.ticks > 0)
                                then if old(condition.speedDelta) == 0 then roll else old(condition.speedDelta)
                                else old(c.speedDelta)
      ensures forall c | c in old(conditions) ::
                if ok && Speeds(c) && c.SameKey(condition) && !(old(c.ticks) == -1 && condition.ticks > 0)
                then c.ticks == condition.ticks && c.endTime == condition.ticks + w.now
                else c.ticks == old(c.ticks) && c.endTime == old(c.endTime)
      ensures condition.ticks == old(condition.ticks)
      ensures ok && !old(HasKey(condition)) ==>
                condition.speedDelta ==
                  (if old(condition.speedDelta) == 0 && Speeds(condition) then roll else old(condition.speedDelta)) &&
                condition.endTime ==
                  if condition.ticks > 0 then condition.ticks + w.now else old(condition.endTime)
    {
      hide Unique, Sum, Others;
      ok := false;
      var paralyzed := HasCondition(CONDITION_PARALYZE, 0, w);
      if !force && condition.conditionType == CONDITION_HASTE && paralyzed {
        if w.walkDelay > 0 {
          return;
        }
      }
      var at := GetCondition(condition.conditionType, condition.id, condition.subId);
      if at != -1 {
        OneWithKey(conditions, at);
        Merge(at, conditions[at], condition, w.now, roll);
        return true;
      }
      ok := StartAndList(condition, w.now, roll, starts);
      if ok {
        ghost var list := old(conditions);
        assert Counters(condition.conditionType, w) == old(Counters(condition.conditionType, w));
        OnAddCondition(condition.conditionType, w);
        if Counter(condition.conditionType).Some? {
          OthersSnoc(list, condition, Aimed(Counter(condition.conditionType).value, false, 0));
        }
      }
    }

    // ----- Runs -----

    /** One event. A speed condition it spares keeps its end and its speed, and leaves only by a turn taken
        behind its end. */
    method Step(e: Event)
      requires Valid()
      modifies this, Listed(conditions)
      ensures Valid() && offset == old(offset) + (if e.Elsewhere? then e.delta else 0) && baseSpeed == old(baseSpeed)
      ensures fresh(Listed(conditions) - old(Listed(conditions)))
      ensures forall c | c in old(conditions) && Speeds(c) && Spares(e, c) ::
                c.endTime == old(c.endTime) && c.speedDelta == old(c.speedDelta) &&
                (c.ticks == -1 <==> old(c.ticks) == -1) &&
                (c in conditions <==> !e.Execute? || old(c.ticks) == -1 || e.now <= old(c.endTime))
      ensures e.Add? && (e.starts || e.conditionType in {CONDITION_HASTE, CONDITION_PARALYZE}) &&
              !(!e.force && e.conditionType == CONDITION_HASTE && e.w.walkDelay > 0 &&
                old(Under(CONDITION_PARALYZE, 0, e.w))) ==>
                exists c | c in conditions :: c.conditionType == e.conditionType && c.id == e.id && c.subId == e.subId
      ensures e.Remove? && (e.force || e.conditionType != CONDITION_PARALYZE || e.walkDelay <= 0) ==>
                forall c | c in conditions :: !Hit(c, e.conditionType, e.ofId, e.id)
      ensures e.RemoveOne? && (e.force || e.conditionType != CONDITION_PARALYZE || e.walkDelay <= 0) ==>
                forall c | c in conditions :: Key(c) != (e.conditionType, e.id, e.subId)
      ensures e.Execute? ==>
                forall c | c in old(conditions) && !Speeds(c) :: c in conditions <==> Key(c) !in e.failing
    {
      hide Unique, Sum, Others, Total;
      match e {
        case Add(conditionType, id, subId, ticks, speedDelta, force, w, roll, starts) =>
          var condition := new Condition(conditionType, id, subId, ticks, speedDelta);
          ghost var listed := HasKey(condition);
          var ok := AddCondition(condition, force, w, roll, starts);
          assert ok && !listed ==> conditions[|conditions| - 1] == condition;
          if Counter(conditionType).Some? {
            OthersListed(old(conditions), Aimed(Counter(conditionType).value, false, 0));
          }
        case Remove(conditionType, ofId, id, force, walkDelay) =>
          var delayed := RemoveWhere(conditionType, ofId, id, force, walkDelay);
          OthersListed(old(conditions), Aimed(conditionType, ofId, id));
        case RemoveOne(conditionType, id, subId, force, walkDelay) =>
          var at := GetCondition(conditionType, id, subId);
          if at != -1 {
            ghost var drop := Members({conditions[at]});
            OneWithKey(conditions, at);
            RemoveCondition(conditions[at], force, walkDelay);
            OthersListed(old(conditions), drop);
          }
        case Execute(interval, now, failing) =>
          ghost var expiring := Members(Expiring(Listed(conditions), now, failing));
          ExecuteConditions(interval, now, failing);
          OthersListed(old(conditions), expiring);
        case Elsewhere(delta) =>
          ChangeSpeedElsewhere(delta);
      }
    }

    /** Over any run the keys stay unique and the speed change stays what the listed conditions and the rest
        add up to. A speed condition that no event removes, counters or merges into is listed for as long as
        every turn is taken by its end, and no longer; one without ticks to count down stays. */
    method Run(events: seq<Event>)
      requires Valid()
      modifies this, Listed(conditions)
      ensures Valid() && offset == old(offset) + Elsewheres(events) && baseSpeed == old(baseSpeed)
      ensures fresh(Listed(conditions) - old(Listed(conditions)))
      ensures forall c | c in old(conditions) && Speeds(c) && Spared(events, c) ::
                c.endTime == old(c.endTime) && c.speedDelta == old(c.speedDelta) &&
                (c in conditions <==> old(c.ticks) == -1 || InTime(events, old(c.endTime)))
      decreases |events|
    {
      hide Valid, Spares;
      if events != [] {
        Step(events[0]);
        assert events == [events[0]] + events[1..];
        Run(events[1..]);
      }
    }

    /** A speed condition taken on with ticks left is listed after every turn up to its end and gone after the
        first later one, unless an event removes, counters or merges into it; so is a listed one that takes
        the new one in. */
    method AddAndRun(conditionType: int, id: int, subId: nat, ticks: int, speedDelta: int, force: bool, w: World,
                     roll: int, events: seq<Event>)
      returns (condition: Condition)
      requires Valid() && ticks > 0
      requires conditionType in {CONDITION_HASTE, CONDITION_PARALYZE}
      modifies this, Listed(conditions)
      ensures Valid() && fresh(condition)
      ensures condition.conditionType == conditionType && condition.id == id && condition.subId == subId
      ensures Spared(events, condition) &&
              !(!force && conditionType == CONDITION_HASTE && w.walkDelay > 0 &&
                old(Under(CONDITION_PARALYZE, 0, w))) ==>
                (!old(exists c | c in conditions ::
                        c.conditionType == conditionType && c.id == id && c.subId == subId) ==>
                   (condition in conditions <==> InTime(events, w.now + ticks)) &&
                   condition.speedDelta == if speedDelta == 0 then roll else speedDelta) &&
                forall c | c in old(conditions) && c.SameKey(condition) && old(c.ticks) != -1 ::
                  (c in conditions <==> InTime(events, w.now + ticks)) &&
                  c.speedDelta == if speedDelta == 0 then roll else speedDelta
    {
      hide Unique, Sum, Others, Total;
      condition := new Condition(conditionType, id, subId, ticks, speedDelta);
      var ok := AddCondition(condition, force, w, roll, true);
      if Counter(conditionType).Some? {
        OthersListed(old(conditions), Aimed(Counter(conditionType).value, false, 0));
      }
      Run(events);
    }
  }
}
