/** The tagged bytes that a player's lasting conditions are stored as. */
module ConditionCodec {
  import opened Wrappers
  import opened Bits

  type Int32 = x: int | -0x8000_0000 <= x < 0x8000_0000
  type UInt32 = x: int | 0 <= x < 0x1_0000_0000
  type UInt16 = x: int | 0 <= x < 0x1_0000

  type Bytes = seq<Byte>

  // ----- Numbers as bytes, lowest first -----

  function Put16(x: UInt16): (b: Bytes)
    ensures |b| == 2
  {
    [x % 256, x / 256]
  }

  function Get16(b: Bytes): UInt16
    requires |b| >= 2
  {
    b[0] as int + 256 * b[1] as int
  }

  function Put32(x: UInt32): (b: Bytes)
    ensures |b| == 4
  {
    [x % 256, x / 0x100 % 256, x / 0x1_0000 % 256, x / 0x100_0000]
  }

  function Get32(b: Bytes): UInt32
    requires |b| >= 4
  {
    b[0] as int + 0x100 * b[1] as int + 0x1_0000 * b[2] as int + 0x100_0000 * b[3] as int
  }

  function Unsigned(x: Int32): UInt32 {
    if x < 0 then x + 0x1_0000_0000 else x
  }

  function Signed(x: UInt32): Int32 {
    if x < 0x8000_0000 then x else x - 0x1_0000_0000
  }

  lemma Back32(x: UInt32, rest: Bytes)
    ensures Get32(Put32(x) + rest) == x && (Put32(x) + rest)[4..] == rest
  {
    assert x / 0x100 == x / 0x1_0000 * 256 + x / 0x100 % 256;
    assert x / 0x1_0000 == x / 0x100_0000 * 256 + x / 0x1_0000 % 256;
  }

  lemma Back16(x: UInt16, rest: Bytes)
    ensures Get16(Put16(x) + rest) == x && (Put16(x) + rest)[2..] == rest
  {
  }

  // ----- Conditions -----

  const ATTR_TYPE: Byte := 1
  const ATTR_ID: Byte := 2
  const ATTR_TICKS: Byte := 3
  const ATTR_HEALTHTICKS: Byte := 4
  const ATTR_HEALTHGAIN: Byte := 5
  const ATTR_MANATICKS: Byte := 6
  const ATTR_MANAGAIN: Byte := 7
  const ATTR_DELAYED: Byte := 8
  const ATTR_OWNER: Byte := 9
  const ATTR_INTERVALDATA: Byte := 10
  const ATTR_SPEEDDELTA: Byte := 11
  const ATTR_FORMULA_MINA: Byte := 12
  const ATTR_FORMULA_MINB: Byte := 13
  const ATTR_FORMULA_MAXA: Byte := 14
  const ATTR_FORMULA_MAXB: Byte := 15
  const ATTR_LIGHTCOLOR: Byte := 16
  const ATTR_LIGHTLEVEL: Byte := 17
  const ATTR_LIGHTTICKS: Byte := 18
  const ATTR_LIGHTINTERVAL: Byte := 19
  const ATTR_SOULTICKS: Byte := 20
  const ATTR_SOULGAIN: Byte := 21
  const ATTR_SKILLS: Byte := 22
  const ATTR_STATS: Byte := 23
  const ATTR_OUTFIT: Byte := 24
  const ATTR_PERIODDAMAGE: Byte := 25
  const ATTR_ISBUFF: Byte := 26
  const ATTR_SUBID: Byte := 27
  const ATTR_END: Byte := 254

  const SKILLS := 7
  const STATS := 4

  datatype IntervalInfo = IntervalInfo(timeLeft: Int32, value: Int32, interval: Int32)

  /** `padding` is the byte the compiler leaves before the mount. */
  datatype Outfit = Outfit(lookType: UInt16, lookTypeEx: UInt16, lookHead: Byte, lookBody: Byte, lookLegs: Byte,
                           lookFeet: Byte, lookAddons: Byte, padding: Byte, lookMount: UInt16)

  /** What each kind of condition adds; the factors of a speed formula are kept as their bits. */
  datatype Extra =
    | Generic
    | Attributes(skills: seq<Int32>, stats: seq<Int32>, currentSkill: nat, currentStat: nat)
    | Regeneration(healthTicks: UInt32, healthGain: UInt32, manaTicks: UInt32, manaGain: UInt32)
    | Soul(soulGain: UInt32, soulTicks: UInt32)
    | Damage(delayed: bool, periodDamage: Int32, damageList: seq<IntervalInfo>)
    | Speed(speedDelta: Int32, mina: UInt32, minb: UInt32, maxa: UInt32, maxb: UInt32)
    | Outfits(outfits: seq<Outfit>)
    | Light(color: UInt32, level: UInt32, lightTicks: UInt32, lightInterval: UInt32)

  datatype Condition = Condition(conditionType: Int32, id: Int32, ticks: int, isBuff: bool, subId: UInt32, extra: Extra)

  const DAMAGE_TYPES: set<int> := {1, 2, 4, 8, 32768, 1048576, 2097152, 4194304}
  const GENERIC_TYPES: set<int> :=
    {128, 512, 1024, 2048, 4096, 65536, 131072, 262144, 8388608, 16777216, 33554432, 67108864, 134217728}

  ghost function Zeros(n: nat): (s: seq<Int32>)
    ensures |s| == n
  {
    seq(n, i => 0)
  }

  /** What a new condition of a type starts with, if there is such a type. */
  ghost function Fresh(conditionType: Int32): Option<Extra> {
    if conditionType in DAMAGE_TYPES then Some(Damage(false, 0, []))
    else if conditionType == 16 || conditionType == 32 then Some(Speed(0, 0, 0, 0, 0))
    else if conditionType == 64 then Some(Outfits([]))
    else if conditionType == 256 then Some(Light(0, 0, 0, 0))
    else if conditionType == 8192 then Some(Regeneration(1000, 0, 1000, 0))
    else if conditionType == 16384 then Some(Soul(0, 0))
    else if conditionType == 524288 then Some(Attributes(Zeros(SKILLS), Zeros(STATS), 0, 0))
    else if conditionType in GENERIC_TYPES then Some(Generic)
    else None
  }

  ghost function Created(id: Int32, conditionType: Int32, ticks: Int32, isBuff: bool, subId: UInt32)
    : Option<Condition>
  {
    match Fresh(conditionType)
    case None => None
    case Some(extra) => Some(Condition(conditionType, id, if extra.Damage? then 0 else ticks, isBuff, subId, extra))
  }

  /** The ticks of a condition in the game fit their field. */
  ghost predicate TicksFit(c: Condition) {
    -0x8000_0000 <= c.ticks < 0x8000_0000
  }

  /** A condition as the game keeps it: its extra part is that of its type. */
  ghost predicate Proper(c: Condition) {
    TicksFit(c) && Fresh(c.conditionType).Some? &&
    match Fresh(c.conditionType).value
    case Generic => c.extra.Generic?
    case Attributes(_, _, _, _) => c.extra.Attributes? && |c.extra.skills| == SKILLS && |c.extra.stats| == STATS
    case Regeneration(_, _, _, _) => c.extra.Regeneration?
    case Soul(_, _) => c.extra.Soul?
    case Damage(_, _, _) => c.extra.Damage?
    case Speed(_, _, _, _, _) => c.extra.Speed?
    case Outfits(_) => c.extra.Outfits?
    case Light(_, _, _, _) => c.extra.Light?
  }

  // ----- Writing -----

  /** A tag and what follows it. */
  type Field = (Byte, Bytes)

  function PutBool(b: bool): Bytes {
    [if b then 1 else 0]
  }

  function PutSigned(x: Int32): (b: Bytes)
    ensures |b| == 4
  {
    Put32(Unsigned(x))
  }

  function GetSigned(b: Bytes): Int32
    requires |b| >= 4
  {
    Signed(Get32(b))
  }

  function PutInterval(i: IntervalInfo): (b: Bytes)
    ensures |b| == 12
  {
    PutSigned(i.timeLeft) + PutSigned(i.value) + PutSigned(i.interval)
  }

  function GetInterval(b: Bytes): IntervalInfo
    requires |b| == 12
  {
    IntervalInfo(GetSigned(b), GetSigned(b[4..]), GetSigned(b[8..]))
  }

  function PutOutfit(o: Outfit): (b: Bytes)
    ensures |b| == 12
  {
    Put16(o.lookType) + Put16(o.lookTypeEx) +
    [o.lookHead, o.lookBody, o.lookLegs, o.lookFeet, o.lookAddons, o.padding] +
    Put16(o.lookMount)
  }

  function GetOutfit(b: Bytes): Outfit
    requires |b| == 12
  {
    Outfit(Get16(b), Get16(b[2..]), b[4], b[5], b[6], b[7], b[8], b[9], Get16(b[10..]))
  }

  lemma BackInterval(i: IntervalInfo)
    ensures GetInterval(PutInterval(i)) == i
  {
    hide Put32, Get32;
    var b := PutInterval(i);
    assert b == Put32(Unsigned(i.timeLeft)) + b[4..] && b[4..] == Put32(Unsigned(i.value)) + b[8..] &&
           b[8..] == Put32(Unsigned(i.interval)) + [];
    Back32(Unsigned(i.timeLeft), b[4..]);
    Back32(Unsigned(i.value), b[8..]);
    Back32(Unsigned(i.interval), []);
  }

  lemma BackOutfit(o: Outfit)
    ensures GetOutfit(PutOutfit(o)) == o
  {
    hide Put16, Get16;
    var b := PutOutfit(o);
    assert b == Put16(o.lookType) + b[2..] && b[2..] == Put16(o.lookTypeEx) + b[4..] &&
           b[10..] == Put16(o.lookMount) + [];
    Back16(o.lookType, b[2..]);
    Back16(o.lookTypeEx, b[4..]);
    Back16(o.lookMount, []);
  }

  lemma BackField(x: UInt32)
    ensures Get32(Put32(x)) == x
  {
    Back32(x, []);
    assert Put32(x) + [] == Put32(x);
  }

  function Header(c: Condition): seq<Field>
    requires TicksFit(c)
  {
    [(ATTR_TYPE, PutSigned(c.conditionType)), (ATTR_ID, PutSigned(c.id)), (ATTR_TICKS, PutSigned(c.ticks)),
     (ATTR_ISBUFF, PutBool(c.isBuff)), (ATTR_SUBID, Put32(c.subId))]
  }

  function SignedFields(attr: Byte, values: seq<Int32>): seq<Field> {
    seq(|values|, i requires 0 <= i < |values| => (attr, PutSigned(values[i])))
  }

  function IntervalFields(values: seq<IntervalInfo>): seq<Field> {
    seq(|values|, i requires 0 <= i < |values| => (ATTR_INTERVALDATA, PutInterval(values[i])))
  }

  function OutfitFields(values: seq<Outfit>): seq<Field> {
    seq(|values|, i requires 0 <= i < |values| => (ATTR_OUTFIT, PutOutfit(values[i])))
  }

  /** What a kind of condition writes behind the header. */
  function Body(extra: Extra): seq<Field> {
    match extra
    case Generic => []
    case Attributes(skills, stats, _, _) => SignedFields(ATTR_SKILLS, skills) + SignedFields(ATTR_STATS, stats)
    case Regeneration(healthTicks, healthGain, manaTicks, manaGain) =>
      [(ATTR_HEALTHTICKS, Put32(healthTicks)), (ATTR_HEALTHGAIN, Put32(healthGain)),
       (ATTR_MANATICKS, Put32(manaTicks)), (ATTR_MANAGAIN, Put32(manaGain))]
    case Soul(soulGain, soulTicks) => [(ATTR_SOULGAIN, Put32(soulGain)), (ATTR_SOULTICKS, Put32(soulTicks))]
    case Damage(delayed, periodDamage, damageList) =>
      [(ATTR_DELAYED, PutBool(delayed)), (ATTR_PERIODDAMAGE, PutSigned(periodDamage))] + IntervalFields(damageList)
    case Speed(speedDelta, mina, minb, maxa, maxb) =>
      [(ATTR_SPEEDDELTA, PutSigned(speedDelta)), (ATTR_FORMULA_MINA, Put32(mina)), (ATTR_FORMULA_MINB, Put32(minb)),
       (ATTR_FORMULA_MAXA, Put32(maxa)), (ATTR_FORMULA_MAXB, Put32(maxb))]
    case Outfits(outfits) => OutfitFields(outfits)
    case Light(color, level, lightTicks, lightInterval) =>
      [(ATTR_LIGHTCOLOR, Put32(color)), (ATTR_LIGHTLEVEL, Put32(level)),
       (ATTR_LIGHTTICKS, Put32(lightTicks)), (ATTR_LIGHTINTERVAL, Put32(lightInterval))]
  }

  ghost function Flatten(fields: seq<Field>): Bytes {
    if fields == [] then [] else [fields[0].0] + fields[0].1 + Flatten(fields[1..])
  }

  /** A condition in bytes, its end mark included. */
  ghost function Encode(c: Condition): Bytes
    requires TicksFit(c)
  {
    Flatten(Header(c)) + Flatten(Body(c.extra)) + [ATTR_END]
  }

  // ----- Reading -----

  /** How many bytes a condition expects behind a tag; none if it does not know the tag. */
  ghost function Width(extra: Extra, attr: Byte): Option<nat> {
    if attr == ATTR_TYPE || attr == ATTR_ID || attr == ATTR_TICKS || attr == ATTR_SUBID then Some(4)
    else if attr == ATTR_ISBUFF then Some(1)
    else match extra
      case Generic => None
      case Attributes(_, _, _, _) => if attr == ATTR_SKILLS || attr == ATTR_STATS then Some(4) else None
      case Regeneration(_, _, _, _) => if ATTR_HEALTHTICKS <= attr <= ATTR_MANAGAIN then Some(4) else None
      case Soul(_, _) => if attr == ATTR_SOULTICKS || attr == ATTR_SOULGAIN then Some(4) else None
      case Damage(_, _, _) =>
        if attr == ATTR_DELAYED then Some(1)
        else if attr == ATTR_PERIODDAMAGE || attr == ATTR_OWNER then Some(4)
        else if attr == ATTR_INTERVALDATA then Some(12) else None
      case Speed(_, _, _, _, _) => if ATTR_SPEEDDELTA <= attr <= ATTR_FORMULA_MAXB then Some(4) else None
      case Outfits(_) => if attr == ATTR_OUTFIT then Some(12) else None
      case Light(_, _, _, _) => if ATTR_LIGHTCOLOR <= attr <= ATTR_LIGHTINTERVAL then Some(4) else None
  }

  /** The condition once a field is read. There is no more room for skills or stats than there are. */
  ghost function Apply(c: Condition, attr: Byte, b: Bytes): Option<Condition>
    requires Width(c.extra, attr) == Some(|b|)
  {
    if attr == ATTR_TYPE then Some(c.(conditionType := GetSigned(b)))
    else if attr == ATTR_ID then Some(c.(id := GetSigned(b)))
    else if attr == ATTR_TICKS then Some(c.(ticks := GetSigned(b)))
    else if attr == ATTR_ISBUFF then Some(c.(isBuff := b[0] != 0))
    else if attr == ATTR_SUBID then Some(c.(subId := Get32(b)))
    else match c.extra
      case Attributes(skills, stats, i, j) =>
        if attr == ATTR_SKILLS then
          if i < |skills| then Some(c.(extra := Attributes(skills[i := GetSigned(b)], stats, i + 1, j))) else None
        else
          if j < |stats| then Some(c.(extra := Attributes(skills, stats[j := GetSigned(b)], i, j + 1))) else None
      case Regeneration(healthTicks, healthGain, manaTicks, manaGain) =>
        Some(c.(extra := if attr == ATTR_HEALTHTICKS then c.extra.(healthTicks := Get32(b))
                         else if attr == ATTR_HEALTHGAIN then c.extra.(healthGain := Get32(b))
                         else if attr == ATTR_MANATICKS then c.extra.(manaTicks := Get32(b))
                         else c.extra.(manaGain := Get32(b))))
      case Soul(_, _) =>
        Some(c.(extra := if attr == ATTR_SOULGAIN then c.extra.(soulGain := Get32(b))
                         else c.extra.(soulTicks := Get32(b))))
      case Damage(delayed, periodDamage, damageList) =>
        if attr == ATTR_DELAYED then Some(c.(extra := c.extra.(delayed := b[0] != 0)))
        else if attr == ATTR_PERIODDAMAGE then Some(c.(extra := c.extra.(periodDamage := GetSigned(b))))
        else if attr == ATTR_OWNER then Some(c)
        else
          Some(c.(extra := c.extra.(damageList := damageList + [GetInterval(b)]),
                  ticks := if c.ticks != -1 then c.ticks + GetInterval(b).interval else c.ticks))
      case Speed(_, _, _, _, _) =>
        Some(c.(extra := if attr == ATTR_SPEEDDELTA then c.extra.(speedDelta := GetSigned(b))
                         else if attr == ATTR_FORMULA_MINA then c.extra.(mina := Get32(b))
                         else if attr == ATTR_FORMULA_MINB then c.extra.(minb := Get32(b))
                         else if attr == ATTR_FORMULA_MAXA then c.extra.(maxa := Get32(b))
                         else c.extra.(maxb := Get32(b))))
      case Outfits(outfits) => Some(c.(extra := Outfits(outfits + [GetOutfit(b)])))
      case Light(_, _, _, _) =>
        Some(c.(extra := if attr == ATTR_LIGHTCOLOR then c.extra.(color := Get32(b))
                         else if attr == ATTR_LIGHTLEVEL then c.extra.(level := Get32(b))
                         else if attr == ATTR_LIGHTTICKS then c.extra.(lightTicks := Get32(b))
                         else c.extra.(lightInterval := Get32(b))))
  }

  /** What reading a condition's fields comes to, and where it stops. Overrun is where the source writes
      past its skills or stats. */
  datatype Outcome = Done(c: Condition, rest: Bytes) | Failed(rest: Bytes) | Overrun

  ghost function Unserialized(c: Condition, s: Bytes): (o: Outcome)
    ensures o != Overrun ==> |o.rest| <= |s|
    decreases |s|
  {
    if s == [] then Done(c, [])
    else if s[0] == ATTR_END then Done(c, s[1..])
    else
      match Width(c.extra, s[0])
      case None => Failed(s[1..])
      case Some(n) =>
        if |s| - 1 < n then Failed(s[1..])
        else
          match Apply(c, s[0], s[1..1 + n])
          case None => Overrun
          case Some(d) => Unserialized(d, s[1 + n..])
  }

  /** The header must hold the five common fields in their order. */
  ghost function CreateFrom(s: Bytes): (r: Option<(Condition, Bytes)>)
    ensures r.Some? ==> |r.value.1| + 22 == |s|
  {
    if |s| >= 22 && s[0] == ATTR_TYPE && s[5] == ATTR_ID && s[10] == ATTR_TICKS && s[15] == ATTR_ISBUFF &&
      s[17] == ATTR_SUBID then
      match Created(GetSigned(s[6..]), GetSigned(s[1..]), GetSigned(s[11..]), s[16] != 0, Get32(s[18..]))
      case None => None
      case Some(c) => Some((c, s[22..]))
    else None
  }

  /** The loader: conditions one after another, until none can be created; those that fail are dropped. */
  ghost function Load(s: Bytes): Option<seq<Condition>>
    decreases |s|
  {
    match CreateFrom(s)
    case None => Some([])
    case Some(pair) =>
      match Unserialized(pair.0, pair.1)
      case Overrun => None
      case Failed(rest) => Load(rest)
      case Done(c, rest) => match Load(rest) case None => None case Some(more) => Some([c] + more)
  }

  // ----- Round trips -----

  /** Reading fields one after another. */
  ghost function ApplyAll(c: Condition, fields: seq<Field>): Option<Condition>
    decreases |fields|
  {
    if fields == [] then Some(c)
    else if fields[0].0 == ATTR_END || Width(c.extra, fields[0].0) != Some(|fields[0].1|) then None
    else
      match Apply(c, fields[0].0, fields[0].1)
      case None => None
      case Some(d) => ApplyAll(d, fields[1..])
  }

  lemma {:induction false} ReadsFields(c: Condition, fields: seq<Field>, rest: Bytes)
    requires ApplyAll(c, fields).Some?
    ensures Unserialized(c, Flatten(fields) + [ATTR_END] + rest) == Done(ApplyAll(c, fields).value, rest)
    decreases |fields|
  {
    hide Width, Apply;
    var s := Flatten(fields) + [ATTR_END] + rest;
    if fields == [] {
      assert s == [ATTR_END] + rest;
    } else {
      var (attr, b) := fields[0];
      assert s == [attr] + b + (Flatten(fields[1..]) + [ATTR_END] + rest);
      assert s[1..1 + |b|] == b && s[1 + |b|..] == Flatten(fields[1..]) + [ATTR_END] + rest;
      ReadsFields(Apply(c, attr, b).value, fields[1..], rest);
    }
  }

  lemma {:induction false} ApplyConcat(c: Condition, a: seq<Field>, b: seq<Field>)
    requires ApplyAll(c, a).Some?
    ensures ApplyAll(c, a + b) == ApplyAll(ApplyAll(c, a).value, b)
    decreases |a|
  {
    hide Width, Apply;
    if a == [] {
      assert a + b == b;
    } else {
      assert (a + b)[1..] == a[1..] + b;
      ApplyConcat(Apply(c, a[0].0, a[0].1).value, a[1..], b);
    }
  }

  /** The ticks a damage condition has after its intervals are read. */
  ghost function TicksAfter(ticks: int, list: seq<IntervalInfo>): int
    decreases |list|
  {
    if list == [] then ticks
    else TicksAfter(if ticks != -1 then ticks + list[0].interval else ticks, list[1..])
  }

  ghost function TotalInterval(list: seq<IntervalInfo>): int {
    if list == [] then 0 else list[0].interval + TotalInterval(list[1..])
  }

  lemma {:induction false} TicksAreIntervals(ticks: nat, list: seq<IntervalInfo>)
    requires forall i | i in list :: i.interval >= 0
    ensures TicksAfter(ticks, list) == ticks + TotalInterval(list)
    decreases |list|
  {
    if list != [] {
      TicksAreIntervals(ticks + list[0].interval, list[1..]);
    }
  }

  /** What is loaded in place of a saved condition: the same, but for the ticks of damage, which are those of
      the intervals, and for where the next skill and stat would go. */
  ghost function Restored(c: Condition): Condition {
    match c.extra
    case Damage(_, _, list) => c.(ticks := TicksAfter(0, list))
    case Attributes(skills, stats, _, _) => c.(extra := Attributes(skills, stats, |skills|, |stats|))
    case _ => c
  }

  /** A condition as created from the header alone. */
  ghost function Started(c: Condition): Condition
    requires Fresh(c.conditionType).Some?
  {
    var extra := Fresh(c.conditionType).value;
    Condition(c.conditionType, c.id, if extra.Damage? then 0 else c.ticks, c.isBuff, c.subId, extra)
  }

  lemma {:induction false} ReadsSkills(c: Condition, values: seq<Int32>)
    requires c.extra.Attributes? && c.extra.currentSkill + |values| == |c.extra.skills|
    ensures var e := c.extra;
            ApplyAll(c, SignedFields(ATTR_SKILLS, values)) ==
            Some(c.(extra := Attributes(e.skills[..e.currentSkill] + values, e.stats, |e.skills|, e.currentStat)))
    decreases |values|
  {
    hide Put32, Get32;
    var e := c.extra;
    if values == [] {
      assert e.skills[..e.currentSkill] + values == e.skills;
    } else {
      var i := e.currentSkill;
      BackField(Unsigned(values[0]));
      var d := c.(extra := Attributes(e.skills[i := values[0]], e.stats, i + 1, e.currentStat));
      ReadsSkills(d, values[1..]);
      assert SignedFields(ATTR_SKILLS, values)[1..] == SignedFields(ATTR_SKILLS, values[1..]);
      assert e.skills[i := values[0]][..i + 1] + values[1..] == e.skills[..i] + values;
    }
  }

  lemma {:induction false} ReadsStats(c: Condition, values: seq<Int32>)
    requires c.extra.Attributes? && c.extra.currentStat + |values| == |c.extra.stats|
    ensures var e := c.extra;
            ApplyAll(c, SignedFields(ATTR_STATS, values)) ==
            Some(c.(extra := Attributes(e.skills, e.stats[..e.currentStat] + values, e.currentSkill, |e.stats|)))
    decreases |values|
  {
    hide Put32, Get32;
    var e := c.extra;
    if values == [] {
      assert e.stats[..e.currentStat] + values == e.stats;
    } else {
      var i := e.currentStat;
      BackField(Unsigned(values[0]));
      var d := c.(extra := Attributes(e.skills, e.stats[i := values[0]], e.currentSkill, i + 1));
      ReadsStats(d, values[1..]);
      assert SignedFields(ATTR_STATS, values)[1..] == SignedFields(ATTR_STATS, values[1..]);
      assert e.stats[i := values[0]][..i + 1] + values[1..] == e.stats[..i] + values;
    }
  }

  lemma {:induction false} ReadsIntervals(c: Condition, values: seq<IntervalInfo>)
    requires c.extra.Damage?
    ensures ApplyAll(c, IntervalFields(values)) ==
            Some(c.(extra := c.extra.(damageList := c.extra.damageList + values), ticks := TicksAfter(c.ticks, values)))
    decreases |values|
  {
    hide GetInterval, PutInterval;
    if values == [] {
      assert c.extra.damageList + values == c.extra.damageList;
    } else {
      BackInterval(values[0]);
      var list := c.extra.damageList + [values[0]];
      var d := c.(extra := c.extra.(damageList := list),
        ticks := if c.ticks != -1 then c.ticks + values[0].interval else c.ticks);
      ReadsIntervals(d, values[1..]);
      assert IntervalFields(values)[1..] == IntervalFields(values[1..]);
      assert list + values[1..] == c.extra.damageList + values;
    }
  }

  lemma {:induction false} ReadsOutfits(c: Condition, values: seq<Outfit>)
    requires c.extra.Outfits?
    ensures ApplyAll(c, OutfitFields(values)) == Some(c.(extra := Outfits(c.extra.outfits + values)))
    decreases |values|
  {
    hide GetOutfit, PutOutfit;
    if values == [] {
      assert c.extra.outfits + values == c.extra.outfits;
    } else {
      BackOutfit(values[0]);
      var list := c.extra.outfits + [values[0]];
      ReadsOutfits(c.(extra := Outfits(list)), values[1..]);
      assert OutfitFields(values)[1..] == OutfitFields(values[1..]);
      assert list + values[1..] == c.extra.outfits + values;
    }
  }

  /** What a kind writes rebuilds it from a new one. */
  lemma BodyRestores(c: Condition)
    requires Proper(c)
    ensures ApplyAll(Started(c), Body(c.extra)) == Some(Restored(c))
  {
    hide Put32, Get32;
    var d := Started(c);
    match c.extra {
      case Generic =>
      case Attributes(skills, stats, _, _) =>
        ReadsSkills(d, skills);
        assert Zeros(SKILLS)[..0] + skills == skills;
        ApplyConcat(d, SignedFields(ATTR_SKILLS, skills), SignedFields(ATTR_STATS, stats));
        ReadsStats(d.(extra := Attributes(skills, Zeros(STATS), SKILLS, 0)), stats);
        assert Zeros(STATS)[..0] + stats == stats;
      case Regeneration(healthTicks, healthGain, manaTicks, manaGain) =>
        RegenerationRestores(d, healthTicks, healthGain, manaTicks, manaGain);
      case Soul(soulGain, soulTicks) =>
        SoulRestores(d, soulGain, soulTicks);
      case Damage(delayed, periodDamage, list) =>
        DamageRestores(d, delayed, periodDamage, list);
      case Speed(speedDelta, mina, minb, maxa, maxb) =>
        SpeedRestores(d, speedDelta, mina, minb, maxa, maxb);
      case Outfits(outfits) =>
        ReadsOutfits(d, outfits);
        assert [] + outfits == outfits;
      case Light(color, level, lightTicks, lightInterval) =>
        LightRestores(d, color, level, lightTicks, lightInterval);
    }
  }

  /** The ticks of a damage condition are not those saved but its intervals together, none being negative. */
  lemma DamageTicks(c: Condition)
    requires Proper(c) && c.extra.Damage? && forall i | i in c.extra.damageList :: i.interval >= 0
    ensures Restored(c).ticks == TotalInterval(c.extra.damageList) && Restored(c).extra == c.extra
  {
    TicksAreIntervals(0, c.extra.damageList);
  }

  /** One more field is one more step. */
  lemma ApplyOne(c: Condition, attr: Byte, b: Bytes, d: Condition, more: seq<Field>)
    requires attr != ATTR_END && Width(c.extra, attr) == Some(|b|) && Apply(c, attr, b) == Some(d)
    ensures ApplyAll(c, [(attr, b)] + more) == ApplyAll(d, more)
  {
    hide Width, Apply;
    assert ([(attr, b)] + more)[1..] == more;
  }

  lemma RegenerationRestores(c: Condition, healthTicks: UInt32, healthGain: UInt32, manaTicks: UInt32, manaGain: UInt32)
    requires c.extra.Regeneration?
    ensures ApplyAll(c, Body(Regeneration(healthTicks, healthGain, manaTicks, manaGain))) ==
            Some(c.(extra := Regeneration(healthTicks, healthGain, manaTicks, manaGain)))
  {
    hide Put32, Get32;
    BackField(healthTicks);
    BackField(healthGain);
    BackField(manaTicks);
    BackField(manaGain);
    var fields := Body(Regeneration(healthTicks, healthGain, manaTicks, manaGain));
    var e := c.extra;
    var c1 := c.(extra := e.(healthTicks := healthTicks));
    var c2 := c.(extra := e.(healthTicks := healthTicks, healthGain := healthGain));
    var c3 := c.(extra := e.(healthTicks := healthTicks, healthGain := healthGain, manaTicks := manaTicks));
    assert fields == [fields[0]] + fields[1..] && fields[1..] == [fields[1]] + fields[2..] &&
           fields[2..] == [fields[2]] + fields[3..] && fields[3..] == [fields[3]] + [];
    ApplyOne(c, fields[0].0, fields[0].1, c1, fields[1..]);
    ApplyOne(c1, fields[1].0, fields[1].1, c2, fields[2..]);
    ApplyOne(c2, fields[2].0, fields[2].1, c3, fields[3..]);
    ApplyOne(c3, fields[3].0, fields[3].1, c.(extra := Regeneration(healthTicks, healthGain, manaTicks, manaGain)), []);
  }

  lemma SoulRestores(c: Condition, soulGain: UInt32, soulTicks: UInt32)
    requires c.extra.Soul?
    ensures ApplyAll(c, Body(Soul(soulGain, soulTicks))) == Some(c.(extra := Soul(soulGain, soulTicks)))
  {
    hide Put32, Get32;
    BackField(soulGain);
    BackField(soulTicks);
    var fields := Body(Soul(soulGain, soulTicks));
    var c1 := c.(extra := c.extra.(soulGain := soulGain));
    assert fields == [fields[0]] + fields[1..] && fields[1..] == [fields[1]] + [];
    ApplyOne(c, fields[0].0, fields[0].1, c1, fields[1..]);
    ApplyOne(c1, fields[1].0, fields[1].1, c.(extra := Soul(soulGain, soulTicks)), []);
  }

  lemma DamageRestores(c: Condition, delayed: bool, periodDamage: Int32, list: seq<IntervalInfo>)
    requires c.extra.Damage? && c.extra.damageList == []
    ensures ApplyAll(c, Body(Damage(delayed, periodDamage, list))) ==
            Some(c.(extra := Damage(delayed, periodDamage, list), ticks := TicksAfter(c.ticks, list)))
  {
    hide Put32, Get32, TicksAfter, IntervalFields;
    BackField(Unsigned(periodDamage));
    var c1 := c.(extra := c.extra.(delayed := delayed));
    var c2 := c.(extra := Damage(delayed, periodDamage, []));
    var b := PutSigned(periodDamage);
    ReadsIntervals(c2, list);
    assert [] + list == list;
    ApplyOne(c1, ATTR_PERIODDAMAGE, b, c2, IntervalFields(list));
    ApplyOne(c, ATTR_DELAYED, PutBool(delayed), c1, [(ATTR_PERIODDAMAGE, b)] + IntervalFields(list));
    assert Body(Damage(delayed, periodDamage, list)) ==
           [(ATTR_DELAYED, PutBool(delayed))] + ([(ATTR_PERIODDAMAGE, b)] + IntervalFields(list));
  }

  lemma SpeedRestores(c: Condition, speedDelta: Int32, mina: UInt32, minb: UInt32, maxa: UInt32, maxb: UInt32)
    requires c.extra.Speed?
    ensures ApplyAll(c, Body(Speed(speedDelta, mina, minb, maxa, maxb))) ==
            Some(c.(extra := Speed(speedDelta, mina, minb, maxa, maxb)))
  {
    hide Put32, Get32;
    BackField(Unsigned(speedDelta));
    BackField(mina);
    BackField(minb);
    BackField(maxa);
    BackField(maxb);
    var fields := Body(Speed(speedDelta, mina, minb, maxa, maxb));
    var e := c.extra;
    var c1 := c.(extra := e.(speedDelta := speedDelta));
    var c2 := c.(extra := e.(speedDelta := speedDelta, mina := mina));
    var c3 := c.(extra := e.(speedDelta := speedDelta, mina := mina, minb := minb));
    var c4 := c.(extra := e.(speedDelta := speedDelta, mina := mina, minb := minb, maxa := maxa));
    assert fields == [fields[0]] + fields[1..] && fields[1..] == [fields[1]] + fields[2..] &&
           fields[2..] == [fields[2]] + fields[3..] && fields[3..] == [fields[3]] + fields[4..] &&
           fields[4..] == [fields[4]] + [];
    ApplyOne(c, fields[0].0, fields[0].1, c1, fields[1..]);
    ApplyOne(c1, fields[1].0, fields[1].1, c2, fields[2..]);
    ApplyOne(c2, fields[2].0, fields[2].1, c3, fields[3..]);
    ApplyOne(c3, fields[3].0, fields[3].1, c4, fields[4..]);
    ApplyOne(c4, fields[4].0, fields[4].1, c.(extra := Speed(speedDelta, mina, minb, maxa, maxb)), []);
  }

  lemma LightRestores(c: Condition, color: UInt32, level: UInt32, lightTicks: UInt32, lightInterval: UInt32)
    requires c.extra.Light?
    ensures ApplyAll(c, Body(Light(color, level, lightTicks, lightInterval))) ==
            Some(c.(extra := Light(color, level, lightTicks, lightInterval)))
  {
    hide Put32, Get32;
    BackField(color);
    BackField(level);
    BackField(lightTicks);
    BackField(lightInterval);
    var fields := Body(Light(color, level, lightTicks, lightInterval));
    var e := c.extra;
    var c1 := c.(extra := e.(color := color));
    var c2 := c.(extra := e.(color := color, level := level));
    var c3 := c.(extra := e.(color := color, level := level, lightTicks := lightTicks));
    assert fields == [fields[0]] + fields[1..] && fields[1..] == [fields[1]] + fields[2..] &&
           fields[2..] == [fields[2]] + fields[3..] && fields[3..] == [fields[3]] + [];
    ApplyOne(c, fields[0].0, fields[0].1, c1, fields[1..]);
    ApplyOne(c1, fields[1].0, fields[1].1, c2, fields[2..]);
    ApplyOne(c2, fields[2].0, fields[2].1, c3, fields[3..]);
    ApplyOne(c3, fields[3].0, fields[3].1, c.(extra := Light(color, level, lightTicks, lightInterval)), []);
  }

  /** The header, read back. */
  lemma CreatesFromHeader(c: Condition, rest: Bytes)
    requires Proper(c)
    ensures CreateFrom(Flatten(Header(c)) + rest) == Some((Started(c), rest))
  {
    hide Put32, Get32, Fresh;
    var t, i, k, u := PutSigned(c.conditionType), PutSigned(c.id), PutSigned(c.ticks), Put32(c.subId);
    var s := [ATTR_TYPE] + t + ([ATTR_ID] + i + ([ATTR_TICKS] + k +
      ([ATTR_ISBUFF] + PutBool(c.isBuff) + ([ATTR_SUBID] + u + []))));
    HeaderBytes(c);
    var all := s + rest;
    assert all[1..] == t + all[5..] && all[6..] == i + all[10..] && all[11..] == k + all[15..] &&
           all[18..] == u + all[22..];
    assert all[22..] == rest;
    Back32(Unsigned(c.conditionType), all[5..]);
    Back32(Unsigned(c.id), all[10..]);
    Back32(Unsigned(c.ticks), all[15..]);
    Back32(c.subId, all[22..]);
  }

  lemma HeaderBytes(c: Condition)
    requires TicksFit(c)
    ensures Flatten(Header(c)) ==
            [ATTR_TYPE] + PutSigned(c.conditionType) + ([ATTR_ID] + PutSigned(c.id) +
             ([ATTR_TICKS] + PutSigned(c.ticks) +
            ([ATTR_ISBUFF] + PutBool(c.isBuff) + ([ATTR_SUBID] + Put32(c.subId) + []))))
  {
    hide Put32;
    var h := Header(c);
    FlattenStep(h);
    FlattenStep(h[1..]);
    assert h[1..][1..] == h[2..] && h[2..][1..] == h[3..] && h[3..][1..] == h[4..];
    FlattenStep(h[2..]);
    FlattenStep(h[3..]);
    FlattenStep(h[4..]);
    assert Flatten(h[4..][1..]) == [];
  }

  lemma FlattenStep(fields: seq<Field>)
    requires fields != []
    ensures Flatten(fields) == [fields[0].0] + fields[0].1 + Flatten(fields[1..])
  {
  }

  /** A condition written with its end mark and read back is restored, and the reader stops behind the mark. */
  lemma RoundTrip(c: Condition, rest: Bytes)
    requires Proper(c)
    ensures CreateFrom(Encode(c) + rest).Some?
    ensures var (d, s) := CreateFrom(Encode(c) + rest).value; Unserialized(d, s) == Done(Restored(c), rest)
  {
    hide Body, Header, Flatten, Fresh, Restored, Started;
    var s := Flatten(Body(c.extra)) + [ATTR_END] + rest;
    assert Encode(c) + rest == Flatten(Header(c)) + s;
    CreatesFromHeader(c, s);
    BodyRestores(c);
    ReadsFields(Started(c), Body(c.extra), rest);
  }

  /** Whether a condition lasts: it has an end and is not an item's. */
  ghost predicate Persistent(c: Condition) {
    c.ticks != -1 && (c.id == -1 || c.id == 0)
  }

  /** What a player's conditions are saved as, and what is loaded again. */
  ghost function SaveAll(cs: seq<Condition>): Bytes
    requires forall c | c in cs :: TicksFit(c)
  {
    if cs == [] then [] else (if Persistent(cs[0]) then Encode(cs[0]) else []) + SaveAll(cs[1..])
  }

  ghost function RestoredAll(cs: seq<Condition>): seq<Condition> {
    if cs == [] then [] else (if Persistent(cs[0]) then [Restored(cs[0])] else []) + RestoredAll(cs[1..])
  }

  lemma {:induction false} LoadsWhatWasSaved(cs: seq<Condition>)
    requires forall c | c in cs :: Proper(c) && TicksFit(c)
    ensures Load(SaveAll(cs)) == Some(RestoredAll(cs))
  {
    hide Encode, Fresh, Restored, CreateFrom, Unserialized;
    if cs != [] {
      LoadsWhatWasSaved(cs[1..]);
      if Persistent(cs[0]) {
        RoundTrip(cs[0], SaveAll(cs[1..]));
      } else {
        assert [] + SaveAll(cs[1..]) == SaveAll(cs[1..]) && [] + RestoredAll(cs[1..]) == RestoredAll(cs[1..]);
      }
    } else {
      NothingToLoad();
    }
  }

  lemma NothingToLoad()
    ensures CreateFrom([]) == None
  {
  }

  // ----- The streams and the objects -----

  class PropWriteStream {
    var buffer: array<Byte>
    var size: nat

    ghost predicate Valid()
      reads this
    {
      size <= buffer.Length
    }

    ghost function Contents(): Bytes
      requires Valid()
      reads this, buffer
    {
      buffer[..size]
    }

    constructor ()
      ensures Valid() && Contents() == [] && fresh(buffer) && buffer.Length == 32
    {
      buffer := new Byte[32](i => 0);
      size := 0;
    }

    /** The buffer grows by whole units of 32 bytes when n more do not fit. */
    method MakeRoom(n: nat)
      requires Valid()
      modifies this`buffer
      ensures Valid() && Contents() == old(Contents()) && size + n <= buffer.Length
      ensures var units := if n % 32 == 0 then n / 32 else n / 32 + 1;
              buffer.Length == old(buffer.Length) + if size + n <= old(buffer.Length) then 0 else 32 * units
      ensures buffer == old(buffer) || fresh(buffer)
    {
      if buffer.Length - size < n {
        var grown := new Byte[buffer.Length + (n + 0x1F) / 32 * 32];
        for i := 0 to size
          invariant buffer == old(buffer) && grown[..i] == buffer[..i]
        {
          grown[i] := buffer[i];
        }
        buffer := grown;
      }
    }

    /** ADD_VALUE. */
    method AddValue(b: Bytes)
      requires Valid()
      modifies this, buffer
      ensures Valid() && Contents() == old(Contents()) + b
      ensures buffer == old(buffer) || fresh(buffer)
    {
      MakeRoom(|b|);
      ghost var start := Contents();
      for i := 0 to |b|
        invariant size + |b| <= buffer.Length && (buffer == old(buffer) || fresh(buffer)) && size == |start|
        invariant buffer[..size + i] == start + b[..i]
      {
        buffer[size + i] := b[i];
      }
      size := size + |b|;
    }

    method AddFields(fields: seq<Field>)
      requires Valid()
      modifies this, buffer
      ensures Valid() && Contents() == old(Contents()) + Flatten(fields)
      ensures buffer == old(buffer) || fresh(buffer)
    {
      FlattenEnds(fields);
      for n := 0 to |fields|
        invariant Valid() && (buffer == old(buffer) || fresh(buffer))
        invariant Contents() == old(Contents()) + Flatten(fields[..n])
      {
        AddValue([fields[n].0]);
        AddValue(fields[n].1);
        FlattenSnoc(fields, n);
      }
    }

    /** serialize, and the end mark behind it. */
    method Save(c: Condition)
      requires Valid() && TicksFit(c)
      modifies this, buffer
      ensures Valid() && Contents() == old(Contents()) + Encode(c)
      ensures buffer == old(buffer) || fresh(buffer)
    {
      hide Header, Body, Flatten;
      AddFields(Header(c));
      AddFields(Body(c.extra));
      AddValue([ATTR_END]);
    }

    /** The conditions of a player that last, one after another. */
    method SaveConditions(cs: seq<Condition>)
      requires Valid() && forall c | c in cs :: TicksFit(c)
      modifies this, buffer
      ensures Valid() && Contents() == old(Contents()) + SaveAll(cs)
    {
      hide Encode;
      var n := 0;
      while n < |cs|
        invariant n <= |cs| && Valid() && (buffer == old(buffer) || fresh(buffer))
        invariant Contents() + SaveAll(cs[n..]) == old(Contents()) + SaveAll(cs)
      {
        assert cs[n..][1..] == cs[n + 1..];
        if cs[n].ticks != -1 && (cs[n].id == 0 || cs[n].id == -1) {
          Save(cs[n]);
        }
        n := n + 1;
      }
    }
  }

  lemma FlattenEnds(fields: seq<Field>)
    ensures Flatten(fields[..0]) == [] && fields[..|fields|] == fields
  {
  }

  lemma {:induction false} FlattenConcat(a: seq<Field>, b: seq<Field>)
    ensures Flatten(a + b) == Flatten(a) + Flatten(b)
  {
    if a == [] {
      assert a + b == b;
    } else {
      assert (a + b)[1..] == a[1..] + b;
      FlattenConcat(a[1..], b);
    }
  }

  lemma FlattenSnoc(fields: seq<Field>, n: nat)
    requires n < |fields|
    ensures Flatten(fields[..n + 1]) == Flatten(fields[..n]) + ([fields[n].0] + fields[n].1)
  {
    assert fields[..n + 1] == fields[..n] + [fields[n]];
    FlattenConcat(fields[..n], [fields[n]]);
    assert Flatten([fields[n]]) == [fields[n].0] + fields[n].1 + [];
  }

  class PropStream {
    const data: Bytes
    var p: nat

    ghost predicate Valid()
      reads this
    {
      p <= |data|
    }

    ghost function Rest(): Bytes
      requires Valid()
      reads this
    {
      data[p..]
    }

    constructor (data: Bytes)
      ensures Valid() && Rest() == data
    {
      this.data, p := data, 0;
    }

    /** GET_VALUE: the next n bytes, if there are so many. */
    method GetValue(n: nat) returns (ok: bool, b: Bytes)
      requires Valid()
      modifies this
      ensures Valid() && (ok <==> |old(Rest())| >= n)
      ensures if ok then b == old(Rest())[..n] && Rest() == old(Rest())[n..] else Rest() == old(Rest())
    {
      if |data| - p < n {
        return false, [];
      }
      ok, b := true, data[p..p + n];
      p := p + n;
    }

    /** The tag that must come next. */
    method GetTag(tag: Byte) returns (ok: bool)
      requires Valid()
      modifies this
      ensures Valid() && (ok <==> |old(Rest())| > 0 && old(Rest())[0] == tag)
      ensures ok ==> Rest() == old(Rest())[1..]
    {
      var b;
      ok, b := GetValue(1);
      ok := ok && b[0] == tag;
    }

    /** A tag and the n bytes of its value. */
    method GetField(tag: Byte, n: nat) returns (ok: bool, b: Bytes)
      requires Valid()
      modifies this
      ensures Valid() && (ok <==> |old(Rest())| > n && old(Rest())[0] == tag)
      ensures ok ==> b == old(Rest())[1..1 + n] && Rest() == old(Rest())[1 + n..]
    {
      b := [];
      ok := GetTag(tag);
      if ok {
        ok, b := GetValue(n);
      }
    }
  }

  /** createCondition by type. */
  method CreateCondition(id: Int32, conditionType: Int32, ticks: Int32, isBuff: bool, subId: UInt32)
    returns (c: Option<Condition>)
    ensures c == Created(id, conditionType, ticks, isBuff, subId)
  {
    var extra := Generic;
    if conditionType in {1, 2, 4, 8, 32768, 1048576, 2097152, 4194304} {
      return Some(Condition(conditionType, id, 0, isBuff, subId, Damage(false, 0, [])));
    } else if conditionType == 16 || conditionType == 32 {
      extra := Speed(0, 0, 0, 0, 0);
    } else if conditionType == 64 {
      extra := Outfits([]);
    } else if conditionType == 256 {
      extra := Light(0, 0, 0, 0);
    } else if conditionType == 8192 {
      extra := Regeneration(1000, 0, 1000, 0);
    } else if conditionType == 16384 {
      extra := Soul(0, 0);
    } else if conditionType == 524288 {
      extra := Attributes(seq(7, i => 0), seq(4, i => 0), 0, 0);
    } else if conditionType !in GENERIC_TYPES {
      return None;
    }
    return Some(Condition(conditionType, id, ticks, isBuff, subId, extra));
  }

  /** createCondition from the stream. */
  method CreateConditionFrom(stream: PropStream) returns (c: Option<Condition>)
    requires stream.Valid()
    modifies stream
    ensures stream.Valid()
    ensures var r := CreateFrom(old(stream.Rest()));
            if r.Some? then c == Some(r.value.0) && stream.Rest() == r.value.1 else c == None
  {
    hide Created;
    ghost var s := stream.Rest();
    c := None;
    var ok, t := stream.GetField(ATTR_TYPE, 4);
    if !ok { return; }
    var i;
    ok, i := stream.GetField(ATTR_ID, 4);
    if !ok { return; }
    var k;
    ok, k := stream.GetField(ATTR_TICKS, 4);
    if !ok { return; }
    var f;
    ok, f := stream.GetField(ATTR_ISBUFF, 1);
    if !ok { return; }
    var u;
    ok, u := stream.GetField(ATTR_SUBID, 4);
    if !ok { return; }
    assert stream.Rest() == s[22..];
    FrontOnly(s, 1, t);
    FrontOnly(s, 6, i);
    FrontOnly(s, 11, k);
    FrontOnly(s, 18, u);
    c := CreateCondition(GetSigned(i), GetSigned(t), GetSigned(k), f[0] != 0, Get32(u));
  }

  lemma FrontOnly(s: Bytes, n: nat, b: Bytes)
    requires |s| >= n + 4 && b == s[n..n + 4]
    ensures Get32(s[n..]) == Get32(b)
  {
  }

  /** How a field is read: it fails when its tag is not known or too few bytes follow; it overruns when there is
      no place left for it. */
  ghost predicate Reads(c: Condition, attr: Byte, s: Bytes, ok: bool, overrun: bool, d: Condition, rest: Bytes) {
    var n := Width(c.extra, attr);
    if n == None || |s| < n.value then !ok && !overrun && d == c && rest == s
    else
      var e := Apply(c, attr, s[..n.value]);
      ok == e.Some? && overrun == e.None? && rest == s[n.value..] && (ok ==> d == e.value)
  }

  class LiveCondition {
    var value: Condition

    constructor (c: Condition)
      ensures value == c
    {
      value := c;
    }

    /** A field of a kind that reads numbers of four bytes: it takes the place of the old value. */
    method UnserializeNumber(attr: Byte, stream: PropStream) returns (ok: bool)
      requires stream.Valid() && Width(value.extra, attr) == Some(4)
      requires value.extra.Regeneration? || value.extra.Soul? || value.extra.Speed? || value.extra.Light?
      requires attr !in {ATTR_TYPE, ATTR_ID, ATTR_TICKS, ATTR_SUBID}
      modifies this, stream
      ensures stream.Valid() && Reads(old(value), attr, old(stream.Rest()), ok, false, value, stream.Rest())
    {
      hide Get32;
      var b;
      ok, b := stream.GetValue(4);
      if ok {
        var n, e := Get32(b), value.extra;
        if attr == ATTR_HEALTHTICKS {
          e := e.(healthTicks := n);
        } else if attr == ATTR_HEALTHGAIN {
          e := e.(healthGain := n);
        } else if attr == ATTR_MANATICKS {
          e := e.(manaTicks := n);
        } else if attr == ATTR_MANAGAIN {
          e := e.(manaGain := n);
        } else if attr == ATTR_SPEEDDELTA {
          e := e.(speedDelta := Signed(n));
        } else if attr == ATTR_FORMULA_MINA {
          e := e.(mina := n);
        } else if attr == ATTR_FORMULA_MINB {
          e := e.(minb := n);
        } else if attr == ATTR_FORMULA_MAXA {
          e := e.(maxa := n);
        } else if attr == ATTR_FORMULA_MAXB {
          e := e.(maxb := n);
        } else if attr == ATTR_LIGHTCOLOR {
          e := e.(color := n);
        } else if attr == ATTR_LIGHTLEVEL {
          e := e.(level := n);
        } else if attr == ATTR_LIGHTTICKS {
          e := e.(lightTicks := n);
        } else if attr == ATTR_LIGHTINTERVAL {
          e := e.(lightInterval := n);
        } else if attr == ATTR_SOULTICKS {
          e := e.(soulTicks := n);
        } else {
          e := e.(soulGain := n);
        }
        value := value.(extra := e);
      }
    }

    /** A skill or a stat goes to the next place, if there is one. */
    method UnserializeAttribute(attr: Byte, stream: PropStream) returns (ok: bool, overrun: bool)
      requires stream.Valid() && value.extra.Attributes? && attr in {ATTR_SKILLS, ATTR_STATS}
      modifies this, stream
      ensures stream.Valid() && Reads(old(value), attr, old(stream.Rest()), ok, overrun, value, stream.Rest())
    {
      hide Get32;
      var b;
      overrun := false;
      ok, b := stream.GetValue(4);
      if ok {
        var n, e := GetSigned(b), value.extra;
        if attr == ATTR_SKILLS {
          if e.currentSkill >= |e.skills| {
            return false, true;
          }
          e := e.(skills := e.skills[e.currentSkill := n], currentSkill := e.currentSkill + 1);
        } else {
          if e.currentStat >= |e.stats| {
            return false, true;
          }
          e := e.(stats := e.stats[e.currentStat := n], currentStat := e.currentStat + 1);
        }
        value := value.(extra := e);
      }
    }

    /** What damage knows: of the owner nothing is kept, and an interval adds to the ticks. */
    method UnserializeDamage(attr: Byte, stream: PropStream) returns (ok: bool)
      requires stream.Valid() && value.extra.Damage?
      requires attr in {ATTR_DELAYED, ATTR_PERIODDAMAGE, ATTR_OWNER, ATTR_INTERVALDATA}
      modifies this, stream
      ensures stream.Valid() && Reads(old(value), attr, old(stream.Rest()), ok, false, value, stream.Rest())
    {
      hide Get32, GetInterval;
      var b;
      if attr == ATTR_DELAYED {
        ok, b := stream.GetValue(1);
        if ok {
          value := value.(extra := value.extra.(delayed := b[0] != 0));
        }
      } else if attr == ATTR_PERIODDAMAGE {
        ok, b := stream.GetValue(4);
        if ok {
          value := value.(extra := value.extra.(periodDamage := GetSigned(b)));
        }
      } else if attr == ATTR_OWNER {
        ok, b := stream.GetValue(4);
      } else {
        ok, b := stream.GetValue(12);
        if ok {
          var i := GetInterval(b);
          value := value.(extra := value.extra.(damageList := value.extra.damageList + [i]));
          if value.ticks != -1 {
            value := value.(ticks := value.ticks + i.interval);
          }
        }
      }
    }

    /** What every condition knows: the fields of the header. */
    method UnserializeCommon(attr: Byte, stream: PropStream) returns (ok: bool)
      requires stream.Valid()
      requires Width(value.extra, attr).Some? ==> attr in {ATTR_TYPE, ATTR_ID, ATTR_TICKS, ATTR_ISBUFF, ATTR_SUBID}
      modifies this, stream
      ensures stream.Valid() && Reads(old(value), attr, old(stream.Rest()), ok, false, value, stream.Rest())
    {
      hide Get32;
      var b;
      ok := false;
      if attr == ATTR_TYPE {
        ok, b := stream.GetValue(4);
        if ok { value := value.(conditionType := GetSigned(b)); }
      } else if attr == ATTR_ID {
        ok, b := stream.GetValue(4);
        if ok { value := value.(id := GetSigned(b)); }
      } else if attr == ATTR_TICKS {
        ok, b := stream.GetValue(4);
        if ok { value := value.(ticks := GetSigned(b)); }
      } else if attr == ATTR_ISBUFF {
        ok, b := stream.GetValue(1);
        if ok { value := value.(isBuff := b[0] != 0); }
      } else if attr == ATTR_SUBID {
        ok, b := stream.GetValue(4);
        if ok { value := value.(subId := Get32(b)); }
      }
    }

    /** unserializeProp: whether the field was taken, or would be written past its array. */
    method UnserializeProp(attr: Byte, stream: PropStream) returns (ok: bool, overrun: bool)
      requires stream.Valid()
      modifies this, stream
      ensures stream.Valid() && Reads(old(value), attr, old(stream.Rest()), ok, overrun, value, stream.Rest())
    {
      hide Apply, Reads;
      ok, overrun := false, false;
      match value.extra {
        case Attributes(_, _, _, _) =>
          if attr == ATTR_SKILLS || attr == ATTR_STATS {
            ok, overrun := UnserializeAttribute(attr, stream);
            return;
          }
        case Regeneration(_, _, _, _) =>
          if attr in {ATTR_HEALTHTICKS, ATTR_HEALTHGAIN, ATTR_MANATICKS, ATTR_MANAGAIN} {
            ok := UnserializeNumber(attr, stream);
            return;
          }
        case Soul(_, _) =>
          if attr in {ATTR_SOULGAIN, ATTR_SOULTICKS} {
            ok := UnserializeNumber(attr, stream);
            return;
          }
        case Damage(_, _, _) =>
          if attr in {ATTR_DELAYED, ATTR_PERIODDAMAGE, ATTR_OWNER, ATTR_INTERVALDATA} {
            ok := UnserializeDamage(attr, stream);
            return;
          }
        case Speed(_, _, _, _, _) =>
          if attr in {ATTR_SPEEDDELTA, ATTR_FORMULA_MINA, ATTR_FORMULA_MINB, ATTR_FORMULA_MAXA, ATTR_FORMULA_MAXB} {
            ok := UnserializeNumber(attr, stream);
            return;
          }
        case Outfits(_) =>
          if attr == ATTR_OUTFIT {
            ok := UnserializeOutfit(attr, stream);
            return;
          }
        case Light(_, _, _, _) =>
          if attr in {ATTR_LIGHTCOLOR, ATTR_LIGHTLEVEL, ATTR_LIGHTTICKS, ATTR_LIGHTINTERVAL} {
            ok := UnserializeNumber(attr, stream);
            return;
          }
        case Generic =>
      }
      ok := UnserializeCommon(attr, stream);
    }

    method UnserializeOutfit(attr: Byte, stream: PropStream) returns (ok: bool)
      requires stream.Valid() && value.extra.Outfits? && attr == ATTR_OUTFIT
      modifies this, stream
      ensures stream.Valid() && Reads(old(value), attr, old(stream.Rest()), ok, false, value, stream.Rest())
    {
      hide GetOutfit;
      var b;
      ok, b := stream.GetValue(12);
      if ok {
        value := value.(extra := Outfits(value.extra.outfits + [GetOutfit(b)]));
      }
    }

    /** unserialize: fields up to the end mark, or to the end of the stream. */
    method Unserialize(stream: PropStream) returns (ok: bool, overrun: bool)
      requires stream.Valid()
      modifies this, stream
      ensures stream.Valid()
      ensures match Unserialized(old(value), old(stream.Rest()))
              case Done(c, rest) => ok && !overrun && value == c && stream.Rest() == rest
              case Failed(rest) => !ok && !overrun && stream.Rest() == rest
              case Overrun => overrun
    {
      hide Width, Apply, Unserialized;
      ok, overrun := true, false;
      while true
        invariant stream.Valid() && !overrun
        invariant Unserialized(value, stream.Rest()) == Unserialized(old(value), old(stream.Rest()))
        decreases |stream.Rest()|
      {
        UnserializedStep(value, stream.Rest());
        var more, b := stream.GetValue(1);
        if !more || b[0] == ATTR_END {
          return true, false;
        }
        ok, overrun := UnserializeProp(b[0], stream);
        if !ok {
          return;
        }
      }
    }
  }

  lemma UnserializedStep(c: Condition, s: Bytes)
    ensures s == [] ==> Unserialized(c, s) == Done(c, [])
    ensures s != [] && s[0] == ATTR_END ==> Unserialized(c, s) == Done(c, s[1..])
    ensures s != [] && s[0] != ATTR_END ==>
              var w, rest := Width(c.extra, s[0]), s[1..];
              if w == None || |rest| < w.value then Unserialized(c, s) == Failed(rest)
              else
                var d := Apply(c, s[0], rest[..w.value]);
                Unserialized(c, s) == if d == None then Overrun else Unserialized(d.value, rest[w.value..])
  {
    hide Width, Apply;
    if s != [] && s[0] != ATTR_END {
      var w := Width(c.extra, s[0]);
      if w.Some? && |s| - 1 >= w.value {
        assert s[1..][..w.value] == s[1..1 + w.value] && s[1..][w.value..] == s[1 + w.value..];
      }
    }
  }

  /** The loader's loop. `overrun` ends it: the source would have written past an array. */
  method LoadConditions(stream: PropStream) returns (list: seq<Condition>, overrun: bool)
    requires stream.Valid()
    modifies stream
    ensures var r := Load(old(stream.Rest())); overrun == r.None? && (r.Some? ==> list == r.value)
  {
    hide CreateFrom, Unserialized, Load, Appended;
    list, overrun := [], false;
    ghost var s := stream.Rest();
    NothingAppended(Load(s));
    var c := CreateConditionFrom(stream);
    while c.Some?
      invariant stream.Valid() && !overrun
      invariant var r := CreateFrom(s);
                if r.Some? then c == Some(r.value.0) && stream.Rest() == r.value.1 else c == None
      invariant Appended(list, Load(s)) == Load(old(stream.Rest()))
      decreases |s|
    {
      LoadStep(list, s);
      var live := new LiveCondition(c.value);
      var ok;
      ok, overrun := live.Unserialize(stream);
      if overrun {
        return;
      }
      if ok {
        list := list + [live.value];
      }
      s := stream.Rest();
      c := CreateConditionFrom(stream);
    }
    LoadStep(list, s);
  }

  ghost function Appended(list: seq<Condition>, more: Option<seq<Condition>>): Option<seq<Condition>> {
    match more case None => None case Some(m) => Some(list + m)
  }

  lemma NothingAppended(more: Option<seq<Condition>>)
    ensures Appended([], more) == more
  {
    if more.Some? {
      assert [] + more.value == more.value;
    }
  }

  lemma LoadStep(list: seq<Condition>, s: Bytes)
    ensures CreateFrom(s) == None ==> Appended(list, Load(s)) == Some(list)
    ensures CreateFrom(s).Some? ==>
              var (c, rest) := CreateFrom(s).value;
              match Unserialized(c, rest)
              case Done(d, more) => Appended(list, Load(s)) == Appended(list + [d], Load(more))
              case Failed(more) => Appended(list, Load(s)) == Appended(list, Load(more))
              case Overrun => Appended(list, Load(s)) == None
  {
    hide CreateFrom, Unserialized;
    assert list + [] == list;
    if CreateFrom(s).Some? {
      var (c, rest) := CreateFrom(s).value;
      match Unserialized(c, rest) {
        case Done(d, more) =>
          if Load(more).Some? {
            assert list + ([d] + Load(more).value) == list + [d] + Load(more).value;
          }
        case Failed(more) =>
        case Overrun =>
      }
    }
  }

  /** Saving a player's conditions and loading them again. */
  method SaveAndLoad(cs: seq<Condition>) returns (loaded: seq<Condition>)
    requires forall c | c in cs :: Proper(c) && TicksFit(c)
    ensures loaded == RestoredAll(cs)
  {
    hide Load, SaveAll, Proper;
    var propWriteStream := new PropWriteStream();
    propWriteStream.SaveConditions(cs);
    var propStream := new PropStream(propWriteStream.buffer[..propWriteStream.size]);
    assert propStream.Rest() == [] + SaveAll(cs) == SaveAll(cs);
    LoadsWhatWasSaved(cs);
    var overrun;
    loaded, overrun := LoadConditions(propStream);
  }
}
