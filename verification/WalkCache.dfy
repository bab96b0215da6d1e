/** The window of walkable tiles each creature keeps around itself, shifted in place as it walks. */
module WalkCache {
  import opened Positions

  const VIEWPORT_X := 11
  const VIEWPORT_Y := 11
  const WALK_WIDTH := 2 * VIEWPORT_X + 1
  const WALK_HEIGHT := 2 * VIEWPORT_Y + 1

  /** Which tiles this creature could step on, as the tile's own query answers. */
  type World = Position -> bool

  function Abs(x: int): nat { if x < 0 then -x else x }

  /** Position::areInRange<1, 1, 0>. */
  ghost predicate OneStep(a: Position, b: Position) {
    -1 <= a.x - b.x <= 1 && -1 <= a.y - b.y <= 1 && a.z == b.z
  }

  /** The position shown by cell (row y, column x) of a window centred on c. */
  ghost function CellPosition(c: Position, y: int, x: int): Position {
    Position(c.x + x - VIEWPORT_X, c.y + y - VIEWPORT_Y, c.z)
  }

  ghost predicate InWindow(c: Position, p: Position) {
    p.z == c.z && -VIEWPORT_X <= p.x - c.x <= VIEWPORT_X && -VIEWPORT_Y <= p.y - c.y <= VIEWPORT_Y
  }

  /** The two worlds differ at most on the given tiles. */
  ghost predicate SameBut(before: World, after: World, tiles: set<Position>) {
    forall p | p !in tiles :: before(p) == after(p)
  }

  // ----- What a creature has seen: what the world said of each tile when it was last looked up -----

  /** The given tiles are looked up. */
  ghost function Looked(seen: World, world: World, tiles: set<Position>): World {
    p => if p in tiles then world(p) else seen(p)
  }

  /** A step from oldPos: that tile is looked up, and all that come into view. */
  ghost function Stepped(seen: World, world: World, oldPos: Position): World {
    p => if p == oldPos || !InWindow(oldPos, p) then world(p) else seen(p)
  }

  /** Whether a move makes the creature look up everything again. */
  ghost predicate Jumps(oldPos: Position, newPos: Position, forceTeleport: bool, hasGround: bool) {
    forceTeleport || !hasGround || !OneStep(oldPos, newPos)
  }

  ghost function Moved(seen: World, world: World, oldPos: Position, jumps: bool): World {
    if jumps then world else Stepped(seen, world, oldPos)
  }

  /** What an item's type says that the creature goes by. */
  datatype ItemType = ItemType(blockSolid: bool, blockPathFind: bool, isGround: bool)

  ghost predicate Blocks(t: ItemType) { t.blockSolid || t.blockPathFind }

  class Creature {
    const localMapCache: array2<bool>
    const useCacheMap: bool
    var position: Position
    var isMapLoaded: bool

    ghost predicate Valid()
      reads this
    {
      localMapCache.Length0 == WALK_HEIGHT && localMapCache.Length1 == WALK_WIDTH && (isMapLoaded ==> useCacheMap)
    }

    /** Every cell but the centre of the window around c shows what `world` says. */
    ghost predicate Shows(world: World, c: Position)
      requires Valid()
      reads this, localMapCache
    {
      forall y, x {:trigger localMapCache[y, x]} | 0 <= y < WALK_HEIGHT && 0 <= x < WALK_WIDTH &&
        !(y == VIEWPORT_Y && x == VIEWPORT_X) ::
        localMapCache[y, x] == world(CellPosition(c, y, x))
    }

    /** The cache is worth asking: once loaded it shows the world around the creature. */
    ghost predicate UpToDate(world: World)
      reads this, localMapCache
    {
      Valid() && (isMapLoaded ==> Shows(world, position))
    }

    constructor (start: Position, useCacheMap: bool)
      ensures Valid() && position == start && !isMapLoaded && fresh(localMapCache) && this.useCacheMap == useCacheMap
      ensures forall y, x | 0 <= y < WALK_HEIGHT && 0 <= x < WALK_WIDTH :: !localMapCache[y, x]
    {
      this.useCacheMap := useCacheMap;
      localMapCache := new bool[WALK_HEIGHT, WALK_WIDTH]((_, _) => false);
      position, isMapLoaded := start, false;
    }

    // ----- Single cells, rows and columns -----

    method UpdateTileOffset(walkable: bool, dx: int, dy: int)
      requires Valid()
      modifies localMapCache
      ensures forall y, x {:trigger localMapCache[y, x]} | 0 <= y < WALK_HEIGHT && 0 <= x < WALK_WIDTH ::
                localMapCache[y, x] ==
                if y == VIEWPORT_Y + dy && x == VIEWPORT_X + dx then walkable else old(localMapCache[y, x])
    {
      if Abs(dx) <= VIEWPORT_X && Abs(dy) <= VIEWPORT_Y {
        localMapCache[VIEWPORT_Y + dy, VIEWPORT_X + dx] := walkable;
      }
    }

    method UpdateTile(world: World, p: Position)
      requires Valid()
      modifies localMapCache
      ensures forall y, x {:trigger localMapCache[y, x]} | 0 <= y < WALK_HEIGHT && 0 <= x < WALK_WIDTH &&
              CellPosition(position, y, x) == p :: localMapCache[y, x] == world(p)
      ensures forall y, x {:trigger localMapCache[y, x]} | 0 <= y < WALK_HEIGHT && 0 <= x < WALK_WIDTH &&
              CellPosition(position, y, x) != p ::
                localMapCache[y, x] == old(localMapCache[y, x])
    {
      if p.z == position.z {
        UpdateTileOffset(world(p), p.x - position.x, p.y - position.y);
      }
    }

    method UpdateRow(world: World, dy: int)
      requires Valid() && Abs(dy) <= VIEWPORT_Y
      modifies localMapCache
      ensures forall y, x {:trigger localMapCache[y, x]} | 0 <= y < WALK_HEIGHT && 0 <= x < WALK_WIDTH ::
                localMapCache[y, x] ==
                if y == VIEWPORT_Y + dy then world(CellPosition(position, y, x)) else old(localMapCache[y, x])
    {
      for dx := -VIEWPORT_X to VIEWPORT_X + 1
        invariant forall y, x {:trigger localMapCache[y, x]} | 0 <= y < WALK_HEIGHT && 0 <= x < WALK_WIDTH ::
                    localMapCache[y, x] ==
                    if y == VIEWPORT_Y + dy && x < VIEWPORT_X + dx then world(CellPosition(position, y, x))
                    else old(localMapCache[y, x])
      {
        UpdateTileOffset(world(Position(position.x + dx, position.y + dy, position.z)), dx, dy);
      }
    }

    method UpdateColumn(world: World, dx: int)
      requires Valid() && Abs(dx) <= VIEWPORT_X
      modifies localMapCache
      ensures forall y, x {:trigger localMapCache[y, x]} | 0 <= y < WALK_HEIGHT && 0 <= x < WALK_WIDTH ::
                localMapCache[y, x] ==
                if x == VIEWPORT_X + dx then world(CellPosition(position, y, x)) else old(localMapCache[y, x])
    {
      for dy := -VIEWPORT_Y to VIEWPORT_Y + 1
        invariant forall y, x {:trigger localMapCache[y, x]} | 0 <= y < WALK_HEIGHT && 0 <= x < WALK_WIDTH ::
                    localMapCache[y, x] ==
                    if x == VIEWPORT_X + dx && y < VIEWPORT_Y + dy then world(CellPosition(position, y, x))
                    else old(localMapCache[y, x])
      {
        UpdateTileOffset(world(Position(position.x + dx, position.y + dy, position.z)), dx, dy);
      }
    }

    /** The full recompute. */
    method UpdateMapCache(world: World)
      requires Valid()
      modifies localMapCache
      ensures Shows(world, position)
    {
      for dy := -VIEWPORT_Y to VIEWPORT_Y + 1
        invariant forall y, x {:trigger localMapCache[y, x]} | 0 <= y < VIEWPORT_Y + dy && 0 <= x < WALK_WIDTH ::
                    localMapCache[y, x] == world(CellPosition(position, y, x))
      {
        UpdateRow(world, dy);
      }
    }

    // ----- Shifts -----

    method CopyRow(target: int, source: int)
      requires Valid() && 0 <= target < WALK_HEIGHT && 0 <= source < WALK_HEIGHT && target != source
      modifies localMapCache
      ensures forall x | 0 <= x < WALK_WIDTH :: localMapCache[target, x] == old(localMapCache[source, x])
      ensures forall y, x | 0 <= y < WALK_HEIGHT && 0 <= x < WALK_WIDTH && y != target ::
              localMapCache[y, x] == old(localMapCache[y, x])
    {
      forall x | 0 <= x < WALK_WIDTH {
        localMapCache[target, x] := localMapCache[source, x];
      }
    }

    method ShiftSouth()
      requires Valid()
      modifies localMapCache
      ensures forall y, x {:trigger localMapCache[y, x]} | 0 <= y < WALK_HEIGHT && 0 <= x < WALK_WIDTH && y > 0 ::
              localMapCache[y, x] == old(localMapCache[y - 1, x])
    {
      for r := WALK_HEIGHT - 1 downto 0
        invariant forall y, x {:trigger localMapCache[y, x]} | 0 <= y < WALK_HEIGHT && 0 <= x < WALK_WIDTH && y > r ::
                  localMapCache[y, x] == old(localMapCache[y - 1, x])
        invariant forall y, x {:trigger localMapCache[y, x]} | 0 <= y < WALK_HEIGHT && 0 <= x < WALK_WIDTH && y <= r ::
                  localMapCache[y, x] == old(localMapCache[y, x])
      {
        CopyRow(r + 1, r);
      }
    }

    method ShiftNorth()
      requires Valid()
      modifies localMapCache
      ensures forall y, x {:trigger localMapCache[y, x]} | 0 <= y < WALK_HEIGHT && 0 <= x < WALK_WIDTH &&
              y < WALK_HEIGHT - 1 :: localMapCache[y, x] == old(localMapCache[y + 1, x])
    {
      for r := 0 to WALK_HEIGHT - 1
        invariant forall y, x {:trigger localMapCache[y, x]} | 0 <= y < WALK_HEIGHT && 0 <= x < WALK_WIDTH && y < r ::
                  localMapCache[y, x] == old(localMapCache[y + 1, x])
        invariant forall y, x {:trigger localMapCache[y, x]} | 0 <= y < WALK_HEIGHT && 0 <= x < WALK_WIDTH && y >= r ::
                  localMapCache[y, x] == old(localMapCache[y, x])
      {
        CopyRow(r, r + 1);
      }
    }

    method ShiftRowWest(r: int)
      requires Valid() && 0 <= r < WALK_HEIGHT
      modifies localMapCache
      ensures forall x | 0 <= x < WALK_WIDTH - 1 :: localMapCache[r, x] == old(localMapCache[r, x + 1])
      ensures forall y, x {:trigger localMapCache[y, x]} | 0 <= y < WALK_HEIGHT && 0 <= x < WALK_WIDTH && y != r ::
              localMapCache[y, x] == old(localMapCache[y, x])
    {
      for c := 0 to WALK_WIDTH - 1
        invariant forall x | 0 <= x < c :: localMapCache[r, x] == old(localMapCache[r, x + 1])
        invariant forall y, x {:trigger localMapCache[y, x]} | 0 <= y < WALK_HEIGHT && 0 <= x < WALK_WIDTH &&
                  (y != r || x >= c) :: localMapCache[y, x] == old(localMapCache[y, x])
      {
        localMapCache[r, c] := localMapCache[r, c + 1];
      }
    }

    method ShiftRowEast(r: int)
      requires Valid() && 0 <= r < WALK_HEIGHT
      modifies localMapCache
      ensures forall x | 0 < x < WALK_WIDTH :: localMapCache[r, x] == old(localMapCache[r, x - 1])
      ensures forall y, x {:trigger localMapCache[y, x]} | 0 <= y < WALK_HEIGHT && 0 <= x < WALK_WIDTH && y != r ::
              localMapCache[y, x] == old(localMapCache[y, x])
    {
      for c := WALK_WIDTH - 1 downto 0
        invariant forall x | c < x < WALK_WIDTH :: localMapCache[r, x] == old(localMapCache[r, x - 1])
        invariant forall y, x {:trigger localMapCache[y, x]} | 0 <= y < WALK_HEIGHT && 0 <= x < WALK_WIDTH &&
                  (y != r || x <= c) :: localMapCache[y, x] == old(localMapCache[y, x])
      {
        localMapCache[r, c + 1] := localMapCache[r, c];
      }
    }

    method ShiftWest(first: int, last: int)
      requires Valid() && 0 <= first <= last < WALK_HEIGHT
      modifies localMapCache
      ensures forall y, x {:trigger localMapCache[y, x]} | first <= y <= last && 0 <= x < WALK_WIDTH - 1 ::
                localMapCache[y, x] == old(localMapCache[y, x + 1])
      ensures forall y, x {:trigger localMapCache[y, x]} | 0 <= y < WALK_HEIGHT && 0 <= x < WALK_WIDTH &&
              !(first <= y <= last) :: localMapCache[y, x] == old(localMapCache[y, x])
    {
      for r := first to last + 1
        invariant forall y, x {:trigger localMapCache[y, x]} | first <= y < r && 0 <= x < WALK_WIDTH - 1 ::
                    localMapCache[y, x] == old(localMapCache[y, x + 1])
        invariant forall y, x {:trigger localMapCache[y, x]} | 0 <= y < WALK_HEIGHT && 0 <= x < WALK_WIDTH &&
                  !(first <= y < r) :: localMapCache[y, x] == old(localMapCache[y, x])
      {
        ShiftRowWest(r);
      }
    }

    method ShiftEast(first: int, last: int)
      requires Valid() && 0 <= first <= last < WALK_HEIGHT
      modifies localMapCache
      ensures forall y, x {:trigger localMapCache[y, x]} | first <= y <= last && 0 < x < WALK_WIDTH ::
                localMapCache[y, x] == old(localMapCache[y, x - 1])
      ensures forall y, x {:trigger localMapCache[y, x]} | 0 <= y < WALK_HEIGHT && 0 <= x < WALK_WIDTH &&
              !(first <= y <= last) :: localMapCache[y, x] == old(localMapCache[y, x])
    {
      for r := first to last + 1
        invariant forall y, x {:trigger localMapCache[y, x]} | first <= y < r && 0 < x < WALK_WIDTH ::
                    localMapCache[y, x] == old(localMapCache[y, x - 1])
        invariant forall y, x {:trigger localMapCache[y, x]} | 0 <= y < WALK_HEIGHT && 0 <= x < WALK_WIDTH &&
                  !(first <= y < r) :: localMapCache[y, x] == old(localMapCache[y, x])
      {
        ShiftRowEast(r);
      }
    }

    // ----- Walking -----

    /** First half of a step: the rows follow the move in y, and the row that came into view is read. */
    method FollowRows(world: World, oldPos: Position)
      requires Valid() && OneStep(oldPos, position)
      modifies localMapCache
      ensures forall y, x {:trigger localMapCache[y, x]} | 0 <= y < WALK_HEIGHT && 0 <= x < WALK_WIDTH &&
              0 <= y + (position.y - oldPos.y) < WALK_HEIGHT ::
                localMapCache[y, x] == old(localMapCache[y + (position.y - oldPos.y), x])
      ensures forall y, x {:trigger localMapCache[y, x]} | 0 <= y < WALK_HEIGHT && 0 <= x < WALK_WIDTH &&
              !(0 <= y + (position.y - oldPos.y) < WALK_HEIGHT) ::
                localMapCache[y, x] == world(CellPosition(position, y, x))
    {
      if oldPos.y > position.y {
        ShiftSouth();
        UpdateRow(world, -VIEWPORT_Y);
      } else if oldPos.y < position.y {
        ShiftNorth();
        UpdateRow(world, VIEWPORT_Y);
      }
    }

    /** Second half: the columns follow the move in x, in every row but the one just read. */
    method FollowColumns(world: World, oldPos: Position)
      requires Valid() && OneStep(oldPos, position)
      modifies localMapCache
      ensures forall y, x {:trigger localMapCache[y, x]} | 0 <= y < WALK_HEIGHT && 0 <= x < WALK_WIDTH &&
              0 <= x + (position.x - oldPos.x) < WALK_WIDTH
                && 0 <= y + (position.y - oldPos.y) < WALK_HEIGHT ::
                localMapCache[y, x] == old(localMapCache[y, x + (position.x - oldPos.x)])
      ensures forall y, x {:trigger localMapCache[y, x]} | 0 <= y < WALK_HEIGHT && 0 <= x < WALK_WIDTH &&
              0 <= x + (position.x - oldPos.x) < WALK_WIDTH
                && !(0 <= y + (position.y - oldPos.y) < WALK_HEIGHT) ::
                localMapCache[y, x] == old(localMapCache[y, x])
      ensures forall y, x {:trigger localMapCache[y, x]} | 0 <= y < WALK_HEIGHT && 0 <= x < WALK_WIDTH &&
              !(0 <= x + (position.x - oldPos.x) < WALK_WIDTH) ::
                localMapCache[y, x] == world(CellPosition(position, y, x))
    {
      var dy := oldPos.y - position.y;
      var first := if dy > 0 then dy else 0;
      var last := if dy < 0 then WALK_HEIGHT - 1 + dy else WALK_HEIGHT - 1;
      if oldPos.x < position.x {
        ShiftWest(first, last);
        UpdateColumn(world, VIEWPORT_X);
      } else if oldPos.x > position.x {
        ShiftEast(first, last);
        UpdateColumn(world, -VIEWPORT_X);
      }
    }

    /** Both halves: a cell whose position was in view keeps its value, the others are read. */
    method FollowStep(world: World, oldPos: Position)
      requires Valid() && OneStep(oldPos, position)
      modifies localMapCache
      ensures forall y, x {:trigger localMapCache[y, x]} | 0 <= y < WALK_HEIGHT && 0 <= x < WALK_WIDTH &&
              0 <= y + (position.y - oldPos.y) < WALK_HEIGHT
                && 0 <= x + (position.x - oldPos.x) < WALK_WIDTH ::
                localMapCache[y, x] == old(localMapCache[y + (position.y - oldPos.y), x + (position.x - oldPos.x)])
      ensures forall y, x {:trigger localMapCache[y, x]} | 0 <= y < WALK_HEIGHT && 0 <= x < WALK_WIDTH &&
              !(0 <= y + (position.y - oldPos.y) < WALK_HEIGHT
                && 0 <= x + (position.x - oldPos.x) < WALK_WIDTH) ::
                localMapCache[y, x] == world(CellPosition(position, y, x))
    {
      hide OneStep, CellPosition;
      FollowRows(world, oldPos);
      FollowColumns(world, oldPos);
    }

    /** A step shifts what was seen along, looks up the tile left behind and leaves the rest as it was seen. */
    method Step(world: World, oldPos: Position, ghost seen: World)
      requires Valid() && Shows(seen, oldPos) && OneStep(oldPos, position)
      modifies localMapCache
      ensures Shows(Stepped(seen, world, oldPos), position)
    {
      FollowStep(world, oldPos);
      forall y, x {:trigger localMapCache[y, x]} | 0 <= y < WALK_HEIGHT && 0 <= x < WALK_WIDTH &&
        !(y == VIEWPORT_Y && x == VIEWPORT_X) && CellPosition(position, y, x) != oldPos
        ensures localMapCache[y, x] == Stepped(seen, world, oldPos)(CellPosition(position, y, x))
      {
        var oldY, oldX := y + (position.y - oldPos.y), x + (position.x - oldPos.x);
        assert CellPosition(oldPos, oldY, oldX) == CellPosition(position, y, x);
      }
      UpdateTile(world, oldPos);
    }

    /** The window is right exactly if everything in it was seen as it is. */
    lemma RightExactly(seen: World, world: World)
      requires UpToDate(seen)
      ensures UpToDate(world) <==>
              !isMapLoaded || forall p | InWindow(position, p) && p != position :: seen(p) == world(p)
    {
      if isMapLoaded && UpToDate(world) {
        forall p | InWindow(position, p) && p != position ensures seen(p) == world(p) {
          var y, x := p.y - position.y + VIEWPORT_Y, p.x - position.x + VIEWPORT_X;
          assert CellPosition(position, y, x) == p;
          assert localMapCache[y, x] == seen(p);
        }
      }
    }

    /** The move itself, as Tile::moveCreature announces it: anything but a step onto a tile with ground
        is a teleport, so every move in the game is covered. */
    method OnOwnMove(world: World, newPos: Position, forceTeleport: bool, hasGround: bool, ghost seen: World)
      requires UpToDate(seen)
      modifies this`position, localMapCache
      ensures position == newPos
      ensures UpToDate(Moved(seen, world, old(position), Jumps(old(position), newPos, forceTeleport, hasGround)))
      ensures SameBut(seen, world, {old(position), newPos}) ==> UpToDate(world)
    {
      var oldPos := position;
      position := newPos;
      var inRange := Abs(oldPos.x - newPos.x) <= 1 && Abs(oldPos.y - newPos.y) <= 1 && oldPos.z == newPos.z;
      var teleport := forceTeleport || !hasGround || !inRange;
      if isMapLoaded {
        if teleport || oldPos.z != newPos.z {
          UpdateMapCache(world);
        } else {
          Step(world, oldPos, seen);
        }
      }
    }

    /** Another creature moved. */
    method OnOtherMove(world: World, newPos: Position, oldPos: Position, ghost seen: World)
      requires UpToDate(seen)
      modifies localMapCache
      ensures UpToDate(Looked(seen, world, {oldPos, newPos}))
      ensures SameBut(seen, world, {oldPos, newPos}) ==> UpToDate(world)
    {
      if isMapLoaded {
        UpdateTile(world, newPos);
        UpdateTile(world, oldPos);
      }
    }

    /** This creature enters the game. */
    method OnAppear(world: World)
      requires Valid()
      modifies this`isMapLoaded, localMapCache
      ensures UpToDate(world) && (useCacheMap ==> isMapLoaded) && (!useCacheMap ==> isMapLoaded == old(isMapLoaded))
    {
      if useCacheMap {
        isMapLoaded := true;
        UpdateMapCache(world);
      }
    }

    /** From time to time: the window is read if it has not been yet. */
    method OnThink(world: World, ghost seen: World)
      requires UpToDate(seen)
      modifies this`isMapLoaded, localMapCache
      ensures UpToDate(if old(isMapLoaded) then seen else world) && isMapLoaded == useCacheMap
    {
      if !isMapLoaded && useCacheMap {
        isMapLoaded := true;
        UpdateMapCache(world);
      }
    }

    /** A condition begins or ends. A monster looks up everything again if it is fire, energy or poison, since
        it enters a field of what it suffers from already. */
    method OnCondition(world: World, ofField: bool, ghost seen: World)
      requires UpToDate(seen)
      modifies localMapCache
      ensures UpToDate(if ofField then world else seen)
    {
      if ofField {
        UpdateMapCache(world);
      }
    }

    /** Another creature appeared or disappeared at p, or an item was added there. */
    method OnTileChange(world: World, p: Position, ghost seen: World)
      requires UpToDate(seen)
      modifies localMapCache
      ensures UpToDate(Looked(seen, world, {p}))
      ensures SameBut(seen, world, {p}) ==> UpToDate(world)
    {
      if isMapLoaded {
        UpdateTile(world, p);
      }
    }

    /** An item at p was changed. The tile is looked up again only if its old or its new type blocks; a tile
        that can be walked or not for another reason, such as a magic field, stays as it was seen. The window
        is right afterwards exactly if that made no difference in view. */
    method OnUpdateTileItem(world: World, p: Position, oldType: ItemType, newType: ItemType, ghost seen: World)
      requires UpToDate(seen)
      modifies localMapCache
      ensures UpToDate(if oldType.blockSolid || oldType.blockPathFind || newType.blockSolid || newType.blockPathFind
                       then Looked(seen, world, {p}) else seen)
      ensures SameBut(seen, world, {p}) ==>
                (UpToDate(world) <==> !isMapLoaded || Blocks(oldType) || Blocks(newType) ||
                                      !InWindow(position, p) || p == position || seen(p) == world(p))
    {
      var looks := oldType.blockSolid || oldType.blockPathFind || newType.blockPathFind || newType.blockSolid;
      if isMapLoaded && looks {
        UpdateTile(world, p);
      }
      RightExactly(if looks then Looked(seen, world, {p}) else seen, world);
    }

    /** An item at p was removed. The tile is looked up again only if it blocked or was the ground. */
    method OnRemoveTileItem(world: World, p: Position, iType: ItemType, ghost seen: World)
      requires UpToDate(seen)
      modifies localMapCache
      ensures UpToDate(if iType.blockSolid || iType.blockPathFind || iType.isGround
                       then Looked(seen, world, {p}) else seen)
      ensures SameBut(seen, world, {p}) ==>
                (UpToDate(world) <==> !isMapLoaded || Blocks(iType) || iType.isGround ||
                                      !InWindow(position, p) || p == position || seen(p) == world(p))
    {
      var looks := iType.blockSolid || iType.blockPathFind || iType.isGround;
      if isMapLoaded && looks {
        UpdateTile(world, p);
      }
      RightExactly(if looks then Looked(seen, world, {p}) else seen, world);
    }

    // ----- The answer the path finder gets -----

    /** 2: ask the map; 1: walkable; 0: not. Of a tile in view the answer is what was seen, which is the truth
        when the window is up to date. */
    method GetWalkCache(p: Position, ghost seen: World) returns (answer: int)
      requires UpToDate(seen)
      ensures !useCacheMap ==> answer == 2
      ensures useCacheMap && p.z != position.z ==> answer == 0
      ensures useCacheMap && p == position ==> answer == 1
      ensures useCacheMap && p.z == position.z && !InWindow(position, p) ==> answer == 2
      ensures useCacheMap && p != position && InWindow(position, p) ==>
                var (dx, dy) := (p.x - position.x, p.y - position.y);
                answer == if localMapCache[VIEWPORT_Y + dy, VIEWPORT_X + dx] then 1 else 0
      ensures isMapLoaded && p != position && InWindow(position, p) ==> answer == if seen(p) then 1 else 0
    {
      if !useCacheMap {
        return 2;
      }
      if position.z != p.z {
        return 0;
      }
      if p == position {
        return 1;
      }
      var dx, dy := p.x - position.x, p.y - position.y;
      if Abs(dx) <= VIEWPORT_X && Abs(dy) <= VIEWPORT_Y {
        assert CellPosition(position, VIEWPORT_Y + dy, VIEWPORT_X + dx) == p;
        return if localMapCache[VIEWPORT_Y + dy, VIEWPORT_X + dx] then 1 else 0;
      }
      return 2;
    }
  }

  // ----- Whole runs -----

  /** One event, with the world after it, in which anything may have changed. */
  datatype Event =
    | Appear(world: World)
    | Think(world: World)
    | Condition(ofField: bool, world: World)
    | OwnMove(newPos: Position, forceTeleport: bool, hasGround: bool, world: World)
    | OtherMove(target: Position, source: Position, world: World)
    | TileChange(p: Position, world: World)
    | ItemUpdate(p: Position, oldType: ItemType, newType: ItemType, world: World)
    | ItemRemove(p: Position, iType: ItemType, world: World)

  /** Where a creature is, whether it keeps a window, and what it has seen. */
  datatype View = View(at: Position, loaded: bool, seen: World)

  /** The tiles an event makes a creature that keeps a window look up, besides those a step brings into view. */
  ghost function Told(e: Event): set<Position> {
    match e
    case OtherMove(target, source, _) => {source, target}
    case TileChange(p, _) => {p}
    case ItemUpdate(p, oldType, newType, _) => if Blocks(oldType) || Blocks(newType) then {p} else {}
    case ItemRemove(p, iType, _) => if Blocks(iType) || iType.isGround then {p} else {}
    case _ => {}
  }

  ghost function After(v: View, e: Event, useCacheMap: bool): View {
    match e
    case Appear(world) => if useCacheMap then View(v.at, true, world) else v
    case Think(world) => if useCacheMap && !v.loaded then View(v.at, true, world) else v
    case Condition(ofField, world) => if ofField then v.(seen := world) else v
    case OwnMove(newPos, forceTeleport, hasGround, world) =>
      View(newPos, v.loaded, Moved(v.seen, world, v.at, Jumps(v.at, newPos, forceTeleport, hasGround)))
    case _ => v.(seen := Looked(v.seen, e.world, Told(e)))
  }

  ghost function AfterAll(v: View, events: seq<Event>, useCacheMap: bool): View
    decreases |events|
  {
    if events == [] then v else AfterAll(After(v, events[0], useCacheMap), events[1..], useCacheMap)
  }

  ghost function FinalWorld(events: seq<Event>, before: World): World {
    if events == [] then before else events[|events| - 1].world
  }

  ghost predicate Sees(c: Creature, v: View)
    reads c, c.localMapCache
  {
    c.UpToDate(v.seen) && c.position == v.at && c.isMapLoaded == v.loaded
  }

  method Happen(c: Creature, e: Event, ghost v: View)
    requires Sees(c, v)
    modifies c, c.localMapCache
    ensures Sees(c, After(v, e, c.useCacheMap))
  {
    match e
    case Appear(world) => c.OnAppear(world);
    case Think(world) => c.OnThink(world, v.seen);
    case Condition(ofField, world) => c.OnCondition(world, ofField, v.seen);
    case OwnMove(newPos, forceTeleport, hasGround, world) =>
      c.OnOwnMove(world, newPos, forceTeleport, hasGround, v.seen);
    case OtherMove(target, source, world) => c.OnOtherMove(world, target, source, v.seen);
    case TileChange(p, world) => c.OnTileChange(world, p, v.seen);
    case ItemUpdate(p, oldType, newType, world) => c.OnUpdateTileItem(world, p, oldType, newType, v.seen);
    case ItemRemove(p, iType, world) => c.OnRemoveTileItem(world, p, iType, v.seen);
  }

  /** After any run of events, whatever changed in the world meanwhile, each cell shows what was seen of its
      tile when it was last looked up. So the window is what a full recompute would give exactly if all it
      shows was seen as it is in the end; and so it is if before the run it was and at each event what changed
      in view was looked up. */
  method Run(c: Creature, events: seq<Event>, ghost v: View, ghost before: World)
    requires Sees(c, v)
    modifies c, c.localMapCache
    ensures Sees(c, AfterAll(v, events, c.useCacheMap))
    ensures var end := AfterAll(v, events, c.useCacheMap).seen;
            c.UpToDate(FinalWorld(events, before)) <==>
            !c.isMapLoaded ||
            forall p | InWindow(c.position, p) && p != c.position :: end(p) == FinalWorld(events, before)(p)
    ensures c.useCacheMap && AgreesInView(v, before) && AllLooked(v, events, before, c.useCacheMap) ==>
              c.UpToDate(FinalWorld(events, before))
  {
    hide AgreesInView, AllLooked, After;
    ghost var now := v;
    for n := 0 to |events|
      invariant Sees(c, now) && AfterAll(now, events[n..], c.useCacheMap) == AfterAll(v, events, c.useCacheMap)
    {
      assert events[n..][1..] == events[n + 1..];
      Happen(c, events[n], now);
      now := After(now, events[n], c.useCacheMap);
    }
    c.RightExactly(now.seen, FinalWorld(events, before));
    if c.useCacheMap && AgreesInView(v, before) && AllLooked(v, events, before, c.useCacheMap) {
      LookedUpIsRight(v, events, before, c.useCacheMap);
      InViewIsAll(now, FinalWorld(events, before));
    }
  }

  /** Everything in view, if there is a window, was seen as it is. */
  ghost predicate AgreesInView(v: View, world: World) {
    v.loaded ==> forall p | InWindow(v.at, p) && p != v.at :: v.seen(p) == world(p)
  }

  lemma InViewIsAll(v: View, world: World)
    requires AgreesInView(v, world)
    ensures !v.loaded || forall p | InWindow(v.at, p) && p != v.at :: v.seen(p) == world(p)
  {
  }

  /** At an event every tile in view before it that it changes is looked up, but for those the creature stands
      on, before or after it; a creature that jumps or reads its window looks at everything. */
  ghost predicate LooksUp(v: View, e: Event, before: World, useCacheMap: bool) {
    match e
    case Appear(_) => useCacheMap
    case Think(world) => !v.loaded || forall p | InWindow(v.at, p) && p != v.at :: before(p) == world(p)
    case Condition(ofField, world) => ofField || forall p | InWindow(v.at, p) && p != v.at :: before(p) == world(p)
    case OwnMove(newPos, forceTeleport, hasGround, world) =>
      Jumps(v.at, newPos, forceTeleport, hasGround) ||
      forall p | InWindow(v.at, p) && p != v.at && p != newPos :: before(p) == world(p)
    case _ => forall p | InWindow(v.at, p) && p != v.at && p !in Told(e) :: before(p) == e.world(p)
  }

  ghost predicate AllLooked(v: View, events: seq<Event>, before: World, useCacheMap: bool)
    decreases |events|
  {
    events == [] ||
    (LooksUp(v, events[0], before, useCacheMap) &&
     AllLooked(After(v, events[0], useCacheMap), events[1..], events[0].world, useCacheMap))
  }

  lemma LookedUpOnce(v: View, e: Event, before: World, useCacheMap: bool)
    requires useCacheMap && AgreesInView(v, before) && LooksUp(v, e, before, useCacheMap)
    ensures AgreesInView(After(v, e, useCacheMap), e.world)
  {
  }

  lemma {:induction false} LookedUpIsRight(v: View, events: seq<Event>, before: World, useCacheMap: bool)
    requires useCacheMap && AgreesInView(v, before) && AllLooked(v, events, before, useCacheMap)
    ensures AgreesInView(AfterAll(v, events, useCacheMap), FinalWorld(events, before))
    decreases |events|
  {
    hide AgreesInView, After, LooksUp;
    if events != [] {
      LookedUpOnce(v, events[0], before, useCacheMap);
      LookedUpIsRight(After(v, events[0], useCacheMap), events[1..], events[0].world, useCacheMap);
    }
  }

  /** A fire that burns out: its type blocks nothing, so a creature that feared it goes on keeping off a tile
      that can be walked again. */
  method BurntOutField() returns (c: Creature, answer: int)
    ensures c.useCacheMap && answer == 0 && !c.UpToDate(_ => true)
  {
    var field := Position(1, 0, 7);
    var burning: World := p => p != field;
    c := new Creature(Position(0, 0, 7), true);
    c.OnAppear(burning);
    c.OnRemoveTileItem(_ => true, field, ItemType(false, false, false), burning);
    answer := c.GetWalkCache(field, burning);
    c.RightExactly(burning, _ => true);
  }
}
