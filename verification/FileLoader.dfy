/** FileLoader: a node file read byte by byte, directly or through three cached blocks, parsed into
    linked nodes, and written node by node. */
module FileLoaders {
  import opened NodeGrammar
  import opened Wrappers
  import opened Bits

  const MAX_FILE := 0x7FFF_FFFF
  const CACHE_BLOCKS := 3
  const NO_VALID_CACHE := -1

  class NodeStruct {
    var start: nat
    var propsSize: nat
    var kind: int
    var next: NodeStruct?
    var child: NodeStruct?

    constructor ()
      ensures start == 0 && propsSize == 0 && kind == 0 && next == null && child == null
    {
      start, propsSize, kind, next, child := 0, 0, 0, null, null;
    }
  }

  /** The linked nodes from n up to (not including) `tail` are the forest f, whose first node
      begins at file position p. Property blocks are given by their extent in the file. */
  ghost predicate Chain(n: NodeStruct?, f: Forest, p: nat, tail: NodeStruct?, nodes: set<NodeStruct>)
    reads nodes
    decreases f
  {
    match f
    case End => n == tail
    case Node(kind, raw, child, next) =>
      n != null && n in nodes && n.start == p && n.kind == kind && n.propsSize == |raw| &&
      Chain(n.child, child, p + 2 + |raw|, null, nodes) &&
      Chain(n.next, next, p + 3 + |raw| + |Encode(child)|, tail, nodes)
  }

  lemma {:induction false} ChainGrows(n: NodeStruct?, f: Forest, p: nat, tail: NodeStruct?, a: set<NodeStruct>,
                                      b: set<NodeStruct>)
    requires a <= b && Chain(n, f, p, tail, a)
    ensures Chain(n, f, p, tail, b)
    decreases f
  {
    hide Encode;
    match f
    case End =>
    case Node(_, raw, child, next) =>
      ChainGrows(n.child, child, p + 2 + |raw|, null, a, b);
      ChainGrows(n.next, next, p + 3 + |raw| + |Encode(child)|, tail, a, b);
  }

  /** f with g attached after its last sibling. */
  ghost function Append(f: Forest, g: Forest): Forest {
    match f
    case End => g
    case Node(kind, raw, child, next) => Node(kind, raw, child, Append(next, g))
  }

  lemma {:induction false} EncodeAppend(f: Forest, g: Forest)
    ensures Encode(Append(f, g)) == Encode(f) + Encode(g)
  {
    match f
    case End =>
    case Node(kind, raw, child, next) =>
      EncodeAppend(next, g);
      var front := [NODE_START, kind] + raw + Encode(child) + [NODE_END];
      assert front + Encode(next) + Encode(g) == front + (Encode(next) + Encode(g));
  }

  lemma {:induction false} ChainAppend(n: NodeStruct?, f: Forest, p: nat, mid: NodeStruct?, g: Forest,
                                       tail: NodeStruct?, nodes: set<NodeStruct>)
    requires Chain(n, f, p, mid, nodes) && Chain(mid, g, p + |Encode(f)|, tail, nodes)
    ensures Chain(n, Append(f, g), p, tail, nodes)
    decreases f
  {
    hide Encode;
    match f
    case End => EncodeEnd();
    case Node(_, raw, child, next) =>
      EncodeLength(f);
      ChainAppend(n.next, next, p + 3 + |raw| + |Encode(child)|, mid, g, tail, nodes);
  }

  lemma EncodeEnd()
    ensures Encode(End) == []
  {
  }

  lemma EncodeLength(f: Forest)
    requires f.Node?
    ensures |Encode(f)| == 3 + |f.props| + |Encode(f.child)| + |Encode(f.next)|
  {
  }

  /** One block of the file held in memory; `data` past `size` is left over from earlier loads. */
  datatype CacheBlock = CacheBlock(loaded: bool, base: nat, size: nat, data: seq<Byte>)

  /** How many bytes reading `len` bytes at `pos` yields. */
  ghost function Available(fileSize: nat, pos: nat, len: nat): nat {
    if pos >= fileSize then 0 else if fileSize - pos < len then fileSize - pos else len
  }

  ghost predicate BlockMatches(b: CacheBlock, file: seq<Byte>, cacheSize: nat) {
    b.size == Available(|file|, b.base, cacheSize) && |b.data| == cacheSize &&
    forall k | 0 <= k < b.size :: b.data[k] == file[b.base + k]
  }

  /** The block size for a file: a twentieth of it, down to a multiple of 8192, but 8192 at least and 32768 at
      most. 24576 is possible and is no power of two. */
  ghost function CacheSize(fileSize: nat): nat {
    if fileSize < 20 * 16384 then 8192
    else if fileSize < 20 * 24576 then 16384
    else if fileSize < 20 * 32768 then 24576
    else 32768
  }

  lemma CacheSizes(fileSize: nat, wanted: nat)
    requires wanted == fileSize / 20
    ensures AndNot32(if wanted < 8192 then 8192 else if wanted > 32768 then 32768 else wanted, 0x1FFF) ==
            CacheSize(fileSize)
  {
    hide AndNot32;
    var v := if wanted < 8192 then 8192 else if wanted > 32768 then 32768 else wanted;
    AndNot32LowBits(v);
    RoundDown(v);
  }

  lemma CacheSizeBounds(fileSize: nat)
    ensures 0 < CacheSize(fileSize) <= 32768
  {
  }

  lemma RoundDown(v: nat)
    requires 8192 <= v <= 32768
    ensures v - v % 0x2000 ==
            if v < 16384 then 8192 else if v < 24576 then 16384 else if v < 32768 then 24576 else 32768
  {
    var q := v / 0x2000;
    assert v - v % 0x2000 == 0x2000 * q;
    assert q == if v < 16384 then 1 else if v < 24576 then 2 else if v < 32768 then 3 else 4;
  }

  /** The parser's answer with the siblings already read put in front. */
  ghost function Extend(done: Forest, r: Option<(Forest, nat)>): Option<(Forest, nat)> {
    if r.None? then None else Some((Append(done, r.value.0), r.value.1))
  }

  lemma {:induction false} AppendAssociative(f: Forest, g: Forest, h: Forest)
    ensures Append(Append(f, g), h) == Append(f, Append(g, h))
  {
    if f.Node? {
      AppendAssociative(f.next, g, h);
    }
  }

  /** The node whose type byte is at p, without its later siblings. */
  ghost function NodeAt(s: seq<Byte>, p: nat): (f: Forest)
    requires p < |s| && ParseBody(s, p + 1).Some?
    ensures f.Node? && f.next == End
  {
    var b := ParseBody(s, p + 1).value;
    Node(s[p], b.props, b.child, End)
  }

  /** n carries the type, the block extent and the children of f. */
  ghost predicate Holds(n: NodeStruct, f: Forest, kids: set<NodeStruct>)
    requires f.Node?
    reads n`start, n`kind, n`propsSize, n`child, kids
  {
    n.kind == f.kind && n.propsSize == |f.props| &&
    Chain(n.child, f.child, n.start + 2 + |f.props|, null, kids)
  }

  /** How reading a range ends: with the bytes, with a refusal, never, or with bytes from behind a block. */
  datatype ReadResult = Done | Failed | Endless | Overrun

  /** One call on a file reader, and its answer. */
  datatype Call = CallReadByte | CallReadBytes(size: nat, pos: nat) | CallSeek(pos: nat) | CallTell
  datatype Answer = Value(ok: bool, value: Byte) | Block(result: ReadResult, bytes: seq<Byte>) | Sought(ok: bool)
                  | Told(ok: bool, position: int)

  /** Calls that stay inside the file. */
  ghost predicate Within(file: seq<Byte>, call: Call) {
    match call
    case CallReadBytes(size, pos) => pos + size <= |file|
    case CallSeek(pos) => pos <= |file|
    case _ => true
  }

  /** The length of a buffer doubled until it is longer than a block. */
  ghost function Grown(length: nat, size: nat): nat
    decreases size - length
  {
    if size < length || length == 0 then length else Grown(2 * length, size)
  }

  /** What a plain file answers, standing at pos, and where it stands then. */
  ghost function Plain(file: seq<Byte>, pos: nat, call: Call): (Answer, nat)
    requires pos <= |file| && Within(file, call)
  {
    match call
    case CallReadByte => if pos < |file| then (Value(true, file[pos]), pos + 1) else (Value(false, 0), pos)
    case CallReadBytes(size, at) => (Block(Done, file[at..at + size]), at + size)
    case CallSeek(at) => (Sought(true), at)
    case CallTell => (Told(true, pos - 1), pos)
  }

  ghost function PlainRun(file: seq<Byte>, pos: nat, calls: seq<Call>): (r: (seq<Answer>, nat))
    requires pos <= |file| && forall call | call in calls :: Within(file, call)
    ensures r.1 <= |file|
    decreases |calls|
  {
    if calls == [] then ([], pos)
    else
      var (answer, next) := Plain(file, pos, calls[0]);
      var (answers, end) := PlainRun(file, next, calls[1..]);
      ([answer] + answers, end)
  }

  datatype Mark = NoMore | SiblingAt(pos: nat) | Malformed

  class FileLoader {
    var file: seq<Byte>
    var filePos: nat
    var useCache: bool
    var cacheSize: nat
    var cacheIndex: int
    var cacheOffset: nat
    const cached: array<CacheBlock>
    var buffer: array<Byte>
    var root: NodeStruct?

    ghost predicate Valid()
      reads this, cached
    {
      cached.Length == CACHE_BLOCKS && |file| <= MAX_FILE &&
      (useCache ==>
         0 < cacheSize <= 32768 && NO_VALID_CACHE <= cacheIndex < CACHE_BLOCKS &&
         (cacheIndex != NO_VALID_CACHE ==> cached[cacheIndex].loaded) &&
         forall i | 0 <= i < CACHE_BLOCKS && cached[i].loaded :: BlockMatches(cached[i], file, cacheSize))
    }

    /** A read position exists: always without the cache, after the first seek with it. */
    ghost predicate Positioned()
      reads this, cached
    {
      Valid() && (useCache ==> cacheIndex != NO_VALID_CACHE) && Pos() <= |file|
    }

    /** The position the next byte is read from, in either mode. */
    ghost function Pos(): nat
      requires Valid()
      reads this, cached
    {
      if useCache && cacheIndex != NO_VALID_CACHE then cached[cacheIndex].base + cacheOffset else filePos
    }

    constructor (bytes: seq<Byte>)
      requires |bytes| <= MAX_FILE
      ensures Valid() && file == bytes && !useCache && cacheIndex == NO_VALID_CACHE && root == null
      ensures fresh(cached) && fresh(buffer) && buffer.Length == 1024 && filePos == cacheSize == cacheOffset == 0
      ensures forall i | 0 <= i < CACHE_BLOCKS :: !cached[i].loaded
    {
      file, filePos, useCache, cacheSize := bytes, 0, false, 0;
      cacheIndex, cacheOffset, root := NO_VALID_CACHE, 0, null;
      cached := new CacheBlock[CACHE_BLOCKS](_ => CacheBlock(false, 0, 0, []));
      buffer := new Byte[1024](_ => 0);
    }

    // ----- Cached and direct reading -----

    /** Whether a block with that base goes into the slot: an empty one, else the first whose block is more than
        two block sizes away, else the first. */
    ghost predicate Picks(slot: nat, basePos: nat)
      requires cached.Length == CACHE_BLOCKS
      reads this`cacheSize, cached
    {
      slot < CACHE_BLOCKS && (forall i: nat | i < slot :: cached[i].loaded) &&
      (!cached[slot].loaded || forall i: nat | i < CACHE_BLOCKS :: cached[i].loaded) &&
      (cached[slot].loaded && IsFar(slot, basePos) ==> forall i: nat | i < slot :: !IsFar(i, basePos)) &&
      (cached[slot].loaded && !IsFar(slot, basePos) ==>
         slot == 0 && forall i: nat | i < CACHE_BLOCKS :: !IsFar(i, basePos))
    }

    method PickSlot(basePos: nat) returns (slot: nat)
      requires cached.Length == CACHE_BLOCKS
      ensures slot < CACHE_BLOCKS && Picks(slot, basePos)
    {
      for i := 0 to CACHE_BLOCKS
        invariant forall j: nat | j < i :: cached[j].loaded
      {
        if !cached[i].loaded {
          return i;
        }
      }
      for i := 0 to CACHE_BLOCKS
        invariant forall j: nat | j < i :: !IsFar(j, basePos)
      {
        var distance := if cached[i].base < basePos then basePos - cached[i].base else cached[i].base - basePos;
        if distance > 2 * cacheSize {
          return i;
        }
      }
      return 0;
    }

    /** The slot's block lies more than two block sizes away. */
    ghost predicate IsFar(i: nat, basePos: nat)
      requires i < CACHE_BLOCKS == cached.Length
      reads this`cacheSize, cached
    {
      cached[i].base < basePos - 2 * cacheSize || cached[i].base > basePos + 2 * cacheSize
    }

    method LoadCacheBlock(pos: nat) returns (slot: int, ghost picked: nat)
      requires Valid() && useCache && pos <= MAX_FILE
      modifies this`filePos, cached
      ensures Valid() && NO_VALID_CACHE <= slot < CACHE_BLOCKS
      ensures slot == NO_VALID_CACHE <==> pos > |file| && AndNot32(pos, cacheSize - 1) < pos
      ensures slot != NO_VALID_CACHE ==> cached[slot].loaded && cached[slot].base == AndNot32(pos, cacheSize - 1)
      ensures slot != NO_VALID_CACHE ==> slot == picked && filePos == cached[slot].base + cached[slot].size
      ensures old(Picks(picked, AndNot32(pos, cacheSize - 1)))
      ensures forall i | 0 <= i < CACHE_BLOCKS && i != picked :: cached[i] == old(cached[i])
    {
      hide AndNot32, Picks;
      var basePos := AndNot32(pos, cacheSize - 1);
      BlockBaseBounds(pos, cacheSize);
      slot := PickSlot(basePos);
      picked := slot;
      var b := cached[slot];
      var data := if |b.data| == cacheSize then b.data else seq(cacheSize, _ => 0);
      var size := cacheSize;
      if basePos >= |file| {
        size := 0;
      } else if |file| - basePos < cacheSize {
        size := |file| - basePos;
      }
      data := (if size == 0 then [] else file[basePos..basePos + size]) + data[size..];
      filePos := basePos + size;
      cached[slot] := CacheBlock(b.loaded, basePos, size, data);
      assert BlockMatches(cached[slot], file, cacheSize);
      if size < pos - basePos {
        return NO_VALID_CACHE, picked;
      }
      cached[slot] := cached[slot].(loaded := true);
    }

    /** Whether a block with that base has been loaded. */
    ghost predicate HasBlock(basePos: nat)
      reads cached
    {
      exists i | 0 <= i < cached.Length :: cached[i].loaded && cached[i].base == basePos
    }

    /** A loaded block is found without reading; otherwise it is loaded. */
    method GetCacheBlock(pos: nat) returns (slot: int)
      requires Valid() && useCache && pos <= MAX_FILE
      modifies this`filePos, cached
      ensures Valid() && NO_VALID_CACHE <= slot < CACHE_BLOCKS
      ensures var basePos := AndNot32(pos, cacheSize - 1);
              (slot == NO_VALID_CACHE <==> pos > |file| && basePos < pos && !old(HasBlock(basePos))) &&
              (slot != NO_VALID_CACHE ==> cached[slot].loaded && cached[slot].base == basePos) &&
              (old(HasBlock(basePos)) ==> filePos == old(filePos) && cached[..] == old(cached[..]))
    {
      hide AndNot32;
      var basePos := AndNot32(pos, cacheSize - 1);
      for i := 0 to CACHE_BLOCKS
        invariant forall k | 0 <= k < i :: !(cached[k].loaded && cached[k].base == basePos)
      {
        if cached[i].loaded && cached[i].base == basePos {
          return i;
        }
      }
      ghost var picked;
      slot, picked := LoadCacheBlock(pos);
    }

    method ReadByte() returns (ok: bool, value: Byte)
      requires Valid() && Pos() <= MAX_FILE
      modifies this`filePos, this`cacheIndex, this`cacheOffset, cached
      ensures Valid()
      ensures useCache && old(cacheIndex) == NO_VALID_CACHE ==> !ok
      ensures old(Positioned()) ==>
                Positioned() && (ok <==> old(Pos()) < |file|) &&
                (ok ==> value == file[old(Pos())] && Pos() == old(Pos()) + 1) &&
                (!ok ==> Pos() == old(Pos()))
    {
      hide AndNot32;
      ok, value := false, 0;
      if useCache {
        if cacheIndex == NO_VALID_CACHE {
          return;
        }
        if cacheOffset >= cached[cacheIndex].size {
          var pos := cacheOffset + cached[cacheIndex].base;
          var slot := GetCacheBlock(pos);
          if slot == NO_VALID_CACHE {
            return;
          }
          BlockBaseBounds(pos, cacheSize);
          cacheIndex := slot;
          cacheOffset := pos - cached[slot].base;
          if cacheOffset >= cached[slot].size {
            return;
          }
        }
        value := cached[cacheIndex].data[cacheOffset];
        cacheOffset := cacheOffset + 1;
        return true, value;
      }
      if filePos < |file| {
        value := file[filePos];
        filePos := filePos + 1;
        ok := true;
      }
    }

    method SafeSeek(pos: nat) returns (ok: bool)
      requires Valid() && pos <= MAX_FILE
      modifies this`filePos, this`cacheIndex, this`cacheOffset, cached
      ensures Valid()
      ensures pos <= |file| ==> ok && Positioned() && Pos() == pos
      ensures if useCache
              then var basePos := AndNot32(pos, cacheSize - 1);
                   ok <==> pos <= |file| || basePos == pos || old(HasBlock(basePos))
              else ok && filePos == pos
    {
      hide AndNot32;
      if useCache {
        var slot := GetCacheBlock(pos);
        if slot == NO_VALID_CACHE {
          return false;
        }
        BlockBaseBounds(pos, cacheSize);
        cacheIndex := slot;
        cacheOffset := pos - cached[slot].base;
      } else {
        filePos := pos;
      }
      return true;
    }

    /** The position of the byte read last. */
    method SafeTell() returns (ok: bool, pos: int)
      requires Valid()
      ensures ok <==> !useCache || cacheIndex != NO_VALID_CACHE
      ensures ok ==> pos == Pos() - 1
    {
      if useCache {
        if cacheIndex == NO_VALID_CACHE {
          return false, 0;
        }
        return true, cached[cacheIndex].base + cacheOffset - 1;
      }
      return true, filePos - 1;
    }

    /** Reads `size` bytes at `pos` into the front of `target`. Inside the file both modes deliver them. Past
        the end a direct read fails. A cached one that starts inside the file never comes back. One that starts
        behind it fails unless a block begins there or is loaded; then, if anything is asked for, it never
        comes back at the beginning of a block and copies what lies behind it elsewhere. */
    method ReadBytes(target: array<Byte>, size: nat, pos: nat) returns (r: ReadResult)
      requires Valid() && size <= target.Length && pos <= MAX_FILE
      modifies this`filePos, this`cacheIndex, this`cacheOffset, cached, target
      ensures Valid()
      ensures pos + size <= |file| ==>
                r == Done && Positioned() && Pos() == pos + size && target[..size] == file[pos..pos + size]
      ensures !useCache && pos + size > |file| ==> r == if size == 0 then Done else Failed
      ensures !useCache ==> filePos == pos + Available(|file|, pos, size)
      ensures useCache && pos <= |file| < pos + size ==> r == Endless
      ensures useCache && pos > |file| ==>
                var basePos := AndNot32(pos, cacheSize - 1);
                r == if basePos < pos && !old(HasBlock(basePos)) then Failed else if size == 0 then Done
                     else if basePos < pos then Overrun else Endless
      ensures target[size..] == old(target[size..])
    {
      hide AndNot32;
      if useCache {
        r := ReadCached(target, size, pos);
        return;
      }
      var got := size;
      if pos >= |file| {
        got := 0;
      } else if |file| - pos < size {
        got := |file| - pos;
      }
      forall k | 0 <= k < got {
        target[k] := file[pos + k];
      }
      filePos := pos + got;
      r := if got == size then Done else Failed;
    }

    /** The block-by-block copy. It goes on as long as every block holds at least the byte asked for; at the
        end of the file with bytes still to read it copies nothing from then on. */
    method ReadCached(target: array<Byte>, size: nat, pos: nat) returns (r: ReadResult)
      requires Valid() && useCache && size <= target.Length && pos <= MAX_FILE
      modifies this`filePos, this`cacheIndex, this`cacheOffset, cached, target
      ensures Valid()
      ensures pos + size <= |file| ==>
                r == Done && Positioned() && Pos() == pos + size && target[..size] == file[pos..pos + size]
      ensures pos <= |file| < pos + size ==> r == Endless
      ensures pos > |file| ==>
                var basePos := AndNot32(pos, cacheSize - 1);
                r == if basePos < pos && !old(HasBlock(basePos)) then Failed else if size == 0 then Done
                     else if basePos < pos then Overrun else Endless
      ensures target[size..] == old(target[size..])
    {
      hide AndNot32;
      var done := 0;
      while true
        invariant Valid() && done <= size && (done == size ==> size == 0)
        invariant if pos <= |file| then pos + done <= |file| else done == 0
        invariant done == 0 ==> forall b: nat :: HasBlock(b) == old(HasBlock(b))
        invariant forall k | 0 <= k < done :: pos + k < |file| && target[k] == file[pos + k]
        invariant target[size..] == old(target[size..])
        decreases size - done
      {
        var reading;
        r, reading := CopyBlock(target, done, size - done, pos + done);
        if r != Done {
          return;
        }
        done := done + reading;
        if done == size {
          assert pos + size <= |file| ==> target[..size] == file[pos..pos + size];
          return;
        }
        if reading == 0 {
          return Endless;
        }
      }
    }

    /** Seeks to pos and copies what the block there holds, up to `remain` bytes, to target[at..]. */
    method CopyBlock(target: array<Byte>, at: nat, remain: nat, pos: nat) returns (r: ReadResult, reading: nat)
      requires Valid() && useCache && at + remain <= target.Length && pos <= MAX_FILE
      modifies this`filePos, this`cacheIndex, this`cacheOffset, cached, target
      ensures Valid() && reading <= remain
      ensures pos <= |file| ==> r == Done && Positioned() && Pos() == pos + reading
      ensures pos <= |file| ==> (reading == 0 <==> remain == 0 || pos == |file|)
      ensures pos > |file| ==>
                var basePos := AndNot32(pos, cacheSize - 1);
                reading == 0 && r == if basePos < pos && !old(HasBlock(basePos)) then Failed
                                     else if basePos < pos && remain > 0 then Overrun else Done
      ensures reading > 0 ==> pos + reading <= |file|
      ensures forall k | 0 <= k < target.Length ::
                target[k] == if at <= k < at + reading then file[pos + (k - at)] else old(target[k])
    {
      hide AndNot32;
      reading := 0;
      var slot := GetCacheBlock(pos);
      if slot == NO_VALID_CACHE {
        return Failed, reading;
      }
      BlockBaseBounds(pos, cacheSize);
      cacheIndex := slot;
      cacheOffset := pos - cached[slot].base;
      var b := cached[slot];
      assert BlockMatches(b, file, cacheSize);
      if b.size < cacheOffset {
        return if remain == 0 then Done else Overrun, reading;
      }
      reading := if remain < b.size - cacheOffset then remain else b.size - cacheOffset;
      forall k | 0 <= k < reading {
        target[at + k] := b.data[cacheOffset + k];
      }
      cacheOffset := cacheOffset + reading;
      r := Done;
    }

    /** One call inside the file: cached or not, the answer is the plain file's. */
    method Serve(call: Call) returns (answer: Answer)
      requires Positioned() && Within(file, call)
      modifies this`filePos, this`cacheIndex, this`cacheOffset, cached
      ensures Positioned() && (answer, Pos()) == Plain(file, old(Pos()), call)
    {
      hide BlockMatches;
      match call
      case CallReadByte =>
        var ok, value := ReadByte();
        answer := Value(ok, if ok then value else 0);
      case CallReadBytes(size, pos) =>
        var target := new Byte[size](_ => 0);
        var r := ReadBytes(target, size, pos);
        assert target[..] == target[..size];
        answer := Block(r, target[..]);
      case CallSeek(pos) =>
        var ok := SafeSeek(pos);
        answer := Sought(ok);
      case CallTell =>
        var ok, pos := SafeTell();
        answer := Told(ok, pos);
    }

    /** Any sequence of calls inside the file is answered as by the plain file. */
    method ServeAll(calls: seq<Call>) returns (answers: seq<Answer>)
      requires Positioned() && forall call | call in calls :: Within(file, call)
      modifies this`filePos, this`cacheIndex, this`cacheOffset, cached
      ensures Positioned() && (answers, Pos()) == PlainRun(file, old(Pos()), calls)
      decreases |calls|
    {
      hide BlockMatches, Within, Plain;
      if calls == [] {
        return [];
      }
      assert calls[0] in calls;
      var answer := Serve(calls[0]);
      var rest := ServeAll(calls[1..]);
      answers := [answer] + rest;
    }

    // ----- Parsing -----

    /** A node's type, properties and children, up to and including its closing mark: the inner loop
        of the parser. */
    method ReadNode(node: NodeStruct) returns (ok: bool, ghost kids: set<NodeStruct>)
      requires Positioned() && node.start == Pos() - 1 && node.child == null
      modifies this`filePos, this`cacheIndex, this`cacheOffset, cached, node`kind, node`propsSize, node`child
      ensures Valid() && fresh(kids)
      ensures ok <==> old(Pos()) < |file| && ParseBody(file, old(Pos()) + 1).Some?
      ensures ok ==> Positioned() && Pos() == ParseBody(file, old(Pos()) + 1).value.stop + 1 &&
                     Holds(node, NodeAt(file, old(Pos())), kids)
      decreases |file| - Pos(), 0
    {
      hide Pos, BlockMatches, Chain, Holds, NodeAt, ParseBody, PropsEnd;
      kids := {};
      ghost var s, p := file, Pos();
      var byte: Byte;
      ok, byte := ReadByte();
      if !ok {
        return;
      }
      node.kind := byte;
      var setPropsSize := false;
      while true
        invariant file == s && Positioned() && p < Pos() && fresh(kids) && node.kind == s[p] && node.start == p - 1
        invariant !setPropsSize ==> node.child == null && PropsEnd(s, p + 1) == PropsEnd(s, Pos())
        invariant setPropsSize ==> ChildRead(node, p, kids)
        decreases |s| - Pos()
      {
        ScanStep(s, p + 1, Pos());
        ok, byte := ReadByte();
        if !ok {
          return;
        }
        if byte == NODE_START {
          ok, kids := ReadChildren(node, p);
          if !ok {
            return;
          }
          setPropsSize := true;
        } else if byte == NODE_END {
          if !setPropsSize {
            var told, pos := SafeTell();
            node.propsSize := pos - node.start - 2;
            LeafHolds(node, s, p, pos, kids);
          }
          return;
        } else if byte == ESCAPE_CHAR {
          ok, byte := ReadByte();
          if !ok {
            return;
          }
        }
      }
    }

    /** After the children of the node whose type byte is at p were read: the block and the children
        are in place, and the node's closing mark (or the end of the file) comes next. */
    ghost predicate ChildRead(node: NodeStruct, p: nat, kids: set<NodeStruct>)
      requires Valid()
      reads this, cached, node, kids
    {
      var r := ParseBody(file, p + 1);
      if r.None? then Pos() == |file| else Pos() == r.value.stop && Holds(node, NodeAt(file, p), kids)
    }

    /** The first NODE_START inside a node: its block ends here and its children follow. */
    method ReadChildren(node: NodeStruct, ghost p: nat) returns (ok: bool, ghost kids: set<NodeStruct>)
      requires Positioned() && 1 <= p && p + 1 < Pos() && node.start == p - 1 && node.kind == file[p]
      requires PropsEnd(file, p + 1) == Some(Pos() - 1) && file[Pos() - 1] == NODE_START
      modifies this`filePos, this`cacheIndex, this`cacheOffset, cached, node`propsSize, node`child
      ensures Valid() && fresh(kids)
      ensures !ok ==> ParseBody(file, p + 1).None?
      ensures ok ==> Positioned() && Pos() > old(Pos()) && ChildRead(node, p, kids)
      decreases |file| - Pos(), 2
    {
      hide BlockMatches, Chain, Holds, NodeAt, Encode, PropsEnd, ParseBody, ParseSiblings;
      kids := {};
      ghost var s := file;
      var told, pos := SafeTell();
      var childNode := new NodeStruct();
      childNode.start := pos;
      node.propsSize := pos - node.start - 2;
      node.child := childNode;
      BodyWithChildren(s, p, pos);
      ok, kids := ParseNode(childNode);
      if ok {
        ParentHolds(node, s, p, pos, kids);
      }
    }

    /** Parses the node just entered and its later siblings. */
    method ParseNode(node: NodeStruct) returns (ok: bool, ghost nodes: set<NodeStruct>)
      requires Positioned() && node.start == Pos() - 1 && node.child == null && node.next == null
      modifies this`filePos, this`cacheIndex, this`cacheOffset, cached, node
      ensures Valid() && fresh(nodes - {node})
      ensures ok <==> ParseSiblings(file, old(Pos())).Some?
      ensures ok ==> var r := ParseSiblings(file, old(Pos())).value;
                     Positioned() && Pos() == r.1 && Chain(node, r.0, old(Pos()) - 1, null, nodes)
      decreases |file| - Pos(), 1
    {
      hide Valid, Pos, BlockMatches, Chain, Holds, NodeAt, Encode, ParseBody, PropsEnd, ParseSiblings, FinishNode,
        Append, Extend;
      ghost var s, p0 := file, Pos();
      ghost var done := End;
      var currentNode := node;
      nodes := {};
      NoSiblingsYet(s, p0, node);
      while true
        invariant file == s && Positioned() && p0 <= Pos()
        invariant currentNode.start == Pos() - 1 && currentNode.child == null && currentNode.next == null
        invariant currentNode !in nodes && fresh(nodes - {node}) && fresh({currentNode} - {node})
        invariant Chain(node, done, p0 - 1, currentNode, nodes)
        invariant Pos() == p0 + |Encode(done)|
        invariant ParseSiblings(s, p0) == Extend(done, ParseSiblings(s, Pos()))
        decreases |file| - Pos()
      {
        ghost var p := Pos();
        ghost var kids;
        SiblingStep(s, p0, done, p);
        ok, kids := ReadNode(currentNode);
        if !ok {
          return;
        }
        ghost var f := NodeAt(s, p);
        var mark := ReadMark();
        match mark
        case Malformed =>
          return false, nodes;
        case NoMore =>
          Attach(node, done, p0 - 1, currentNode, f, kids, nodes);
          nodes := nodes + kids + {currentNode};
          return;
        case SiblingAt(pos) =>
          var nextNode := new NodeStruct();
          nextNode.start := pos;
          currentNode.next := nextNode;
          Attach(node, done, p0 - 1, currentNode, f, kids, nodes);
          nodes := nodes + kids + {currentNode};
          currentNode := nextNode;
          done := Append(done, f);
      }
    }

    /** What follows a node's closing mark: the end of the file, the parent's closing mark (left
        unread), or the start of the next sibling. */
    method ReadMark() returns (mark: Mark)
      requires Positioned()
      modifies this`filePos, this`cacheIndex, this`cacheOffset, cached
      ensures Valid()
      ensures var q := old(Pos());
              if q == |file| || file[q] == NODE_END then mark == NoMore && Positioned() && Pos() == q
              else if file[q] == NODE_START then mark == SiblingAt(q) && Positioned() && Pos() == q + 1
              else mark == Malformed
    {
      hide BlockMatches;
      var more, byte := ReadByte();
      if !more {
        return NoMore;
      }
      var told, pos := SafeTell();
      if byte == NODE_START {
        return SiblingAt(pos);
      }
      if byte == NODE_END {
        var sought := SafeSeek(pos);
        return NoMore;
      }
      return Malformed;
    }

    // ----- Opening -----

    /** openFile for reading: the first four bytes must be the caller's identifier or all zero. */
    method OpenForReading(identifier: seq<Byte>, caching: bool) returns (ok: bool, ghost nodes: set<NodeStruct>)
      requires Valid() && !useCache && cacheIndex == NO_VALID_CACHE
      requires forall i | 0 <= i < CACHE_BLOCKS :: !cached[i].loaded
      modifies this`filePos, this`useCache, this`cacheSize, this`cacheIndex, this`cacheOffset, this`root, cached
      ensures Valid() && fresh(nodes)
      ensures ok <==>
                (|file| >= 4 && (file[..4] == identifier || file[..4] == [0, 0, 0, 0])) &&
                |file| > 4 && file[4] == NODE_START && ParseSiblings(file, 5).Some?
      ensures ok ==> useCache == caching && (caching ==> cacheSize == CacheSize(|file|))
      ensures ok ==> root != null && Chain(root, ParseSiblings(file, 5).value.0, 4, null, nodes)
    {
      hide BlockMatches, Chain, ParseSiblings, AndNot32, CacheSize;
      ok, nodes := false, {};
      if |file| < 4 {
        return;
      }
      var found := file[..4];
      if found != identifier && found != [0, 0, 0, 0] {
        return;
      }
      filePos := 4;
      if caching {
        useCache := true;
        var wanted := |file| / 20;
        CacheSizes(|file|, wanted);
        CacheSizeBounds(|file|);
        cacheSize := AndNot32(if wanted < 8192 then 8192 else if wanted > 32768 then 32768 else wanted, 0x1FFF);
      }
      ok := SafeSeek(4);
      var node := new NodeStruct();
      node.start := 4;
      root := node;
      ok := SafeSeek(4);
      var byte: Byte;
      ok, byte := ReadByte();
      if !ok || byte != NODE_START {
        return false, nodes;
      }
      ok, nodes := ParseNode(node);
    }

    method OpenForWriting()
      modifies this`file
      ensures file == [0, 0, 0, 0]
    {
      file := [];
      WriteData([0, 0, 0, 0], false);
    }

    // ----- Properties -----

    /** Doubles the buffer until it is longer than the block, then reads and unescapes the block there. */
    method GetProps(node: NodeStruct?) returns (ok: bool, size: nat, ghost after: Byte)
      requires Valid() && buffer.Length > 0
      requires node != null ==> node.start + 2 <= MAX_FILE && (useCache ==> node.start + 2 + node.propsSize <= |file|)
      modifies this`filePos, this`cacheIndex, this`cacheOffset, this`buffer, cached, buffer
      ensures Valid() && buffer.Length > 0 && (buffer == old(buffer) || fresh(buffer))
      ensures buffer.Length == if node == null then old(buffer.Length) else Grown(old(buffer.Length), node.propsSize)
      ensures buffer.Length == old(buffer.Length) ==> buffer == old(buffer)
      ensures ok <==> node != null && (node.propsSize == 0 || node.start + 2 + node.propsSize <= |file|)
      ensures ok && node.start + 2 + node.propsSize <= |file| ==>
                     size <= buffer.Length &&
                     buffer[..size] == Unescape(file[node.start + 2..node.start + 2 + node.propsSize], after)
    {
      hide BlockMatches, Unescape;
      ok, size, after := false, 0, 0;
      if node == null {
        return;
      }
      var length := buffer.Length;
      while node.propsSize >= length
        invariant length > 0 && Grown(length, node.propsSize) == Grown(buffer.Length, node.propsSize)
        decreases node.propsSize - length
      {
        length := 2 * length;
      }
      if length != buffer.Length {
        buffer := new Byte[length];
      }
      var r := ReadBytes(buffer, node.propsSize, node.start + 2);
      ok := r == Done;
      if !ok {
        return;
      }
      assert node.start + 2 + node.propsSize <= |file| ==>
          buffer[..node.propsSize] == file[node.start + 2..node.start + 2 + node.propsSize];
      after := buffer[node.propsSize];
      size := UnescapeInPlace(buffer, node.propsSize);
    }

    // ----- Writing -----

    /** Appends the bytes, each mark behind an escape when asked to. */
    method WriteData(data: seq<Byte>, unescape: bool)
      modifies this`file
      ensures file == old(file) + if unescape then Escape(data) else data
    {
      hide Escape;
      EscapeNone();
      for i := 0 to |data|
        invariant file == old(file) + if unescape then Escape(data[..i]) else data[..i]
      {
        var c := data[i];
        assert data[..i + 1] == data[..i] + [c];
        EscapeAppend(data[..i], [c]);
        EscapeOne(c);
        if unescape && (c == NODE_START || c == NODE_END || c == ESCAPE_CHAR) {
          file := file + [ESCAPE_CHAR];
        }
        file := file + [c];
      }
      assert data[..|data|] == data;
    }

    method StartNode(kind: Byte)
      modifies this`file
      ensures file == old(file) + [NODE_START] + Escape([kind])
    {
      WriteData([NODE_START], false);
      WriteData([kind], true);
    }

    method SetProps(data: seq<Byte>)
      requires |data| <= 0xFFFF
      modifies this`file
      ensures file == old(file) + Escape(data)
    {
      WriteData(data, true);
    }

    method EndNode()
      modifies this`file
      ensures file == old(file) + [NODE_END]
    {
      WriteData([NODE_END], false);
    }
  }

  /** Two readers of one file, one caching and one not, standing at the same place, give the same answers to
      the same calls and stand at the same place afterwards. */
  method CachedAgrees(cached: FileLoader, direct: FileLoader, calls: seq<Call>)
    returns (answers: seq<Answer>, others: seq<Answer>)
    requires cached != direct && cached.cached != direct.cached && cached.useCache && !direct.useCache
    requires cached.Positioned() && direct.Positioned() && cached.file == direct.file && cached.Pos() == direct.Pos()
    requires forall call | call in calls :: Within(cached.file, call)
    modifies cached, cached.cached, direct, direct.cached
    ensures answers == others && |answers| == |calls|
    ensures cached.Positioned() && direct.Positioned() && cached.Pos() == direct.Pos()
  {
    hide BlockMatches, Within, Plain, PlainRun;
    answers := cached.ServeAll(calls);
    others := direct.ServeAll(calls);
    AnswerEach(cached.file, old(cached.Pos()), calls);
  }

  lemma {:induction false} AnswerEach(file: seq<Byte>, pos: nat, calls: seq<Call>)
    requires pos <= |file| && forall call | call in calls :: Within(file, call)
    ensures |PlainRun(file, pos, calls).0| == |calls|
    decreases |calls|
  {
    if calls != [] {
      AnswerEach(file, Plain(file, pos, calls[0]).1, calls[1..]);
    }
  }

  lemma EscapeNone()
    ensures Escape([]) == []
  {
  }

  lemma {:induction false} EscapeAppend(a: seq<Byte>, b: seq<Byte>)
    ensures Escape(a + b) == Escape(a) + Escape(b)
  {
    hide Escape, EscapeByte;
    if a == [] {
      assert a + b == b && Escape([]) == [] by { EscapeNone(); }
    } else {
      EscapeAppend(a[1..], b);
      assert (a + b)[1..] == a[1..] + b;
      EscapeStep(a);
      EscapeStep(a + b);
    }
  }

  /** Removes the escapes from the first n bytes in place and returns how many remain. The byte at
      index n is read when the block ends in a lone escape, and never written. */
  method UnescapeInPlace(a: array<Byte>, n: nat) returns (size: nat)
    requires n < a.Length
    modifies a
    ensures size <= n && a[..size] == Unescape(old(a[..n]), old(a[n]))
    ensures a[n] == old(a[n])
  {
    hide Unescaping, Unescape;
    ghost var raw, after, out := a[..n], a[n], [];
    var i, j, escaped := 0, 0, false;
    UnescapeStart(raw, after);
    while i < n
      invariant j <= i <= n + 1 && j <= n
      invariant forall k | i <= k < n :: a[k] == raw[k]
      invariant a[n] == after
      invariant !escaped ==> i == j
      invariant a[..j] == out
      invariant Unescape(raw, after) == out + Unescaping(raw, i, after)
    {
      UnescapeStep(raw, i, after);
      if a[i] == ESCAPE_CHAR {
        i := i + 1;
        a[j] := a[i];
        escaped := true;
      } else if escaped {
        a[j] := a[i];
      }
      i, j := i + 1, j + 1;
      assert out + ([a[j - 1]] + Unescaping(raw, i, after)) == (out + [a[j - 1]]) + Unescaping(raw, i, after);
      out := out + [a[j - 1]];
    }
    UnescapeStep(raw, i, after);
    size := j;
  }

  /** What remains to be written once the first i bytes of the block are consumed. */
  ghost function Unescaping(raw: seq<Byte>, i: nat, after: Byte): seq<Byte> {
    if i <= |raw| then Unescape(raw[i..], after) else []
  }

  lemma UnescapeStart(raw: seq<Byte>, after: Byte)
    ensures Unescape(raw, after) == [] + Unescaping(raw, 0, after)
  {
    assert raw[0..] == raw;
  }

  lemma UnescapeStep(raw: seq<Byte>, i: nat, after: Byte)
    ensures Unescaping(raw, i, after) ==
            if i >= |raw| then []
            else if raw[i] != ESCAPE_CHAR then [raw[i]] + Unescaping(raw, i + 1, after)
            else [if i + 1 == |raw| then after else raw[i + 1]] + Unescaping(raw, i + 2, after)
  {
    if i < |raw| {
      assert raw[i..][1..] == raw[i + 1..];
      if i + 1 < |raw| {
        assert raw[i..][2..] == raw[i + 2..];
      }
    }
  }

  // ----- Saving and loading a whole tree -----

  /** Writes a forest with the writer's three calls; a long property block goes in pieces. */
  method SaveForest(loader: FileLoader, f: Forest)
    modifies loader`file
    ensures loader.file == old(loader.file) + Print(f)
    decreases f
  {
    hide Escape;
    match f
    case End =>
    case Node(kind, props, child, next) =>
      loader.StartNode(kind);
      SaveProps(loader, props);
      SaveForest(loader, child);
      loader.EndNode();
      SaveForest(loader, next);
  }

  method SaveProps(loader: FileLoader, props: seq<Byte>)
    modifies loader`file
    ensures loader.file == old(loader.file) + Escape(props)
  {
    hide Escape;
    var i := 0;
    EscapeNone();
    while i < |props|
      invariant i <= |props| && loader.file == old(loader.file) + Escape(props[..i])
    {
      var n := if |props| - i > 0xFFFF then 0xFFFF else |props| - i;
      EscapeAppend(props[..i], props[i..i + n]);
      assert props[..i] + props[i..i + n] == props[..i + n];
      loader.SetProps(props[i..i + n]);
      i := i + n;
    }
    assert props[..i] == props;
  }

  /** Walks the linked nodes by child and next and reads every property block. */
  method LoadForest(loader: FileLoader, n: NodeStruct?, ghost f: Forest, ghost p: nat, ghost nodes: set<NodeStruct>)
    returns (g: Forest)
    requires loader.Valid() && loader.buffer.Length > 0
    requires Chain(n, f, p, null, nodes) && WellFormed(f) && At(loader.file, p, Encode(f))
    modifies loader`filePos, loader`cacheIndex, loader`cacheOffset, loader`buffer, loader.cached, loader.buffer
    ensures loader.Valid() && loader.buffer.Length > 0
    ensures loader.buffer == old(loader.buffer) || fresh(loader.buffer)
    ensures g == Unescaped(f)
    decreases f
  {
    hide BlockMatches, At, Encode, Unescape, WellEscaped;
    if n == null {
      return End;
    }
    AtNode(loader.file, p, f);
    AtSlice(loader.file, p + 2, f.props);
    var ok, size, after := loader.GetProps(n);
    var props := loader.buffer[..size];
    UnescapeIgnoresAfter(f.props, after, 0);
    var kind := n.kind;
    var child := LoadForest(loader, n.child, f.child, p + 2 + |f.props|, nodes);
    var next := LoadForest(loader, n.next, f.next, p + 3 + |f.props| + |Encode(f.child)|, nodes);
    g := Node(kind, props, child, next);
  }

  /** The whole trip through a file, cached or not: a tree comes back unchanged exactly when each
      of its nodes survives the escaping. */
  method SaveAndLoad(f: Forest, caching: bool) returns (g: Option<Forest>)
    requires f.Node? && 4 + |Print(f)| <= MAX_FILE
    ensures g == Some(f) <==> Survives(f)
  {
    hide Print, Survives, Unescaped, ParseSiblings, BlockMatches, At, Encode, WellFormed, Chain;
    var writer := new FileLoader([]);
    writer.OpenForWriting();
    SaveForest(writer, f);
    var reader := new FileLoader(writer.file);
    var header := [0, 0, 0, 0];
    RoundTrip(header, f);
    var ok, nodes := reader.OpenForReading(header, caching);
    AtSuffix(header, Print(f));
    PrintStartsWithMark(reader.file, 4, f);
    if !ok {
      return None;
    }
    ParseSound(reader.file, 5);
    var tree := LoadForest(reader, reader.root, ParseSiblings(reader.file, 5).value.0, 4, nodes);
    g := Some(tree);
  }

  /** One step of the scan for the end of a property block. */
  lemma ScanStep(s: seq<Byte>, start: nat, q: nat)
    ensures q >= |s| ==> PropsEnd(s, q) == None
    ensures q < |s| && s[q] == ESCAPE_CHAR ==>
              PropsEnd(s, q) == if q + 1 == |s| then None else PropsEnd(s, q + 2)
    ensures q < |s| && !Special(s[q]) ==> PropsEnd(s, q) == PropsEnd(s, q + 1)
    ensures q < |s| && (s[q] == NODE_START || s[q] == NODE_END) ==> PropsEnd(s, q) == Some(q)
    ensures PropsEnd(s, start).None? ==> ParseBody(s, start).None?
  {
    hide ParseSiblings;
  }

  lemma BodyWithChildren(s: seq<Byte>, p: nat, e: nat)
    requires PropsEnd(s, p + 1) == Some(e) && s[e] == NODE_START
    ensures var r := ParseSiblings(s, e + 1);
            if r.None? || r.value.1 == |s| then ParseBody(s, p + 1).None?
            else ParseBody(s, p + 1) == Some(Body(s[p + 1..e], r.value.0, r.value.1))
  {
    hide ParseSiblings, PropsEnd;
  }

  /** A node whose block's extent is set and whose children were linked. */
  lemma ParentHolds(node: NodeStruct, s: seq<Byte>, p: nat, e: nat, kids: set<NodeStruct>)
    requires 1 <= p < |s| && node.start == p - 1 && node.kind == s[p]
    requires node.propsSize == e - p - 1 && PropsEnd(s, p + 1) == Some(e) && s[e] == NODE_START
    requires ParseSiblings(s, e + 1).Some? && Chain(node.child, ParseSiblings(s, e + 1).value.0, e, null, kids)
    ensures ParseSiblings(s, e + 1).value.1 < |s| ==> ParseBody(s, p + 1).Some? && Holds(node, NodeAt(s, p), kids)
  {
    hide ParseSiblings, PropsEnd, Chain;
  }

  /** A node without children, once its block's extent is set. */
  lemma LeafHolds(node: NodeStruct, s: seq<Byte>, p: nat, e: nat, kids: set<NodeStruct>)
    requires 1 <= p < |s| && node.start == p - 1 && node.kind == s[p] && node.child == null
    requires node.propsSize == e - p - 1 && PropsEnd(s, p + 1) == Some(e) && s[e] == NODE_END
    ensures ParseBody(s, p + 1).Some? && ParseBody(s, p + 1).value.stop == e && Holds(node, NodeAt(s, p), kids)
  {
    hide ParseSiblings, PropsEnd;
  }

  lemma NoSiblingsYet(s: seq<Byte>, p: nat, node: NodeStruct)
    requires p >= 1
    ensures Chain(node, End, p - 1, node, {})
    ensures ParseSiblings(s, p) == Extend(End, ParseSiblings(s, p)) && |Encode(End)| == 0
  {
  }

  /** One turn of the sibling loop, on the grammar: what the byte after the node at p decides. */
  lemma SiblingStep(s: seq<Byte>, p0: nat, done: Forest, p: nat)
    requires ParseSiblings(s, p0) == Extend(done, ParseSiblings(s, p)) && p == p0 + |Encode(done)|
    ensures p >= |s| || ParseBody(s, p + 1).None? ==> ParseSiblings(s, p0).None?
    ensures p < |s| && ParseBody(s, p + 1).Some? ==>
              var f := NodeAt(s, p);
              var q := ParseBody(s, p + 1).value.stop + 1;
              if q == |s| || s[q] == NODE_END then ParseSiblings(s, p0) == Some((Append(done, f), q))
              else if s[q] == NODE_START then
                ParseSiblings(s, p0) == Extend(Append(done, f), ParseSiblings(s, q + 1)) &&
                q + 1 == p0 + |Encode(Append(done, f))|
              else ParseSiblings(s, p0).None?
  {
    hide Encode, ParseBody, PropsEnd;
    if p < |s| && ParseBody(s, p + 1).Some? {
      var f := NodeAt(s, p);
      BodyLength(s, p + 1);
      EncodeAppend(done, f);
      EncodeLength(f);
      EncodeEnd();
      var r := ParseSiblings(s, ParseBody(s, p + 1).value.stop + 2);
      if r.Some? {
        AppendAssociative(done, f, r.value.0);
      }
    }
  }

  /** The node just read, linked behind the siblings already there. */
  lemma Attach(first: NodeStruct, done: Forest, p: nat, current: NodeStruct, f: Forest, kids: set<NodeStruct>,
               nodes: set<NodeStruct>)
    requires Chain(first, done, p, current, nodes)
    requires f.Node? && f.next == End && current.start == p + |Encode(done)|
    requires Holds(current, f, kids)
    ensures Chain(first, Append(done, f), p, current.next, nodes + kids + {current})
  {
    hide Encode;
    var all := nodes + kids + {current};
    ChainGrows(first, done, p, current, nodes, all);
    ChainGrows(current.child, f.child, current.start + 2 + |f.props|, null, kids, all);
    ChainAppend(first, done, p, current, f, current.next, all);
  }

  /** An accepted body occupies the bytes its encoding says. */
  lemma BodyLength(s: seq<Byte>, p: nat)
    requires ParseBody(s, p).Some?
    ensures var b := ParseBody(s, p).value; b.stop == p + |b.props| + |Encode(b.child)|
  {
    hide ParseBody, At, Encode;
    BodySound(s, p);
  }
}
