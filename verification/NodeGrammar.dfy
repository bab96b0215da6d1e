/** The byte grammar of a node file: what the writer emits, what the parser accepts,
    and the proof that the two meet. Everything here is a value; FileLoader.dfy does the
    same work on a file and on linked nodes. */
module NodeGrammar {
  import opened Wrappers
  import opened Bits

  const ESCAPE_CHAR: Byte := 0xFD
  const NODE_START: Byte := 0xFE
  const NODE_END: Byte := 0xFF

  /** A node, its first child and its next sibling, as NodeStruct links them. */
  datatype Forest =
    | End
    | Node(kind: Byte, props: seq<Byte>, child: Forest, next: Forest)

  ghost predicate Special(c: Byte) {
    c == NODE_START || c == NODE_END || c == ESCAPE_CHAR
  }

  // ----- The writer's output -----

  ghost function EscapeByte(c: Byte): seq<Byte> {
    if Special(c) then [ESCAPE_CHAR, c] else [c]
  }

  ghost function Escape(data: seq<Byte>): seq<Byte> {
    if data == [] then [] else EscapeByte(data[0]) + Escape(data[1..])
  }

  /** startNode(kind), setProps(props), the children, endNode, then the next sibling. */
  ghost function Print(f: Forest): seq<Byte> {
    match f
    case End => []
    case Node(kind, props, child, next) =>
      [NODE_START] + Escape([kind]) + Escape(props) + Print(child) + [NODE_END] + Print(next)
  }

  /** The first byte other than the escape byte exists and is no mark. */
  ghost predicate StartsPlain(props: seq<Byte>) {
    props != [] && if props[0] == ESCAPE_CHAR then StartsPlain(props[1..]) else !Special(props[0])
  }

  /** The nodes the format can carry. A type byte of 0xFD is written escaped and read unescaped, so
      its second half joins the property block; a plain first property byte absorbs it. */
  ghost predicate Survives(f: Forest) {
    match f
    case End => true
    case Node(kind, props, child, next) =>
      (kind < ESCAPE_CHAR || (kind == ESCAPE_CHAR && StartsPlain(props))) && Survives(child) && Survives(next)
  }

  /** The block a node's properties occupy in the file, from just after its type byte. */
  ghost function RawProps(kind: Byte, props: seq<Byte>): seq<Byte> {
    (if kind == ESCAPE_CHAR then [ESCAPE_CHAR] else []) + Escape(props)
  }

  /** The same structure with each property block as it lies in the file. */
  ghost function OnDisk(f: Forest): Forest {
    match f
    case End => End
    case Node(kind, props, child, next) => Node(kind, RawProps(kind, props), OnDisk(child), OnDisk(next))
  }

  // ----- The parser, on positions of a byte string -----

  /** Position of the first unescaped NODE_START or NODE_END at or after p. */
  ghost function PropsEnd(s: seq<Byte>, p: nat): (e: Option<nat>)
    ensures e.Some? ==> p <= e.value < |s| && (s[e.value] == NODE_START || s[e.value] == NODE_END)
    decreases |s| - p
  {
    if p >= |s| then None
    else if s[p] == ESCAPE_CHAR then if p + 1 >= |s| then None else PropsEnd(s, p + 2)
    else if s[p] == NODE_START || s[p] == NODE_END then Some(p)
    else PropsEnd(s, p + 1)
  }

  /** What lies between a node's type byte and its closing mark, which stands at `stop`. */
  datatype Body = Body(props: seq<Byte>, child: Forest, stop: nat)

  /** Properties from position p on, then at most one chain of children. */
  ghost function ParseBody(s: seq<Byte>, p: nat): (r: Option<Body>)
    ensures r.Some? ==> p <= r.value.stop < |s| && s[r.value.stop] == NODE_END
    decreases |s| - p, 0
  {
    var e := PropsEnd(s, p);
    if e.None? then None
    else if s[e.value] == NODE_END then Some(Body(s[p..e.value], End, e.value))
    else
      var kids := ParseSiblings(s, e.value + 1);
      if kids.None? || kids.value.1 == |s| then None
      else Some(Body(s[p..e.value], kids.value.0, kids.value.1))
  }

  /** One node and all its later siblings, p being the position of the node's type byte.
      Returns the forest and the position of the closing mark of the parent (or the end of the file). */
  ghost function ParseSiblings(s: seq<Byte>, p: nat): (r: Option<(Forest, nat)>)
    ensures r.Some? ==> p < r.value.1 <= |s| && r.value.0.Node?
    ensures r.Some? && r.value.1 < |s| ==> s[r.value.1] == NODE_END
    decreases |s| - p, 1
  {
    if p >= |s| then None
    else
      var b := ParseBody(s, p + 1);
      if b.None? then None else FinishNode(s, s[p], b.value)
  }

  /** What follows the closing mark of a node: the file's end, a sibling, or the parent's mark. */
  ghost function FinishNode(s: seq<Byte>, kind: Byte, b: Body): (r: Option<(Forest, nat)>)
    requires b.stop < |s|
    ensures r.Some? ==> b.stop < r.value.1 <= |s| && r.value.0.Node?
    ensures r.Some? && r.value.1 < |s| ==> s[r.value.1] == NODE_END
    decreases |s| - b.stop, 0
  {
    var q := b.stop + 1;
    if q == |s| || s[q] == NODE_END then Some((Node(kind, b.props, b.child, End), q))
    else if s[q] == NODE_START then
      var rest := ParseSiblings(s, q + 1);
      if rest.None? then None else Some((Node(kind, b.props, b.child, rest.value.0), rest.value.1))
    else None
  }

  // ----- The grammar the parser accepts -----

  /** A property block: plain bytes and escaped pairs, no dangling escape. */
  ghost predicate WellEscaped(raw: seq<Byte>) {
    raw == [] ||
    if raw[0] == ESCAPE_CHAR then |raw| >= 2 && WellEscaped(raw[2..])
    else !Special(raw[0]) && WellEscaped(raw[1..])
  }

  ghost predicate WellFormed(f: Forest) {
    match f
    case End => true
    case Node(_, raw, child, next) => WellEscaped(raw) && WellFormed(child) && WellFormed(next)
  }

  /** The bytes of a forest whose property blocks are already escaped. */
  ghost function Encode(f: Forest): seq<Byte> {
    match f
    case End => []
    case Node(kind, raw, child, next) =>
      [NODE_START, kind] + raw + Encode(child) + [NODE_END] + Encode(next)
  }

  ghost predicate At(s: seq<Byte>, p: nat, bytes: seq<Byte>) {
    p + |bytes| <= |s| && s[p..p + |bytes|] == bytes
  }

  lemma AtConcat(s: seq<Byte>, p: nat, a: seq<Byte>, b: seq<Byte>)
    ensures At(s, p, a + b) <==> At(s, p, a) && At(s, p + |a|, b)
  {
    if p + |a| + |b| <= |s| {
      assert s[p..p + |a| + |b|] == s[p..p + |a|] + s[p + |a|..p + |a| + |b|];
      if s[p..p + |a| + |b|] == a + b {
        assert s[p..p + |a|] == (a + b)[..|a|] == a;
        assert s[p + |a|..p + |a| + |b|] == (a + b)[|a|..] == b;
      }
    }
  }

  lemma AtSuffix(header: seq<Byte>, bytes: seq<Byte>)
    ensures At(header + bytes, |header|, bytes)
  {
    assert (header + bytes)[|header|..] == bytes;
  }

  lemma AtByte(s: seq<Byte>, p: nat, c: Byte)
    ensures At(s, p, [c]) <==> p < |s| && s[p] == c
  {
    if p < |s| {
      assert s[p..p + 1] == [s[p]];
    }
  }

  /** The five pieces of an encoded node, each at its own position. */
  lemma AtNode(s: seq<Byte>, p: nat, f: Forest)
    requires f.Node?
    ensures At(s, p, Encode(f)) <==>
            var e := p + 2 + |f.props|;
            var q := e + |Encode(f.child)|;
            p + 1 < |s| && s[p] == NODE_START && s[p + 1] == f.kind && At(s, p + 2, f.props) &&
            At(s, e, Encode(f.child)) && q < |s| && s[q] == NODE_END && At(s, q + 1, Encode(f.next))
    ensures |Encode(f)| == 3 + |f.props| + |Encode(f.child)| + |Encode(f.next)|
  {
    hide At, Encode;
    EncodePieces(f);
    var tail := [NODE_END] + Encode(f.next);
    var e := p + 2 + |f.props|;
    AtConcat(s, p, [NODE_START], [f.kind]);
    AtByte(s, p, NODE_START);
    AtByte(s, p + 1, f.kind);
    AtConcat(s, p, [NODE_START] + [f.kind], f.props + (Encode(f.child) + tail));
    AtConcat(s, p + 2, f.props, Encode(f.child) + tail);
    AtConcat(s, e, Encode(f.child), tail);
    AtConcat(s, e + |Encode(f.child)|, [NODE_END], Encode(f.next));
    AtByte(s, e + |Encode(f.child)|, NODE_END);
  }

  lemma EncodePieces(f: Forest)
    requires f.Node?
    ensures Encode(f) ==
            [NODE_START] + [f.kind] + (f.props + (Encode(f.child) + ([NODE_END] + Encode(f.next))))
  {
    assert [NODE_START] + [f.kind] == [NODE_START, f.kind];
  }

  /** Scanning a block stops exactly at its end when a mark follows it. */
  lemma {:induction false} PropsEndComplete(s: seq<Byte>, p: nat, raw: seq<Byte>)
    requires WellEscaped(raw) && At(s, p, raw)
    requires p + |raw| < |s| && (s[p + |raw|] == NODE_START || s[p + |raw|] == NODE_END)
    ensures PropsEnd(s, p) == Some(p + |raw|)
    decreases raw
  {
    if raw != [] {
      assert s[p] == s[p..p + |raw|][0] == raw[0];
      var n := if raw[0] == ESCAPE_CHAR then 2 else 1;
      assert s[p + n..p + |raw|] == s[p..p + |raw|][n..] == raw[n..];
      PropsEndComplete(s, p + n, raw[n..]);
    }
  }

  lemma {:induction false} PropsEndSound(s: seq<Byte>, p: nat)
    requires PropsEnd(s, p).Some?
    ensures WellEscaped(s[p..PropsEnd(s, p).value])
    decreases |s| - p
  {
    var e := PropsEnd(s, p).value;
    if s[p] == ESCAPE_CHAR || !Special(s[p]) {
      var n := if s[p] == ESCAPE_CHAR then 2 else 1;
      PropsEndSound(s, p + n);
      assert s[p..e][n..] == s[p + n..e];
    }
  }

  ghost predicate Closed(s: seq<Byte>, q: nat) {
    q == |s| || (q < |s| && s[q] == NODE_END)
  }

  lemma StartsWithMark(s: seq<Byte>, p: nat, f: Forest)
    requires At(s, p, Encode(f))
    ensures f.Node? ==> p < |s| && s[p] == NODE_START
    ensures f.End? ==> |Encode(f)| == 0
  {
    hide At;
    if f.Node? {
      AtNode(s, p, f);
    }
  }

  /** Completeness: every encoded forest followed by the parent's mark or the end of the file
      is parsed back, in full. */
  lemma {:induction false} ParseComplete(s: seq<Byte>, p: nat, f: Forest)
    requires p >= 1 && f.Node? && WellFormed(f) && At(s, p - 1, Encode(f))
    requires Closed(s, p - 1 + |Encode(f)|)
    ensures ParseSiblings(s, p) == Some((f, p - 1 + |Encode(f)|))
    decreases f, 1
  {
    hide At, Encode, ParseBody, PropsEnd, WellEscaped;
    AtNode(s, p - 1, f);
    var q := p + 1 + |f.props| + |Encode(f.child)|;
    BodyComplete(s, p + 1, f.props, f.child);
    StartsWithMark(s, q + 1, f.next);
    if f.next.Node? {
      ParseComplete(s, q + 2, f.next);
    }
  }

  lemma {:induction false} BodyComplete(s: seq<Byte>, p: nat, raw: seq<Byte>, child: Forest)
    requires WellEscaped(raw) && At(s, p, raw)
    requires WellFormed(child) && At(s, p + |raw|, Encode(child))
    requires p + |raw| + |Encode(child)| < |s| && s[p + |raw| + |Encode(child)|] == NODE_END
    ensures ParseBody(s, p) == Some(Body(raw, child, p + |raw| + |Encode(child)|))
    decreases child, 2
  {
    hide At, Encode, WellEscaped, PropsEnd, ParseSiblings;
    StartsWithMark(s, p + |raw|, child);
    PropsEndComplete(s, p, raw);
    AtSlice(s, p, raw);
    if child.Node? {
      ParseComplete(s, p + |raw| + 1, child);
    }
  }

  lemma AtSlice(s: seq<Byte>, p: nat, raw: seq<Byte>)
    requires At(s, p, raw)
    ensures p + |raw| <= |s| && s[p..p + |raw|] == raw
  {
  }

  /** Soundness: whatever the parser accepts is an encoded forest ending where it says. */
  lemma {:induction false} ParseSound(s: seq<Byte>, p: nat)
    requires p >= 1 && p - 1 < |s| && s[p - 1] == NODE_START && ParseSiblings(s, p).Some?
    ensures var r := ParseSiblings(s, p).value;
            WellFormed(r.0) && At(s, p - 1, Encode(r.0)) && r.1 == p - 1 + |Encode(r.0)|
    decreases |s| - p, 1
  {
    hide At, ParseBody, Encode;
    var f := ParseSiblings(s, p).value.0;
    BodySound(s, p + 1);
    SiblingsSound(s, s[p], ParseBody(s, p + 1).value);
    AtNode(s, p - 1, f);
  }

  lemma {:induction false} SiblingsSound(s: seq<Byte>, kind: Byte, b: Body)
    requires b.stop < |s| && FinishNode(s, kind, b).Some?
    ensures var r := FinishNode(s, kind, b).value;
            WellFormed(r.0.next) && At(s, b.stop + 1, Encode(r.0.next)) && r.1 == b.stop + 1 + |Encode(r.0.next)|
    decreases |s| - b.stop, 0
  {
    hide PropsEnd, ParseBody;
    var q := b.stop + 1;
    if q < |s| && s[q] == NODE_START {
      ParseSound(s, q + 1);
    }
  }

  lemma {:induction false} BodySound(s: seq<Byte>, p: nat)
    requires ParseBody(s, p).Some?
    ensures var b := ParseBody(s, p).value;
            WellEscaped(b.props) && At(s, p, b.props) && WellFormed(b.child) &&
            At(s, p + |b.props|, Encode(b.child)) && b.stop == p + |b.props| + |Encode(b.child)|
    decreases |s| - p, 0
  {
    hide PropsEnd, WellEscaped, ParseSiblings;
    PropsEndSound(s, p);
    var e := PropsEnd(s, p).value;
    if s[e] == NODE_START {
      ParseSound(s, e + 1);
    }
  }

  /** The language of the parser, both ways: it succeeds exactly on the encodings of well-formed
      forests that a closing mark or the end of the file follows, and returns that forest. */
  lemma ParserAcceptsExactlyTheGrammar(s: seq<Byte>, p: nat, f: Forest, q: nat)
    requires 1 <= p <= |s| && s[p - 1] == NODE_START
    ensures ParseSiblings(s, p) == Some((f, q)) <==>
            f.Node? && WellFormed(f) && At(s, p - 1, Encode(f)) && q == p - 1 + |Encode(f)| && Closed(s, q)
  {
    hide At, Encode, ParseSiblings, WellFormed;
    if f.Node? && WellFormed(f) && At(s, p - 1, Encode(f)) && q == p - 1 + |Encode(f)| && Closed(s, q) {
      ParseComplete(s, p, f);
    }
    if ParseSiblings(s, p) == Some((f, q)) {
      ParseSound(s, p);
    }
  }

  // ----- Printing and parsing are inverse -----

  lemma {:induction false} EscapeWellEscaped(data: seq<Byte>)
    ensures WellEscaped(Escape(data))
  {
    hide Escape, WellEscaped, Unescape;
    NothingEscaped(0);
    if data != [] {
      EscapeWellEscaped(data[1..]);
      EscapeStep(data);
      ReadEscaped(data[0], Escape(data[1..]), 0);
    }
  }

  lemma NothingEscaped(after: Byte)
    ensures Escape([]) == [] && WellEscaped([]) && Unescape([], after) == []
  {
  }

  lemma EscapeStep(data: seq<Byte>)
    requires data != []
    ensures Escape(data) == EscapeByte(data[0]) + Escape(data[1..])
  {
  }

  /** A byte behind the escape byte is read as it is. */
  lemma ReadPair(c: Byte, rest: seq<Byte>, after: Byte)
    ensures WellEscaped([ESCAPE_CHAR, c] + rest) == WellEscaped(rest)
    ensures Unescape([ESCAPE_CHAR, c] + rest, after) == [c] + Unescape(rest, after)
  {
    assert ([ESCAPE_CHAR, c] + rest)[2..] == rest;
  }

  /** An escaped byte is read as it was. */
  lemma ReadEscaped(c: Byte, rest: seq<Byte>, after: Byte)
    ensures WellEscaped(EscapeByte(c) + rest) == WellEscaped(rest)
    ensures Unescape(EscapeByte(c) + rest, after) == [c] + Unescape(rest, after)
  {
    if Special(c) {
      ReadPair(c, rest, after);
    } else {
      assert ([c] + rest)[1..] == rest;
    }
  }

  lemma {:induction false} ShiftedWellEscaped(data: seq<Byte>, after: Byte)
    requires StartsPlain(data)
    ensures WellEscaped([ESCAPE_CHAR] + Escape(data)) && Unescape([ESCAPE_CHAR] + Escape(data), after) == data
  {
    hide Escape, WellEscaped, Unescape;
    var c, rest := data[0], Escape(data[1..]);
    var raw := [ESCAPE_CHAR] + Escape(data);
    EscapeStep(data);
    if c == ESCAPE_CHAR {
      ShiftedWellEscaped(data[1..], after);
      assert raw == [ESCAPE_CHAR, c] + ([ESCAPE_CHAR] + rest);
      ReadPair(c, [ESCAPE_CHAR] + rest, after);
    } else {
      EscapeWellEscaped(data[1..]);
      UnescapeEscape(data[1..], after);
      assert raw == [ESCAPE_CHAR, c] + rest;
      ReadPair(c, rest, after);
    }
  }

  lemma RawPropsWellEscaped(kind: Byte, props: seq<Byte>, after: Byte)
    requires kind < ESCAPE_CHAR || (kind == ESCAPE_CHAR && StartsPlain(props))
    ensures WellEscaped(RawProps(kind, props)) && Unescape(RawProps(kind, props), after) == props
  {
    if kind == ESCAPE_CHAR {
      ShiftedWellEscaped(props, after);
    } else {
      EscapeWellEscaped(props);
      UnescapeEscape(props, after);
      assert RawProps(kind, props) == Escape(props);
    }
  }

  lemma PrintedNode(kind: Byte, props: seq<Byte>)
    requires kind <= ESCAPE_CHAR
    ensures [NODE_START] + Escape([kind]) + Escape(props) == [NODE_START, kind] + RawProps(kind, props)
  {
    EscapeOne(kind);
    hide Escape;
    if kind == ESCAPE_CHAR {
      assert [NODE_START] + EscapeByte(kind) == [NODE_START, kind] + [ESCAPE_CHAR];
    } else {
      assert [NODE_START] + EscapeByte(kind) == [NODE_START, kind];
    }
  }

  lemma EscapeOne(c: Byte)
    ensures Escape([c]) == EscapeByte(c)
  {
    assert [c][1..] == [];
  }

  lemma {:induction false} PrintIsEncode(f: Forest)
    requires Survives(f)
    ensures WellFormed(OnDisk(f)) && Print(f) == Encode(OnDisk(f)) && Unescaped(OnDisk(f)) == f
  {
    match f
    case End =>
    case Node(kind, props, child, next) =>
      RawPropsWellEscaped(kind, props, 0);
      PrintedNode(kind, props);
      PrintIsEncode(child);
      PrintIsEncode(next);
  }

  // ----- Undoing the escapes -----

  /** getProps' loop as a function: `after` is the byte just past the block, which a dangling
      escape at the very end reads. */
  ghost function Unescape(raw: seq<Byte>, after: Byte): seq<Byte> {
    if raw == [] then []
    else if raw[0] != ESCAPE_CHAR then [raw[0]] + Unescape(raw[1..], after)
    else if |raw| == 1 then [after]
    else [raw[1]] + Unescape(raw[2..], after)
  }

  /** What a reader makes of a parsed forest by calling getProps on every node. */
  ghost function Unescaped(f: Forest): Forest {
    match f
    case End => End
    case Node(kind, raw, child, next) => Node(kind, Unescape(raw, 0), Unescaped(child), Unescaped(next))
  }

  /** Escaping is undone, whatever byte lies past the block. */
  lemma {:induction false} UnescapeEscape(data: seq<Byte>, after: Byte)
    ensures Unescape(Escape(data), after) == data
  {
    hide Escape, WellEscaped, Unescape;
    NothingEscaped(after);
    if data != [] {
      UnescapeEscape(data[1..], after);
      EscapeStep(data);
      ReadEscaped(data[0], Escape(data[1..]), after);
    }
  }

  /** The byte past the block is read only for a dangling escape. */
  lemma {:induction false} UnescapeIgnoresAfter(raw: seq<Byte>, a: Byte, b: Byte)
    requires WellEscaped(raw)
    ensures Unescape(raw, a) == Unescape(raw, b)
  {
    if raw != [] {
      UnescapeIgnoresAfter(raw[if raw[0] == ESCAPE_CHAR then 2 else 1..], a, b);
    }
  }

  // ----- Round trip -----

  ghost predicate MarkAt(s: seq<Byte>, q: nat) {
    q < |s| && (s[q] == NODE_START || s[q] == NODE_END)
  }

  /** A block that begins with the second half of an escaped type byte reads back as the
      properties written only if they start plain. */
  lemma {:induction false} ShiftedNeedsPlain(s: seq<Byte>, p: nat, raw: seq<Byte>, props: seq<Byte>)
    requires At(s, p, raw) && WellEscaped(raw) && Unescape(raw, 0) == props && MarkAt(s, p + |raw|)
    requires At(s, p, [ESCAPE_CHAR] + Escape(props)) && MarkAt(s, p + 1 + |Escape(props)|)
    ensures StartsPlain(props)
    decreases props
  {
    ShiftedFirst(s, p, raw, props);
    if Special(props[0]) {
      ShiftedNeedsPlain(s, p + 2, raw[2..], props[1..]);
    }
  }

  /** The escape byte left over from the type takes the next byte with it: either that byte is plain,
      or it is again an escape byte and the rest is shifted in the same way. */
  lemma ShiftedFirst(s: seq<Byte>, p: nat, raw: seq<Byte>, props: seq<Byte>)
    requires At(s, p, raw) && WellEscaped(raw) && Unescape(raw, 0) == props && MarkAt(s, p + |raw|)
    requires At(s, p, [ESCAPE_CHAR] + Escape(props)) && MarkAt(s, p + 1 + |Escape(props)|)
    ensures |raw| >= 2 && props != []
    ensures Special(props[0]) ==>
              props[0] == ESCAPE_CHAR && WellEscaped(raw[2..]) && Unescape(raw[2..], 0) == props[1..] &&
              |Escape(props)| == 2 + |Escape(props[1..])| &&
              At(s, p + 2, raw[2..]) && At(s, p + 2, [ESCAPE_CHAR] + Escape(props[1..]))
  {
    hide At, Escape;
    AtConcat(s, p, [ESCAPE_CHAR], Escape(props));
    AtByte(s, p, ESCAPE_CHAR);
    AtSlice(s, p, raw);
    assert raw != [] && raw[0] == s[p..p + |raw|][0];
    assert raw == raw[..2] + raw[2..] && raw[1] == s[p..p + |raw|][1];
    AtConcat(s, p, raw[..2], raw[2..]);
    if Special(props[0]) {
      EscapeSpecial(s, p + 1, props);
    }
  }

  lemma EscapeSpecialFirst(props: seq<Byte>)
    requires props != [] && Special(props[0])
    ensures Escape(props) == [ESCAPE_CHAR] + ([props[0]] + Escape(props[1..]))
  {
    hide Escape;
    EscapeStep(props);
    assert EscapeByte(props[0]) == [ESCAPE_CHAR] + [props[0]];
  }

  lemma EscapeSpecial(s: seq<Byte>, p: nat, props: seq<Byte>)
    requires props != [] && Special(props[0]) && At(s, p, Escape(props))
    ensures p < |s| && s[p] == ESCAPE_CHAR && |Escape(props)| == 2 + |Escape(props[1..])|
    ensures props[0] == ESCAPE_CHAR ==> At(s, p + 1, [ESCAPE_CHAR] + Escape(props[1..]))
  {
    hide At, Escape;
    var rest := Escape(props[1..]);
    EscapeSpecialFirst(props);
    AtConcat(s, p, [ESCAPE_CHAR], [props[0]] + rest);
    AtByte(s, p, ESCAPE_CHAR);
  }

  lemma PrintPieces(f: Forest)
    requires f.Node? && f.kind <= ESCAPE_CHAR
    ensures Print(f) ==
            [NODE_START, f.kind] + (RawProps(f.kind, f.props) + (Print(f.child) + ([NODE_END] + Print(f.next))))
  {
    hide Escape, RawProps;
    PrintedNode(f.kind, f.props);
  }

  /** The five pieces of a printed node, its block starting just after the type byte. */
  lemma AtPrinted(s: seq<Byte>, p: nat, f: Forest)
    requires f.Node? && f.kind <= ESCAPE_CHAR && At(s, p, Print(f))
    ensures var e := p + 2 + |RawProps(f.kind, f.props)|;
            var q := e + |Print(f.child)|;
            At(s, p + 2, RawProps(f.kind, f.props)) && At(s, e, Print(f.child)) &&
            q < |s| && s[q] == NODE_END && At(s, q + 1, Print(f.next))
  {
    hide At, Print, Escape, RawProps;
    var head, raw := [NODE_START, f.kind], RawProps(f.kind, f.props);
    var tail := [NODE_END] + Print(f.next);
    PrintPieces(f);
    AtConcat(s, p, head, raw + (Print(f.child) + tail));
    AtConcat(s, p + 2, raw, Print(f.child) + tail);
    AtConcat(s, p + 2 + |raw|, Print(f.child), tail);
    AtConcat(s, p + 2 + |raw| + |Print(f.child)|, [NODE_END], Print(f.next));
    AtByte(s, p + 2 + |raw| + |Print(f.child)|, NODE_END);
  }

  lemma PrintStartsWithMark(s: seq<Byte>, p: nat, f: Forest)
    requires At(s, p, Print(f))
    ensures f.Node? ==> p + 2 < |s| && s[p] == NODE_START
    ensures f.Node? && Special(f.kind) ==> s[p + 1] == ESCAPE_CHAR
    ensures f.End? ==> |Print(f)| == 0
  {
    if f.Node? {
      EscapeOne(f.kind);
      assert Print(f)[0] == NODE_START;
      assert Print(f)[1] == Escape([f.kind])[0];
      assert s[p..p + |Print(f)|][0] == s[p] && s[p..p + |Print(f)|][1] == s[p + 1];
      assert Print(f)[|Print(f)| - |Print(f.next)| - 1] == NODE_END;
    }
  }

  /** A block read as `raw` where the writer put `props` behind this type byte: the node survives,
      and the parser cut the block where the writer ended it. */
  lemma BlockSurvives(s: seq<Byte>, p: nat, kind: Byte, props: seq<Byte>, raw: seq<Byte>)
    requires At(s, p, raw) && WellEscaped(raw) && MarkAt(s, p + |raw|)
    requires kind <= ESCAPE_CHAR && At(s, p, RawProps(kind, props)) && MarkAt(s, p + |RawProps(kind, props)|)
    requires Unescape(raw, 0) == props
    ensures kind < ESCAPE_CHAR || (kind == ESCAPE_CHAR && StartsPlain(props))
    ensures raw == RawProps(kind, props)
  {
    hide Escape, RawProps, WellEscaped, Unescape, StartsPlain;
    KindSurvives(s, p, kind, props, raw);
    RawPropsWellEscaped(kind, props, 0);
    PropsEndComplete(s, p, RawProps(kind, props));
    PropsEndComplete(s, p, raw);
  }

  lemma KindSurvives(s: seq<Byte>, p: nat, kind: Byte, props: seq<Byte>, raw: seq<Byte>)
    requires At(s, p, raw) && WellEscaped(raw) && MarkAt(s, p + |raw|)
    requires kind <= ESCAPE_CHAR && At(s, p, RawProps(kind, props)) && MarkAt(s, p + |RawProps(kind, props)|)
    requires Unescape(raw, 0) == props
    ensures kind < ESCAPE_CHAR || (kind == ESCAPE_CHAR && StartsPlain(props))
  {
    hide Escape, WellEscaped, Unescape, StartsPlain;
    if kind == ESCAPE_CHAR {
      ShiftedNeedsPlain(s, p, raw, props);
    }
  }

  lemma FirstNodeSurvives(s: seq<Byte>, p: nat, f: Forest, g: Forest)
    requires f.Node? && g.Node? && At(s, p, Print(f)) && At(s, p, Encode(g)) && WellEscaped(g.props)
    requires g.kind == f.kind && Unescape(g.props, 0) == f.props
    ensures f.kind < ESCAPE_CHAR || (f.kind == ESCAPE_CHAR && StartsPlain(f.props))
    ensures g.props == RawProps(f.kind, f.props)
  {
    hide At, Print, Encode, WellEscaped, StartsPlain, RawProps, Escape, Unescape;
    PrintStartsWithMark(s, p, f);
    AtNode(s, p, g);
    AtPrinted(s, p, f);
    PrintStartsWithMark(s, p + 2 + |RawProps(f.kind, f.props)|, f.child);
    StartsWithMark(s, p + 2 + |g.props|, g.child);
    BlockSurvives(s, p + 2, f.kind, f.props, g.props);
  }

  /** Two well-formed forests encoded at the same place, each followed by a closing mark, are one. */
  lemma EncodingUnique(s: seq<Byte>, p: nat, f: Forest, g: Forest)
    requires WellFormed(f) && At(s, p, Encode(f)) && Closed(s, p + |Encode(f)|)
    requires WellFormed(g) && At(s, p, Encode(g)) && Closed(s, p + |Encode(g)|)
    requires f.End? <==> g.End?
    ensures f == g
  {
    hide At, Encode, WellFormed;
    if f.Node? {
      ParseComplete(s, p + 1, f);
      ParseComplete(s, p + 1, g);
    }
  }

  /** Whenever the printed bytes of f are also the encoding of a forest g that reads back as f,
      every node of f can be carried by the format. */
  lemma {:induction false} OnlySurvivorsReturn(s: seq<Byte>, p: nat, f: Forest, g: Forest)
    requires At(s, p, Print(f)) && At(s, p, Encode(g)) && WellFormed(g) && Unescaped(g) == f
    ensures Survives(f)
    decreases f
  {
    hide At, Print, Encode, RawProps, Escape, WellEscaped, StartsPlain, Unescape;
    if f.Node? {
      FirstNodeSurvives(s, p, f, g);
      AtPrinted(s, p, f);
      AtNode(s, p, g);
      var e := p + 2 + |g.props|;
      OnlySurvivorsReturn(s, e, f.child, g.child);
      PrintIsEncode(f.child);
      EncodingUnique(s, e, OnDisk(f.child), g.child);
      OnlySurvivorsReturn(s, e + |Encode(g.child)| + 1, f.next, g.next);
    }
  }

  /** Round trip, both ways and for every forest: writing it behind any header and reading it back
      gives the same nodes, types and properties exactly when every node survives the escaping. */
  lemma RoundTrip(header: seq<Byte>, f: Forest)
    requires f.Node?
    ensures var s := header + Print(f);
            var r := ParseSiblings(s, |header| + 1);
            (r.Some? && Unescaped(r.value.0) == f) <==> Survives(f)
    ensures Survives(f) ==>
            ParseSiblings(header + Print(f), |header| + 1) == Some((OnDisk(f), |header + Print(f)|))
  {
    hide At, Print, Encode, ParseSiblings, Survives, Unescaped, Escape, RawProps, WellFormed;
    var s := header + Print(f);
    AtSuffix(header, Print(f));
    PrintStartsWithMark(s, |header|, f);
    if Survives(f) {
      PrintIsEncode(f);
      ParseComplete(s, |header| + 1, OnDisk(f));
    }
    var r := ParseSiblings(s, |header| + 1);
    if r.Some? && Unescaped(r.value.0) == f {
      ParseSound(s, |header| + 1);
      OnlySurvivorsReturn(s, |header|, f, r.value.0);
    }
  }

  /** A kind of 0xFD without properties is not read back: its second half takes the closing mark along. */
  lemma BareEscapeIsLost()
    ensures var f := Node(ESCAPE_CHAR, [], End, End);
            Print(f) == [NODE_START, ESCAPE_CHAR, ESCAPE_CHAR, NODE_END] && ParseSiblings(Print(f), 1) == None
  {
    var f := Node(ESCAPE_CHAR, [], End, End);
    assert Escape([ESCAPE_CHAR]) == [ESCAPE_CHAR, ESCAPE_CHAR];
    var s := [NODE_START, ESCAPE_CHAR, ESCAPE_CHAR, NODE_END];
    assert Print(f) == s;
    assert PropsEnd(s, 2) == None;
    assert ParseBody(s, 2) == None;
  }

  /** With an escape byte and a plain one as properties it is. */
  lemma EscapeBeforePlainReturns()
    ensures var f := Node(ESCAPE_CHAR, [ESCAPE_CHAR, 1], End, End);
            var r := ParseSiblings(Print(f), 1);
            r.Some? && Unescaped(r.value.0) == f
  {
    hide Print, ParseSiblings, Unescaped;
    var f := Node(ESCAPE_CHAR, [ESCAPE_CHAR, 1], End, End);
    assert [ESCAPE_CHAR, 1][1..] == [1] && StartsPlain([1]);
    assert Survives(f);
    assert [] + Print(f) == Print(f);
    RoundTrip([], f);
  }
}
