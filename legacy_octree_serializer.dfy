/**
 * The older two-byte-leaf octree codec (src/data/OctreeSerializer.js).
 *
 * Every node starts with its state byte (0 EMPTY, 1 SOLID, 2 MIXED). A
 * leaf, state 0 or 1, is followed by its material byte; any other state
 * byte starts an interior node, followed by its eight children. Reads are
 * not bounds-checked: a read past the end throws out of `deserialize`.
 *
 * The node class this file imports (src/data/OctreeNode.js) is not part of
 * this model. Its constructor and `initializeChildren` are taken to be
 * those of the octree node model, and its leaf test to be "the state is
 * EMPTY or SOLID" (`LegacyIsLeaf`).
 */
module LegacyOctreeSerializer {
  import opened Wrappers
  import opened JsNumbers
  import opened Octree
  import opened Bytes

  /** The `RangeError` that `DataView.getUint8` throws for an offset past the end. */
  datatype DecodeError = OffsetOutsideBounds
  /** The `TypeError` of reading `node.children[i]` on an interior node whose `children` is null. */
  datatype EncodeError = ChildrenOfNull

  /** The assumed leaf test of the node class: state EMPTY or SOLID. */
  predicate LegacyIsLeaf(n: Node)
  {
    n.state == Some(Empty) || n.state == Some(Solid)
  }

  // ---------------------------------------------------------------- decoding

  /** `readNode(level)` with the cursor at `pos`: the node and the cursor after it, or the error thrown. */
  function ReadNode(data: seq<byte>, pos: nat, level: int): (r: Result<(Node, nat), DecodeError>)
    requires pos <= |data|
    ensures r.Ok? ==> pos < r.value.1 <= |data| && r.value.0.level == level
    // a leaf consumes its state byte and its material byte
    ensures r.Ok? && data[pos] <= 1 ==> pos + 1 < |data| && r.value == (NewNode(level, data[pos + 1]), pos + 2)
    // any other state byte gives an interior node forced to MIXED, with no material byte
    ensures r.Ok? && data[pos] > 1 ==>
      var n := r.value.0;
      n.state == Some(Mixed) && n.materialID == 0 && n.children.Slots? && |n.children.slots| == 8 &&
      forall i :: 0 <= i < 8 ==> n.children.slots[i].Child?
    ensures pos < |data| && data[pos] <= 1 ==> (r.Ok? <==> pos + 1 < |data|)
    decreases |data| - pos, 0, 0
  {
    if pos >= |data| then Err(OffsetOutsideBounds)
    else
      var state := data[pos];
      if state == StateCode(Empty) || state == StateCode(Solid) then
        if pos + 1 >= |data| then Err(OffsetOutsideBounds)
        else Ok((NewNode(level, data[pos + 1]), pos + 2))
      else
        var node := WithChildrenInitialized(NewNode(level, 0)).(state := Some(Mixed));
        match ReadChildren(data, pos + 1, level + 1, node.children.slots, 0)
        case Err(e) => Err(e)
        case Ok((slots, next)) => Ok((node.(children := Slots(slots)), next))
  }

  /** The loop `node.children[i] = readNode(level + 1)` for `i` from the given one to 7. */
  function ReadChildren(data: seq<byte>, pos: nat, level: int, slots: seq<Slot>, i: nat)
    : (r: Result<(seq<Slot>, nat), DecodeError>)
    requires pos <= |data| && |slots| == 8 && i <= 8
    requires forall j :: 0 <= j < i ==> slots[j].Child?
    ensures r.Ok? ==> pos <= r.value.1 <= |data| && |r.value.0| == 8
    ensures r.Ok? ==> forall j :: 0 <= j < 8 ==> r.value.0[j].Child?
    decreases |data| - pos, 1, 8 - i
  {
    if i == 8 then Ok((slots, pos))
    else
      match ReadNode(data, pos, level)
      case Err(e) => Err(e)
      case Ok((child, next)) => ReadChildren(data, next, level, slots[i := Child(child)], i + 1)
  }

  /** `OctreeSerializer.deserialize(buffer)`: an air leaf for a missing or empty buffer, else the root read, or the error thrown. */
  function Deserialize(buffer: Option<seq<byte>>): (r: Result<Node, DecodeError>)
    ensures buffer.None? || |buffer.value| == 0 ==> r == Ok(NewNode(0, 0))
    ensures r.Ok? ==> r.value.level == 0
  {
    if buffer.None? || |buffer.value| == 0 then Ok(NewNode(0, 0))
    else
      match ReadNode(buffer.value, 0, 0)
      case Ok((root, _)) => Ok(root)
      case Err(e) => Err(e)
  }

  // ---------------------------------------------------------------- encoding

  /** `bytes.push(node.state)` stored into a `Uint8Array`: the state code, or 0 for a null state. */
  function StateByte(n: Node): (b: byte)
    ensures n.state.Some? ==> b == StateCode(n.state.value)
    ensures n.state.None? ==> b == 0
  {
    if n.state.None? then 0 else StateCode(n.state.value)
  }

  /** `writeNode(node)`: the bytes of the node, or the error thrown. */
  function WriteNode(n: Node): (r: Result<seq<byte>, EncodeError>)
    ensures r.Ok? ==> |r.value| >= 1 && r.value[0] == StateByte(n)
    ensures LegacyIsLeaf(n) ==> r == Ok([StateByte(n), ToUint8(n.materialID)])
    ensures !LegacyIsLeaf(n) ==> (r.Err? <==> n.children.NullChildren? || WriteChildren(n, 0).Err?)
    decreases n, 9
  {
    if LegacyIsLeaf(n) then Ok([StateByte(n), ToUint8(n.materialID)])
    else if n.children.NullChildren? then Err(ChildrenOfNull)
    else
      match WriteChildren(n, 0)
      case Err(e) => Err(e)
      case Ok(rest) => Ok([StateByte(n)] + rest)
  }

  /** The loop over `i` from the given one to 7: a present child is written, a null (or missing) one skipped. */
  function WriteChildren(n: Node, i: nat): (r: Result<seq<byte>, EncodeError>)
    requires n.children.Slots? && i <= 8
    decreases n, 8 - i
  {
    if i == 8 then Ok([])
    else if i >= |n.children.slots| || n.children.slots[i].NullSlot? then WriteChildren(n, i + 1)
    else
      var slot := n.children.slots[i];
      assert slot in n.children.slots;
      match WriteNode(slot.node)
      case Err(e) => Err(e)
      case Ok(head) =>
        match WriteChildren(n, i + 1)
        case Err(e) => Err(e)
        case Ok(tail) => Ok(head + tail)
  }

  /** `OctreeSerializer.serialize(root)`: the buffer, or the error thrown. */
  function Serialize(root: Node): Result<seq<byte>, EncodeError>
  {
    WriteNode(root)
  }

  // ---------------------------------------------------------------- properties

  /**
   * A tree this codec reproduces: levels count the depth, every leaf is a
   * freshly constructed EMPTY or SOLID node, and every interior node has
   * the fields the decoder gives it (MIXED, material 0) and eight present
   * children.
   */
  predicate LegacyWellFormed(n: Node, level: int)
    decreases n
  {
    n.level == level &&
    if LegacyIsLeaf(n) then
      0 <= n.materialID < 255 && n == NewNode(level, n.materialID)
    else
      n.state == Some(Mixed) && n.materialID == 0 && n.children.Slots? && |n.children.slots| == 8 &&
      forall i :: 0 <= i < 8 ==> n.children.slots[i].Child? && LegacyWellFormed(n.children.slots[i].node, level + 1)
  }

  /** A well-formed tree always serializes. */
  lemma {:induction false} WriteWellFormed(n: Node, level: int)
    requires LegacyWellFormed(n, level)
    ensures WriteNode(n).Ok?
    decreases n, 1
  {
    if !LegacyIsLeaf(n) {
      WriteChildrenWellFormed(n, level, 0);
    }
  }

  lemma {:induction false} WriteChildrenWellFormed(n: Node, level: int, i: nat)
    requires LegacyWellFormed(n, level) && !LegacyIsLeaf(n) && i <= 8
    ensures WriteChildren(n, i).Ok?
    decreases n, 0, 8 - i
  {
    if i < 8 {
      assert n.children.slots[i] in n.children.slots;
      WriteWellFormed(n.children.slots[i].node, level + 1);
      WriteChildrenWellFormed(n, level, i + 1);
    }
  }

  /** The children array after the first `i` assignments of the decoding loop. */
  function FilledPrefix(slots: seq<Slot>, i: nat): (r: seq<Slot>)
    requires i <= |slots| == 8
    ensures |r| == 8
    ensures forall j :: 0 <= j < 8 ==> r[j] == (if j < i then slots[j] else NullSlot)
  {
    seq(8, j requires 0 <= j < 8 => if j < i then slots[j] else NullSlot)
  }

  /** Filling slot `i` of the prefix with the child there extends the prefix by one. */
  lemma FilledPrefixStep(slots: seq<Slot>, i: nat, c: Node)
    requires i < |slots| == 8 && slots[i] == Child(c)
    ensures FilledPrefix(slots, i)[i := Child(c)] == FilledPrefix(slots, i + 1)
  {
  }

  /** Reading the encoding of a well-formed node, wherever it sits in a buffer, gives the node back and stops right after it. */
  lemma {:induction false} ReadAfterWrite(n: Node, level: int, data: seq<byte>, pos: nat)
    requires LegacyWellFormed(n, level) && WriteNode(n).Ok?
    requires pos + |WriteNode(n).value| <= |data|
    requires data[pos..pos + |WriteNode(n).value|] == WriteNode(n).value
    ensures ReadNode(data, pos, level) == Ok((n, pos + |WriteNode(n).value|))
    decreases n, 1
  {
    var enc := WriteNode(n).value;
    assert data[pos] == enc[0];
    if LegacyIsLeaf(n) {
      assert data[pos + 1] == enc[1];
    } else {
      var rest := WriteChildren(n, 0).value;
      assert enc == [2] + rest;
      assert data[pos + 1..pos + 1 + |rest|] == rest by {
        assert data[pos + 1..pos + 1 + |rest|] == data[pos..pos + |enc|][1..];
      }
      var start := WithChildrenInitialized(NewNode(level, 0)).(state := Some(Mixed));
      assert start.children.slots == FilledPrefix(n.children.slots, 0);
      ReadChildrenAfterWrite(n, level, 0, data, pos + 1, pos + 1 + |rest|);
      assert FilledPrefix(n.children.slots, 8) == n.children.slots;
      assert start.(children := Slots(n.children.slots)) == n;
    }
  }

  lemma {:induction false} ReadChildrenAfterWrite(n: Node, level: int, i: nat, data: seq<byte>, pos: nat, end: nat)
    requires LegacyWellFormed(n, level) && !LegacyIsLeaf(n) && i <= 8
    requires WriteChildren(n, i).Ok? && end == pos + |WriteChildren(n, i).value| <= |data|
    requires data[pos..end] == WriteChildren(n, i).value
    ensures ReadChildren(data, pos, level + 1, FilledPrefix(n.children.slots, i), i) == Ok((FilledPrefix(n.children.slots, 8), end))
    decreases n, 0, 8 - i
  {
    if i < 8 {
      var next := ReadChildAfterWrite(n, level, i, data, pos);
      ReadChildrenAfterWrite(n, level, i + 1, data, next, end);
    } else {
      assert WriteChildren(n, i).value == [];
    }
  }

  /** One turn of the children loop over an encoding: child `i` is read back and the loop goes on right after it. */
  lemma ReadChildAfterWrite(n: Node, level: int, i: nat, data: seq<byte>, pos: nat) returns (next: nat)
    requires LegacyWellFormed(n, level) && !LegacyIsLeaf(n) && i < 8
    requires WriteChildren(n, i).Ok?
    requires pos + |WriteChildren(n, i).value| <= |data|
    requires data[pos..pos + |WriteChildren(n, i).value|] == WriteChildren(n, i).value
    ensures WriteChildren(n, i + 1).Ok?
    ensures next + |WriteChildren(n, i + 1).value| == pos + |WriteChildren(n, i).value|
    ensures data[next..next + |WriteChildren(n, i + 1).value|] == WriteChildren(n, i + 1).value
    ensures ReadChildren(data, pos, level + 1, FilledPrefix(n.children.slots, i), i)
         == ReadChildren(data, next, level + 1, FilledPrefix(n.children.slots, i + 1), i + 1)
    decreases n, 0, 0
  {
    var slots := n.children.slots;
    var c := slots[i].node;
    assert slots[i] in slots;
    WriteWellFormed(c, level + 1);
    WriteChildrenStep(n, i, c);
    var head := WriteNode(c).value;
    var tail := WriteChildren(n, i + 1).value;
    SplitSlice(data, pos, head, tail);
    ReadAfterWrite(c, level + 1, data, pos);
    FilledPrefixStep(slots, i, c);
    next := pos + |head|;
    ReadChildrenNext(data, pos, level + 1, FilledPrefix(slots, i), i, c, next, FilledPrefix(slots, i + 1));
  }

  /** A written child `c` in slot `i` puts its encoding ahead of those of the slots after it. */
  lemma WriteChildrenStep(n: Node, i: nat, c: Node)
    requires n.children.Slots? && i < 8 && i < |n.children.slots| && n.children.slots[i] == Child(c)
    requires WriteChildren(n, i).Ok?
    ensures WriteNode(c).Ok? && WriteChildren(n, i + 1).Ok?
    ensures WriteChildren(n, i).value == WriteNode(c).value + WriteChildren(n, i + 1).value
  { }

  /** A child read at `pos` fills slot `i` and the loop goes on right after it. */
  lemma ReadChildrenNext(data: seq<byte>, pos: nat, level: int, slots: seq<Slot>, i: nat, child: Node, next: nat, filled: seq<Slot>)
    requires pos <= |data| && |slots| == 8 && i < 8 && forall j :: 0 <= j < i ==> slots[j].Child?
    requires ReadNode(data, pos, level) == Ok((child, next)) && filled == slots[i := Child(child)]
    ensures next <= |data| && forall j :: 0 <= j < i + 1 ==> filled[j].Child?
    ensures ReadChildren(data, pos, level, slots, i) == ReadChildren(data, next, level, filled, i + 1)
  { }

  /** Decoding an encoded well-formed tree gives it back, whatever bytes follow the encoding. */
  lemma DeserializeIgnoresTrailingBytes(root: Node, extra: seq<byte>)
    requires LegacyWellFormed(root, 0)
    ensures Serialize(root).Ok? && Deserialize(Some(Serialize(root).value + extra)) == Ok(root)
  {
    WriteWellFormed(root, 0);
    var enc := Serialize(root).value;
    var data := enc + extra;
    assert data[0..|enc|] == enc;
    ReadAfterWrite(root, 0, data, 0);
  }

  /** The round trip of shape and materials: `deserialize(serialize(root))` is `root`. */
  lemma DeserializeSerialize(root: Node)
    requires LegacyWellFormed(root, 0)
    ensures Serialize(root).Ok? && Deserialize(Some(Serialize(root).value)) == Ok(root)
  {
    DeserializeIgnoresTrailingBytes(root, []);
    assert Serialize(root).value + [] == Serialize(root).value;
  }

  /** Reading a proper prefix of a node's encoding throws. */
  lemma {:induction false} TruncatedReadThrows(n: Node, level: int, data: seq<byte>, pos: nat)
    requires LegacyWellFormed(n, level) && WriteNode(n).Ok?
    requires pos <= |data| < pos + |WriteNode(n).value|
    requires data[pos..] == WriteNode(n).value[..|data| - pos]
    ensures ReadNode(data, pos, level).Err?
    decreases n, 1
  {
    var enc := WriteNode(n).value;
    if pos < |data| {
      assert data[pos] == enc[0];
      if !LegacyIsLeaf(n) {
        var rest := WriteChildren(n, 0).value;
        assert enc == [2] + rest;
        assert data[pos + 1..] == rest[..|data| - pos - 1] by {
          assert data[pos + 1..] == data[pos..][1..];
        }
        TruncatedChildrenThrow(n, level, 0, data, pos + 1, WithChildrenInitialized(NewNode(level, 0)).children.slots);
      }
    }
  }

  lemma {:induction false} TruncatedChildrenThrow(n: Node, level: int, i: nat, data: seq<byte>, pos: nat, slots: seq<Slot>)
    requires LegacyWellFormed(n, level) && !LegacyIsLeaf(n) && i <= 8
    requires |slots| == 8 && forall j :: 0 <= j < i ==> slots[j].Child?
    requires WriteChildren(n, i).Ok?
    requires pos <= |data| < pos + |WriteChildren(n, i).value|
    requires data[pos..] == WriteChildren(n, i).value[..|data| - pos]
    ensures ReadChildren(data, pos, level + 1, slots, i).Err?
    decreases n, 0, 8 - i
  {
    var c := n.children.slots[i].node;
    assert n.children.slots[i] in n.children.slots;
    WriteWellFormed(c, level + 1);
    var head := WriteNode(c).value;
    var tail := WriteChildren(n, i + 1).value;
    assert WriteChildren(n, i).value == head + tail;
    SplitCut(data, pos, head, tail);
    if |data| < pos + |head| {
      TruncatedReadThrows(c, level + 1, data, pos);
    } else {
      ReadAfterWrite(c, level + 1, data, pos);
      TruncatedChildrenThrow(n, level, i + 1, data, pos + |head|, slots[i := Child(c)]);
    }
  }

  /** A truncated encoding makes `deserialize` throw instead of returning a tree. */
  lemma TruncatedBufferThrows(root: Node, k: nat)
    requires LegacyWellFormed(root, 0) && WriteNode(root).Ok? && 0 < k < |WriteNode(root).value|
    ensures Deserialize(Some(WriteNode(root).value[..k])).Err?
  {
    var data := WriteNode(root).value[..k];
    assert data[0..] == WriteNode(root).value[..|data|];
    TruncatedReadThrows(root, 0, data, 0);
  }

  /**
   * A null child is skipped without a placeholder, so the stream no longer
   * matches the tree: an interior root whose first child is null and whose
   * other seven are air leaves writes 15 bytes, and reading them back runs
   * out of input on the eighth child.
   */
  lemma NullChildExample()
    ensures var air := NewNode(1, 0);
      var c := Child(air);
      var root := WithChildrenInitialized(NewNode(0, 0)).(children := Slots([NullSlot, c, c, c, c, c, c, c]));
      Serialize(root) == Ok([2, 0, 0, 0, 0, 0, 0, 0, 0, 0, 0, 0, 0, 0, 0]) &&
      Deserialize(Some(Serialize(root).value)).Err?
  {
    var air := NewNode(1, 0);
    var c := Child(air);
    var root := WithChildrenInitialized(NewNode(0, 0)).(children := Slots([NullSlot, c, c, c, c, c, c, c]));
    AirChildrenBytes(root, 1);
    assert WriteChildren(root, 0) == WriteChildren(root, 1);
    var d: seq<byte> := [2, 0, 0, 0, 0, 0, 0, 0, 0, 0, 0, 0, 0, 0, 0];
    assert [StateByte(root)] + Zeros(14) == d;
    var s0 := WithChildrenInitialized(NewNode(1, 0)).children.slots;
    AirReadsRunOut(d, 0, s0);
  }

  /** Reading eight air leaves from a state byte and fourteen zeros: the eighth read finds no byte left. */
  lemma {:induction false} AirReadsRunOut(d: seq<byte>, j: nat, slots: seq<Slot>)
    requires |d| == 15 && forall k :: 1 <= k < 15 ==> d[k] == 0
    requires j <= 7 && |slots| == 8 && forall k :: 0 <= k < j ==> slots[k].Child?
    ensures ReadChildren(d, 1 + 2 * j, 1, slots, j).Err?
    decreases 7 - j
  {
    if j < 7 {
      assert ReadNode(d, 1 + 2 * j, 1) == Ok((NewNode(1, 0), 3 + 2 * j));
      AirReadsRunOut(d, j + 1, slots[j := Child(NewNode(1, 0))]);
    }
  }

  lemma {:induction false} AirChildrenBytes(root: Node, i: nat)
    requires root.children.Slots? && |root.children.slots| == 8 && 1 <= i <= 8
    requires forall j :: 1 <= j < 8 ==> root.children.slots[j] == Child(NewNode(1, 0))
    ensures WriteChildren(root, i) == Ok(Zeros(2 * (8 - i)))
    decreases 8 - i
  {
    if i < 8 {
      AirChildrenBytes(root, i + 1);
      var slot := root.children.slots[i];
      assert slot == Child(NewNode(1, 0));
      assert WriteNode(slot.node) == Ok([0, 0]);
      assert WriteChildren(root, i) == Ok([0, 0] + WriteChildren(root, i + 1).value);
      assert [0, 0] + Zeros(2 * (8 - (i + 1))) == Zeros(2 * (8 - i));
    }
  }
}
