/**
 * The one-byte-per-node octree codec (app/data/OctreeSerializer.js).
 *
 * Nodes are written in pre-order: a leaf is its material byte (0-254), an
 * interior node is the byte 255 followed by its eight children. Decoding
 * threads a read position through the recursion; a read past the end
 * aborts the whole decode, which then yields an air leaf.
 */
module OctreeSerializer {
  import opened Wrappers
  import opened JsNumbers
  import opened Octree
  import OctreeConfig
  import Bytes

  datatype DecodeError = BufferEndedUnexpectedly
  datatype EncodeError = MixedNodeWithoutEightChildren | NullChild

  // ---------------------------------------------------------------- decoding

  /** `readNodeRecursive(level)` starting at `pos`: the node read and the position after it. */
  function ReadNode(data: seq<byte>, pos: nat, level: int): (r: Result<(Node, nat), DecodeError>)
    requires pos <= |data|
    ensures r.Ok? ==> pos < r.value.1 <= |data|
    ensures r.Ok? ==> r.value.0.level == level
    decreases |data| - pos, 0, 0
  {
    if pos >= |data| then Err(BufferEndedUnexpectedly)
    else if data[pos] == OctreeConfig.VOXEL_ID_CUT then
      match ReadChildren(data, pos + 1, level + 1, [])
      case Err(e) => Err(e)
      case Ok((cs, next)) => Ok((NewNode(level, OctreeConfig.VOXEL_ID_CUT).(children := Slots(cs)), next))
    else
      Ok((NewNode(level, data[pos]), pos + 1))
  }

  /** The loop that reads the remaining `8 - |acc|` children of an interior node. */
  function ReadChildren(data: seq<byte>, pos: nat, level: int, acc: seq<Slot>)
    : (r: Result<(seq<Slot>, nat), DecodeError>)
    requires pos <= |data| && |acc| <= 8
    ensures r.Ok? ==> pos <= r.value.1 <= |data| && |r.value.0| == 8
    decreases |data| - pos, 1, 8 - |acc|
  {
    if |acc| == 8 then Ok((acc, pos))
    else
      match ReadNode(data, pos, level)
      case Err(e) => Err(e)
      case Ok((child, next)) => ReadChildren(data, next, level, acc + [Child(child)])
  }

  /** `OctreeSerializer.deserialize(buffer)`: never throws; a missing, empty or truncated buffer yields an air leaf. */
  function Deserialize(buffer: Option<seq<byte>>): (root: Node)
    ensures root.level == 0
    ensures buffer.None? || |buffer.value| == 0 ==> root == NewNode(0, OctreeConfig.VOXEL_ID_AIR)
  {
    if buffer.None? || |buffer.value| == 0 then NewNode(0, OctreeConfig.VOXEL_ID_AIR)
    else
      match ReadNode(buffer.value, 0, 0)
      case Ok((root, _)) => root
      case Err(_) => NewNode(0, OctreeConfig.VOXEL_ID_AIR)
  }

  // ---------------------------------------------------------------- encoding

  /** The byte written for a leaf: its material, with ids from 255 up overridden to air, stored into a `Uint8Array`. */
  function LeafByte(materialID: int): (b: byte)
    requires materialID != OctreeConfig.VOXEL_ID_CUT
    ensures 0 <= materialID < 255 ==> b == materialID
    ensures materialID > 255 ==> b == OctreeConfig.VOXEL_ID_AIR
  {
    ToUint8(if materialID >= OctreeConfig.VOXEL_ID_CUT then OctreeConfig.VOXEL_ID_AIR else materialID)
  }

  /** `writeNode(node)`: the bytes of the node in pre-order, or the error it throws. */
  function WriteNode(n: Node): (r: Result<seq<byte>, EncodeError>)
    ensures r.Ok? ==> |r.value| >= 1
    ensures r.Ok? && n.materialID == OctreeConfig.VOXEL_ID_CUT ==> r.value[0] == 255
    ensures r.Ok? && 0 <= n.materialID < OctreeConfig.VOXEL_ID_CUT ==> r.value == [n.materialID as byte]
    decreases n, 9
  {
    if n.materialID != OctreeConfig.VOXEL_ID_CUT then Ok([LeafByte(n.materialID)])
    else if n.children.NullChildren? || |n.children.slots| != 8 then Err(MixedNodeWithoutEightChildren)
    else
      match WriteChildren(n, 0)
      case Err(e) => Err(e)
      case Ok(rest) => Ok([OctreeConfig.VOXEL_ID_CUT as byte] + rest)
  }

  /** The loop writing children `i..7` of an interior node. */
  function WriteChildren(n: Node, i: nat): (r: Result<seq<byte>, EncodeError>)
    requires n.children.Slots? && |n.children.slots| == 8 && i <= 8
    decreases n, 8 - i
  {
    if i == 8 then Ok([])
    else
      var slot := n.children.slots[i];
      if slot.NullSlot? then Err(NullChild)
      else
        assert slot in n.children.slots;
        match WriteNode(slot.node)
        case Err(e) => Err(e)
        case Ok(head) =>
          match WriteChildren(n, i + 1)
          case Err(e) => Err(e)
          case Ok(tail) => Ok(head + tail)
  }

  /**
   * The trees `writeNode` throws on: an interior node (material 255), reached
   * through interior nodes only, whose `children` is null or not of length 8,
   * or one of whose eight children is null or itself broken.
   */
  predicate Broken(n: Node)
    decreases n, 1
  {
    n.materialID == OctreeConfig.VOXEL_ID_CUT &&
    (n.children.NullChildren? || |n.children.slots| != 8 ||
     exists j :: 0 <= j < 8 && (n.children.slots[j].NullSlot? || Broken(n.children.slots[j].node)))
  }

  /** The nodes `writeNode` visits: a leaf ends the walk, whatever its `children` hold. */
  function WrittenNodes(n: Node): nat
    decreases n, 1
  {
    if n.materialID != OctreeConfig.VOXEL_ID_CUT || n.children.NullChildren? then 1
    else 1 + WrittenSlots(n, 0)
  }

  /** The nodes `writeNode` visits below slots `i..` of an interior node. */
  function WrittenSlots(n: Node, i: nat): nat
    requires n.children.Slots? && i <= |n.children.slots|
    decreases n, 0, |n.children.slots| - i
  {
    if i == |n.children.slots| then 0
    else
      var slot := n.children.slots[i];
      assert slot in n.children.slots;
      (if slot.Child? then WrittenNodes(slot.node) else 0) + WrittenSlots(n, i + 1)
  }

  /** `writeNode` throws exactly on broken trees, and otherwise writes one byte per node it visits. */
  lemma {:induction false} WriteFailsIffBroken(n: Node)
    ensures WriteNode(n).Err? <==> Broken(n)
    ensures WriteNode(n).Ok? ==> |WriteNode(n).value| == WrittenNodes(n)
    decreases n, 1
  {
    if n.materialID == OctreeConfig.VOXEL_ID_CUT && n.children.Slots? && |n.children.slots| == 8 {
      WriteChildrenFailIffBroken(n, 0);
      if WriteChildren(n, 0).Err? {
        var j :| 0 <= j < 8 && (n.children.slots[j].NullSlot? || Broken(n.children.slots[j].node));
      }
    }
  }

  /** The child loop from slot `i` throws exactly when a later slot is null or broken. */
  lemma {:induction false} WriteChildrenFailIffBroken(n: Node, i: nat)
    requires n.children.Slots? && |n.children.slots| == 8 && i <= 8
    ensures WriteChildren(n, i).Err? <==> exists j :: i <= j < 8 && (n.children.slots[j].NullSlot? || Broken(n.children.slots[j].node))
    ensures WriteChildren(n, i).Ok? ==> |WriteChildren(n, i).value| == WrittenSlots(n, i)
    decreases n, 0, 8 - i
  {
    if i < 8 {
      var slots := n.children.slots;
      assert slots[i] in slots;
      if slots[i].Child? {
        WriteFailsIffBroken(slots[i].node);
      }
      WriteChildrenFailIffBroken(n, i + 1);
      if exists j :: i <= j < 8 && (slots[j].NullSlot? || Broken(slots[j].node)) {
        var j :| i <= j < 8 && (slots[j].NullSlot? || Broken(slots[j].node));
        if j > i {
          assert exists j' :: i + 1 <= j' < 8 && (slots[j'].NullSlot? || Broken(slots[j'].node));
        }
      }
      if WriteChildren(n, i + 1).Err? {
        var j :| i + 1 <= j < 8 && (slots[j].NullSlot? || Broken(slots[j].node));
        assert i <= j;
      }
    }
  }

  /**
   * `OctreeSerializer.serialize(root)`: never throws; a broken tree yields the
   * single air byte, any other tree one byte per node visited.
   */
  function Serialize(root: Node): (bytes: seq<byte>)
    ensures |bytes| >= 1
    ensures Broken(root) ==> bytes == [OctreeConfig.VOXEL_ID_AIR as byte]
    ensures !Broken(root) ==> |bytes| == WrittenNodes(root)
    ensures !Broken(root) && root.materialID == OctreeConfig.VOXEL_ID_CUT ==> bytes[0] == OctreeConfig.VOXEL_ID_CUT as byte
  {
    WriteFailsIffBroken(root);
    match WriteNode(root)
    case Ok(b) => b
    case Err(_) => [OctreeConfig.VOXEL_ID_AIR as byte]
  }

  // ---------------------------------------------------------------- properties

  /**
   * A tree the codec reproduces exactly: levels count the depth, every
   * interior node (material 255) is MIXED with eight present children, and
   * every leaf is a freshly constructed node with a material 0-254.
   */
  predicate WellFormed(n: Node, level: int)
    decreases n
  {
    n.level == level &&
    if n.materialID == OctreeConfig.VOXEL_ID_CUT then
      n.state == Some(Mixed) && n.children.Slots? && |n.children.slots| == 8 &&
      forall i :: 0 <= i < 8 ==> n.children.slots[i].Child? && WellFormed(n.children.slots[i].node, level + 1)
    else
      0 <= n.materialID < OctreeConfig.VOXEL_ID_CUT && n == NewNode(level, n.materialID)
  }

  /** An interior node at `level` with eight well-formed children one level down is well-formed. */
  lemma InteriorWellFormed(n: Node, level: int)
    requires n.level == level && n.materialID == OctreeConfig.VOXEL_ID_CUT && n.state == Some(Mixed)
    requires n.children.Slots? && |n.children.slots| == 8
    requires forall i :: 0 <= i < 8 ==> n.children.slots[i].Child? && WellFormed(n.children.slots[i].node, level + 1)
    ensures WellFormed(n, level)
  { }

  /** The number of nodes reachable from `n` through present child slots. */
  function NodeCount(n: Node): nat
    decreases n, 1
  {
    1 + (if n.children.Slots? then SlotNodeCount(n, 0) else 0)
  }

  /** The nodes below slots `i..` of `n`. */
  function SlotNodeCount(n: Node, i: nat): nat
    requires n.children.Slots? && i <= |n.children.slots|
    decreases n, 0, |n.children.slots| - i
  {
    if i == |n.children.slots| then 0
    else
      var slot := n.children.slots[i];
      assert slot in n.children.slots;
      (if slot.Child? then NodeCount(slot.node) else 0) + SlotNodeCount(n, i + 1)
  }

  /** A well-formed tree always serializes, to exactly one byte per node. */
  lemma {:induction false} WriteWellFormed(n: Node, level: int)
    requires WellFormed(n, level)
    ensures WriteNode(n).Ok? && |WriteNode(n).value| == NodeCount(n)
    decreases n, 1
  {
    if n.materialID == OctreeConfig.VOXEL_ID_CUT {
      WriteChildrenWellFormed(n, level, 0);
    }
  }

  lemma {:induction false} WriteChildrenWellFormed(n: Node, level: int, i: nat)
    requires WellFormed(n, level) && n.materialID == OctreeConfig.VOXEL_ID_CUT && i <= 8
    ensures WriteChildren(n, i).Ok? && |WriteChildren(n, i).value| == SlotNodeCount(n, i)
    decreases n, 0, 8 - i
  {
    if i < 8 {
      var c := n.children.slots[i].node;
      assert n.children.slots[i] in n.children.slots;
      WriteWellFormed(c, level + 1);
      WriteChildrenWellFormed(n, level, i + 1);
    }
  }

  /** Reading the encoding of a well-formed node, wherever it sits in a buffer, gives the node back and stops right after it. */
  lemma {:induction false} ReadAfterWrite(n: Node, level: int, data: seq<byte>, pos: nat)
    requires WellFormed(n, level) && WriteNode(n).Ok?
    requires pos + |WriteNode(n).value| <= |data|
    requires data[pos..pos + |WriteNode(n).value|] == WriteNode(n).value
    ensures ReadNode(data, pos, level) == Ok((n, pos + |WriteNode(n).value|))
    decreases n, 1
  {
    var enc := WriteNode(n).value;
    assert data[pos] == enc[0];
    if n.materialID == OctreeConfig.VOXEL_ID_CUT {
      var rest := WriteChildren(n, 0).value;
      assert enc == [255] + rest;
      assert data[pos + 1..pos + 1 + |rest|] == rest by {
        assert data[pos + 1..pos + 1 + |rest|] == data[pos..pos + |enc|][1..];
      }
      ReadChildrenAfterWrite(n, level, 0, data, pos + 1, pos + 1 + |rest|);
      assert n.children.slots[..0] == [];
    }
  }

  lemma {:induction false} ReadChildrenAfterWrite(n: Node, level: int, i: nat, data: seq<byte>, pos: nat, end: nat)
    requires WellFormed(n, level) && n.materialID == OctreeConfig.VOXEL_ID_CUT && i <= 8
    requires WriteChildren(n, i).Ok? && end == pos + |WriteChildren(n, i).value| <= |data|
    requires data[pos..end] == WriteChildren(n, i).value
    ensures ReadChildren(data, pos, level + 1, n.children.slots[..i]) == Ok((n.children.slots, end))
    decreases n, 0, 8 - i
  {
    var slots := n.children.slots;
    if i == 8 {
      assert slots[..i] == slots;
    } else {
      var c := slots[i].node;
      assert slots[i] in slots;
      var head := WriteNode(c).value;
      var tail := WriteChildren(n, i + 1).value;
      assert WriteChildren(n, i).value == head + tail;
      Bytes.SplitSlice(data, pos, head, tail);
      ReadAfterWrite(c, level + 1, data, pos);
      assert slots[..i] + [Child(c)] == slots[..i + 1];
      ReadChildrenAfterWrite(n, level, i + 1, data, pos + |head|, end);
    }
  }

  /** Decoding an encoded well-formed tree gives it back, whatever bytes follow the encoding. */
  lemma DeserializeIgnoresTrailingBytes(root: Node, extra: seq<byte>)
    requires WellFormed(root, 0)
    ensures Deserialize(Some(Serialize(root) + extra)) == root
  {
    WriteWellFormed(root, 0);
    var data := Serialize(root) + extra;
    assert data[0..|Serialize(root)|] == Serialize(root);
    ReadAfterWrite(root, 0, data, 0);
  }

  /** The round trip: `deserialize(serialize(root))` is `root` for every well-formed tree. */
  lemma DeserializeSerialize(root: Node)
    requires WellFormed(root, 0)
    ensures Deserialize(Some(Serialize(root))) == root
  {
    DeserializeIgnoresTrailingBytes(root, []);
    assert Serialize(root) + [] == Serialize(root);
  }

  /** Reading a proper prefix of a node's encoding runs past the end of the buffer. */
  lemma {:induction false} TruncatedReadFails(n: Node, level: int, data: seq<byte>, pos: nat)
    requires WellFormed(n, level) && WriteNode(n).Ok?
    requires pos <= |data| < pos + |WriteNode(n).value|
    requires data[pos..] == WriteNode(n).value[..|data| - pos]
    ensures ReadNode(data, pos, level).Err?
    decreases n, 1
  {
    var enc := WriteNode(n).value;
    if pos < |data| {
      assert data[pos] == enc[0];
      assert n.materialID == OctreeConfig.VOXEL_ID_CUT;
      var rest := WriteChildren(n, 0).value;
      assert enc == [255] + rest;
      assert data[pos + 1..] == rest[..|data| - pos - 1] by {
        assert data[pos + 1..] == data[pos..][1..];
      }
      TruncatedChildrenFail(n, level, 0, data, pos + 1, []);
    }
  }

  lemma {:induction false} TruncatedChildrenFail(n: Node, level: int, i: nat, data: seq<byte>, pos: nat, acc: seq<Slot>)
    requires WellFormed(n, level) && n.materialID == OctreeConfig.VOXEL_ID_CUT && i <= 8 && |acc| == i
    requires WriteChildren(n, i).Ok?
    requires pos <= |data| < pos + |WriteChildren(n, i).value|
    requires data[pos..] == WriteChildren(n, i).value[..|data| - pos]
    ensures ReadChildren(data, pos, level + 1, acc).Err?
    decreases n, 0, 8 - i
  {
    var slots := n.children.slots;
    var c := slots[i].node;
    assert slots[i] in slots;
    var head := WriteNode(c).value;
    var tail := WriteChildren(n, i + 1).value;
    assert WriteChildren(n, i).value == head + tail;
    Bytes.SplitCut(data, pos, head, tail);
    if |data| < pos + |head| {
      TruncatedReadFails(c, level + 1, data, pos);
    } else {
      ReadAfterWrite(c, level + 1, data, pos);
      TruncatedChildrenFail(n, level, i + 1, data, pos + |head|, acc + [Child(c)]);
    }
  }

  /** A truncated encoding never decodes to a partial tree: the result is the air leaf at level 0. */
  lemma TruncatedBufferDecodesToAir(root: Node, k: nat)
    requires WellFormed(root, 0) && 0 < k < |Serialize(root)|
    ensures Deserialize(Some(Serialize(root)[..k])) == NewNode(0, OctreeConfig.VOXEL_ID_AIR)
  {
    WriteWellFormed(root, 0);
    var data := Serialize(root)[..k];
    assert data[0..] == WriteNode(root).value[..|data|];
    TruncatedReadFails(root, 0, data, 0);
  }

  /** A structurally broken tree serializes to the single air byte, which decodes to the air leaf. */
  lemma BrokenTreeDecodesToAir(root: Node)
    requires Broken(root)
    ensures Deserialize(Some(Serialize(root))) == NewNode(0, OctreeConfig.VOXEL_ID_AIR)
  {
    assert ReadNode([0], 0, 0) == Ok((NewNode(0, 0), 1));
  }

  /** The decoder on the bytes `[255, 3, 3, 3]`: the fifth child is missing, so the result is the air leaf. */
  lemma TruncatedExample()
    ensures Deserialize(Some([255, 3, 3, 3])) == NewNode(0, OctreeConfig.VOXEL_ID_AIR)
  {
    var d: seq<byte> := [255, 3, 3, 3];
    var leaf := NewNode(1, 3);
    assert ReadChildren(d, 4, 1, [Child(leaf), Child(leaf), Child(leaf)]).Err?;
    assert [Child(leaf), Child(leaf)] + [Child(leaf)] == [Child(leaf), Child(leaf), Child(leaf)];
    assert ReadChildren(d, 3, 1, [Child(leaf), Child(leaf)]).Err?;
    assert [Child(leaf)] + [Child(leaf)] == [Child(leaf), Child(leaf)];
    assert ReadChildren(d, 2, 1, [Child(leaf)]).Err?;
    assert [] + [Child(leaf)] == [Child(leaf)];
    assert ReadChildren(d, 1, 1, []).Err?;
  }
}
