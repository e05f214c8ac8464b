/**
 * Octree nodes (app/data/OctreeNode.js).
 *
 * `Node` is the value of a node object's fields: its level, its material,
 * its compression state (which the code compares against `null`) and its
 * children (`null`, or an array whose slots may hold `null`). The class
 * `OctreeNode` models the node object itself, whose constructor and
 * `initializeChildren` assign those fields.
 */
module Octree {
  import opened Wrappers
  import OctreeConfig

  /** `OctreeNode.STATE`: EMPTY = 0, SOLID = 1, MIXED = 2. */
  datatype NodeState = Empty | Solid | Mixed

  /** The numeric code of a state. */
  function StateCode(s: NodeState): (c: int)
    ensures 0 <= c <= 2
    ensures c == 0 <==> s == Empty
    ensures c == 2 <==> s == Mixed
  {
    match s
    case Empty => 0
    case Solid => 1
    case Mixed => 2
  }

  datatype Node = Node(level: int, materialID: int, state: Option<NodeState>, children: Children)

  /** The `children` field: `null`, or an array of slots. */
  datatype Children = NullChildren | Slots(slots: seq<Slot>)

  /** One slot of a children array: `null`, or a child node. */
  datatype Slot = NullSlot | Child(node: Node)

  /** Data attached to a node for surface extraction: a position and a normal. */
  datatype SurfaceData = SurfaceData(position: seq<real>, normal: seq<real>)

  /** The state the constructor derives from a material: air is EMPTY, the cut marker MIXED, any other id SOLID. */
  function StateFor(materialID: int): (s: NodeState)
    ensures s == Empty <==> materialID == OctreeConfig.VOXEL_ID_AIR
    ensures s == Mixed <==> materialID == OctreeConfig.VOXEL_ID_CUT
    ensures s == Solid <==> materialID != OctreeConfig.VOXEL_ID_AIR && materialID != OctreeConfig.VOXEL_ID_CUT
  {
    if materialID == OctreeConfig.VOXEL_ID_AIR then Empty
    else if materialID == OctreeConfig.VOXEL_ID_CUT then Mixed
    else Solid
  }

  /** The fields of `new OctreeNode(level, materialID)`. */
  function NewNode(level: int, materialID: int): (n: Node)
    ensures n.level == level && n.materialID == materialID
    ensures n.state == Some(StateFor(materialID))
    ensures n.children.NullChildren?
    ensures !IsLeafNode(n)
  {
    Node(level, materialID, Some(StateFor(materialID)), NullChildren)
  }

  /** `isLeaf()`: true only when the state field is `null`. */
  predicate IsLeafNode(n: Node)
  {
    n.state.None?
  }

  /** The fields after `initializeChildren()`. */
  function WithChildrenInitialized(n: Node): (r: Node)
    ensures n.state == Some(Mixed) ==> r == n
    ensures n.state != Some(Mixed) ==>
      r.level == n.level && r.state == Some(Mixed) && r.materialID == OctreeConfig.VOXEL_ID_AIR &&
      r.children.Slots? && |r.children.slots| == 8 &&
      forall i :: 0 <= i < 8 ==> r.children.slots[i].NullSlot?
    ensures n.state.Some? ==> !IsLeafNode(r)
  {
    if n.state != Some(Mixed) then
      Node(n.level, OctreeConfig.VOXEL_ID_AIR, Some(Mixed), Slots(seq(8, _ => NullSlot)))
    else
      n
  }

  /** A node object. Children are held as node values: sharing of child objects is not modelled. */
  class OctreeNode {
    var level: int
    var materialID: int
    var state: Option<NodeState>
    var children: Children
    var surfaceData: Option<SurfaceData>
    var subVoxelData: Option<seq<int>>

    /** The node's fields as a value. */
    function Value(): Node
      reads this
    {
      Node(level, materialID, state, children)
    }

    constructor (level: int, materialID: int)
      ensures Value() == NewNode(level, materialID)
      ensures surfaceData.None? && subVoxelData.None?
    {
      this.level := level;
      this.materialID := materialID;
      if materialID == OctreeConfig.VOXEL_ID_AIR {
        this.state := Some(Empty);
        this.materialID := OctreeConfig.VOXEL_ID_AIR;
      } else if materialID == OctreeConfig.VOXEL_ID_CUT {
        this.state := Some(Mixed);
        this.materialID := OctreeConfig.VOXEL_ID_CUT;
      } else {
        this.state := Some(Solid);
      }
      this.children := NullChildren;
      this.surfaceData := None;
      this.subVoxelData := None;
    }

    predicate IsLeaf()
      reads this
      ensures IsLeaf() <==> IsLeafNode(Value())
    {
      state == None
    }

    method InitializeChildren()
      modifies this
      ensures Value() == WithChildrenInitialized(old(Value()))
      ensures surfaceData == old(surfaceData) && subVoxelData == old(subVoxelData)
    {
      if state != Some(Mixed) {
        children := Slots(seq(8, _ => NullSlot));
        state := Some(Mixed);
        materialID := OctreeConfig.VOXEL_ID_AIR;
      }
    }
  }
}
