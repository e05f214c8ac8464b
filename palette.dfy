/**
 * The material palette of the renderer (app/renderer/palette.js): one entry
 * per material id, with a name, an RGBA colour in [0, 1] and whether the
 * material is solid.
 */
module Palette {
  import opened Wrappers
  import OctreeConfig

  /** An RGBA colour, each component in [0, 1]. */
  datatype Color = Color(r: real, g: real, b: real, a: real)

  /** One palette entry. */
  datatype Material = Material(id: int, name: string, color: Color, solid: bool)

  /** The `ReferenceError` of evaluating the undeclared identifier `VOXEL_ID_CUT`. */
  datatype LookupError = ReferenceError

  /** `MaterialPalette`: air, ground, grass, rock and water, at the index of their id. */
  const MaterialPalette: seq<Material> := [
    Material(OctreeConfig.VOXEL_ID_AIR, "Air", Color(0.0, 0.0, 0.0, 0.0), false),
    Material(1, "Ground", Color(0.545, 0.271, 0.075, 1.0), true),
    Material(2, "Grass", Color(0.290, 0.686, 0.314, 1.0), true),
    Material(3, "Rock", Color(0.502, 0.502, 0.502, 1.0), true),
    Material(4, "Water", Color(0.130, 0.590, 0.950, 0.5), false)
  ]

  /** A colour whose components all lie in [0, 1]. */
  predicate InUnitRange(c: Color)
  {
    0.0 <= c.r <= 1.0 && 0.0 <= c.g <= 1.0 && 0.0 <= c.b <= 1.0 && 0.0 <= c.a <= 1.0
  }

  /**
   * `getMaterialById(id)`: the entry at index `id` for an id inside the
   * palette. For any other id the code compares it with `VOXEL_ID_CUT`, an
   * identifier declared nowhere, and so throws instead of returning the
   * debug material or `null`.
   */
  function GetMaterialById(id: int): (r: Result<Material, LookupError>)
    ensures r.Ok? <==> 0 <= id < |MaterialPalette|
    ensures r.Ok? ==> r.value == MaterialPalette[id] && r.value.id == id
  {
    if 0 <= id < |MaterialPalette| then Ok(MaterialPalette[id]) else Err(ReferenceError)
  }

  /** Every entry sits at the index of its id and has a colour in [0, 1]; entry 0 is transparent, non-solid air. */
  lemma PaletteWellFormed()
    ensures |MaterialPalette| == 5
    ensures forall k :: 0 <= k < |MaterialPalette| ==> MaterialPalette[k].id == k && InUnitRange(MaterialPalette[k].color)
    ensures MaterialPalette[0].id == OctreeConfig.VOXEL_ID_AIR && MaterialPalette[0].name == "Air"
    ensures MaterialPalette[0].color.a == 0.0 && !MaterialPalette[0].solid
  {
  }

  /** The id reserved for mixed nodes has no entry: looking it up throws. */
  lemma CutIdThrows()
    ensures GetMaterialById(OctreeConfig.VOXEL_ID_CUT) == Err(ReferenceError)
  {
  }
}
