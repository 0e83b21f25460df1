/** Shared constants and records of the engine. */
module Types {
  import opened Glm

  /** Capacity of the skinning-matrix palette. */
  const MaxBoneMatrices: nat := 128

  /** Number of bone influences a vertex carries. */
  const MaxBoneInfluence: nat := 4

  /** A bone's palette slot and its inverse-bind ("offset") matrix. */
  datatype BoneInfo = BoneInfo(id: int, offset: Mat)

  /** The bone-info map shared by a model and every clip of its skeleton, keyed by bone name. */
  type BoneInfoMap = map<string, BoneInfo>

  /** A skinned vertex. A value-initialised vertex has every field zero. */
  datatype Vertex = Vertex(
    pos: Vec3,
    norm: Vec3,
    tex: Vec2,
    tan: Vec3,
    bitan: Vec3,
    boneIds: seq<int>,
    weights: seq<real>)

  /** The value-initialised influence arrays: `MaxBoneInfluence` zeros each. */
  const NoBoneIds: seq<int> := [0, 0, 0, 0]
  const NoWeights: seq<real> := [0.0, 0.0, 0.0, 0.0]

  const ZeroVertex: Vertex := Vertex(Zero3, Zero3, Zero2, Zero3, Zero3, NoBoneIds, NoWeights)
}
