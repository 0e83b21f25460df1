/** The raw, already-parsed output of the asset importer: plain input records. */
module Assimp {
  import opened Opt

  datatype AiVector3D = AiVector3D(x: real, y: real, z: real)

  datatype AiQuaternion = AiQuaternion(w: real, x: real, y: real, z: real)

  /** The importer's row-major 4x4 matrix, as its sixteen entries. */
  datatype AiMatrix4x4 = AiMatrix4x4(entries: seq<real>)

  datatype AiVectorKey = AiVectorKey(time: real, value: AiVector3D)

  datatype AiQuatKey = AiQuatKey(time: real, value: AiQuaternion)

  /** One animation channel: the keyframes of the node called `nodeName`. */
  datatype AiNodeAnim = AiNodeAnim(
    nodeName: string,
    positionKeys: seq<AiVectorKey>,
    rotationKeys: seq<AiQuatKey>,
    scalingKeys: seq<AiVectorKey>)

  datatype AiAnimation = AiAnimation(duration: real, ticksPerSecond: real, channels: seq<AiNodeAnim>)

  /** A scene-graph node; `meshes` indexes the scene's mesh list. */
  datatype AiNode = AiNode(name: string, transformation: AiMatrix4x4, children: seq<AiNode>, meshes: seq<nat>)

  /** The texture kinds the engine distinguishes; every other importer kind is `OtherTexture`. */
  datatype TextureType = Diffuse | Specular | Normals | Height | OtherTexture(code: nat)

  /** A material lists, per texture type, the relative paths of its textures; a missing type has none. */
  datatype AiMaterial = AiMaterial(textures: map<TextureType, seq<string>>)

  /** A mesh; the optional attribute arrays are `None` when the importer did not provide them.
      `texCoords` is texture-coordinate channel 0. */
  datatype AiMesh = AiMesh(
    vertices: seq<AiVector3D>,
    normals: Option<seq<AiVector3D>>,
    texCoords: Option<seq<AiVector3D>>,
    tangents: Option<seq<AiVector3D>>,
    bitangents: Option<seq<AiVector3D>>,
    faces: seq<seq<nat>>,
    materialIndex: nat)

  /** A scene as returned by the importer; `incomplete` is the AI_SCENE_FLAGS_INCOMPLETE flag. */
  datatype AiScene = AiScene(
    incomplete: bool,
    root: Option<AiNode>,
    meshes: seq<AiMesh>,
    materials: seq<AiMaterial>,
    animations: seq<AiAnimation>)

  /** Number of textures of type `ty` in a material (`aiMaterial::GetTextureCount`). */
  function TexturePaths(mat: AiMaterial, ty: TextureType): (r: seq<string>)
    ensures ty !in mat.textures ==> r == []
  {
    if ty in mat.textures then mat.textures[ty] else []
  }
}
