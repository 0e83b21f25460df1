# Skeletal animation and model loading, in Dafny

This project models the core of a small OpenGL demo. The demo loads a rigged
model with Assimp, plays skeletal animation clips on it, and moves the player
with the keyboard and mouse. The model covers these parts:

- **Bones** (`bones.dfy`, `include/bone.hpp`). A bone holds three key tracks:
  position, rotation and scale. `update` samples each track at a time `t`.
  - It finds the key pair that brackets `t` (`getPosIdx` and friends).
  - It computes the blend factor between those keys.
  - It composes translation · rotation · scale.
  - `Bone::init` copies the tracks from an Assimp channel.
- **Animations** (`animations.dfy`, `include/animation.hpp`).
  - A clip mirrors the scene graph as a hierarchy of named nodes.
  - It makes one bone per channel.
  - It gives each new bone name the next free slot in a bone-info map, which
    clips share.
  - `findBone` looks a bone up by name.
- **Animator** (`animators.dfy`, `include/animator.hpp`).
  - The animator advances the clip clock with C's `fmod`.
  - It walks the hierarchy, updating the bone of each node and writing
    `global · offset` into the bone's palette slot.
- **Meshes** (`meshes.dfy`, `include/mesh.hpp`).
  - Vertex extraction, with optional attributes defaulting to zero.
  - Face flattening.
  - The per-model texture cache keyed by file path, filled in four passes
    (diffuse, specular, normal, height).
  - The sampler binding loop of `draw`.
- **Model** (`models.dfy`, `include/model.hpp`).
  - Box translation.
  - The directory of the asset path.
  - The pre-order `processNode` walk that builds one mesh per mesh reference.
  - The failure path of `Model::init`.
- **Game** (`game.dfy`, `src/main.cpp`).
  - The held-key record and its key and mouse-button callbacks.
  - The cursor callback with its pitch clamp.
  - One movement step with gravity and the floor clamp.
  - The Idle/Walk/Swim state machine that requests clips.

Supporting modules hold the data model:

- `opt.dfy`: `Option`, and the first-match scan shared by the bone lookup and the texture cache.
- `assimp.dfy`: the importer's data, as plain datatypes.
- `glm.dfy`: vectors over `real`, with matrices and quaternions as free terms.
- `types.dfy`: `BoneInfo`, `Vertex` and the palette size of 128.

How the model is built:

- **Matrices and quaternions are symbolic.** `Mat` and `QuatExpr` are free
  term algebras: `Translation(v)`, `Mul(a, b)`, `Slerp(a, b, f)`, and so on.
  The contracts therefore say which keys and factors a transform is built
  from. They do not say what numbers come out.
- **Vectors are numeric.** `glm::mix` is `a·(1−f) + b·f` over `real`, so
  position and scale interpolation can be proved to stay between the
  bracketing keys.
- **Palette writes have a reference.** The recursive palette writer is checked
  against a list of pre-order `(slot, matrix)` writes (`PreOrderWrites`). The
  final palette holds, in each slot, the last write to that slot.
- **The texture cache has a reference.** The cache is a fold over a list of
  `(path, type)` requests. The four passes of `Mesh::init` are proved equal to
  one run over the concatenated requests.
- **The loader and the camera are parameters.** The texture loader
  `texture2DFromFile` becomes a parameter `load: string -> nat`. The camera's
  per-frame front and side steps are also parameters.

## Model

| member | source | states |
|---|---|---|
| Bones.KeyIndex | include/bone.hpp:119-126 | The key index is the first `i` with `t` before key `i+1`. Every later key before that one is at or before `t`. It is the only index with this property. |
| Bones.BracketIsInterval | include/bone.hpp:119-126 | On a sorted track with `t` at or after the first key, `i` brackets `t` exactly when `ts[i] <= t < ts[i+1]`. |
| Bones.NoBracketFromLastKey | include/bone.hpp:119-126 | At or after the last key no index brackets `t`. This is the case in which the search reaches `assert(0)`. |
| Bones.Factor | include/bone.hpp:147-149 | The blend factor `f` satisfies `f·(next − last) = t − last`. It is the fraction of the key interval already covered. |
| Bones.FactorInUnitInterval | include/bone.hpp:87-89 | On a strictly increasing track, the factor for the bracketing keys lies in `[0, 1)`. |
| Bones.SampleVec | include/bone.hpp:82-92 | A one-key track yields that key's value at every time. |
| Bones.SampleRot | include/bone.hpp:94-105 | The result is always normalized. A one-key track yields its key. Otherwise it is a slerp that starts at the bracketing key. |
| Bones.SampleAtKey | include/bone.hpp:87-91 | At key `k`'s own timestamp, the search lands on `k`, the factor is 0, and the sample equals key `k`. |
| Bones.SampleBetweenKeys | include/bone.hpp:87-91 | Between two keys, each component of the sampled vector lies between the two bracketing keys. |
| Bones.InterpolatePos | include/bone.hpp:82-92 | A one-key track gives the translation to that key. Otherwise the translation goes to the mix of the bracketing keys at the blend factor. |
| Bones.InterpolateRot | include/bone.hpp:94-105 | A one-key track gives the rotation by that key, normalized. Otherwise the rotation is by the normalized slerp of the bracketing keys at the blend factor. |
| Bones.InterpolateScale | include/bone.hpp:107-117 | A one-key track gives the scaling by that key. Otherwise the scaling is by the mix of the bracketing keys at the blend factor. |
| Bones.Update | include/bone.hpp:78-80 | The local transform is translation · rotation · scale of the three samples at `t`. The tracks, name and id are kept. |
| Bones.SingleKeyBoneIsConstant | include/bone.hpp:78-117 | A bone with one key per track has the same local transform at every time. |
| Bones.VecKeys | include/bone.hpp:59-66 | Vector keys are copied one-for-one: same count, same times, converted values. |
| Bones.QuatKeys | include/bone.hpp:50-57 | Rotation keys are copied one-for-one: same count, same times, converted values. |
| Bones.InitAsWritten | include/bone.hpp:40-76 | As written, the position track holds only as many keys as the rotation track has. |
| Bones.InitAsWrittenDropsPositionKeys | include/bone.hpp:41-48 | For a channel with two position keys and one rotation key, the bone as written stays at the origin at `t = 5`. The corrected bone is halfway at `x = 0.5`. |
| Bones.Init | include/bone.hpp:40-76 | Each track is its own channel array converted key by key, so it has as many keys with the same timestamps. The local transform starts at identity. |
| Animations.NodeFromAssimp | include/animation.hpp:20-32 | The node hierarchy mirrors the scene graph: same names, converted transforms, same children in the same order. |
| Animations.MirrorKeepsPreOrder | include/animation.hpp:20-32 | A mirrored hierarchy lists the same node names in the same pre-order as the scene graph. |
| Animations.AssignSlot | include/animation.hpp:62-65 | The map keeps its old entries and gains the name. A new name gets the slot equal to the old map size, the next free one. |
| Animations.AssignSlotKeepsDense | include/animation.hpp:62-65 | If the slots are exactly 0 up to the map size minus one, they still are after one assignment. |
| Animations.ImportBones | include/animation.hpp:55-68 | There is one bone per channel. The map only grows. |
| Animations.ImportedKeys | include/animation.hpp:55-68 | After import, the map's names are the old names plus every channel name. |
| Animations.ImportedBonePerChannel | include/animation.hpp:55-68 | Bone `i` is built from channel `i` with the slot its name holds in the final map. |
| Animations.ImportKeepsDense | include/animation.hpp:55-68 | Importing a whole channel list keeps the slots dense. |
| Animations.SlotsStableAcrossClips | include/animation.hpp:55-68 | Loading a second clip through the shared map never moves a slot the first clip assigned. |
| Animations.Init | include/animation.hpp:42-77 | An unreadable scene yields an empty clip and leaves the map alone. Otherwise the clip takes clip 0's duration, ticks, channel bones and mirrored root. |
| Animations.FindBone | include/animation.hpp:79-86 | The result is the first bone with that name. No result means no bone has that name. |
| Animators.Init | include/animator.hpp:21-27 | The palette holds 128 identity matrices. The clock is 0 and the clip is the given one. |
| Animators.FmodBounds | include/animator.hpp:30 | `fmod` truncates toward zero: the remainder is smaller in magnitude than the divisor and has the sign of the dividend. |
| Animators.NextTimeWraps | include/animator.hpp:29-32 | With a positive duration and non-negative elapsed ticks, the new clock lies in `[0, duration)`. |
| Animators.LocalOf | include/animator.hpp:34-42 | A node with a bone takes that bone's local transform freshly updated at the clip time. A node without a bone keeps its bind-time transform. |
| Animators.Calc | include/animator.hpp:34-54 | The palette keeps its size. What it holds afterwards is stated by `Animators.CalcIsPreOrder` and `Animators.PaletteAfterTraversal`. |
| Animators.CalcChildren | include/animator.hpp:51-53 | The children loop keeps the palette size. Its result is stated by `Animators.CalcChildrenIsPreOrder`. |
| Animators.CalcChildrenIsPreOrder | include/animator.hpp:51-53 | Visiting the children from child `i` on applies their pre-order writes in child order. |
| Animators.ApplyWritesSlot | include/animator.hpp:46-49 | After a list of palette writes, each slot holds the last write to it, or its old value if it was never written. |
| Animators.CalcIsPreOrder | include/animator.hpp:34-54 | The recursive traversal yields the same palette as applying the pre-order write list. |
| Animators.PaletteAfterTraversal | include/animator.hpp:34-54 | After the traversal, each slot holds the last pre-order write to it, or its old value. |
| Animators.TouchBones | include/animator.hpp:38-42 | Exactly the bones the hierarchy reaches by name are updated at `t`. Every other bone is unchanged. |
| Animators.UpdateAnimation | include/animator.hpp:29-32 | The clock becomes the wrapped time. The palette is the pre-order write result from an identity root. Reached bones are updated and the rest are unchanged. |
| Meshes.ExtractVertices | include/mesh.hpp:43-63 | There is one vertex per mesh vertex. Missing normals, texture coordinates and tangents read as zero. Bone ids and weights are zero. |
| Meshes.Flatten | include/mesh.hpp:65-71 | The index list is as long as all faces together. |
| Meshes.FlattenIndex | include/mesh.hpp:65-71 | Index `j` of face `f` sits at the face's offset plus `j`. |
| Meshes.FlattenAppend | include/mesh.hpp:65-71 | Flattening distributes over concatenating face lists. |
| Meshes.FindLoaded | include/mesh.hpp:144-150 | The result is the first cached entry with the path. No result means the path is not cached. |
| Meshes.LoadOne | include/mesh.hpp:141-161 | A cache hit reuses the cached texture and leaves the cache alone. A miss loads `directory/path` once and appends it to the cache. |
| Meshes.LoadAll | include/mesh.hpp:133-163 | There is one texture per request, appended in order. The cache only grows, by at most one entry per request. |
| Meshes.LoadMaterialTextures | include/mesh.hpp:133-163 | One pass appends one texture per material texture of the type and keeps the earlier ones. The cache only grows, by at most one entry per texture. |
| Meshes.LoadAllCached | include/mesh.hpp:144-161 | Every texture handed out is the cache's entry for its path. |
| Meshes.LoadAllNewEntries | include/mesh.hpp:151-161 | Every new cache entry comes from some request. |
| Meshes.LoadAllKeepsDistinct | include/mesh.hpp:144-161 | If the cache's paths are distinct, they stay distinct. |
| Meshes.ReloadHitsCache | include/mesh.hpp:144-150 | Reissuing requests whose paths are all cached leaves the cache unchanged. |
| Meshes.PassesAreOneRun | include/mesh.hpp:73-78 | The four typed passes equal one run over the diffuse, specular, normal and height requests in that order. |
| Meshes.MeshInit | include/mesh.hpp:42-93 | The mesh gets the extracted vertices and flattened indices. It gets one texture per material request, and the cache it returns has grown. |
| Meshes.MeshTexturesFromCache | include/mesh.hpp:73-78 | Every texture of a built mesh is its path's entry in the returned cache. |
| Meshes.SamplerSlot | include/mesh.hpp:104-122 | Every texture kind maps to one of the four sampler locations 0 to 3. |
| Meshes.SamplerSlotInverse | include/mesh.hpp:104-122 | Location 0 is used by diffuse and by every unrecognised kind. Locations 1, 2 and 3 each belong to exactly one kind: specular, normals, height. |
| Meshes.Bindings | include/mesh.hpp:101-125 | Texture `i` is bound to unit `i` with its own id, and its sampler location is the one for its kind. |
| Meshes.LaterSameKindWins | include/mesh.hpp:101-125 | When two textures share a sampler location, the location ends up at a unit at or after the later one, so the earlier texture is never sampled. |
| Models.Translate | include/model.hpp:17-22 | Translating a box moves both corners by `x` and keeps its extent. |
| Models.TranslateRoundTrip | include/model.hpp:17-22 | Translating by `x` and then by `−x` gives back the box. |
| Models.TranslateCompose | include/model.hpp:17-22 | Two translations compose into one by the sum. |
| Models.Directory | include/model.hpp:51 | The directory is a prefix of the path. Without a slash it is the whole path. Otherwise it ends right before the last slash. |
| Models.DirectoryOfJoin | include/model.hpp:51 | The directory of `dir + "/" + name` is `dir` when `name` has no slash. |
| Models.ProcessNode | include/model.hpp:57-65 | The walk keeps the meshes already built and adds one mesh per pre-order mesh reference of the node. The cache only grows. |
| Models.ProcessChildren | include/model.hpp:62-64 | The same holds for the children from child `i` on. |
| Models.ProcessNodeIsPreOrder | include/model.hpp:57-65 | The recursive walk builds the same meshes, and the same cache, as one pass over the pre-order mesh references. |
| Models.BuildMeshesGeometry | include/model.hpp:57-61 | Mesh `k` built has the vertices and indices of the `k`-th referenced scene mesh. |
| Models.BuildMeshesKeepsDistinct | include/model.hpp:57-61 | Building meshes keeps the cache's paths distinct. |
| Models.Init | include/model.hpp:34-55 | An unusable scene yields the empty model. Otherwise the model keeps its vao and shader and has one mesh per pre-order mesh reference. |
| Models.InitMeshGeometry | include/model.hpp:34-65 | Mesh `k` of a loaded model has the geometry of the `k`-th mesh referenced in pre-order. |
| Models.InitCacheDistinct | include/model.hpp:34-65 | A loaded model's texture cache never holds a path twice. |
| Game.KeyCallback | src/main.cpp:471-565 | A press sets the key's flag and a release clears it. Unbound keys and other actions change nothing. Every other flag is kept. |
| Game.MouseButtonCallback | src/main.cpp:567-591 | The same holds for the left and right click flags. |
| Game.PressThenRelease | src/main.cpp:471-565 | Pressing and then releasing a key that was up gives back the original key state. |
| Game.InputsIndependent | src/main.cpp:471-591 | Key events never touch click flags. Mouse events never touch key flags. |
| Game.KeyFlagInjective | src/main.cpp:471-565 | No two keys drive the same flag. |
| Game.InitState | src/main.cpp:88-114 | The game starts idle with no key held, sensitivity 0.1, yaw −90, pitch 0 and the cursor at its initial position. |
| Game.CursorPos | src/main.cpp:593-607 | The pitch stays within ±89. It equals the unclamped value when that is in range and saturates at +89 or −89 otherwise. The yaw moves by the scaled x offset. The last position is stored. |
| Game.YawTelescopes | src/main.cpp:593-600 | Over two cursor events, the yaw moves by the total x offset. |
| Game.FrameVelocity | src/main.cpp:363-376 | The horizontal velocity is the net forward direction times the flattened forward step plus the net right direction times the side step. The vertical velocity keeps falling by gravity, moves with the side step and rises while space is held. |
| Game.Advance | src/main.cpp:363-391 | The new height is never below the floor. Landing zeroes the vertical velocity. Otherwise the position moves by the frame's velocity. |
| Game.AdvanceForgetsHorizontal | src/main.cpp:368-370 | The horizontal velocity of the previous frame has no effect. |
| Game.NoMovementKeysNoHorizontalMotion | src/main.cpp:368-376 | Without W, A, S or D the player does not move horizontally. |
| Game.OppositeKeysCancel | src/main.cpp:372-375 | Holding all four movement keys gives zero horizontal velocity. |
| Game.Transition | src/main.cpp:393-423 | A clip is requested exactly when the state changes, and it is the new state's clip. |
| Game.TransitionClassifies | src/main.cpp:393-423 | On or above the floor, every state moves to Idle without x velocity, to Walk on the floor, and to Swim above it. |
| Game.WalkBelowFloorStays | src/main.cpp:414-421 | Walking below the floor stays Walk, even though Idle would move to Swim there. |
| Game.Frame | src/main.cpp:363-423 | After a frame the player is on or above the floor. A clip is requested exactly when the state changes. |
| Game.FrameClassifies | src/main.cpp:379-423 | The state after a frame is the classification of its velocity and clamped height. |
| Game.NoMovementKeysGoIdle | src/main.cpp:368-423 | A frame with no movement key held ends idle. |

## Left out

- Rendering is not modelled. That covers OpenGL buffers, vertex arrays, shaders, draw calls, `Vertex::setupVAO`, `Model::draw`, the GL calls of `Mesh::draw`, the cube map and the window.
- Mesh vbo/ebo handles are not modelled. The model's `vao` and `shader` are kept only as numbers.
- Assimp's file parsing is not modelled. `ReadFile` and its post-processing flags (triangulation) are replaced by a scene value passed in.
- glm numerics are not modelled. Matrix products, `glm::translate`, `glm::scale`, `glm::slerp`, `glm::normalize` and `toMat4` stay symbolic.
- `glmFromAssimpQuat` and `glmFromAssimpMat4` are uninterpreted conversions. Their definitions are not part of the source this model follows.
- `glmFromAssimpVec3` is not defined in the source this model follows either. It is taken to copy the three components.
- Floats and doubles are modelled as `real`. Rounding, NaN, infinities, and the `(float)` casts of timestamps, duration and ticks per second are left out.
- `Animator::playAnimation` and `Model::detectObj` are called in `src/main.cpp` but defined nowhere in the source this model follows. Neither struct declares them. A clip switch is therefore an output of `Game.Transition`, and the object list is empty in the demo, so `detectObj` never runs.
- `texture2DFromFile` reads a file and talks to the GPU. It is the parameter `load`.
- The camera is not modelled. That covers `view.front` from yaw and pitch (trigonometry), `getView`, the projection, and the `move_front` and `move_side` vectors, which are parameters of `Game.Advance`.
- The steady-clock `dt` is a parameter. The scroll and window-size callbacks are not modelled.
- `Game.Frame` does not call `Animators.UpdateAnimation`. The main loop's `updateAnimation` call is the animator model on its own.
- Bones.KeyIndex: requires a bracketing key. The source reaches `assert(0)` (bone.hpp:125) when `t` is at or past the last key.
- Bones.Factor: requires two distinct timestamps. The source divides by zero otherwise.
- Bones.SampleVec: requires a non-empty track, and a bracket when it has more than one key. The source's `size() - 1` underflows on an empty track.
- Bones.SampleRot: requires the same as `Bones.SampleVec`.
- Animators.UpdateAnimation: requires a non-zero duration. A clip from a failed load has duration 0, and `fmod` then yields NaN.
- Animators.UpdateAnimation: requires every reached bone to be ready and every mapped slot to be below the palette size. The source writes `bone_matrices[id]` unchecked (animator.hpp:48).
- Animations.Init: requires a readable scene to hold at least one clip. The source reads `mAnimations[0]` unchecked.
- Animations.ImportBones: builds each clip bone with the corrected constructor `Bones.Init`, not the constructor as written at `include/bone.hpp:41-48` (see Findings). With the constructor as written, a channel with fewer rotation than position keys would lose position keys, and one with more would read past its position array.
- Animations.ImportedBonePerChannel: states that bone `i` is `Bones.Init` of channel `i`, so it describes the corrected constructor, for the same reason.
- Animations.Init: the clip's bones come from `Animations.ImportBones` and therefore from the corrected constructor.
- Animations.Init treats a scene as readable when it exists and has a root; it does not test `AI_SCENE_FLAGS_INCOMPLETE`, as in the source. `Models.Init` does test that flag, also as in the source.
- Animators.TouchBones: models the bone updates of the traversal as one step after the palette writes. Each bone's `update` depends only on its own tracks and `t`, so the order does not change the result.
- `include/model.hpp:60` passes the bone-info map to `Mesh::init`, but `Mesh::init` at `include/mesh.hpp:42` takes four parameters and reads no bones. The model follows mesh.hpp. A loaded model's bone-info map is therefore empty, and each clip assigns its slots with value-initialised (all-zero) offsets (`Animations.AssignSlot`).
- The main loop reads `model.velocity`, `model.pos` and `model.hitbox`, which the `Model` struct of `include/model.hpp` does not declare. `Game.Body` holds position and velocity separately.
- `Vertex` is declared in both `include/types.hpp` (with a colour field) and `include/utils.hpp`. `Types.Vertex` follows `include/utils.hpp`, which the mesh code fills.
- Meshes.MeshInit: requires the material index to be valid and every present attribute array to cover all vertices. The source trusts the importer for both.
- Models.Init: requires every mesh reference of the graph to name an existing mesh with valid attributes. The source trusts the importer.
- The `Keys` struct of eleven booleans is modelled as the set of flags that are held. The two carry the same information (`Game.FlagsDetermineKeys`).

## Findings

| source | as written | input that shows it | evidently intended | confidence | as-written member | corrected member |
|---|---|---|---|---|---|---|
| include/bone.hpp:41-48 | The position track is sized and filled by `mNumRotationKeys`. | A channel with position keys x=0 at t=0 and x=1 at t=10 and a single rotation key: the bone keeps one position key and stays at the origin at t=5. With more rotation than position keys, the loop reads past the position array. | One position key per `mNumPositionKeys`, so at t=5 the bone is at x=0.5. | high; not executed | Bones.InitAsWritten, Bones.InitAsWrittenDropsPositionKeys | Bones.Init |
