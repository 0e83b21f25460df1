/**
  Model import: the hit box, the model directory, and the pre-order walk of
  the scene graph that builds one mesh per mesh reference.
 */
module Models {
  import opened Opt
  import opened Glm
  import opened Assimp
  import opened Types
  import opened Meshes

  // ---------------------------------------------------------------------------
  // Hit box
  // ---------------------------------------------------------------------------

  /** An axis-aligned box given by two corners. */
  datatype Box = Box(min: Vec3, max: Vec3)

  /** `Box::translate`: a copy of the box moved by `x`; the receiver is a value and stays as it was. */
  function Translate(b: Box, x: Vec3): (r: Box)
    ensures Sub(r.max, r.min) == Sub(b.max, b.min)
    ensures Sub(r.min, b.min) == x && Sub(r.max, b.max) == x
  {
    Box(Add(b.min, x), Add(b.max, x))
  }

  /** Moving by `x` and then by `-x` gives the original box back. */
  lemma TranslateRoundTrip(b: Box, x: Vec3)
    ensures Translate(Translate(b, x), Neg(x)) == b
  {
  }

  /** Two moves are one move by the sum. */
  lemma TranslateCompose(b: Box, x: Vec3, y: Vec3)
    ensures Translate(Translate(b, x), y) == Translate(b, Add(x, y))
  {
  }

  // ---------------------------------------------------------------------------
  // Directory
  // ---------------------------------------------------------------------------

  /** `find_last_of('/')`: the position of the last slash, if any. */
  function LastSlash(s: string): (r: Option<nat>)
    ensures r.Some? ==> r.value < |s| && s[r.value] == '/' && forall j :: r.value < j < |s| ==> s[j] != '/'
    ensures r.None? <==> forall j :: 0 <= j < |s| ==> s[j] != '/'
  {
    if |s| == 0 then None
    else if s[|s| - 1] == '/' then Some(|s| - 1)
    else LastSlash(s[..|s| - 1])
  }

  /** The directory of a model path: everything before the last slash, or the
      whole path when it has none (`substr` with `npos` keeps everything). */
  function Directory(path: string): (d: string)
    ensures d <= path
    ensures (forall j :: 0 <= j < |path| ==> path[j] != '/') ==> d == path
    ensures (exists j :: 0 <= j < |path| && path[j] == '/') ==>
              |d| < |path| && path[|d|] == '/' && forall j :: |d| < j < |path| ==> path[j] != '/'
  {
    match LastSlash(path)
    case Some(i) => path[..i]
    case None => path
  }

  /** Joining a directory and a slash-free file name and taking the directory
      back yields the directory. */
  lemma DirectoryOfJoin(dir: string, name: string)
    requires forall j :: 0 <= j < |name| ==> name[j] != '/'
    ensures Directory(dir + "/" + name) == dir
  {
    var p := dir + "/" + name;
    assert p[|dir|] == '/';
    assert forall j :: |dir| < j < |p| ==> p[j] == name[j - |dir| - 1];
    assert p[..|dir|] == dir;
  }

  // ---------------------------------------------------------------------------
  // Scene-graph walk
  // ---------------------------------------------------------------------------

  /** The mesh references of a scene graph in pre-order: a node's own mesh
      indices before those of its children, children in stored order. */
  function MeshRefs(n: AiNode): seq<nat>
    decreases n, |n.children| + 1
  {
    n.meshes + MeshRefsOfChildren(n, 0)
  }

  function MeshRefsOfChildren(n: AiNode, i: nat): seq<nat>
    requires i <= |n.children|
    decreases n, |n.children| - i
  {
    if i == |n.children| then [] else MeshRefs(n.children[i]) + MeshRefsOfChildren(n, i + 1)
  }

  /** Every mesh the walk reaches exists and can be built. */
  predicate RefsBuildable(refs: seq<nat>, scene: AiScene) {
    forall k :: 0 <= k < |refs| ==> refs[k] < |scene.meshes| && Buildable(scene.meshes[refs[k]], scene)
  }

  lemma RefsBuildablePrefix(refs: seq<nat>, n: nat, scene: AiScene)
    requires RefsBuildable(refs, scene) && n <= |refs|
    ensures RefsBuildable(refs[..n], scene)
  {
    forall k | 0 <= k < n
      ensures refs[..n][k] < |scene.meshes| && Buildable(scene.meshes[refs[..n][k]], scene)
    {
      assert refs[..n][k] == refs[k];
    }
  }

  /** The meshes built so far and the model's texture cache. */
  datatype Walk = Walk(meshes: seq<Mesh>, loaded: seq<TextureInfo>)

  /** Builds the meshes for a list of mesh references, in order, through one cache. */
  function BuildMeshes(w: Walk, refs: seq<nat>, scene: AiScene, directory: string, load: string -> nat): (r: Walk)
    requires RefsBuildable(refs, scene)
    ensures |r.meshes| == |w.meshes| + |refs| && r.meshes[..|w.meshes|] == w.meshes
    ensures w.loaded <= r.loaded
    decreases |refs|
  {
    if |refs| == 0 then w
    else
      RefsBuildablePrefix(refs, |refs| - 1, scene);
      var prev := BuildMeshes(w, refs[..|refs| - 1], scene, directory, load);
      var built := MeshInit(scene.meshes[refs[|refs| - 1]], scene, prev.loaded, directory, load);
      Walk(prev.meshes + [built.mesh], built.loaded)
  }

  /** `mesh` carries the vertices and indices of the importer mesh `src`. */
  predicate SameGeometry(mesh: Mesh, src: AiMesh) {
    AttributesCover(src) && mesh.vertices == ExtractVertices(src) && mesh.indices == Flatten(src.faces)
  }

  /** The last mesh of a run is built from the last reference with the cache
      the earlier ones left behind. */
  lemma LastBuilt(w: Walk, refs: seq<nat>, scene: AiScene, directory: string, load: string -> nat)
    requires RefsBuildable(refs, scene) && |refs| > 0
    ensures var n := |refs| - 1;
            SameGeometry(BuildMeshes(w, refs, scene, directory, load).meshes[|w.meshes| + n], scene.meshes[refs[n]])
  {
  }

  /** Mesh `k` built from a reference list carries the geometry of the `k`-th referenced mesh. */
  lemma {:induction false} BuildMeshesGeometry(w: Walk, refs: seq<nat>, scene: AiScene, directory: string, load: string -> nat, k: nat)
    requires RefsBuildable(refs, scene) && k < |refs|
    ensures SameGeometry(BuildMeshes(w, refs, scene, directory, load).meshes[|w.meshes| + k], scene.meshes[refs[k]])
    decreases |refs|
  {
    var n := |refs| - 1;
    if k == n {
      LastBuilt(w, refs, scene, directory, load);
    } else {
      var prev := BuildMeshes(w, refs[..n], scene, directory, load);
      var r := BuildMeshes(w, refs, scene, directory, load);
      BuildMeshesGeometry(w, refs[..n], scene, directory, load, k);
      assert refs[..n][k] == refs[k];
      assert r.meshes[..|prev.meshes|] == prev.meshes;
      assert r.meshes[|w.meshes| + k] == prev.meshes[|w.meshes| + k];
    }
  }

  /** Building meshes never caches a texture path twice. */
  lemma {:induction false} BuildMeshesKeepsDistinct(w: Walk, refs: seq<nat>, scene: AiScene, directory: string, load: string -> nat)
    requires RefsBuildable(refs, scene) && DistinctPaths(w.loaded)
    ensures DistinctPaths(BuildMeshes(w, refs, scene, directory, load).loaded)
    decreases |refs|
  {
    if |refs| > 0 {
      var n := |refs| - 1;
      var prev := BuildMeshes(w, refs[..n], scene, directory, load);
      BuildMeshesKeepsDistinct(w, refs[..n], scene, directory, load);
      MeshTexturesFromCache(scene.meshes[refs[n]], scene, prev.loaded, directory, load);
    }
  }

  /** One step of `BuildMeshes`: the last reference is built on top of the rest. */
  lemma BuildMeshesLast(w: Walk, refs: seq<nat>, scene: AiScene, directory: string, load: string -> nat)
    requires RefsBuildable(refs, scene) && |refs| > 0
    ensures RefsBuildable(refs[..|refs| - 1], scene)
    ensures var prev := BuildMeshes(w, refs[..|refs| - 1], scene, directory, load);
            var built := MeshInit(scene.meshes[refs[|refs| - 1]], scene, prev.loaded, directory, load);
            BuildMeshes(w, refs, scene, directory, load) == Walk(prev.meshes + [built.mesh], built.loaded)
  {
    RefsBuildablePrefix(refs, |refs| - 1, scene);
  }

  lemma {:induction false} BuildMeshesAppend(w: Walk, r1: seq<nat>, r2: seq<nat>, scene: AiScene, directory: string, load: string -> nat)
    requires RefsBuildable(r1, scene) && RefsBuildable(r2, scene) && RefsBuildable(r1 + r2, scene)
    ensures BuildMeshes(w, r1 + r2, scene, directory, load) ==
            BuildMeshes(BuildMeshes(w, r1, scene, directory, load), r2, scene, directory, load)
    decreases |r2|
  {
    if |r2| == 0 {
      assert r1 + r2 == r1;
    } else {
      var n := |r2| - 1;
      var full := r1 + r2;
      assert full[..|full| - 1] == r1 + r2[..n];
      assert full[|full| - 1] == r2[n];
      BuildMeshesLast(w, full, scene, directory, load);
      BuildMeshesLast(BuildMeshes(w, r1, scene, directory, load), r2, scene, directory, load);
      BuildMeshesAppend(w, r1, r2[..n], scene, directory, load);
    }
  }


  /** `Model::processNode`: the node's own meshes in mesh-index order, then each child in order. */
  function ProcessNode(w: Walk, node: AiNode, scene: AiScene, directory: string, load: string -> nat): (r: Walk)
    requires RefsBuildable(MeshRefs(node), scene)
    ensures |r.meshes| == |w.meshes| + |MeshRefs(node)| && w.meshes <= r.meshes
    ensures w.loaded <= r.loaded
    decreases node, |node.children| + 1
  {
    assert RefsBuildable(node.meshes, scene) by {
      assert forall k :: 0 <= k < |node.meshes| ==> MeshRefs(node)[k] == node.meshes[k];
    }
    assert RefsBuildable(MeshRefsOfChildren(node, 0), scene) by {
      var own := |node.meshes|;
      assert forall k :: 0 <= k < |MeshRefsOfChildren(node, 0)| ==> MeshRefs(node)[own + k] == MeshRefsOfChildren(node, 0)[k];
    }
    var mid := BuildMeshes(w, node.meshes, scene, directory, load);
    assert w.meshes <= mid.meshes by {
      assert mid.meshes[..|w.meshes|] == w.meshes;
    }
    assert |MeshRefs(node)| == |node.meshes| + |MeshRefsOfChildren(node, 0)|;
    ProcessChildren(mid, node, 0, scene, directory, load)
  }

  function ProcessChildren(w: Walk, node: AiNode, i: nat, scene: AiScene, directory: string, load: string -> nat): (r: Walk)
    requires i <= |node.children| && RefsBuildable(MeshRefsOfChildren(node, i), scene)
    ensures |r.meshes| == |w.meshes| + |MeshRefsOfChildren(node, i)| && w.meshes <= r.meshes
    ensures w.loaded <= r.loaded
    decreases node, |node.children| - i
  {
    if i == |node.children| then w
    else
      var here := MeshRefs(node.children[i]);
      var rest := MeshRefsOfChildren(node, i + 1);
      assert RefsBuildable(here, scene) by {
        assert forall k :: 0 <= k < |here| ==> MeshRefsOfChildren(node, i)[k] == here[k];
      }
      assert RefsBuildable(rest, scene) by {
        assert forall k :: 0 <= k < |rest| ==> MeshRefsOfChildren(node, i)[|here| + k] == rest[k];
      }
      var mid := ProcessNode(w, node.children[i], scene, directory, load);
      var r := ProcessChildren(mid, node, i + 1, scene, directory, load);
      r
  }

  /** The recursive walk builds exactly the meshes of the pre-order reference
      list, in that order, through one cache. */
  lemma {:induction false} ProcessNodeIsPreOrder(w: Walk, node: AiNode, scene: AiScene, directory: string, load: string -> nat)
    requires RefsBuildable(MeshRefs(node), scene)
    ensures ProcessNode(w, node, scene, directory, load) == BuildMeshes(w, MeshRefs(node), scene, directory, load)
    decreases node, |node.children| + 1
  {
    var refs := MeshRefs(node);
    assert RefsBuildable(node.meshes, scene) by {
      assert forall k :: 0 <= k < |node.meshes| ==> refs[k] == node.meshes[k];
    }
    var rest := MeshRefsOfChildren(node, 0);
    assert RefsBuildable(rest, scene) by {
      assert forall k :: 0 <= k < |rest| ==> refs[|node.meshes| + k] == rest[k];
    }
    var mid := BuildMeshes(w, node.meshes, scene, directory, load);
    ProcessChildrenIsPreOrder(mid, node, 0, scene, directory, load);
    BuildMeshesAppend(w, node.meshes, rest, scene, directory, load);
  }

  lemma {:induction false} ProcessChildrenIsPreOrder(w: Walk, node: AiNode, i: nat, scene: AiScene, directory: string, load: string -> nat)
    requires i <= |node.children| && RefsBuildable(MeshRefsOfChildren(node, i), scene)
    ensures ProcessChildren(w, node, i, scene, directory, load) ==
            BuildMeshes(w, MeshRefsOfChildren(node, i), scene, directory, load)
    decreases node, |node.children| - i
  {
    if i < |node.children| {
      var refs := MeshRefsOfChildren(node, i);
      var here := MeshRefs(node.children[i]);
      var rest := MeshRefsOfChildren(node, i + 1);
      assert RefsBuildable(here, scene) by {
        assert forall k :: 0 <= k < |here| ==> refs[k] == here[k];
      }
      assert RefsBuildable(rest, scene) by {
        assert forall k :: 0 <= k < |rest| ==> refs[|here| + k] == rest[k];
      }
      var mid := ProcessNode(w, node.children[i], scene, directory, load);
      ProcessNodeIsPreOrder(w, node.children[i], scene, directory, load);
      ProcessChildrenIsPreOrder(mid, node, i + 1, scene, directory, load);
      BuildMeshesAppend(w, here, rest, scene, directory, load);
    }
  }

  // ---------------------------------------------------------------------------
  // Model
  // ---------------------------------------------------------------------------

  /** The engine's model. The bone-info map is the one clips are loaded against. */
  datatype Model = Model(loaded: seq<TextureInfo>, meshes: seq<Mesh>, boneInfoMap: BoneInfoMap, vao: nat, shader: nat)

  /** The value-initialised model returned when the import fails. */
  const EmptyModel := Model([], [], map[], 0, 0)

  /** The import succeeded: a scene, not flagged incomplete, with a root node. */
  predicate Imported(scene: Option<AiScene>) {
    scene.Some? && !scene.value.incomplete && scene.value.root.Some?
  }

  /** Every mesh reference of an imported scene's graph can be built. */
  predicate WellFormed(scene: Option<AiScene>) {
    Imported(scene) ==> RefsBuildable(MeshRefs(scene.value.root.value), scene.value)
  }

  /** `Model::init` on the importer's result for `path`. */
  function Init(scene: Option<AiScene>, path: string, vao: nat, shader: nat, load: string -> nat): (r: Model)
    requires WellFormed(scene)
    ensures !Imported(scene) ==> r == EmptyModel
    ensures Imported(scene) ==>
              && r.vao == vao && r.shader == shader && r.boneInfoMap == map[]
              && |r.meshes| == |MeshRefs(scene.value.root.value)|
  {
    if !Imported(scene) then EmptyModel
    else
      var root := scene.value.root.value;
      var w := ProcessNode(Walk([], []), root, scene.value, Directory(path), load);
      ProcessNodeIsPreOrder(Walk([], []), root, scene.value, Directory(path), load);
      Model(w.loaded, w.meshes, map[], vao, shader)
  }

  /** Mesh `k` of a loaded model carries the geometry of the `k`-th mesh
      reference of the scene graph in pre-order. */
  lemma InitMeshGeometry(scene: Option<AiScene>, path: string, vao: nat, shader: nat, load: string -> nat, k: nat)
    requires WellFormed(scene) && Imported(scene)
    requires k < |MeshRefs(scene.value.root.value)|
    ensures SameGeometry(Init(scene, path, vao, shader, load).meshes[k],
                         scene.value.meshes[MeshRefs(scene.value.root.value)[k]])
  {
    var root := scene.value.root.value;
    ProcessNodeIsPreOrder(Walk([], []), root, scene.value, Directory(path), load);
    BuildMeshesGeometry(Walk([], []), MeshRefs(root), scene.value, Directory(path), load, k);
  }

  /** A loaded model's texture cache holds every path at most once: no texture
      file is loaded twice for one model. */
  lemma InitCacheDistinct(scene: Option<AiScene>, path: string, vao: nat, shader: nat, load: string -> nat)
    requires WellFormed(scene)
    ensures DistinctPaths(Init(scene, path, vao, shader, load).loaded)
  {
    if Imported(scene) {
      var root := scene.value.root.value;
      ProcessNodeIsPreOrder(Walk([], []), root, scene.value, Directory(path), load);
      BuildMeshesKeepsDistinct(Walk([], []), MeshRefs(root), scene.value, Directory(path), load);
    }
  }
}
