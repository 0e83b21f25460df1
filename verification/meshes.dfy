/**
  Mesh import: vertices and indices copied from an importer mesh, and the
  per-model texture cache that loads each texture path at most once.
 */
module Meshes {
  import opened Opt
  import opened Glm
  import opened Assimp
  import opened Types

  // ---------------------------------------------------------------------------
  // Vertices
  // ---------------------------------------------------------------------------

  predicate HasNormals(m: AiMesh) {
    m.normals.Some?
  }

  predicate HasTexCoords(m: AiMesh) {
    m.texCoords.Some?
  }

  /** The importer reports tangents only together with bitangents. */
  predicate HasTangentsAndBitangents(m: AiMesh) {
    m.tangents.Some? && m.bitangents.Some?
  }

  /** Every attribute array the mesh provides has an entry per vertex. */
  predicate AttributesCover(m: AiMesh) {
    && (HasNormals(m) ==> |m.normals.value| >= |m.vertices|)
    && (HasTexCoords(m) ==> |m.texCoords.value| >= |m.vertices|)
    && (HasTangentsAndBitangents(m) ==>
          |m.tangents.value| >= |m.vertices| && |m.bitangents.value| >= |m.vertices|)
  }

  /** Vertex `i`: a value-initialised vertex with the attributes the mesh provides filled in. */
  function VertexOf(m: AiMesh, i: nat): Vertex
    requires AttributesCover(m) && i < |m.vertices|
  {
    Vertex(
      FromAiVec3(m.vertices[i]),
      if HasNormals(m) then FromAiVec3(m.normals.value[i]) else Zero3,
      if HasTexCoords(m) then Vec2(m.texCoords.value[i].x, m.texCoords.value[i].y) else Zero2,
      if HasTangentsAndBitangents(m) then FromAiVec3(m.tangents.value[i]) else Zero3,
      if HasTangentsAndBitangents(m) then FromAiVec3(m.bitangents.value[i]) else Zero3,
      ZeroVertex.boneIds,
      ZeroVertex.weights)
  }

  /** The vertex loop of `Mesh::init`. */
  function ExtractVertices(m: AiMesh): (vs: seq<Vertex>)
    requires AttributesCover(m)
    ensures |vs| == |m.vertices|
    ensures forall i :: 0 <= i < |vs| ==> vs[i].pos == FromAiVec3(m.vertices[i])
    ensures forall i :: 0 <= i < |vs| ==>
              vs[i].norm == (if HasNormals(m) then FromAiVec3(m.normals.value[i]) else Zero3)
    ensures forall i :: 0 <= i < |vs| ==>
              vs[i].tex == (if HasTexCoords(m) then Vec2(m.texCoords.value[i].x, m.texCoords.value[i].y) else Zero2)
    ensures forall i :: 0 <= i < |vs| ==>
              && vs[i].tan == (if HasTangentsAndBitangents(m) then FromAiVec3(m.tangents.value[i]) else Zero3)
              && vs[i].bitan == (if HasTangentsAndBitangents(m) then FromAiVec3(m.bitangents.value[i]) else Zero3)
    ensures forall i :: 0 <= i < |vs| ==> vs[i].boneIds == ZeroVertex.boneIds && vs[i].weights == ZeroVertex.weights
  {
    seq(|m.vertices|, i requires 0 <= i < |m.vertices| => VertexOf(m, i))
  }

  // ---------------------------------------------------------------------------
  // Indices
  // ---------------------------------------------------------------------------

  /** Total number of indices over a face list. */
  function IndexCount(faces: seq<seq<nat>>): nat {
    if |faces| == 0 then 0 else |faces[0]| + IndexCount(faces[1..])
  }

  /** Where face `f`'s indices start in the flattened list. */
  function FaceOffset(faces: seq<seq<nat>>, f: nat): nat
    requires f <= |faces|
  {
    if f == 0 then 0 else |faces[0]| + FaceOffset(faces[1..], f - 1)
  }

  /** The index loop of `Mesh::init`: each face's indices in face order. */
  function Flatten(faces: seq<seq<nat>>): (r: seq<nat>)
    ensures |r| == IndexCount(faces)
  {
    if |faces| == 0 then [] else faces[0] + Flatten(faces[1..])
  }

  /** Index `j` of face `f` sits at position `FaceOffset(faces, f) + j`. */
  lemma {:induction false} FlattenIndex(faces: seq<seq<nat>>, f: nat, j: nat)
    requires f < |faces| && j < |faces[f]|
    ensures FaceOffset(faces, f) + j < |Flatten(faces)|
    ensures Flatten(faces)[FaceOffset(faces, f) + j] == faces[f][j]
  {
    if f > 0 {
      FlattenIndex(faces[1..], f - 1, j);
    }
  }

  /** Flattening distributes over concatenation of face lists. */
  lemma {:induction false} FlattenAppend(a: seq<seq<nat>>, b: seq<seq<nat>>)
    ensures Flatten(a + b) == Flatten(a) + Flatten(b)
  {
    if |a| == 0 {
      assert a + b == b;
    } else {
      assert (a + b)[1..] == a[1..] + b;
      FlattenAppend(a[1..], b);
    }
  }

  // ---------------------------------------------------------------------------
  // Texture cache
  // ---------------------------------------------------------------------------

  /** A texture object id and the kind it was loaded as. */
  datatype Texture = Texture(id: nat, ty: TextureType)

  /** A cache entry: a loaded texture and the material path it was loaded for. */
  datatype TextureInfo = TextureInfo(texture: Texture, path: string)

  /** One material texture to load: its relative path and the pass that asks for it. */
  datatype Request = Request(path: string, ty: TextureType)

  /** The mesh's texture list being built and the model-wide cache. */
  datatype TexState = TexState(textures: seq<Texture>, loaded: seq<TextureInfo>)

  /** The requests of one pass: the material's textures of `ty`, in material order. */
  function Requests(mat: AiMaterial, ty: TextureType): (rs: seq<Request>)
    ensures |rs| == |TexturePaths(mat, ty)|
    ensures forall k :: 0 <= k < |rs| ==> rs[k] == Request(TexturePaths(mat, ty)[k], ty)
  {
    var paths := TexturePaths(mat, ty);
    seq(|paths|, k requires 0 <= k < |paths| => Request(paths[k], ty))
  }

  /** The cache scan: the first entry whose path equals `path`. */
  function FindLoaded(loaded: seq<TextureInfo>, path: string): (r: Option<nat>)
    ensures r.Some? ==> r.value < |loaded| && loaded[r.value].path == path
                        && forall j :: 0 <= j < r.value ==> loaded[j].path != path
    ensures r.None? <==> forall j :: 0 <= j < |loaded| ==> loaded[j].path != path
  {
    var keys := seq(|loaded|, k requires 0 <= k < |loaded| => loaded[k].path);
    assert forall j :: 0 <= j < |loaded| ==> keys[j] == loaded[j].path;
    FirstIndex(keys, path)
  }

  /** `t` is what the cache answers for `path`. */
  predicate Cached(loaded: seq<TextureInfo>, path: string, t: Texture) {
    match FindLoaded(loaded, path)
    case Some(j) => loaded[j].texture == t
    case None => false
  }

  /** The entry a miss creates: the texture file under the model's directory,
      tagged with the pass's type and keyed by the material path. */
  function Fresh(req: Request, directory: string, load: string -> nat): TextureInfo {
    TextureInfo(Texture(load(directory + "/" + req.path), req.ty), req.path)
  }

  /** One iteration of `loadMaterialTextures`: reuse the cached texture, or load and cache it. */
  function LoadOne(s: TexState, req: Request, directory: string, load: string -> nat): (r: TexState)
    ensures |r.textures| == |s.textures| + 1 && r.textures[..|s.textures|] == s.textures
    ensures Cached(r.loaded, req.path, r.textures[|s.textures|])
    ensures FindLoaded(s.loaded, req.path).Some? ==> r.loaded == s.loaded
    ensures FindLoaded(s.loaded, req.path).None? ==> r.loaded == s.loaded + [Fresh(req, directory, load)]
  {
    match FindLoaded(s.loaded, req.path)
    case Some(j) => TexState(s.textures + [s.loaded[j].texture], s.loaded)
    case None =>
      var info := Fresh(req, directory, load);
      var r := TexState(s.textures + [info.texture], s.loaded + [info]);
      assert r.loaded[|s.loaded|].path == req.path;
      r
  }

  /** A run of requests, in order, through the same cache. */
  function LoadAll(s: TexState, reqs: seq<Request>, directory: string, load: string -> nat): (r: TexState)
    ensures |r.textures| == |s.textures| + |reqs| && r.textures[..|s.textures|] == s.textures
    ensures s.loaded <= r.loaded && |r.loaded| <= |s.loaded| + |reqs|
    decreases |reqs|
  {
    if |reqs| == 0 then s
    else LoadOne(LoadAll(s, reqs[..|reqs| - 1], directory, load), reqs[|reqs| - 1], directory, load)
  }

  /** `loadMaterialTextures`: one pass over the material's textures of type `ty`. */
  function LoadMaterialTextures(s: TexState, mat: AiMaterial, ty: TextureType, directory: string, load: string -> nat): (r: TexState)
    ensures |r.textures| == |s.textures| + |TexturePaths(mat, ty)| && r.textures[..|s.textures|] == s.textures
    ensures s.loaded <= r.loaded && |r.loaded| <= |s.loaded| + |TexturePaths(mat, ty)|
  {
    LoadAll(s, Requests(mat, ty), directory, load)
  }

  /** A cache answer survives appending more entries to the cache. */
  lemma CachedExtends(a: seq<TextureInfo>, b: seq<TextureInfo>, path: string, t: Texture)
    requires a <= b && Cached(a, path, t)
    ensures Cached(b, path, t)
  {
    var j := FindLoaded(a, path).value;
    assert b[j] == a[j];
  }

  /** Texture `k` of a run is the cache's entry for request `k`'s path. */
  lemma {:induction false} LoadAllCached(s: TexState, reqs: seq<Request>, directory: string, load: string -> nat, k: nat)
    requires k < |reqs|
    ensures var r := LoadAll(s, reqs, directory, load);
            Cached(r.loaded, reqs[k].path, r.textures[|s.textures| + k])
    decreases |reqs|
  {
    var n := |reqs| - 1;
    var mid := LoadAll(s, reqs[..n], directory, load);
    LoadAllLast(s, reqs, directory, load);
    if k < n {
      LoadAllCached(s, reqs[..n], directory, load, k);
      assert reqs[..n][k] == reqs[k];
      LoadOneKeepsCached(mid, reqs[n], directory, load, |s.textures| + k, reqs[k].path);
    } else {
      assert |mid.textures| == |s.textures| + k;
    }
  }

  /** One step of `LoadAll`: the last request is served on top of the rest. */
  lemma LoadAllLast(s: TexState, reqs: seq<Request>, directory: string, load: string -> nat)
    requires |reqs| > 0
    ensures LoadAll(s, reqs, directory, load)
            == LoadOne(LoadAll(s, reqs[..|reqs| - 1], directory, load), reqs[|reqs| - 1], directory, load)
  {
  }

  /** One more request keeps every earlier texture and its cache entry. */
  lemma LoadOneKeepsCached(s: TexState, req: Request, directory: string, load: string -> nat, i: nat, path: string)
    requires i < |s.textures| && Cached(s.loaded, path, s.textures[i])
    ensures var r := LoadOne(s, req, directory, load);
            r.textures[i] == s.textures[i] && Cached(r.loaded, path, r.textures[i])
  {
    var r := LoadOne(s, req, directory, load);
    assert r.textures[i] == r.textures[..|s.textures|][i];
    CachedExtends(s.loaded, r.loaded, path, s.textures[i]);
  }

  /** Every entry a run adds is the fresh entry of one of its requests. */
  lemma {:induction false} LoadAllNewEntries(s: TexState, reqs: seq<Request>, directory: string, load: string -> nat, j: nat)
    requires |s.loaded| <= j < |LoadAll(s, reqs, directory, load).loaded|
    ensures exists k :: 0 <= k < |reqs| && LoadAll(s, reqs, directory, load).loaded[j] == Fresh(reqs[k], directory, load)
    decreases |reqs|
  {
    var n := |reqs| - 1;
    var mid := LoadAll(s, reqs[..n], directory, load);
    var r := LoadAll(s, reqs, directory, load);
    if j < |mid.loaded| {
      LoadAllNewEntries(s, reqs[..n], directory, load, j);
      var k :| 0 <= k < n && mid.loaded[j] == Fresh(reqs[..n][k], directory, load);
      assert r.loaded[j] == mid.loaded[j];
      assert reqs[..n][k] == reqs[k];
    } else {
      assert r.loaded[j] == Fresh(reqs[n], directory, load);
    }
  }

  /** The cache's paths are pairwise distinct. */
  ghost predicate DistinctPaths(loaded: seq<TextureInfo>) {
    forall i, j :: 0 <= i < j < |loaded| ==> loaded[i].path != loaded[j].path
  }

  /** A run never caches a path twice. */
  lemma {:induction false} LoadAllKeepsDistinct(s: TexState, reqs: seq<Request>, directory: string, load: string -> nat)
    requires DistinctPaths(s.loaded)
    ensures DistinctPaths(LoadAll(s, reqs, directory, load).loaded)
    decreases |reqs|
  {
    if |reqs| > 0 {
      LoadAllKeepsDistinct(s, reqs[..|reqs| - 1], directory, load);
    }
  }

  /** Running the requests again through the cache they produced loads nothing new. */
  lemma {:induction false} ReloadHitsCache(s: TexState, reqs: seq<Request>, directory: string, load: string -> nat, textures: seq<Texture>)
    ensures var first := LoadAll(s, reqs, directory, load);
            LoadAll(TexState(textures, first.loaded), reqs, directory, load).loaded == first.loaded
  {
    var first := LoadAll(s, reqs, directory, load);
    forall k | 0 <= k < |reqs|
      ensures FindLoaded(first.loaded, reqs[k].path).Some?
    {
      LoadAllCached(s, reqs, directory, load, k);
    }
    AllHitsKeepCache(TexState(textures, first.loaded), reqs, directory, load);
  }

  lemma {:induction false} AllHitsKeepCache(s: TexState, reqs: seq<Request>, directory: string, load: string -> nat)
    requires forall k :: 0 <= k < |reqs| ==> FindLoaded(s.loaded, reqs[k].path).Some?
    ensures LoadAll(s, reqs, directory, load).loaded == s.loaded
    decreases |reqs|
  {
    if |reqs| > 0 {
      var n := |reqs| - 1;
      var front := reqs[..n];
      forall k | 0 <= k < n
        ensures FindLoaded(s.loaded, front[k].path).Some?
      {
        assert front[k] == reqs[k];
      }
      AllHitsKeepCache(s, front, directory, load);
      var mid := LoadAll(s, front, directory, load);
      assert FindLoaded(mid.loaded, reqs[n].path).Some?;
    }
  }

  /** Running two request lists one after the other is running their concatenation. */
  lemma {:induction false} LoadAllAppend(s: TexState, r1: seq<Request>, r2: seq<Request>, directory: string, load: string -> nat)
    ensures LoadAll(s, r1 + r2, directory, load) == LoadAll(LoadAll(s, r1, directory, load), r2, directory, load)
    decreases |r2|
  {
    if |r2| == 0 {
      assert r1 + r2 == r1;
    } else {
      var n := |r2| - 1;
      assert (r1 + r2)[..|r1 + r2| - 1] == r1 + r2[..n];
      LoadAllAppend(s, r1, r2[..n], directory, load);
    }
  }

  // ---------------------------------------------------------------------------
  // Mesh
  // ---------------------------------------------------------------------------

  /** The engine's mesh; its vertex and index buffer objects are not modelled. */
  datatype Mesh = Mesh(vertices: seq<Vertex>, indices: seq<nat>, textures: seq<Texture>)

  /** A built mesh and the model's cache after building it. */
  datatype MeshLoad = MeshLoad(mesh: Mesh, loaded: seq<TextureInfo>)

  /** All texture requests of a material, in pass order: diffuse, specular, normals, height. */
  function MaterialRequests(mat: AiMaterial): seq<Request> {
    Requests(mat, Diffuse) + Requests(mat, Specular) + Requests(mat, Normals) + Requests(mat, Height)
  }

  /** The four texture passes of `Mesh::init`, each appending to the same list. */
  function MeshTextures(loaded: seq<TextureInfo>, mat: AiMaterial, directory: string, load: string -> nat): (r: TexState)
    ensures |r.textures| == |MaterialRequests(mat)|
    ensures loaded <= r.loaded
  {
    var s0 := TexState([], loaded);
    var s1 := LoadMaterialTextures(s0, mat, Diffuse, directory, load);
    var s2 := LoadMaterialTextures(s1, mat, Specular, directory, load);
    var s3 := LoadMaterialTextures(s2, mat, Normals, directory, load);
    var s4 := LoadMaterialTextures(s3, mat, Height, directory, load);
    assert |s4.textures| == |Requests(mat, Diffuse)| + |Requests(mat, Specular)|
                            + |Requests(mat, Normals)| + |Requests(mat, Height)|;
    s4
  }

  /** The four passes behave as one run over the requests in pass order. */
  lemma PassesAreOneRun(loaded: seq<TextureInfo>, mat: AiMaterial, directory: string, load: string -> nat)
    ensures MeshTextures(loaded, mat, directory, load) == LoadAll(TexState([], loaded), MaterialRequests(mat), directory, load)
  {
    var s0 := TexState([], loaded);
    var d, sp, n, h := Requests(mat, Diffuse), Requests(mat, Specular), Requests(mat, Normals), Requests(mat, Height);
    LoadAllAppend(s0, d, sp, directory, load);
    LoadAllAppend(s0, d + sp, n, directory, load);
    LoadAllAppend(s0, d + sp + n, h, directory, load);
  }

  /** Mesh `m` can be built from `scene`: its material exists and its attributes cover its vertices. */
  predicate Buildable(m: AiMesh, scene: AiScene) {
    m.materialIndex < |scene.materials| && AttributesCover(m)
  }

  /** `Mesh::init` without the buffer uploads. */
  function MeshInit(m: AiMesh, scene: AiScene, loaded: seq<TextureInfo>, directory: string, load: string -> nat): (r: MeshLoad)
    requires Buildable(m, scene)
    ensures r.mesh.vertices == ExtractVertices(m)
    ensures r.mesh.indices == Flatten(m.faces)
    ensures |r.mesh.textures| == |MaterialRequests(scene.materials[m.materialIndex])|
    ensures loaded <= r.loaded
  {
    var t := MeshTextures(loaded, scene.materials[m.materialIndex], directory, load);
    MeshLoad(Mesh(ExtractVertices(m), Flatten(m.faces), t.textures), t.loaded)
  }

  /** What a run guarantees: texture `k` is the cache's entry for request `k`'s
      path, every entry the run adds is the fresh entry of one of its requests,
      and the cache keeps distinct paths if it had them. */
  ghost predicate RunFacts(s: TexState, reqs: seq<Request>, directory: string, load: string -> nat, r: TexState)
    requires |r.textures| == |s.textures| + |reqs|
  {
    && (forall k :: 0 <= k < |reqs| ==> Cached(r.loaded, reqs[k].path, r.textures[|s.textures| + k]))
    && (forall j :: |s.loaded| <= j < |r.loaded| ==>
          exists k :: 0 <= k < |reqs| && r.loaded[j] == Fresh(reqs[k], directory, load))
    && (DistinctPaths(s.loaded) ==> DistinctPaths(r.loaded))
  }

  lemma LoadAllFacts(s: TexState, reqs: seq<Request>, directory: string, load: string -> nat)
    ensures RunFacts(s, reqs, directory, load, LoadAll(s, reqs, directory, load))
  {
    var r := LoadAll(s, reqs, directory, load);
    forall k | 0 <= k < |reqs|
      ensures Cached(r.loaded, reqs[k].path, r.textures[|s.textures| + k])
    {
      LoadAllCached(s, reqs, directory, load, k);
    }
    forall j | |s.loaded| <= j < |r.loaded|
      ensures exists k :: 0 <= k < |reqs| && r.loaded[j] == Fresh(reqs[k], directory, load)
    {
      LoadAllNewEntries(s, reqs, directory, load, j);
    }
    if DistinctPaths(s.loaded) {
      LoadAllKeepsDistinct(s, reqs, directory, load);
    }
  }

  /** The textures of a built mesh: texture `k` is the cache's entry for the
      `k`-th path of its material in pass order; every entry the build adds was
      loaded from the model directory for one of those requests; the cache
      keeps distinct paths. */
  lemma MeshTexturesFromCache(m: AiMesh, scene: AiScene, loaded: seq<TextureInfo>, directory: string, load: string -> nat)
    requires Buildable(m, scene)
    ensures var r := MeshInit(m, scene, loaded, directory, load);
            RunFacts(TexState([], loaded), MaterialRequests(scene.materials[m.materialIndex]), directory, load,
                     TexState(r.mesh.textures, r.loaded))
  {
    var mat := scene.materials[m.materialIndex];
    PassesAreOneRun(loaded, mat, directory, load);
    LoadAllFacts(TexState([], loaded), MaterialRequests(mat), directory, load);
  }

  // ---------------------------------------------------------------------------
  // Drawing
  // ---------------------------------------------------------------------------

  /** The sampler uniform location `Mesh::draw` binds a texture of kind `ty` to. */
  function SamplerSlot(ty: TextureType): (loc: nat)
    ensures loc < 4
  {
    match ty
    case Diffuse => 0
    case Specular => 1
    case Normals => 2
    case Height => 3
    case OtherTexture(_) => 0
  }

  /** Slot 0 is shared by diffuse and every unrecognised kind; slots 1-3 each
      belong to exactly one kind. */
  lemma SamplerSlotInverse(ty: TextureType)
    ensures SamplerSlot(ty) == 0 <==> ty == Diffuse || ty.OtherTexture?
    ensures SamplerSlot(ty) == 1 <==> ty == Specular
    ensures SamplerSlot(ty) == 2 <==> ty == Normals
    ensures SamplerSlot(ty) == 3 <==> ty == Height
  {
  }

  /** One iteration of the draw loop: texture unit `unit` gets texture `id`, and
      sampler location `loc` is pointed at that unit. */
  datatype Binding = Binding(unit: nat, id: nat, loc: nat)

  function Bindings(textures: seq<Texture>): (bs: seq<Binding>)
    ensures |bs| == |textures|
    ensures forall i :: 0 <= i < |bs| ==> bs[i].unit == i && bs[i].id == textures[i].id
    ensures forall i :: 0 <= i < |bs| ==> bs[i].loc == SamplerSlot(textures[i].ty)
  {
    seq(|textures|, i requires 0 <= i < |textures| => Binding(i, textures[i].id, SamplerSlot(textures[i].ty)))
  }

  /** The unit a sampler location ends up pointing at: the last binding for it wins. */
  function FinalUnit(bs: seq<Binding>, loc: nat): (r: Option<nat>)
    ensures r.Some? ==> exists i :: 0 <= i < |bs| && bs[i].loc == loc && bs[i].unit == r.value
  {
    if |bs| == 0 then None
    else if bs[|bs| - 1].loc == loc then Some(bs[|bs| - 1].unit)
    else FinalUnit(bs[..|bs| - 1], loc)
  }

  /** With two textures that share a sampler location (two of the same kind, or
      a diffuse and an unrecognised one), the first is never sampled: the
      location ends up pointing at the later unit or one after it. */
  lemma {:induction false} LaterSameKindWins(textures: seq<Texture>, i: nat, j: nat)
    requires i < j < |textures| && SamplerSlot(textures[i].ty) == SamplerSlot(textures[j].ty)
    ensures var last := FinalUnit(Bindings(textures), SamplerSlot(textures[i].ty));
            last.Some? && j <= last.value < |textures| && last != Some(i)
  {
    LastBindingAtLeast(Bindings(textures), j, SamplerSlot(textures[i].ty));
  }

  lemma {:induction false} LastBindingAtLeast(bs: seq<Binding>, j: nat, loc: nat)
    requires j < |bs| && bs[j].loc == loc
    requires forall i :: 0 <= i < |bs| ==> bs[i].unit == i
    ensures FinalUnit(bs, loc).Some? && FinalUnit(bs, loc).value >= j
  {
    if bs[|bs| - 1].loc != loc {
      var p := bs[..|bs| - 1];
      assert p[j] == bs[j];
      LastBindingAtLeast(p, j, loc);
    }
  }
}
