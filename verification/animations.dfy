/**
  Clip import: the skeleton hierarchy copied from the scene graph, one bone per
  animation channel, and the first-seen slot assignment in the shared bone-info map.
 */
module Animations {
  import opened Opt
  import opened Glm
  import opened Assimp
  import opened Types
  import Bones

  // ---------------------------------------------------------------------------
  // Skeleton hierarchy
  // ---------------------------------------------------------------------------

  /** `AssimpNode`: a named node, its bind-time local transform and its children. */
  datatype Node = Node(transform: Mat, name: string, children: seq<Node>)

  /** `r` has the shape of `src`: same name, converted transform, and the same
      number of children, each mirroring its counterpart, in the same order. */
  ghost predicate Mirrors(r: Node, src: AiNode)
    decreases src
  {
    && r.name == src.name
    && r.transform == FromAi(src.transformation)
    && |r.children| == |src.children|
    && forall i :: 0 <= i < |src.children| ==> Mirrors(r.children[i], src.children[i])
  }

  /** `AssimpNode::init`: copies the scene graph recursively. */
  function NodeFromAssimp(src: AiNode): (r: Node)
    ensures Mirrors(r, src)
    decreases src
  {
    Node(FromAi(src.transformation), src.name,
         seq(|src.children|, i requires 0 <= i < |src.children| => NodeFromAssimp(src.children[i])))
  }

  /** Pre-order list of the node names of a hierarchy. */
  function Names(n: Node): (r: seq<string>)
    ensures |r| >= 1 && r[0] == n.name
    decreases n, |n.children| + 1
  {
    [n.name] + NamesOfChildren(n, 0)
  }

  function NamesOfChildren(n: Node, i: nat): seq<string>
    requires i <= |n.children|
    decreases n, |n.children| - i
  {
    if i == |n.children| then [] else Names(n.children[i]) + NamesOfChildren(n, i + 1)
  }

  /** Pre-order list of the node names of a scene graph. */
  function AiNames(n: AiNode): (r: seq<string>)
    decreases n, |n.children| + 1
  {
    [n.name] + AiNamesOfChildren(n, 0)
  }

  function AiNamesOfChildren(n: AiNode, i: nat): seq<string>
    requires i <= |n.children|
    decreases n, |n.children| - i
  {
    if i == |n.children| then [] else AiNames(n.children[i]) + AiNamesOfChildren(n, i + 1)
  }

  /** A mirrored hierarchy lists the same names in the same pre-order as its source. */
  lemma {:induction false} MirrorKeepsPreOrder(r: Node, src: AiNode)
    requires Mirrors(r, src)
    ensures Names(r) == AiNames(src)
    decreases src, |src.children| + 1
  {
    MirrorKeepsPreOrderFrom(r, src, 0);
  }

  lemma {:induction false} MirrorKeepsPreOrderFrom(r: Node, src: AiNode, i: nat)
    requires Mirrors(r, src) && i <= |src.children|
    ensures NamesOfChildren(r, i) == AiNamesOfChildren(src, i)
    decreases src, |src.children| - i
  {
    if i < |src.children| {
      MirrorKeepsPreOrder(r.children[i], src.children[i]);
      MirrorKeepsPreOrderFrom(r, src, i + 1);
    }
  }

  // ---------------------------------------------------------------------------
  // Bone slots
  // ---------------------------------------------------------------------------

  /** Slots are dense: every id lies in [0, |m|) and no two names share one,
      so the ids are exactly 0 .. |m| - 1. */
  ghost predicate Dense(m: BoneInfoMap) {
    && (forall k :: k in m ==> 0 <= m[k].id < |m|)
    && (forall k1, k2 :: k1 in m && k2 in m && k1 != k2 ==> m[k1].id != m[k2].id)
  }

  /** `m2` keeps every entry of `m1` unchanged (it may add more). */
  ghost predicate Extends(m1: BoneInfoMap, m2: BoneInfoMap) {
    forall k :: k in m1 ==> k in m2 && m2[k] == m1[k]
  }

  /** First-seen slot assignment for one channel name. */
  function AssignSlot(m: BoneInfoMap, name: string): (r: BoneInfoMap)
    ensures Extends(m, r)
    ensures r.Keys == m.Keys + {name}
    ensures name !in m ==> r[name].id == |m| && |r| == |m| + 1
  {
    if name in m then m else m[name := BoneInfo(|m|, DefaultMat)]
  }

  /** The channel names of a channel list, as a set. */
  function ChannelNames(chs: seq<AiNodeAnim>): set<string>
    decreases |chs|
  {
    if |chs| == 0 then {} else {chs[0].nodeName} + ChannelNames(chs[1..])
  }

  /** A name is a channel name exactly when some channel carries it. */
  lemma {:induction false} ChannelNamesMembers(chs: seq<AiNodeAnim>, n: string)
    ensures n in ChannelNames(chs) <==> exists i :: 0 <= i < |chs| && chs[i].nodeName == n
    decreases |chs|
  {
    if |chs| > 0 {
      ChannelNamesMembers(chs[1..], n);
      if n in ChannelNames(chs[1..]) {
        var i :| 0 <= i < |chs[1..]| && chs[1..][i].nodeName == n;
        assert chs[i + 1].nodeName == n;
      }
      if exists i :: 0 <= i < |chs| && chs[i].nodeName == n {
        var i :| 0 <= i < |chs| && chs[i].nodeName == n;
        if 0 < i {
          assert chs[1..][i - 1].nodeName == n;
        }
      }
    }
  }

  lemma ChannelNamesCons(chs: seq<AiNodeAnim>)
    requires |chs| > 0
    ensures ChannelNames(chs) == {chs[0].nodeName} + ChannelNames(chs[1..])
  {
  }

  /** The bone list and the grown map after importing `chs` in order. */
  datatype Imported = Imported(bones: seq<Bones.Bone>, infos: BoneInfoMap)

  /** The channel loop of `Animation::init`: one bone per channel, in channel
      order, each carrying the slot of its name in the final map. */
  function ImportBones(m: BoneInfoMap, chs: seq<AiNodeAnim>): (r: Imported)
    ensures |r.bones| == |chs|
    ensures Extends(m, r.infos)
    decreases |chs|
  {
    if |chs| == 0 then Imported([], m)
    else
      var name := chs[0].nodeName;
      var m1 := AssignSlot(m, name);
      var bone := Bones.Init(name, m1[name].id, chs[0]);
      var rest := ImportBones(m1, chs[1..]);
      Imported([bone] + rest.bones, rest.infos)
  }

  /** The map ends up holding the names it held before plus every channel name. */
  lemma {:induction false} ImportedKeys(m: BoneInfoMap, chs: seq<AiNodeAnim>)
    ensures ImportBones(m, chs).infos.Keys == m.Keys + ChannelNames(chs)
    decreases |chs|
  {
    if |chs| > 0 {
      var m1 := AssignSlot(m, chs[0].nodeName);
      assert ImportBones(m, chs).infos == ImportBones(m1, chs[1..]).infos;
      ImportedKeys(m1, chs[1..]);
      ChannelNamesCons(chs);
    }
  }

  /** Bone `i` is built from channel `i`, with the slot its name holds in the
      final map: later channels never move an earlier channel's slot. */
  lemma {:induction false} ImportedBonePerChannel(m: BoneInfoMap, chs: seq<AiNodeAnim>, i: nat)
    requires i < |chs|
    ensures var r := ImportBones(m, chs);
            && chs[i].nodeName in r.infos
            && r.bones[i] == Bones.Init(chs[i].nodeName, r.infos[chs[i].nodeName].id, chs[i])
    decreases |chs|
  {
    var m1 := AssignSlot(m, chs[0].nodeName);
    if 0 < i {
      ImportedBonePerChannel(m1, chs[1..], i - 1);
    } else {
      ImportedKeys(m1, chs[1..]);
    }
  }

  /** First-seen assignment keeps the slots dense. */
  lemma AssignSlotKeepsDense(m: BoneInfoMap, name: string)
    requires Dense(m)
    ensures Dense(AssignSlot(m, name))
  {
  }

  /** Importing channels keeps the slots dense. */
  lemma {:induction false} ImportKeepsDense(m: BoneInfoMap, chs: seq<AiNodeAnim>)
    requires Dense(m)
    ensures Dense(ImportBones(m, chs).infos)
    decreases |chs|
  {
    if |chs| > 0 {
      AssignSlotKeepsDense(m, chs[0].nodeName);
      ImportKeepsDense(AssignSlot(m, chs[0].nodeName), chs[1..]);
    }
  }

  /** Importing a second clip through the same map leaves every slot the first
      clip assigned where it was. */
  lemma SlotsStableAcrossClips(m: BoneInfoMap, clip1: seq<AiNodeAnim>, clip2: seq<AiNodeAnim>, name: string)
    requires name in ChannelNames(clip1)
    ensures var first := ImportBones(m, clip1).infos;
            var second := ImportBones(first, clip2).infos;
            name in first && name in second && second[name].id == first[name].id
  {
    ImportedKeys(m, clip1);
  }

  // ---------------------------------------------------------------------------
  // Clip
  // ---------------------------------------------------------------------------

  datatype Animation = Animation(bones: seq<Bones.Bone>, duration: real, ticksPerSec: real, rootNode: Node)

  /** What `Animation::init` yields: the clip and the shared map after loading. */
  datatype Loaded = Loaded(anim: Animation, infos: BoneInfoMap)

  /** The clip returned when the asset cannot be read: every field value-initialised. */
  const EmptyAnimation := Animation([], 0.0, 0.0, Node(DefaultMat, "", []))

  /** The importer produced a scene with a root node. */
  predicate Readable(scene: Option<AiScene>) {
    scene.Some? && scene.value.root.Some?
  }

  /** `Animation::init` on the importer's result for a file. The first clip of a
      readable scene is read without a check, so a readable scene must hold one. */
  function Init(scene: Option<AiScene>, infos: BoneInfoMap): (r: Loaded)
    requires Readable(scene) ==> |scene.value.animations| > 0
    ensures !Readable(scene) ==> r.anim.bones == [] && r.infos == infos
    ensures Readable(scene) ==>
              var clip := scene.value.animations[0];
              var imported := ImportBones(infos, clip.channels);
              && r.anim.duration == clip.duration
              && r.anim.ticksPerSec == clip.ticksPerSecond
              && Mirrors(r.anim.rootNode, scene.value.root.value)
              && r.anim.bones == imported.bones
              && r.infos == imported.infos
    ensures Extends(infos, r.infos)
  {
    if !Readable(scene) then Loaded(EmptyAnimation, infos)
    else
      var clip := scene.value.animations[0];
      var imported := ImportBones(infos, clip.channels);
      Loaded(Animation(imported.bones, clip.duration, clip.ticksPerSecond, NodeFromAssimp(scene.value.root.value)),
             imported.infos)
  }

  // ---------------------------------------------------------------------------
  // Bone lookup
  // ---------------------------------------------------------------------------

  /** `findBone`: the index of the first bone called `name`, or `None`. */
  function FindBone(bones: seq<Bones.Bone>, name: string): (r: Option<nat>)
    ensures r.Some? ==> r.value < |bones| && bones[r.value].name == name
                        && forall j :: 0 <= j < r.value ==> bones[j].name != name
    ensures r.None? <==> forall j :: 0 <= j < |bones| ==> bones[j].name != name
  {
    var keys := seq(|bones|, k requires 0 <= k < |bones| => bones[k].name);
    assert forall j :: 0 <= j < |bones| ==> keys[j] == bones[j].name;
    FirstIndex(keys, name)
  }
}
