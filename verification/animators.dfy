/**
  The pose evaluator: advances clip time and walks the hierarchy depth first,
  writing `global * offset` into the palette slot of every mapped node.
 */
module Animators {
  import opened Opt
  import opened Glm
  import opened Types
  import opened Bones
  import opened Animations

  datatype Animator = Animator(boneMatrices: seq<Mat>, currAnim: Animation, currTime: real)

  /** `Animator::init`: a palette of identity matrices and time zero. */
  function Init(anim: Animation): (r: Animator)
    ensures |r.boneMatrices| == MaxBoneMatrices
    ensures forall i :: 0 <= i < |r.boneMatrices| ==> r.boneMatrices[i] == Identity
    ensures r.currTime == 0.0 && r.currAnim == anim
  {
    Animator(seq(MaxBoneMatrices, _ => Identity), anim, 0.0)
  }

  // ---------------------------------------------------------------------------
  // Time
  // ---------------------------------------------------------------------------

  /** Rounds towards zero, as the quotient inside `std::fmod` does. */
  function Trunc(q: real): (n: int)
    ensures 0.0 <= q ==> 0.0 <= q - n as real < 1.0
    ensures q <= 0.0 ==> -1.0 < q - n as real <= 0.0
  {
    if 0.0 <= q then q.Floor else -((-q).Floor)
  }

  /** `std::fmod`: the remainder of `x / y` with the quotient truncated, so it
      has the sign of `x` and a magnitude below `|y|`. */
  function Fmod(x: real, y: real): (r: real)
    requires y != 0.0
    ensures r == x - (Trunc(x / y) as real) * y
  {
    x - (Trunc(x / y) as real) * y
  }

  function Abs(x: real): real {
    if x < 0.0 then -x else x
  }

  /** The remainder is below the divisor in magnitude and never has the
      opposite sign of the dividend. */
  lemma FmodBounds(x: real, y: real)
    requires y != 0.0
    ensures Abs(Fmod(x, y)) < Abs(y)
    ensures 0.0 <= x ==> 0.0 <= Fmod(x, y)
    ensures x <= 0.0 ==> Fmod(x, y) <= 0.0
  {
    if 0.0 < y {
      FmodBoundsPositive(x, y);
    } else {
      FmodBoundsPositive(-x, -y);
      FmodNegate(x, y);
    }
  }

  /** The case of a positive divisor. */
  lemma FmodBoundsPositive(x: real, y: real)
    requires 0.0 < y
    ensures -y < Fmod(x, y) < y
    ensures 0.0 <= x ==> 0.0 <= Fmod(x, y)
    ensures x <= 0.0 ==> Fmod(x, y) <= 0.0
  {
    QuotientTimesDivisor(x, y);
    ScaledFraction(x, x / y, Trunc(x / y) as real, y);
  }

  lemma QuotientTimesDivisor(x: real, y: real)
    requires y != 0.0
    ensures (x / y) * y == x
  {
  }

  /** For `x = q·y` and the truncation `n` of `q`, the remainder `x − n·y` is
      the fractional part of `q` scaled by `y`: strictly inside (−y, y) and with
      the sign of `x`. */
  lemma ScaledFraction(x: real, q: real, n: real, y: real)
    requires 0.0 < y && q * y == x
    requires 0.0 <= q ==> 0.0 <= q - n < 1.0
    requires q <= 0.0 ==> -1.0 < q - n <= 0.0
    ensures -y < x - n * y < y
    ensures 0.0 <= x ==> 0.0 <= x - n * y
    ensures x <= 0.0 ==> x - n * y <= 0.0
  {
    ScaledFractionBounds(x, q, n, y);
    ScaledFractionSign(x, q, n, y);
    SignOfProduct(q, y);
    PositiveProduct(q, y);
  }

  lemma ScaledFractionBounds(x: real, q: real, n: real, y: real)
    requires 0.0 < y && q * y == x && -1.0 < q - n < 1.0
    ensures -y < x - n * y < y
  {
    var d := q - n;
    ScaleBounds(d, y);
    assert d * y == x - n * y;
  }

  lemma ScaledFractionSign(x: real, q: real, n: real, y: real)
    requires 0.0 < y && q * y == x
    ensures 0.0 <= q - n ==> 0.0 <= x - n * y
    ensures q - n <= 0.0 ==> x - n * y <= 0.0
  {
    var d := q - n;
    ScaleSign(d, y);
    assert d * y == x - n * y;
  }

  /** Negating both operands negates the remainder. */
  lemma FmodNegate(x: real, y: real)
    requires y != 0.0
    ensures Fmod(-x, -y) == -Fmod(x, y)
  {
    QuotientOfNegated(x, y);
  }

  lemma QuotientOfNegated(x: real, y: real)
    requires y != 0.0
    ensures (-x) / (-y) == x / y
  {
    var q := x / y;
    assert q * y == x;
    assert q * (-y) == -x;
  }

  /** For `|d| < 1` and `y > 0`, `d * y` lies strictly inside (-y, y). */
  lemma ScaleBounds(d: real, y: real)
    requires -1.0 < d < 1.0 && 0.0 < y
    ensures -y < d * y < y
  {
    StrictProduct(1.0 - d, y);
    StrictProduct(d + 1.0, y);
    assert (1.0 - d) * y == y - d * y;
    assert (d + 1.0) * y == d * y + y;
  }

  /** For `y > 0`, `d * y` has the sign of `d`. */
  lemma ScaleSign(d: real, y: real)
    requires 0.0 < y
    ensures 0.0 <= d ==> 0.0 <= d * y
    ensures d <= 0.0 ==> d * y <= 0.0
  {
    SignOfProduct(d, y);
    SignOfProduct(-d, y);
    assert (-d) * y == -(d * y);
  }

  lemma PositiveProduct(x: real, y: real)
    requires 0.0 < y
    ensures 0.0 < x ==> 0.0 < x * y
  {
    if 0.0 < x {
      StrictProduct(x, y);
    }
  }

  lemma StrictProduct(x: real, y: real)
    requires 0.0 < x && 0.0 < y
    ensures 0.0 < x * y
  {
  }

  /** The unwrapped clip time after `dt` seconds at the clip's tick rate. */
  function Elapsed(a: Animator, dt: real): real {
    a.currTime + a.currAnim.ticksPerSec * dt
  }

  /** The clip time after advancing by `dt` seconds. */
  function NextTime(a: Animator, dt: real): real
    requires a.currAnim.duration != 0.0
  {
    Fmod(Elapsed(a, dt), a.currAnim.duration)
  }

  /** With a positive duration and a non-negative elapsed tick count, the new
      time lies in [0, duration). */
  lemma NextTimeWraps(a: Animator, dt: real)
    requires 0.0 < a.currAnim.duration
    requires 0.0 <= Elapsed(a, dt)
    ensures 0.0 <= NextTime(a, dt) < a.currAnim.duration
  {
    var y := a.currAnim.duration;
    FmodBounds(Elapsed(a, dt), y);
    assert Abs(y) == y;
  }

  // ---------------------------------------------------------------------------
  // Traversal
  // ---------------------------------------------------------------------------

  /** What one evaluation reads: the clip time, the clip's bones and the shared map. */
  datatype Env = Env(t: real, bones: seq<Bone>, infos: BoneInfoMap)

  /** The bone `findBone` returns for `name`, if any, can be sampled at `t`. */
  predicate BoneReadyFor(name: string, bones: seq<Bone>, t: real) {
    match FindBone(bones, name)
    case Some(i) => Ready(bones[i], t)
    case None => true
  }

  /** Every node of the hierarchy can be evaluated: its bone (if it has one)
      can be sampled, and its palette slot (if its name is mapped) is in bounds. */
  ghost predicate Evaluable(node: Node, env: Env, size: nat)
    decreases node
  {
    && BoneReadyFor(node.name, env.bones, env.t)
    && (node.name in env.infos ==> 0 <= env.infos[node.name].id < size)
    && forall i :: 0 <= i < |node.children| ==> Evaluable(node.children[i], env, size)
  }

  /** The node's local transform: its bone's freshly updated transform if the
      clip animates it, its stored bind transform otherwise. */
  function LocalOf(node: Node, env: Env): (m: Mat)
    requires BoneReadyFor(node.name, env.bones, env.t)
    ensures FindBone(env.bones, node.name).Some? ==>
              m == Update(env.bones[FindBone(env.bones, node.name).value], env.t).localTransform
    ensures FindBone(env.bones, node.name).None? ==> m == node.transform
  {
    match FindBone(env.bones, node.name)
    case Some(i) => Update(env.bones[i], env.t).localTransform
    case None => node.transform
  }

  /** `calculateBoneTransform` on `node` with the parent's global transform. */
  function Calc(node: Node, parent: Mat, env: Env, palette: seq<Mat>): (r: seq<Mat>)
    requires Evaluable(node, env, |palette|)
    ensures |r| == |palette|
    decreases node, |node.children| + 1
  {
    var global := Mul(parent, LocalOf(node, env));
    var written :=
      if node.name in env.infos then palette[env.infos[node.name].id := Mul(global, env.infos[node.name].offset)]
      else palette;
    CalcChildren(node, 0, global, env, written)
  }

  /** The children loop of `calculateBoneTransform`, from child `i` on. */
  function CalcChildren(node: Node, i: nat, global: Mat, env: Env, palette: seq<Mat>): (r: seq<Mat>)
    requires i <= |node.children|
    requires forall j :: i <= j < |node.children| ==> Evaluable(node.children[j], env, |palette|)
    ensures |r| == |palette|
    decreases node, |node.children| - i
  {
    if i == |node.children| then palette
    else CalcChildren(node, i + 1, global, env, Calc(node.children[i], global, env, palette))
  }

  // ---------------------------------------------------------------------------
  // Reference definition: collect the writes in pre-order, then apply them
  // ---------------------------------------------------------------------------

  datatype Write = Write(slot: nat, value: Mat)

  /** Every write lands inside a palette of `size` entries. */
  predicate InBounds(ws: seq<Write>, size: nat) {
    forall k :: 0 <= k < |ws| ==> ws[k].slot < size
  }

  /** The palette writes of a subtree in pre-order: the node's own write (if its
      name is mapped) before those of its children, children in stored order. */
  function PreOrderWrites(node: Node, parent: Mat, env: Env, size: nat): (ws: seq<Write>)
    requires Evaluable(node, env, size)
    ensures InBounds(ws, size)
    decreases node, |node.children| + 1
  {
    var global := Mul(parent, LocalOf(node, env));
    var own :=
      if node.name in env.infos then [Write(env.infos[node.name].id as nat, Mul(global, env.infos[node.name].offset))]
      else [];
    own + ChildrenWrites(node, 0, global, env, size)
  }

  function ChildrenWrites(node: Node, i: nat, global: Mat, env: Env, size: nat): (ws: seq<Write>)
    requires i <= |node.children|
    requires forall j :: i <= j < |node.children| ==> Evaluable(node.children[j], env, size)
    ensures InBounds(ws, size)
    decreases node, |node.children| - i
  {
    if i == |node.children| then []
    else PreOrderWrites(node.children[i], global, env, size) + ChildrenWrites(node, i + 1, global, env, size)
  }

  /** Applies the writes in order; a later write to a slot overwrites an earlier one. */
  function ApplyWrites(palette: seq<Mat>, ws: seq<Write>): (r: seq<Mat>)
    requires InBounds(ws, |palette|)
    ensures |r| == |palette|
  {
    if |ws| == 0 then palette
    else
      var last := ws[|ws| - 1];
      ApplyWrites(palette, ws[..|ws| - 1])[last.slot := last.value]
  }

  /** The value of the last write to `slot`, if any. */
  function LastWrite(ws: seq<Write>, slot: nat): Option<Mat> {
    if |ws| == 0 then None
    else if ws[|ws| - 1].slot == slot then Some(ws[|ws| - 1].value)
    else LastWrite(ws[..|ws| - 1], slot)
  }

  /** After the writes, a slot holds its last written value, or its old value
      when nothing wrote it. */
  lemma {:induction false} ApplyWritesSlot(palette: seq<Mat>, ws: seq<Write>, k: nat)
    requires InBounds(ws, |palette|) && k < |palette|
    ensures ApplyWrites(palette, ws)[k] ==
              match LastWrite(ws, k)
              case Some(v) => v
              case None => palette[k]
  {
    if |ws| > 0 {
      ApplyWritesSlot(palette, ws[..|ws| - 1], k);
    }
  }

  lemma {:induction false} ApplyWritesAppend(palette: seq<Mat>, ws1: seq<Write>, ws2: seq<Write>)
    requires InBounds(ws1, |palette|) && InBounds(ws2, |palette|)
    ensures InBounds(ws1 + ws2, |palette|)
    ensures ApplyWrites(palette, ws1 + ws2) == ApplyWrites(ApplyWrites(palette, ws1), ws2)
    decreases |ws2|
  {
    if |ws2| > 0 {
      var ws := ws1 + ws2;
      assert ws[..|ws| - 1] == ws1 + ws2[..|ws2| - 1];
      ApplyWritesAppend(palette, ws1, ws2[..|ws2| - 1]);
    } else {
      assert ws1 + ws2 == ws1;
    }
  }

  /** The recursive traversal writes exactly what the pre-order reference
      definition collects, in the same order. */
  lemma {:induction false} CalcIsPreOrder(node: Node, parent: Mat, env: Env, palette: seq<Mat>)
    requires Evaluable(node, env, |palette|)
    ensures Calc(node, parent, env, palette) == ApplyWrites(palette, PreOrderWrites(node, parent, env, |palette|))
    decreases node, |node.children| + 1
  {
    var global := Mul(parent, LocalOf(node, env));
    var own :=
      if node.name in env.infos then [Write(env.infos[node.name].id as nat, Mul(global, env.infos[node.name].offset))]
      else [];
    var written := ApplyWrites(palette, own);
    CalcChildrenIsPreOrder(node, 0, global, env, written);
    ApplyWritesAppend(palette, own, ChildrenWrites(node, 0, global, env, |palette|));
  }

  lemma {:induction false} CalcChildrenIsPreOrder(node: Node, i: nat, global: Mat, env: Env, palette: seq<Mat>)
    requires i <= |node.children|
    requires forall j :: i <= j < |node.children| ==> Evaluable(node.children[j], env, |palette|)
    ensures CalcChildren(node, i, global, env, palette) ==
              ApplyWrites(palette, ChildrenWrites(node, i, global, env, |palette|))
    decreases node, |node.children| - i
  {
    if i < |node.children| {
      var child := node.children[i];
      var after := Calc(child, global, env, palette);
      CalcIsPreOrder(child, global, env, palette);
      CalcChildrenIsPreOrder(node, i + 1, global, env, after);
      ApplyWritesAppend(palette, PreOrderWrites(child, global, env, |palette|),
                        ChildrenWrites(node, i + 1, global, env, |palette|));
    }
  }

  /** After a traversal, each palette slot holds the last value the pre-order
      walk wrote to it; a slot no reachable mapped node writes keeps its value. */
  lemma PaletteAfterTraversal(node: Node, parent: Mat, env: Env, palette: seq<Mat>, k: nat)
    requires Evaluable(node, env, |palette|) && k < |palette|
    ensures Calc(node, parent, env, palette)[k] ==
              match LastWrite(PreOrderWrites(node, parent, env, |palette|), k)
              case Some(v) => v
              case None => palette[k]
  {
    CalcIsPreOrder(node, parent, env, palette);
    ApplyWritesSlot(palette, PreOrderWrites(node, parent, env, |palette|), k);
  }

  // ---------------------------------------------------------------------------
  // Bone side effect and the frame step
  // ---------------------------------------------------------------------------

  /** The set of node names of a hierarchy. */
  function NameSet(node: Node): set<string> {
    set k | 0 <= k < |Names(node)| :: Names(node)[k]
  }

  /** The traversal calls `update` on bone `i`: some node is named like it and
      `findBone` resolves that name to `i`. */
  predicate Touched(bones: seq<Bone>, names: set<string>, i: nat)
    requires i < |bones|
  {
    bones[i].name in names && FindBone(bones, bones[i].name) == Some(i)
  }

  /** The clip's bones after a traversal: every touched bone carries its freshly
      evaluated transform, every other bone is unchanged. */
  function TouchBones(bones: seq<Bone>, names: set<string>, t: real): (r: seq<Bone>)
    requires forall n :: n in names ==> BoneReadyFor(n, bones, t)
    ensures |r| == |bones|
    ensures forall i :: 0 <= i < |bones| ==>
              && r[i].name == bones[i].name && r[i].positions == bones[i].positions
              && r[i].rotations == bones[i].rotations && r[i].scales == bones[i].scales
              && r[i].id == bones[i].id
    ensures forall i :: 0 <= i < |bones| && !Touched(bones, names, i) ==> r[i] == bones[i]
    ensures forall i :: 0 <= i < |bones| && Touched(bones, names, i) ==>
              BoneReadyFor(bones[i].name, bones, t) && r[i] == Update(bones[i], t)
  {
    seq(|bones|, i requires 0 <= i < |bones| =>
      if Touched(bones, names, i) then
        assert BoneReadyFor(bones[i].name, bones, t);
        Update(bones[i], t)
      else bones[i])
  }

  /** Every name of an evaluable hierarchy resolves to a bone that can be sampled. */
  lemma {:induction false} EvaluableNamesReady(node: Node, env: Env, size: nat)
    requires Evaluable(node, env, size)
    ensures forall n :: n in NameSet(node) ==> BoneReadyFor(n, env.bones, env.t)
    decreases node, |node.children| + 1
  {
    forall n | n in NameSet(node)
      ensures BoneReadyFor(n, env.bones, env.t)
    {
      var k :| 0 <= k < |Names(node)| && Names(node)[k] == n;
      if k > 0 {
        ChildrenNamesReady(node, 0, env, size, k - 1);
      }
    }
  }

  lemma {:induction false} ChildrenNamesReady(node: Node, i: nat, env: Env, size: nat, k: nat)
    requires i <= |node.children|
    requires forall j :: i <= j < |node.children| ==> Evaluable(node.children[j], env, size)
    requires k < |NamesOfChildren(node, i)|
    ensures BoneReadyFor(NamesOfChildren(node, i)[k], env.bones, env.t)
    decreases node, |node.children| - i
  {
    var here := Names(node.children[i]);
    if k < |here| {
      EvaluableNamesReady(node.children[i], env, size);
      assert here[k] in NameSet(node.children[i]);
    } else {
      ChildrenNamesReady(node, i + 1, env, size, k - |here|);
    }
  }

  /** `updateAnimation`: wraps the time, re-evaluates the palette from an
      identity root, and leaves the touched bones holding their new transforms.
      The bone-info map is the one shared with the model. */
  function UpdateAnimation(a: Animator, dt: real, infos: BoneInfoMap): (r: Animator)
    requires a.currAnim.duration != 0.0
    requires Evaluable(a.currAnim.rootNode, Env(NextTime(a, dt), a.currAnim.bones, infos), |a.boneMatrices|)
    ensures r.currTime == NextTime(a, dt)
    ensures |r.boneMatrices| == |a.boneMatrices|
    ensures var env := Env(NextTime(a, dt), a.currAnim.bones, infos);
            r.boneMatrices == ApplyWrites(a.boneMatrices, PreOrderWrites(a.currAnim.rootNode, Identity, env, |a.boneMatrices|))
    ensures r.currAnim.rootNode == a.currAnim.rootNode && r.currAnim.duration == a.currAnim.duration
    ensures r.currAnim.ticksPerSec == a.currAnim.ticksPerSec
    ensures var bones := a.currAnim.bones;
            var names := NameSet(a.currAnim.rootNode);
            && |r.currAnim.bones| == |bones|
            && (forall i :: 0 <= i < |bones| && !Touched(bones, names, i) ==> r.currAnim.bones[i] == bones[i])
            && (forall i :: 0 <= i < |bones| && Touched(bones, names, i) ==>
                  BoneReadyFor(bones[i].name, bones, NextTime(a, dt)) && r.currAnim.bones[i] == Update(bones[i], NextTime(a, dt)))
  {
    var t := NextTime(a, dt);
    var env := Env(t, a.currAnim.bones, infos);
    var root := a.currAnim.rootNode;
    EvaluableNamesReady(root, env, |a.boneMatrices|);
    CalcIsPreOrder(root, Identity, env, a.boneMatrices);
    var bones := TouchBones(a.currAnim.bones, NameSet(root), t);
    Animator(Calc(root, Identity, env, a.boneMatrices), a.currAnim.(bones := bones), t)
  }
}
