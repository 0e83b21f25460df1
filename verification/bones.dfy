/**
  One animated bone: three keyframe tracks (position, rotation, scale) and the
  local transform evaluated from them at a given tick.
 */
module Bones {
  import opened Glm
  import opened Assimp

  /** A keyframe: a value and the tick at which it holds. */
  datatype Key<T> = Key(value: T, timestamp: real)

  datatype Bone = Bone(
    positions: seq<Key<Vec3>>,
    rotations: seq<Key<QuatExpr>>,
    scales: seq<Key<Vec3>>,
    localTransform: Mat,
    name: string,
    id: int)

  /** Timestamps never decrease along the track. */
  predicate Sorted<T>(keys: seq<Key<T>>) {
    forall i, j :: 0 <= i <= j < |keys| ==> keys[i].timestamp <= keys[j].timestamp
  }

  /** Timestamps strictly increase along the track. */
  predicate StrictlyIncreasing<T>(keys: seq<Key<T>>) {
    forall i, j :: 0 <= i < j < |keys| ==> keys[i].timestamp < keys[j].timestamp
  }

  // ---------------------------------------------------------------------------
  // Bracket search
  // ---------------------------------------------------------------------------

  /** Some key after the first lies strictly after `t`, so the linear search
      returns instead of reaching its `assert(0)`. */
  predicate HasBracket<T>(keys: seq<Key<T>>, t: real) {
    exists k :: 1 <= k < |keys| && t < keys[k].timestamp
  }

  /** `i` is the index the search returns: the first `i` with `t < keys[i + 1].timestamp`. */
  predicate IsBracket<T>(keys: seq<Key<T>>, t: real, i: nat) {
    && i + 1 < |keys|
    && t < keys[i + 1].timestamp
    && forall j :: 1 <= j <= i ==> keys[j].timestamp <= t
  }

  /** The scan of `getPosIdx` / `getRotIdx` / `getScaleIdx`, continued from index `i`. */
  function KeyIndexFrom<T>(keys: seq<Key<T>>, t: real, i: nat): (idx: nat)
    requires exists k :: i + 1 <= k < |keys| && t < keys[k].timestamp
    requires forall j :: 1 <= j <= i ==> keys[j].timestamp <= t
    ensures i <= idx
    ensures IsBracket(keys, t, idx)
    decreases |keys| - i
  {
    if t < keys[i + 1].timestamp then i
    else KeyIndexFrom(keys, t, i + 1)
  }

  /** The bracket search: the first index whose successor key lies after `t`. */
  function KeyIndex<T>(keys: seq<Key<T>>, t: real): (idx: nat)
    requires HasBracket(keys, t)
    ensures IsBracket(keys, t, idx)
    ensures forall i: nat :: IsBracket(keys, t, i) ==> i == idx
  {
    KeyIndexFrom(keys, t, 0)
  }

  /** On a sorted track queried no earlier than its first key, the search
      result is exactly the index whose interval [ts[i], ts[i+1]) holds `t`. */
  lemma BracketIsInterval<T>(keys: seq<Key<T>>, t: real, i: nat)
    requires Sorted(keys)
    requires 0 < |keys| && keys[0].timestamp <= t
    ensures IsBracket(keys, t, i) <==>
              (i + 1 < |keys| && keys[i].timestamp <= t < keys[i + 1].timestamp)
  {
    if i + 1 < |keys| && keys[i].timestamp <= t < keys[i + 1].timestamp {
      forall j | 1 <= j <= i
        ensures keys[j].timestamp <= t
      {
        assert keys[j].timestamp <= keys[i].timestamp;
      }
    }
  }

  /** Querying at or after the last key of a sorted track leaves the search
      without a bracket: the source aborts there. */
  lemma NoBracketFromLastKey<T>(keys: seq<Key<T>>, t: real)
    requires Sorted(keys) && 0 < |keys|
    requires keys[|keys| - 1].timestamp <= t
    ensures !HasBracket(keys, t)
  {
    forall k | 1 <= k < |keys|
      ensures keys[k].timestamp <= t
    {
      assert keys[k].timestamp <= keys[|keys| - 1].timestamp;
    }
  }

  // ---------------------------------------------------------------------------
  // Blend factor and interpolation
  // ---------------------------------------------------------------------------

  /** `getFactor`: how far `x` has progressed from `last` towards `next`. */
  function Factor(last: real, next: real, x: real): (f: real)
    requires last != next
    ensures f * (next - last) == x - last
  {
    (x - last) / (next - last)
  }

  /** The track can be sampled at `t`: a single key, or a bracket whose two keys
      have different timestamps (so the factor's division is defined). */
  predicate CanInterpolate<T>(keys: seq<Key<T>>, t: real) {
    || |keys| == 1
    || (HasBracket(keys, t) && keys[KeyIndex(keys, t)].timestamp != keys[KeyIndex(keys, t) + 1].timestamp)
  }

  /** A vector track (position or scale) sampled at `t`. */
  function SampleVec(keys: seq<Key<Vec3>>, t: real): (v: Vec3)
    requires CanInterpolate(keys, t)
    ensures |keys| == 1 ==> v == keys[0].value
  {
    if |keys| == 1 then keys[0].value
    else
      var i := KeyIndex(keys, t);
      Mix(keys[i].value, keys[i + 1].value, Factor(keys[i].timestamp, keys[i + 1].timestamp, t))
  }

  /** The rotation track sampled at `t`, always renormalised. */
  function SampleRot(keys: seq<Key<QuatExpr>>, t: real): (q: QuatExpr)
    requires CanInterpolate(keys, t)
    ensures q.Normalize?
    ensures |keys| == 1 ==> q == Normalize(keys[0].value)
    ensures |keys| != 1 ==> q.q.Slerp? && q.q.from == keys[KeyIndex(keys, t)].value
                                        && q.q.to == keys[KeyIndex(keys, t) + 1].value
  {
    if |keys| == 1 then Normalize(keys[0].value)
    else
      var i := KeyIndex(keys, t);
      Normalize(Slerp(keys[i].value, keys[i + 1].value, Factor(keys[i].timestamp, keys[i + 1].timestamp, t)))
  }

  /** With strictly increasing timestamps and `t` no earlier than the first key,
      the track can be sampled and the blend factor lies in [0, 1). */
  lemma FactorInUnitInterval<T>(keys: seq<Key<T>>, t: real)
    requires StrictlyIncreasing(keys)
    requires HasBracket(keys, t) && keys[0].timestamp <= t
    ensures CanInterpolate(keys, t)
    ensures var i := KeyIndex(keys, t);
            0.0 <= Factor(keys[i].timestamp, keys[i + 1].timestamp, t) < 1.0
  {
    var i := KeyIndex(keys, t);
    BracketIsInterval(keys, t, i);
    RatioInUnitInterval(keys[i].timestamp, keys[i + 1].timestamp, t);
  }

  lemma RatioInUnitInterval(a: real, b: real, t: real)
    requires a <= t < b
    ensures 0.0 <= (t - a) / (b - a) < 1.0
  {
    var f := (t - a) / (b - a);
    assert f * (b - a) == t - a;
    assert (f - 1.0) * (b - a) == (t - a) - (b - a);
    SignOfProduct(f, b - a);
    SignOfProduct(f - 1.0, b - a);
  }

  /** Sampled exactly at key `k` (not the last), a strictly increasing track
      selects bracket `k` with factor 0 and yields key `k`'s value. */
  lemma SampleAtKey(keys: seq<Key<Vec3>>, k: nat)
    requires StrictlyIncreasing(keys) && k + 1 < |keys|
    ensures HasBracket(keys, keys[k].timestamp)
    ensures KeyIndex(keys, keys[k].timestamp) == k
    ensures CanInterpolate(keys, keys[k].timestamp)
    ensures Factor(keys[k].timestamp, keys[k + 1].timestamp, keys[k].timestamp) == 0.0
    ensures SampleVec(keys, keys[k].timestamp) == keys[k].value
  {
    var t := keys[k].timestamp;
    assert t < keys[k + 1].timestamp;
    BracketIsInterval(keys, t, k);
    assert IsBracket(keys, t, k);
    var v := keys[k].value;
    assert Mix(v, keys[k + 1].value, 0.0) == v;
  }

  /** Between the first and last key the sampled vector lies on the segment
      between the two bracketing keys. */
  lemma SampleBetweenKeys(keys: seq<Key<Vec3>>, t: real)
    requires StrictlyIncreasing(keys)
    requires HasBracket(keys, t) && keys[0].timestamp <= t
    ensures CanInterpolate(keys, t)
    ensures var i := KeyIndex(keys, t);
            Between(keys[i].value, keys[i + 1].value, SampleVec(keys, t))
  {
    FactorInUnitInterval(keys, t);
    var i := KeyIndex(keys, t);
    MixBetween(keys[i].value, keys[i + 1].value, Factor(keys[i].timestamp, keys[i + 1].timestamp, t));
  }

  // ---------------------------------------------------------------------------
  // Local transform
  // ---------------------------------------------------------------------------

  /** Every track of the bone can be sampled at `t`. */
  predicate Ready(b: Bone, t: real) {
    CanInterpolate(b.positions, t) && CanInterpolate(b.rotations, t) && CanInterpolate(b.scales, t)
  }

  /** `interpolatePos`: the translation to the single key, or to the mix of
      the bracketing keys at the blend factor. */
  function InterpolatePos(b: Bone, t: real): (m: Mat)
    requires CanInterpolate(b.positions, t)
    ensures |b.positions| == 1 ==> m == Translation(b.positions[0].value)
    ensures |b.positions| != 1 ==>
              var ks, i := b.positions, KeyIndex(b.positions, t);
              m == Translation(Mix(ks[i].value, ks[i + 1].value, Factor(ks[i].timestamp, ks[i + 1].timestamp, t)))
  {
    Translation(SampleVec(b.positions, t))
  }

  /** `interpolateRot`: the rotation by the normalized single key, or by the
      normalized slerp of the bracketing keys at the blend factor. */
  function InterpolateRot(b: Bone, t: real): (m: Mat)
    requires CanInterpolate(b.rotations, t)
    ensures |b.rotations| == 1 ==> m == Rotation(Normalize(b.rotations[0].value))
    ensures |b.rotations| != 1 ==>
              var ks, i := b.rotations, KeyIndex(b.rotations, t);
              m == Rotation(Normalize(Slerp(ks[i].value, ks[i + 1].value, Factor(ks[i].timestamp, ks[i + 1].timestamp, t))))
  {
    Rotation(SampleRot(b.rotations, t))
  }

  /** `interpolateScale`: the scaling by the single key, or by the mix of the
      bracketing keys at the blend factor. */
  function InterpolateScale(b: Bone, t: real): (m: Mat)
    requires CanInterpolate(b.scales, t)
    ensures |b.scales| == 1 ==> m == Scaling(b.scales[0].value)
    ensures |b.scales| != 1 ==>
              var ks, i := b.scales, KeyIndex(b.scales, t);
              m == Scaling(Mix(ks[i].value, ks[i + 1].value, Factor(ks[i].timestamp, ks[i + 1].timestamp, t)))
  {
    Scaling(SampleVec(b.scales, t))
  }

  /** `Bone::update`: the local transform becomes translation * rotation * scale
      at `t`; tracks, name and id are untouched. */
  function Update(b: Bone, t: real): (r: Bone)
    requires Ready(b, t)
    ensures r.localTransform == Mul(Mul(Translation(SampleVec(b.positions, t)),
                                        Rotation(SampleRot(b.rotations, t))),
                                    Scaling(SampleVec(b.scales, t)))
    ensures r.positions == b.positions && r.rotations == b.rotations && r.scales == b.scales
    ensures r.name == b.name && r.id == b.id
  {
    b.(localTransform := Mul(Mul(InterpolatePos(b, t), InterpolateRot(b, t)), InterpolateScale(b, t)))
  }

  /** A bone whose three tracks each hold one key evaluates to the same
      transform at every tick. */
  lemma SingleKeyBoneIsConstant(b: Bone, t1: real, t2: real)
    requires |b.positions| == 1 && |b.rotations| == 1 && |b.scales| == 1
    ensures Ready(b, t1) && Ready(b, t2)
    ensures Update(b, t1).localTransform == Update(b, t2).localTransform
    ensures Update(b, t1).localTransform ==
              Mul(Mul(Translation(b.positions[0].value), Rotation(Normalize(b.rotations[0].value))),
                  Scaling(b.scales[0].value))
  {
  }

  // ---------------------------------------------------------------------------
  // Construction from an animation channel
  // ---------------------------------------------------------------------------

  function VecKeys(keys: seq<AiVectorKey>): (r: seq<Key<Vec3>>)
    ensures |r| == |keys|
    ensures forall i :: 0 <= i < |keys| ==>
              r[i].timestamp == keys[i].time && r[i].value == FromAiVec3(keys[i].value)
  {
    seq(|keys|, i requires 0 <= i < |keys| => Key(FromAiVec3(keys[i].value), keys[i].time))
  }

  function QuatKeys(keys: seq<AiQuatKey>): (r: seq<Key<QuatExpr>>)
    ensures |r| == |keys|
    ensures forall i :: 0 <= i < |keys| ==>
              r[i].timestamp == keys[i].time && r[i].value == QuatFromAi(keys[i].value)
  {
    seq(|keys|, i requires 0 <= i < |keys| => Key(QuatFromAi(keys[i].value), keys[i].time))
  }

  /** `Bone::init` as written: the position track is filled with as many
      position keys as the channel has ROTATION keys. Reading past the channel's
      position keys would be out of bounds, hence the precondition. */
  function InitAsWritten(name: string, id: int, ch: AiNodeAnim): (r: Bone)
    requires |ch.rotationKeys| <= |ch.positionKeys|
    ensures r.positions == VecKeys(ch.positionKeys[..|ch.rotationKeys|])
    ensures r.rotations == QuatKeys(ch.rotationKeys) && r.scales == VecKeys(ch.scalingKeys)
    ensures r.localTransform == Identity && r.name == name && r.id == id
  {
    Bone(VecKeys(ch.positionKeys[..|ch.rotationKeys|]), QuatKeys(ch.rotationKeys),
         VecKeys(ch.scalingKeys), Identity, name, id)
  }

  /** `Bone::init` with the position track sized by the position keys: every
      key of every track is copied, in order, with its timestamp. */
  function Init(name: string, id: int, ch: AiNodeAnim): (r: Bone)
    ensures |r.positions| == |ch.positionKeys| && |r.rotations| == |ch.rotationKeys|
    ensures |r.scales| == |ch.scalingKeys|
    ensures forall i :: 0 <= i < |ch.positionKeys| ==> r.positions[i].timestamp == ch.positionKeys[i].time
    ensures forall i :: 0 <= i < |ch.rotationKeys| ==> r.rotations[i].timestamp == ch.rotationKeys[i].time
    ensures forall i :: 0 <= i < |ch.scalingKeys| ==> r.scales[i].timestamp == ch.scalingKeys[i].time
    ensures r.positions == VecKeys(ch.positionKeys) && r.rotations == QuatKeys(ch.rotationKeys)
    ensures r.scales == VecKeys(ch.scalingKeys)
    ensures r.localTransform == Identity && r.name == name && r.id == id
  {
    Bone(VecKeys(ch.positionKeys), QuatKeys(ch.rotationKeys), VecKeys(ch.scalingKeys), Identity, name, id)
  }

  /** A channel that moves the bone from the origin to x = 1 over ten ticks,
      with a single rotation and scale key. */
  function MovingChannel(): AiNodeAnim {
    AiNodeAnim("hips",
               [AiVectorKey(0.0, AiVector3D(0.0, 0.0, 0.0)), AiVectorKey(10.0, AiVector3D(1.0, 0.0, 0.0))],
               [AiQuatKey(0.0, AiQuaternion(1.0, 0.0, 0.0, 0.0))],
               [AiVectorKey(0.0, AiVector3D(1.0, 1.0, 1.0))])
  }

  /** The as-written constructor drops the second position key of
      `MovingChannel`, so halfway through the bone stays at the origin, where
      the corrected constructor puts it at x = 0.5. */
  lemma InitAsWrittenDropsPositionKeys()
    ensures |InitAsWritten("hips", 0, MovingChannel()).positions| == 1
    ensures |MovingChannel().positionKeys| == 2
    ensures CanInterpolate(InitAsWritten("hips", 0, MovingChannel()).positions, 5.0)
    ensures InterpolatePos(InitAsWritten("hips", 0, MovingChannel()), 5.0) == Translation(Vec3(0.0, 0.0, 0.0))
    ensures CanInterpolate(Init("hips", 0, MovingChannel()).positions, 5.0)
    ensures InterpolatePos(Init("hips", 0, MovingChannel()), 5.0) == Translation(Vec3(0.5, 0.0, 0.0))
  {
    var ch := MovingChannel();
    var fixed := Init("hips", 0, ch).positions;
    assert 5.0 < fixed[1].timestamp;
    assert IsBracket(fixed, 5.0, 0);
    assert KeyIndex(fixed, 5.0) == 0;
  }
}
