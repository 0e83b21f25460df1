/**
  The per-frame game logic of the demo: input flags, mouse look, the player's
  movement step with its floor clamp, and the locomotion state machine that
  picks which clip to play.
 */
module Game {
  import opened Opt
  import opened Glm

  // ---------------------------------------------------------------------------
  // Input flags
  // ---------------------------------------------------------------------------

  /** The names of the eleven input flags of the demo's `Keys` record. */
  datatype Flag = LeftClick | RightClick | W | S | A | D | E | Q | Space | Shift | Tab

  /** The `Keys` record, kept as the set of flags that are currently true. */
  datatype Keys = Keys(held: set<Flag>)

  /** The value-initialised record: every flag false. */
  const NoKeys := Keys({})

  function Get(k: Keys, f: Flag): bool {
    f in k.held
  }

  /** Sets flag `f` to `v` and leaves every other flag as it was. */
  function Set(k: Keys, f: Flag, v: bool): (r: Keys)
    ensures Get(r, f) == v
    ensures forall g :: g != f ==> Get(r, g) == Get(k, g)
  {
    if v then Keys(k.held + {f}) else Keys(k.held - {f})
  }

  /** Two records that agree on every flag are the same. */
  lemma FlagsDetermineKeys(k1: Keys, k2: Keys)
    requires forall f :: Get(k1, f) == Get(k2, f)
    ensures k1 == k2
  {
    forall f
      ensures f in k1.held <==> f in k2.held
    {
      assert Get(k1, f) == Get(k2, f);
    }
  }

  /** The keyboard keys the demo listens to; every other key is `OtherKey`. */
  datatype Key = KeyW | KeyS | KeyA | KeyD | KeyE | KeyQ | KeySpace | KeyLeftShift | KeyTab | OtherKey(code: int)

  datatype MouseButton = ButtonLeft | ButtonRight | OtherButton(code: int)

  /** `GLFW_PRESS`, `GLFW_RELEASE`, or anything else (such as `GLFW_REPEAT`). */
  datatype Action = Press | Release | OtherAction(code: int)

  /** The flag a key controls, if any. */
  function KeyFlag(key: Key): (r: Option<Flag>)
    ensures r.Some? ==> r.value != LeftClick && r.value != RightClick
  {
    match key
    case KeyW => Some(W)
    case KeyS => Some(S)
    case KeyA => Some(A)
    case KeyD => Some(D)
    case KeyE => Some(E)
    case KeyQ => Some(Q)
    case KeySpace => Some(Space)
    case KeyLeftShift => Some(Shift)
    case KeyTab => Some(Tab)
    case OtherKey(_) => None
  }

  /** The flag a mouse button controls, if any. */
  function ButtonFlag(b: MouseButton): (r: Option<Flag>)
    ensures r.Some? ==> r.value == LeftClick || r.value == RightClick
  {
    match b
    case ButtonLeft => Some(LeftClick)
    case ButtonRight => Some(RightClick)
    case OtherButton(_) => None
  }

  /** Distinct listened-to keys control distinct flags. */
  lemma KeyFlagInjective(k1: Key, k2: Key)
    requires KeyFlag(k1).Some? && KeyFlag(k1) == KeyFlag(k2)
    ensures k1 == k2
  {
  }

  /** The inner switch of both callbacks: press sets, release clears, anything else ignores. */
  function OnAction(k: Keys, f: Flag, action: Action): Keys {
    match action
    case Press => Set(k, f, true)
    case Release => Set(k, f, false)
    case OtherAction(_) => k
  }

  /** What a flag reads after `action` on the input controlling `target`. */
  function Expected(k: Keys, target: Option<Flag>, action: Action, g: Flag): bool {
    if target == Some(g) && action == Press then true
    else if target == Some(g) && action == Release then false
    else Get(k, g)
  }

  /** `keyCallback`: only the pressed or released key's flag changes. */
  function KeyCallback(k: Keys, key: Key, action: Action): (r: Keys)
    ensures forall g :: Get(r, g) == Expected(k, KeyFlag(key), action, g)
  {
    match KeyFlag(key)
    case Some(f) => OnAction(k, f, action)
    case None => k
  }

  /** `mouseButtonCallback`: only the pressed or released button's flag changes. */
  function MouseButtonCallback(k: Keys, b: MouseButton, action: Action): (r: Keys)
    ensures forall g :: Get(r, g) == Expected(k, ButtonFlag(b), action, g)
  {
    match ButtonFlag(b)
    case Some(f) => OnAction(k, f, action)
    case None => k
  }

  /** Releasing a key that was up before it was pressed restores the flags. */
  lemma PressThenRelease(k: Keys, key: Key)
    requires KeyFlag(key).Some? && !Get(k, KeyFlag(key).value)
    ensures KeyCallback(KeyCallback(k, key, Press), key, Release) == k
  {
    var r := KeyCallback(KeyCallback(k, key, Press), key, Release);
    FlagsDetermineKeys(r, k);
  }

  /** The keyboard never changes the mouse-button flags, and the mouse never
      changes the keyboard flags. */
  lemma InputsIndependent(k: Keys, key: Key, b: MouseButton, action: Action)
    ensures Get(KeyCallback(k, key, action), LeftClick) == Get(k, LeftClick)
    ensures Get(KeyCallback(k, key, action), RightClick) == Get(k, RightClick)
    ensures forall g :: g != LeftClick && g != RightClick ==> Get(MouseButtonCallback(k, b, action), g) == Get(k, g)
  {
  }

  // ---------------------------------------------------------------------------
  // Mouse look
  // ---------------------------------------------------------------------------

  datatype Mouse = Mouse(lastX: real, lastY: real, sens: real, yaw: real, pitch: real)

  /** `std::clamp`. */
  function Clamp(v: real, lo: real, hi: real): (r: real)
    requires lo <= hi
    ensures lo <= r <= hi
    ensures lo <= v <= hi ==> r == v
    ensures v < lo ==> r == lo
    ensures hi < v ==> r == hi
  {
    if v < lo then lo else if hi < v then hi else v
  }

  const PitchLimit := 89.0

  /** `cursorPosCallback`: yaw follows the horizontal motion, pitch the inverted
      vertical motion clamped to [-89, 89], and the cursor position is remembered. */
  function CursorPos(m: Mouse, x: real, y: real): (r: Mouse)
    ensures -PitchLimit <= r.pitch <= PitchLimit
    ensures r.lastX == x && r.lastY == y && r.sens == m.sens
    ensures r.yaw - m.yaw == (x - m.lastX) * m.sens
    ensures var p := m.pitch - (y - m.lastY) * m.sens;
            && (-PitchLimit <= p <= PitchLimit ==> r.pitch == p)
            && (PitchLimit < p ==> r.pitch == PitchLimit)
            && (p < -PitchLimit ==> r.pitch == -PitchLimit)
  {
    var xoffset := (x - m.lastX) * m.sens;
    var yoffset := -(y - m.lastY) * m.sens;
    Mouse(x, y, m.sens, m.yaw + xoffset, Clamp(m.pitch + yoffset, -PitchLimit, PitchLimit))
  }

  /** Yaw is not clamped: two cursor moves turn as far as one move to the final position. */
  lemma YawTelescopes(m: Mouse, x1: real, y1: real, x2: real, y2: real)
    ensures CursorPos(CursorPos(m, x1, y1), x2, y2).yaw == m.yaw + (x2 - m.lastX) * m.sens
  {
    assert (x1 - m.lastX) * m.sens + (x2 - x1) * m.sens == (x2 - m.lastX) * m.sens;
  }

  // ---------------------------------------------------------------------------
  // Movement
  // ---------------------------------------------------------------------------

  const Floor: real := 0.0
  const Gravity: real := 0.0002

  /** The player's position and velocity. */
  datatype Body = Body(pos: Vec3, velocity: Vec3)

  /** The net direction along one axis: +1 for `plus` alone, -1 for `minus`
      alone, 0 for both or neither. */
  function Axis(k: Keys, plus: Flag, minus: Flag): real {
    (if Get(k, plus) then 1.0 else 0.0) - (if Get(k, minus) then 1.0 else 0.0)
  }

  /** Scaling by an axis direction adds `a` for `plus` and subtracts it for `minus`. */
  lemma AxisScales(k: Keys, plus: Flag, minus: Flag, a: real)
    ensures Axis(k, plus, minus) * a == (if Get(k, plus) then a else 0.0) - (if Get(k, minus) then a else 0.0)
  {
  }

  /** The velocity for this frame before the floor check: horizontal velocity
      starts from zero, vertical velocity keeps falling, then the held keys add
      their contributions. `frontStep` and `sideStep` are the camera's forward
      and sideways steps for this frame; the forward step is flattened. */
  function FrameVelocity(v: Vec3, k: Keys, frontStep: Vec3, sideStep: Vec3, dtMs: real): (r: Vec3)
    ensures r.x == Axis(k, W, S) * frontStep.x + Axis(k, D, A) * sideStep.x
    ensures r.z == Axis(k, W, S) * frontStep.z + Axis(k, D, A) * sideStep.z
    ensures r.y == v.y - Gravity * dtMs + Axis(k, D, A) * sideStep.y
                   + (if Get(k, Space) then 1.35 * Gravity * dtMs else 0.0)
  {
    AxisScales(k, W, S, frontStep.x);
    AxisScales(k, W, S, frontStep.z);
    AxisScales(k, D, A, sideStep.x);
    AxisScales(k, D, A, sideStep.y);
    AxisScales(k, D, A, sideStep.z);
    var moveFront := frontStep.(y := 0.0);
    var v0 := Vec3(0.0, v.y - Gravity * dtMs, 0.0);
    var v1 := if Get(k, W) then Add(v0, moveFront) else v0;
    var v2 := if Get(k, S) then Sub(v1, moveFront) else v1;
    var v3 := if Get(k, A) then Sub(v2, sideStep) else v2;
    var v4 := if Get(k, D) then Add(v3, sideStep) else v3;
    if Get(k, Space) then v4.(y := v4.y + 1.35 * Gravity * dtMs) else v4
  }

  /** One movement step of the main loop, with the floor clamp. */
  function Advance(b: Body, k: Keys, frontStep: Vec3, sideStep: Vec3, dtMs: real): (r: Body)
    ensures Floor <= r.pos.y
    ensures var v := FrameVelocity(b.velocity, k, frontStep, sideStep, dtMs);
            && r.velocity.x == v.x && r.velocity.z == v.z
            && r.pos.x == b.pos.x + v.x && r.pos.z == b.pos.z + v.z
            && (b.pos.y + v.y < Floor ==> r.pos.y == Floor && r.velocity.y == 0.0)
            && (Floor <= b.pos.y + v.y ==> r.pos.y == b.pos.y + v.y && r.velocity.y == v.y)
  {
    var v := FrameVelocity(b.velocity, k, frontStep, sideStep, dtMs);
    var newPos := Add(b.pos, v);
    if newPos.y < Floor then Body(newPos.(y := Floor), v.(y := 0.0)) else Body(newPos, v)
  }

  /** The step forgets the previous horizontal velocity: only the vertical
      component carries over from frame to frame. */
  lemma AdvanceForgetsHorizontal(b: Body, vx: real, vz: real, k: Keys, frontStep: Vec3, sideStep: Vec3, dtMs: real)
    ensures Advance(b, k, frontStep, sideStep, dtMs) ==
            Advance(b.(velocity := b.velocity.(x := vx, z := vz)), k, frontStep, sideStep, dtMs)
  {
    var v := b.velocity.(x := vx, z := vz);
    assert FrameVelocity(b.velocity, k, frontStep, sideStep, dtMs) == FrameVelocity(v, k, frontStep, sideStep, dtMs);
  }

  /** Without a movement key held, the player does not move horizontally. */
  lemma NoMovementKeysNoHorizontalMotion(b: Body, k: Keys, frontStep: Vec3, sideStep: Vec3, dtMs: real)
    requires !Get(k, W) && !Get(k, S) && !Get(k, A) && !Get(k, D)
    ensures var r := Advance(b, k, frontStep, sideStep, dtMs);
            r.velocity.x == 0.0 && r.velocity.z == 0.0 && r.pos.x == b.pos.x && r.pos.z == b.pos.z
  {
  }

  /** Holding forward and backward together cancels out. */
  lemma OppositeKeysCancel(b: Body, k: Keys, frontStep: Vec3, sideStep: Vec3, dtMs: real)
    requires Get(k, W) && Get(k, S) && Get(k, A) && Get(k, D)
    ensures var r := Advance(b, k, frontStep, sideStep, dtMs);
            r.velocity.x == 0.0 && r.velocity.z == 0.0
  {
  }

  // ---------------------------------------------------------------------------
  // Locomotion state machine
  // ---------------------------------------------------------------------------

  datatype PlayerState = Idle | Swim | Walk

  /** The clips the demo loads; `playAnimation` switches the animator to one. */
  datatype Clip = DanceClip | WalkClip | SwimClip

  /** The clip that belongs to each state. */
  function ClipFor(s: PlayerState): Clip {
    match s
    case Idle => DanceClip
    case Walk => WalkClip
    case Swim => SwimClip
  }

  lemma ClipForInjective(s1: PlayerState, s2: PlayerState)
    requires ClipFor(s1) == ClipFor(s2)
    ensures s1 == s2
  {
  }

  /** The new state and the clip requested on the way, if any. */
  datatype StateChange = StateChange(next: PlayerState, request: Option<Clip>)

  /** The `switch (state.player_state)` of the main loop, given the frame's
      horizontal velocity `vx` and height `y`. */
  function Transition(s: PlayerState, vx: real, y: real): (r: StateChange)
    ensures r.request.Some? <==> r.next != s
    ensures r.request.Some? ==> r.request.value == ClipFor(r.next)
  {
    match s
    case Idle =>
      if vx != 0.0 then
        if y == Floor then StateChange(Walk, Some(WalkClip)) else StateChange(Swim, Some(SwimClip))
      else StateChange(Idle, None)
    case Swim =>
      if vx == 0.0 then StateChange(Idle, Some(DanceClip))
      else if y == Floor then StateChange(Walk, Some(WalkClip))
      else StateChange(Swim, None)
    case Walk =>
      if vx == 0.0 then StateChange(Idle, Some(DanceClip))
      else if y > Floor then StateChange(Swim, Some(SwimClip))
      else StateChange(Walk, None)
  }

  /** The state a frame's motion calls for: idle without horizontal velocity,
      walking on the floor, swimming above it. */
  function Classify(vx: real, y: real): PlayerState {
    if vx == 0.0 then Idle else if y == Floor then Walk else Swim
  }

  /** On or above the floor, the state machine lands in the classified state
      from every state. */
  lemma TransitionClassifies(s: PlayerState, vx: real, y: real)
    requires Floor <= y
    ensures Transition(s, vx, y).next == Classify(vx, y)
  {
  }

  /** Below the floor the walking state is kept even when the motion calls for
      swimming; the movement step's clamp keeps the player out of that case. */
  lemma WalkBelowFloorStays(vx: real, y: real)
    requires vx != 0.0 && y < Floor
    ensures Transition(Walk, vx, y).next == Walk && Classify(vx, y) == Swim
  {
  }

  /** The demo's state: input flags, mouse look, and the player's locomotion state. */
  datatype State = State(keys: Keys, mouse: Mouse, player: PlayerState)

  /** `State::init`: idle, nothing held, sensitivity 0.1, looking down -z
      (yaw -90), level pitch, cursor at its current position. */
  function InitState(cursorX: real, cursorY: real): (r: State)
    ensures r.player == Idle
    ensures forall f :: !Get(r.keys, f)
    ensures r.mouse == Mouse(cursorX, cursorY, 0.1, -90.0, 0.0)
  {
    State(NoKeys, Mouse(cursorX, cursorY, 0.1, -90.0, 0.0), Idle)
  }

  /** What one frame of the main loop's process block produces. */
  datatype FrameResult = FrameResult(player: PlayerState, body: Body, request: Option<Clip>)

  /** The movement step followed by the state switch on the moved body. */
  function Frame(st: State, b: Body, frontStep: Vec3, sideStep: Vec3, dtMs: real): (r: FrameResult)
    ensures Floor <= r.body.pos.y
    ensures r.request.Some? <==> r.player != st.player
    ensures r.request.Some? ==> r.request.value == ClipFor(r.player)
  {
    var moved := Advance(b, st.keys, frontStep, sideStep, dtMs);
    var change := Transition(st.player, moved.velocity.x, moved.pos.y);
    FrameResult(change.next, moved, change.request)
  }

  /** After every frame the player state is the one the motion calls for, and
      a clip is requested exactly when that differs from the previous state. */
  lemma FrameClassifies(st: State, b: Body, frontStep: Vec3, sideStep: Vec3, dtMs: real)
    ensures var r := Frame(st, b, frontStep, sideStep, dtMs);
            && r.player == Classify(r.body.velocity.x, r.body.pos.y)
            && (r.request.Some? <==> Classify(r.body.velocity.x, r.body.pos.y) != st.player)
  {
    var moved := Advance(b, st.keys, frontStep, sideStep, dtMs);
    TransitionClassifies(st.player, moved.velocity.x, moved.pos.y);
  }

  /** A frame with no movement key held ends idle, asking for the dance clip
      only if the player was not idle already. */
  lemma NoMovementKeysGoIdle(st: State, b: Body, frontStep: Vec3, sideStep: Vec3, dtMs: real)
    requires !Get(st.keys, W) && !Get(st.keys, S) && !Get(st.keys, A) && !Get(st.keys, D)
    ensures var r := Frame(st, b, frontStep, sideStep, dtMs);
            && r.player == Idle
            && r.request == (if st.player == Idle then None else Some(DanceClip))
  {
    NoMovementKeysNoHorizontalMotion(b, st.keys, frontStep, sideStep, dtMs);
  }
}
