/** `Mango::Scene` over an abstract registry: the Play/Stop state machine, the
    choice of the camera the renderer uses, and the component decision tables
    the editor and the scripts drive.

    The registry is a sequence of entity records in view order; a record's
    optional fields are the components attached to it. Box2D bodies are
    reduced to the rigid-body settings and whether a fixture is attached. */
module Scene {
  import opened Wrappers

  type Guid = nat

  datatype SceneState = Stop | Play
  datatype Geometry = Triangle | Rectangle

  datatype Vec3 = Vec3(x: real, y: real, z: real)
  datatype Color = Color(r: real, g: real, b: real, a: real)
  datatype Transform = Transform(translation: Vec3, rotation: Vec3, scale: Vec3)

  /** `CameraComponent`: only the two flags the scene consults. */
  datatype Camera = Camera(primary: bool, editor: bool)

  /** `RigidbodyComponent` with the fixtures of its Box2D body. `SetFixture`
      creates one more fixture and remembers only that newest one: `newest`
      says whether the remembered fixture is still alive, `older` counts the
      live fixtures the component no longer points at. */
  datatype Rigidbody = Rigidbody(density: real, friction: real, dynamic: bool, older: nat, newest: bool)

  /** The number of fixtures on the body. */
  function FixtureCount(b: Rigidbody): nat {
    b.older + if b.newest then 1 else 0
  }

  /** `SetFixture`: one more fixture, which becomes the remembered one. */
  function SetFixture(b: Rigidbody): (r: Rigidbody)
    ensures FixtureCount(r) == FixtureCount(b) + 1 && r.newest
    ensures r.(older := b.older, newest := b.newest) == b
  {
    b.(older := FixtureCount(b), newest := true)
  }

  /** `DestroyFixture`: destroys the remembered fixture. When that fixture is
      already destroyed (or none was ever created) the call hands Box2D a
      dangling or null pointer, which is an error here. */
  function DestroyFixture(b: Rigidbody): (r: Result<Rigidbody>)
    ensures r.Success? <==> b.newest
    ensures r.Success? ==> FixtureCount(r.value) == FixtureCount(b) - 1 && !r.value.newest && r.value.(newest := true) == b
  {
    if b.newest then Success(b.(newest := false)) else Failure("fixture already destroyed")
  }

  /** Destroying right after setting removes exactly the fixture just set. */
  lemma SetThenDestroyKeepsCount(b: Rigidbody)
    ensures DestroyFixture(SetFixture(b)).Success?
    ensures FixtureCount(DestroyFixture(SetFixture(b)).value) == FixtureCount(b)
  {
  }

  /** One registry entity: its entt handle, its `IdComponent` and the other
      components present. */
  datatype Entity = Entity(
    handle: nat,
    id: Guid,
    named: bool,
    transform: Option<Transform>,
    color: Option<Color>,
    geometry: Option<Geometry>,
    camera: Option<Camera>,
    rigidbody: Option<Rigidbody>,
    script: Option<string>)

  /** The scene: its state, the registry, the entity whose camera the renderer
      uses, and the next entt handle. */
  datatype Scene = Scene(state: SceneState, registry: seq<Entity>, rendererCamera: Option<nat>, nextHandle: nat)

  /** entt never hands out a handle twice. */
  predicate HandlesFresh(s: Scene) {
    forall i :: 0 <= i < |s.registry| ==> s.registry[i].handle < s.nextHandle
  }

  predicate HandlesDistinct(reg: seq<Entity>) {
    forall i, j :: 0 <= i < j < |reg| ==> reg[i].handle != reg[j].handle
  }

  // ---------------------------------------------------------------------------
  // Cameras

  datatype Role = EditorRole | PrimaryRole

  /** Whether `e` is in the camera view (camera and transform) with `role`. */
  predicate HasRole(e: Entity, role: Role) {
    && e.camera.Some? && e.transform.Some?
    && (if role == EditorRole then e.camera.value.editor else e.camera.value.primary)
  }

  /** Slot `i` holds the first camera with `role` in view order. */
  predicate IsFirst(reg: seq<Entity>, role: Role, i: nat) {
    i < |reg| && HasRole(reg[i], role) && forall j :: 0 <= j < i ==> !HasRole(reg[j], role)
  }

  /** The view loop with `break` at the first camera with `role`. */
  function FindCamera(reg: seq<Entity>, role: Role): (r: Option<nat>)
    ensures r.Some? ==> IsFirst(reg, role, r.value)
    ensures r.None? ==> forall j :: 0 <= j < |reg| ==> !HasRole(reg[j], role)
    ensures forall i: nat :: IsFirst(reg, role, i) ==> r == Some(i)
    decreases |reg|
  {
    if |reg| == 0 then None
    else if HasRole(reg[0], role) then Some(0)
    else
      match FindCamera(reg[1..], role)
      case None => None
      case Some(i) => Some(i + 1)
  }

  /** `OnCreate`: the renderer uses the first editor camera, else the first
      primary camera, else keeps the camera it had. */
  function OnCreate(s: Scene): (r: Scene)
    ensures forall i: nat :: IsFirst(s.registry, EditorRole, i) ==> r.rendererCamera == Some(s.registry[i].handle)
    ensures (forall j :: 0 <= j < |s.registry| ==> !HasRole(s.registry[j], EditorRole)) ==>
      forall i: nat :: IsFirst(s.registry, PrimaryRole, i) ==> r.rendererCamera == Some(s.registry[i].handle)
    ensures (forall j :: 0 <= j < |s.registry| ==> !HasRole(s.registry[j], EditorRole) && !HasRole(s.registry[j], PrimaryRole)) ==>
      r == s
    ensures r.(rendererCamera := s.rendererCamera) == s
  {
    match FindCamera(s.registry, EditorRole)
    case Some(i) => s.(rendererCamera := Some(s.registry[i].handle))
    case None =>
      match FindCamera(s.registry, PrimaryRole)
      case Some(i) => s.(rendererCamera := Some(s.registry[i].handle))
      case None => s
  }

  /** There is at most one first camera of a role. */
  lemma FirstIsUnique(reg: seq<Entity>, role: Role, i: nat, k: nat)
    requires IsFirst(reg, role, i) && IsFirst(reg, role, k)
    ensures i == k
  {
  }

  // ---------------------------------------------------------------------------
  // Play and Stop

  /** Box2D's pose of a body after a physics step, rotation already in degrees. */
  datatype Pose = Pose(x: real, y: real, angleDegrees: real)

  /** `OnFixedUpdate`'s copy of a body's pose into the entity's transform. */
  function SyncTransform(e: Entity, pose: Pose): (r: Entity)
    requires e.transform.Some?
    ensures r.transform.Some?
    ensures r.transform.value.translation == Vec3(pose.x, pose.y, e.transform.value.translation.z)
    ensures r.transform.value.rotation == Vec3(e.transform.value.rotation.x, e.transform.value.rotation.y, pose.angleDegrees)
    ensures r.transform.value.scale == e.transform.value.scale
    ensures r.(transform := e.transform) == e
  {
    var t := e.transform.value;
    e.(transform := Some(t.(translation := Vec3(pose.x, pose.y, t.translation.z),
                             rotation := Vec3(t.rotation.x, t.rotation.y, pose.angleDegrees))))
  }

  datatype Fixed = Fixed(scene: Scene, scriptsTicked: bool)

  /** `OnFixedUpdate`: nothing unless playing; otherwise every entity with a
      transform and a body takes the body's pose, then the scripts tick.
      `pose` gives each body's pose after the physics step. */
  function OnFixedUpdate(s: Scene, pose: nat -> Pose): (r: Fixed)
    ensures s.state != Play ==> r == Fixed(s, false)
    ensures s.state == Play ==>
      && r.scriptsTicked
      && r.scene.(registry := s.registry) == s
      && |r.scene.registry| == |s.registry|
      && forall i :: 0 <= i < |s.registry| ==>
           var e := s.registry[i];
           r.scene.registry[i] == if e.transform.Some? && e.rigidbody.Some? then SyncTransform(e, pose(e.handle)) else e
  {
    if s.state != Play then Fixed(s, false)
    else
      var reg := seq(|s.registry|, i requires 0 <= i < |s.registry| =>
        var e := s.registry[i];
        if e.transform.Some? && e.rigidbody.Some? then SyncTransform(e, pose(e.handle)) else e);
      Fixed(s.(registry := reg), true)
  }

  /** Every entity with a body also has a transform, as `AddRigidbody` ensures. */
  predicate BodiesPosed(reg: seq<Entity>) {
    forall i :: 0 <= i < |reg| && reg[i].rigidbody.Some? ==> reg[i].transform.Some?
  }

  /** Every body still holds the fixture its component remembers. */
  predicate NewestFixturesLive(reg: seq<Entity>) {
    forall i :: 0 <= i < |reg| && reg[i].rigidbody.Some? ==> reg[i].rigidbody.value.newest
  }

  /** `OnPlay`'s rigid-body loop: every body in the transform-and-body view
      gets one more fixture. */
  function SetFixtures(reg: seq<Entity>): (r: seq<Entity>)
    ensures |r| == |reg|
    ensures forall i :: 0 <= i < |reg| ==>
      if reg[i].rigidbody.Some? && reg[i].transform.Some?
      then && r[i].rigidbody.Some?
           && FixtureCount(r[i].rigidbody.value) == FixtureCount(reg[i].rigidbody.value) + 1
           && r[i].rigidbody.value.newest
           && r[i].(rigidbody := reg[i].rigidbody) == reg[i]
      else r[i] == reg[i]
  {
    seq(|reg|, i requires 0 <= i < |reg| =>
      if reg[i].rigidbody.Some? && reg[i].transform.Some?
      then reg[i].(rigidbody := Some(SetFixture(reg[i].rigidbody.value)))
      else reg[i])
  }

  /** `OnStop`'s loop over the body view: every body destroys the fixture its
      component remembers; it fails when some body no longer holds it. */
  function DestroyFixtures(reg: seq<Entity>): (r: Result<seq<Entity>>)
    ensures r.Success? <==> NewestFixturesLive(reg)
    ensures r.Success? ==> |r.value| == |reg| && forall i :: 0 <= i < |reg| ==>
      if reg[i].rigidbody.Some?
      then && r.value[i].rigidbody.Some?
           && FixtureCount(r.value[i].rigidbody.value) == FixtureCount(reg[i].rigidbody.value) - 1
           && !r.value[i].rigidbody.value.newest
           && r.value[i].(rigidbody := reg[i].rigidbody) == reg[i]
      else r.value[i] == reg[i]
  {
    if !NewestFixturesLive(reg) then Failure("fixture already destroyed")
    else
      Success(seq(|reg|, i requires 0 <= i < |reg| =>
        if reg[i].rigidbody.Some?
        then reg[i].(rigidbody := Some(DestroyFixture(reg[i].rigidbody.value).value))
        else reg[i]))
  }

  /** The script path the scene hands to the script engine for `name`: the file
      found in the working directory, or the empty path when there is none. */
  function ScriptPath(name: string, available: set<string>): string {
    if name in available then name else ""
  }

  /** No later entity with a script has the same id as entity `i`. */
  predicate LastScriptOf(reg: seq<Entity>, i: nat)
    requires i < |reg|
  {
    forall j :: i < j < |reg| ==> !(reg[j].script.Some? && reg[j].id == reg[i].id)
  }

  /** The entity-to-script table `OnPlay` builds over the (id, script) view. */
  function ScriptTable(reg: seq<Entity>, available: set<string>): (t: map<Guid, string>)
    ensures forall id :: id in t <==> exists i :: 0 <= i < |reg| && reg[i].script.Some? && reg[i].id == id
    ensures forall i :: 0 <= i < |reg| && reg[i].script.Some? && LastScriptOf(reg, i) ==>
      reg[i].id in t && t[reg[i].id] == ScriptPath(reg[i].script.value, available)
    decreases |reg|
  {
    if |reg| == 0 then map[]
    else
      var init := reg[..|reg| - 1];
      var last := reg[|reg| - 1];
      var t := ScriptTable(init, available);
      assert forall i :: 0 <= i < |init| ==> init[i] == reg[i];
      if last.script.Some? then t[last.id := ScriptPath(last.script.value, available)] else t
  }

  datatype Played = Played(scene: Scene, scripts: map<Guid, string>, scriptsStarted: bool)

  /** `OnPlay`: ignored while playing. Otherwise the first primary camera, if
      any, becomes the renderer's and switches the scene to Play; whether or not
      one exists, every body with a transform gets one more fixture and the
      scripts are loaded and started. `available` is the set of script files in
      the working directory. */
  function OnPlay(s: Scene, available: set<string>): (r: Played)
    ensures s.state == Play ==> r == Played(s, map[], false)
    ensures s.state != Play ==>
      && (r.scene.state == Play <==> exists i :: 0 <= i < |s.registry| && HasRole(s.registry[i], PrimaryRole))
      && (forall i: nat :: IsFirst(s.registry, PrimaryRole, i) ==> r.scene.rendererCamera == Some(s.registry[i].handle))
      && ((forall i :: 0 <= i < |s.registry| ==> !HasRole(s.registry[i], PrimaryRole)) ==> r.scene.rendererCamera == s.rendererCamera)
      && r.scene.registry == SetFixtures(s.registry)
      && r.scene.nextHandle == s.nextHandle
      && r.scripts == ScriptTable(s.registry, available)
      && r.scriptsStarted
  {
    if s.state == Play then Played(s, map[], false)
    else
      var withCamera :=
        match FindCamera(s.registry, PrimaryRole)
        case Some(i) => s.(rendererCamera := Some(s.registry[i].handle), state := Play)
        case None => s;
      Played(withCamera.(registry := SetFixtures(s.registry)), ScriptTable(s.registry, available), true)
  }

  /** `OnStop`: ignored while stopped. Otherwise the scene stops, the renderer
      goes back to the first editor camera if there is one, and every body
      destroys the fixture its component remembers; that fails when some body
      no longer holds it. */
  function OnStop(s: Scene): (r: Result<Scene>)
    ensures s.state == Stop ==> r == Success(s)
    ensures s.state != Stop ==>
      && (r.Success? <==> NewestFixturesLive(s.registry))
      && (r.Success? ==>
            && r.value.state == Stop
            && r.value.nextHandle == s.nextHandle
            && (forall i: nat :: IsFirst(s.registry, EditorRole, i) ==> r.value.rendererCamera == Some(s.registry[i].handle))
            && ((forall i :: 0 <= i < |s.registry| ==> !HasRole(s.registry[i], EditorRole)) ==> r.value.rendererCamera == s.rendererCamera)
            && r.value.registry == DestroyFixtures(s.registry).value)
  {
    if s.state == Stop then Success(s)
    else
      var camera :=
        match FindCamera(s.registry, EditorRole)
        case Some(i) => Some(s.registry[i].handle)
        case None => s.rendererCamera;
      match DestroyFixtures(s.registry)
      case Failure(e) => Failure(e)
      case Success(reg) => Success(Scene(Stop, reg, camera, s.nextHandle))
  }

  /** Play then Stop from a stopped scene with a primary camera, whose bodies
      all have transforms, comes back to Stop with every body holding as many
      fixtures as before: Stop destroys exactly the fixture Play created, and a
      fixture attached while stopped survives. */
  lemma PlayThenStop(s: Scene, available: set<string>, i: nat)
    requires s.state == Stop && i < |s.registry| && HasRole(s.registry[i], PrimaryRole)
    requires BodiesPosed(s.registry)
    ensures var played := OnPlay(s, available).scene;
      && played.state == Play
      && var stopped := OnStop(played);
         && stopped.Success?
         && stopped.value.state == Stop
         && |stopped.value.registry| == |s.registry|
         && forall j :: 0 <= j < |s.registry| ==>
              if s.registry[j].rigidbody.Some?
              then && stopped.value.registry[j].rigidbody.Some?
                   && FixtureCount(stopped.value.registry[j].rigidbody.value) == FixtureCount(s.registry[j].rigidbody.value)
                   && !stopped.value.registry[j].rigidbody.value.newest
              else stopped.value.registry[j] == s.registry[j]
  {
    var played := OnPlay(s, available).scene;
    assert played.state == Play;
    assert NewestFixturesLive(played.registry);
  }

  /** Without a primary camera Play leaves the scene stopped, so Stop is
      ignored and each further Play stacks another fixture on every body. */
  lemma PlayWithoutCameraStacksFixtures(s: Scene, available: set<string>, j: nat)
    requires s.state == Stop && j < |s.registry|
    requires forall i :: 0 <= i < |s.registry| ==> !HasRole(s.registry[i], PrimaryRole)
    requires s.registry[j].rigidbody.Some? && s.registry[j].transform.Some?
    ensures var once := OnPlay(s, available).scene;
      var twice := OnPlay(once, available).scene;
      && once.state == Stop && OnStop(once) == Success(once)
      && twice.state == Stop
      && twice.registry[j].rigidbody.Some?
      && FixtureCount(twice.registry[j].rigidbody.value) == FixtureCount(s.registry[j].rigidbody.value) + 2
  {
    var once := OnPlay(s, available).scene;
    assert once.registry[j].rigidbody.Some? && once.registry[j].transform.Some?;
  }

  // ---------------------------------------------------------------------------
  // Registry edits

  /** Slot `i` holds the first entity with `id` in view order. */
  predicate FirstWithId(reg: seq<Entity>, id: Guid, i: nat) {
    i < |reg| && reg[i].id == id && forall j :: 0 <= j < i ==> reg[j].id != id
  }

  /** The id view loop with an early exit at the first entity with `id`. */
  function FindHandleById(reg: seq<Entity>, id: Guid): (r: Option<nat>)
    ensures r.None? ==> forall i :: 0 <= i < |reg| ==> reg[i].id != id
    ensures r.Some? ==> exists i: nat :: FirstWithId(reg, id, i) && reg[i].handle == r.value
    decreases |reg|
  {
    if |reg| == 0 then None
    else if reg[0].id == id then
      assert FirstWithId(reg, id, 0);
      Some(reg[0].handle)
    else
      var r := FindHandleById(reg[1..], id);
      if r.Some? then
        ghost var i: nat :| FirstWithId(reg[1..], id, i) && reg[1..][i].handle == r.value;
        assert FirstWithId(reg, id, i + 1);
        r
      else r
  }

  /** The handle `entt::entity()` value-initialises to. entt hands it to the
      first entity a registry creates, so it is a live handle while that
      entity exists. */
  const NullEntity: nat := 0

  /** `GetEntityById`: the handle of the first entity with `id`, or
      `entt::entity()` when none has it. */
  function GetEntityById(reg: seq<Entity>, id: Guid): (r: nat)
    ensures forall i: nat :: FirstWithId(reg, id, i) ==> r == reg[i].handle
    ensures (forall i :: 0 <= i < |reg| ==> reg[i].id != id) ==> r == NullEntity
  {
    match FindHandleById(reg, id)
    case Some(h) => h
    case None => NullEntity
  }

  /** Finding by id depends on the ids and handles alone. */
  lemma {:induction false} FindHandleByIdSeesIdsAndHandles(a: seq<Entity>, b: seq<Entity>, id: Guid)
    requires |a| == |b| && forall j :: 0 <= j < |a| ==> a[j].id == b[j].id && a[j].handle == b[j].handle
    ensures FindHandleById(a, id) == FindHandleById(b, id)
    decreases |a|
  {
    if |a| > 0 && a[0].id != id {
      FindHandleByIdSeesIdsAndHandles(a[1..], b[1..], id);
    }
  }

  /** The slot of the entity with handle `h`, if any. */
  function SlotOf(reg: seq<Entity>, h: nat): (r: Option<nat>)
    ensures r.Some? ==> r.value < |reg| && reg[r.value].handle == h
    ensures r.None? ==> forall i :: 0 <= i < |reg| ==> reg[i].handle != h
    decreases |reg|
  {
    if |reg| == 0 then None
    else if reg[|reg| - 1].handle == h then Some(|reg| - 1)
    else SlotOf(reg[..|reg| - 1], h)
  }

  /** The default rigid body: Box2D's dynamic body with the scene's fixture
      settings (density 1, friction 0.3) attached. */
  const DefaultBody: Rigidbody := Rigidbody(1.0, 0.3, true, 0, true)

  /** `AddRigidbody`: a no-op when a body is present; otherwise a body posed
      from the transform is attached. The entity must be valid, and carry a
      transform when a body is attached (the source then fetches it
      unconditionally). */
  function AddRigidbody(s: Scene, h: nat): (r: Result<Scene>)
    ensures r.Success? <==>
      && SlotOf(s.registry, h).Some?
      && (s.registry[SlotOf(s.registry, h).value].rigidbody.Some? || s.registry[SlotOf(s.registry, h).value].transform.Some?)
    ensures r.Success? ==>
      var i := SlotOf(s.registry, h).value;
      && |r.value.registry| == |s.registry|
      && r.value.registry[i].rigidbody.Some?
      && (s.registry[i].rigidbody.Some? ==> r.value == s)
      && (s.registry[i].rigidbody.None? ==> r.value == s.(registry := s.registry[i := s.registry[i].(rigidbody := Some(DefaultBody))]))
  {
    match SlotOf(s.registry, h)
    case None => Failure("invalid entity")
    case Some(i) =>
      if s.registry[i].rigidbody.Some? then Success(s)
      else if s.registry[i].transform.None? then Failure("entity has no transform")
      else Success(s.(registry := s.registry[i := s.registry[i].(rigidbody := Some(DefaultBody))]))
  }

  /** The slot of a handle depends on the handles alone. */
  lemma {:induction false} SlotOfSeesHandlesOnly(a: seq<Entity>, b: seq<Entity>, h: nat)
    requires |a| == |b| && forall j :: 0 <= j < |a| ==> a[j].handle == b[j].handle
    ensures SlotOf(a, h) == SlotOf(b, h)
    decreases |a|
  {
    if |a| > 0 {
      SlotOfSeesHandlesOnly(a[..|a| - 1], b[..|b| - 1], h);
    }
  }

  /** Adding a body twice is adding it once. */
  lemma AddRigidbodyIdempotent(s: Scene, h: nat)
    requires AddRigidbody(s, h).Success?
    ensures AddRigidbody(AddRigidbody(s, h).value, h) == AddRigidbody(s, h)
  {
    SlotOfSeesHandlesOnly(s.registry, AddRigidbody(s, h).value.registry, h);
  }

  /** Adding a script component twice is adding it once. */
  lemma AddScriptIdempotent(s: Scene, h: nat)
    requires AddScript(s, h).Success?
    ensures AddScript(AddScript(s, h).value, h) == AddScript(s, h)
  {
    SlotOfSeesHandlesOnly(s.registry, AddScript(s, h).value.registry, h);
  }

  /** `AddScript`: a no-op when a script component is present; otherwise one
      with the empty file name is attached. */
  function AddScript(s: Scene, h: nat): (r: Result<Scene>)
    ensures r.Success? <==> SlotOf(s.registry, h).Some?
    ensures r.Success? ==>
      var i := SlotOf(s.registry, h).value;
      && |r.value.registry| == |s.registry|
      && r.value.registry[i].script.Some?
      && (s.registry[i].script.Some? ==> r.value == s)
      && (s.registry[i].script.None? ==> r.value == s.(registry := s.registry[i := s.registry[i].(script := Some(""))]))
  {
    match SlotOf(s.registry, h)
    case None => Failure("invalid entity")
    case Some(i) =>
      if s.registry[i].script.Some? then Success(s)
      else Success(s.(registry := s.registry[i := s.registry[i].(script := Some(""))]))
  }

  /** The slot `GetEntityById` leads to when `registry.valid` accepts its
      handle. */
  function Target(reg: seq<Entity>, id: Guid): (r: Option<nat>)
    ensures r.Some? ==> r.value < |reg|
  {
    SlotOf(reg, GetEntityById(reg, id))
  }

  /** `SetRigid`: nothing happens unless the handle found for `id` is valid;
      otherwise a body is added when the entity has none and `isRigid` holds,
      the component is removed when it has one and `isRigid` does not, and
      otherwise nothing happens. */
  function SetRigid(s: Scene, id: Guid, isRigid: bool): (r: Result<Scene>)
    ensures Target(s.registry, id).None? ==> r == Success(s)
    ensures Target(s.registry, id).Some? ==>
      var i := Target(s.registry, id).value;
      && (r.Failure? <==> isRigid && s.registry[i].rigidbody.None? && s.registry[i].transform.None?)
      && (r.Success? ==>
            && |r.value.registry| == |s.registry|
            && r.value.(registry := s.registry) == s
            && (r.value.registry[i].rigidbody.Some? <==> isRigid)
            && r.value.registry[i].(rigidbody := s.registry[i].rigidbody) == s.registry[i]
            && (isRigid && s.registry[i].rigidbody.None? ==> r.value.registry[i].rigidbody == Some(DefaultBody))
            && (s.registry[i].rigidbody.Some? == isRigid ==> r.value == s)
            && forall j :: 0 <= j < |s.registry| && j != i ==> r.value.registry[j] == s.registry[j])
  {
    var h := GetEntityById(s.registry, id);
    match SlotOf(s.registry, h)
    case None => Success(s)
    case Some(i) =>
      var e := s.registry[i];
      if e.rigidbody.None? && isRigid then AddRigidbody(s, h)
      else if e.rigidbody.Some? && !isRigid then Success(s.(registry := s.registry[i := e.(rigidbody := None)]))
      else Success(s)
  }

  /** Edits that keep every id and handle keep the target of every id. */
  lemma TargetSeesIdsAndHandles(a: seq<Entity>, b: seq<Entity>, id: Guid)
    requires |a| == |b| && forall j :: 0 <= j < |a| ==> a[j].id == b[j].id && a[j].handle == b[j].handle
    ensures Target(a, id) == Target(b, id)
  {
    FindHandleByIdSeesIdsAndHandles(a, b, id);
    SlotOfSeesHandlesOnly(a, b, GetEntityById(a, id));
  }

  /** Asking twice for the same rigidity is asking once. */
  lemma SetRigidIdempotent(s: Scene, id: Guid, isRigid: bool)
    requires SetRigid(s, id, isRigid).Success?
    ensures SetRigid(SetRigid(s, id, isRigid).value, id, isRigid) == SetRigid(s, id, isRigid)
  {
    var r := SetRigid(s, id, isRigid).value;
    TargetSeesIdsAndHandles(s.registry, r.registry, id);
  }

  /** Making an entity rigid and then not rigid restores the registry. */
  lemma SetRigidToggleRestores(s: Scene, id: Guid)
    requires Target(s.registry, id).Some?
    requires var e := s.registry[Target(s.registry, id).value]; e.rigidbody.None? && e.transform.Some?
    ensures SetRigid(s, id, true).Success?
    ensures SetRigid(SetRigid(s, id, true).value, id, false) == Success(s)
  {
    var r := SetRigid(s, id, true).value;
    TargetSeesIdsAndHandles(s.registry, r.registry, id);
    var i := Target(s.registry, id).value;
    assert r.registry[i := r.registry[i].(rigidbody := None)] == s.registry;
  }

  /** As written, a request for an id nobody has lands on handle 0: here the
      editor camera, the first entity created, gains a rigid body. */
  lemma UnknownIdReachesHandleZero()
    ensures var camera := Entity(0, 7, true, Some(Transform(Zero, Zero, One)), None, None, Some(Camera(false, true)), None, None);
      var s := Scene(Stop, [camera], None, 1);
      && (forall i :: 0 <= i < |s.registry| ==> s.registry[i].id != 9)
      && SetRigid(s, 9, true) == Success(s.(registry := [camera.(rigidbody := Some(DefaultBody))]))
  {
    var camera := Entity(0, 7, true, Some(Transform(Zero, Zero, One)), None, None, Some(Camera(false, true)), None, None);
    var s := Scene(Stop, [camera], None, 1);
    assert FindHandleById(s.registry, 9).None?;
    assert SlotOf(s.registry, 0) == Some(0);
    assert s.registry[0 := camera.(rigidbody := Some(DefaultBody))] == [camera.(rigidbody := Some(DefaultBody))];
  }

  /** `SetRigid` as evidently intended: an id nobody has is ignored, whatever
      entity holds handle 0. */
  function SetRigidIntended(s: Scene, id: Guid, isRigid: bool): (r: Result<Scene>)
    ensures (forall i :: 0 <= i < |s.registry| ==> s.registry[i].id != id) ==> r == Success(s)
    ensures FindHandleById(s.registry, id).Some? ==> r == SetRigid(s, id, isRigid)
  {
    match FindHandleById(s.registry, id)
    case None => Success(s)
    case Some(_) => SetRigid(s, id, isRigid)
  }

  /** The intended `SetRigid` never touches an entity without the id. */
  lemma SetRigidIntendedKeepsBystanders(s: Scene, id: Guid, isRigid: bool, j: nat)
    requires j < |s.registry| && s.registry[j].id != id && HandlesDistinct(s.registry)
    requires SetRigidIntended(s, id, isRigid).Success?
    ensures var r := SetRigidIntended(s, id, isRigid).value;
      |r.registry| == |s.registry| && r.registry[j] == s.registry[j]
  {
    var found := FindHandleById(s.registry, id);
    if found.Some? {
      var k: nat :| FirstWithId(s.registry, id, k) && s.registry[k].handle == found.value;
      assert Target(s.registry, id) == Some(k);
    }
  }

  /** `ConfigureRigidbody`: only an existing body behind a valid handle found
      for `id` takes the new density, friction and dynamic flag; its fixtures
      are kept. */
  function ConfigureRigidbody(s: Scene, id: Guid, density: real, friction: real, dynamic: bool): (r: Scene)
    ensures |r.registry| == |s.registry| && r.(registry := s.registry) == s
    ensures forall j :: 0 <= j < |s.registry| ==>
      if s.registry[j].rigidbody.Some? && Target(s.registry, id) == Some(j)
      then && r.registry[j].rigidbody == Some(s.registry[j].rigidbody.value.(density := density, friction := friction, dynamic := dynamic))
           && r.registry[j].(rigidbody := s.registry[j].rigidbody) == s.registry[j]
      else r.registry[j] == s.registry[j]
  {
    match Target(s.registry, id)
    case None => s
    case Some(i) =>
      var e := s.registry[i];
      if e.rigidbody.None? then s
      else
        var body := e.rigidbody.value.(density := density, friction := friction, dynamic := dynamic);
        s.(registry := s.registry[i := e.(rigidbody := Some(body))])
  }

  /** Configuring twice leaves the second configuration. */
  lemma ConfigureLastWriteWins(s: Scene, id: Guid, d1: real, f1: real, y1: bool, d2: real, f2: real, y2: bool)
    ensures ConfigureRigidbody(ConfigureRigidbody(s, id, d1, f1, y1), id, d2, f2, y2) == ConfigureRigidbody(s, id, d2, f2, y2)
  {
    var once := ConfigureRigidbody(s, id, d1, f1, y1);
    TargetSeesIdsAndHandles(s.registry, once.registry, id);
  }

  const Zero: Vec3 := Vec3(0.0, 0.0, 0.0)
  const One: Vec3 := Vec3(1.0, 1.0, 1.0)

  datatype Added = Added(scene: Scene, handle: nat)

  /** `AddDefaultEntity`: a new entity with a fresh handle, the given id (its
      random GUID), a default name, the identity transform with unit scale, a
      white colour and the given geometry. */
  function AddDefaultEntity(s: Scene, geometry: Geometry, id: Guid): (r: Added)
    ensures r.handle == s.nextHandle && r.scene.nextHandle > r.handle
    ensures |r.scene.registry| == |s.registry| + 1 && r.scene.registry[..|s.registry|] == s.registry
    ensures var e := r.scene.registry[|s.registry|];
      && e.handle == r.handle && e.id == id && e.named
      && e.transform == Some(Transform(Zero, Zero, One))
      && e.color == Some(Color(1.0, 1.0, 1.0, 1.0))
      && e.geometry == Some(geometry)
      && e.camera.None? && e.rigidbody.None? && e.script.None?
    ensures r.scene.(registry := s.registry, nextHandle := s.nextHandle) == s
  {
    var e := Entity(s.nextHandle, id, true, Some(Transform(Zero, Zero, One)), Some(Color(1.0, 1.0, 1.0, 1.0)),
                    Some(geometry), None, None, None);
    Added(s.(registry := s.registry + [e], nextHandle := s.nextHandle + 1), s.nextHandle)
  }

  /** New entities keep the registry's handles fresh and distinct. */
  lemma AddDefaultEntityKeepsHandles(s: Scene, geometry: Geometry, id: Guid)
    requires HandlesFresh(s) && HandlesDistinct(s.registry)
    ensures var r := AddDefaultEntity(s, geometry, id).scene;
      HandlesFresh(r) && HandlesDistinct(r.registry)
  {
    var r := AddDefaultEntity(s, geometry, id).scene;
    assert forall i :: 0 <= i < |s.registry| ==> r.registry[i] == s.registry[i];
  }

  /** `CreateEntity` (the scripts' request): a default rectangle; its id is what
      the script receives back. */
  function CreateEntity(s: Scene, id: Guid): (r: (Scene, Guid))
    ensures r.1 == id
    ensures |r.0.registry| == |s.registry| + 1 && r.0.registry[|s.registry|].geometry == Some(Rectangle)
  {
    (AddDefaultEntity(s, Rectangle, id).scene, id)
  }

  /** A fresh id handed to a script finds the entity just created. */
  lemma CreatedEntityIsFound(s: Scene, id: Guid)
    requires forall i :: 0 <= i < |s.registry| ==> s.registry[i].id != id
    ensures GetEntityById(CreateEntity(s, id).0.registry, id) == s.nextHandle
  {
    var r := CreateEntity(s, id).0;
    assert r.registry[|s.registry|].id == id;
    assert FirstWithId(r.registry, id, |s.registry|);
    assert forall i :: 0 <= i < |s.registry| ==> r.registry[i] == s.registry[i];
  }

  /** `AddCamera`: a named entity with a camera whose editor flag is cleared and
      a transform whose scale is zero. */
  function AddCamera(s: Scene, id: Guid): (r: Added)
    ensures r.handle == s.nextHandle && |r.scene.registry| == |s.registry| + 1
    ensures r.scene.registry[..|s.registry|] == s.registry
    ensures var e := r.scene.registry[|s.registry|];
      && e.handle == r.handle && e.id == id && e.named
      && e.camera == Some(Camera(false, false)) && e.transform == Some(Transform(Zero, Zero, Zero))
      && e.color.None? && e.geometry.None? && e.rigidbody.None? && e.script.None?
  {
    var e := Entity(s.nextHandle, id, true, Some(Transform(Zero, Zero, Zero)), None, None,
                    Some(Camera(false, false)), None, None);
    Added(s.(registry := s.registry + [e], nextHandle := s.nextHandle + 1), s.nextHandle)
  }

  /** The camera `AddCamera` creates is neither an editor nor a primary camera,
      so it never changes which camera `OnCreate` picks. */
  lemma AddedCameraIsNeverPicked(s: Scene, id: Guid)
    ensures OnCreate(AddCamera(s, id).scene).rendererCamera == OnCreate(s).rendererCamera
  {
    var r := AddCamera(s, id).scene;
    assert forall i :: 0 <= i < |s.registry| ==> r.registry[i] == s.registry[i];
    var e := r.registry[|s.registry|];
    assert !HasRole(e, EditorRole) && !HasRole(e, PrimaryRole);
    assert forall i: nat :: IsFirst(r.registry, EditorRole, i) <==> IsFirst(s.registry, EditorRole, i);
    assert forall i: nat :: IsFirst(r.registry, PrimaryRole, i) <==> IsFirst(s.registry, PrimaryRole, i);
  }

  /** The registry without slot `i`. */
  function RemoveSlot(reg: seq<Entity>, i: nat): (r: seq<Entity>)
    requires i < |reg|
    ensures |r| == |reg| - 1
    ensures forall j :: 0 <= j < i ==> r[j] == reg[j]
    ensures forall j :: i <= j < |r| ==> r[j] == reg[j + 1]
  {
    reg[..i] + reg[i + 1..]
  }

  /** `DestroyEntity` as written: the loop variable `entity` is left
      uninitialised when no entity has `id`, so the validity test then reads an
      indeterminate handle, given here as `indeterminate`. A valid handle is
      destroyed, an invalid one is ignored. */
  function DestroyEntityAsWritten(s: Scene, id: Guid, indeterminate: nat): (r: Scene)
    ensures FindHandleById(s.registry, id).Some? ==> r == DestroyEntity(s, id)
    ensures FindHandleById(s.registry, id).None? && SlotOf(s.registry, indeterminate).None? ==> r == s
    ensures FindHandleById(s.registry, id).None? && SlotOf(s.registry, indeterminate).Some? ==>
      && r.(registry := s.registry) == s
      && r.registry == RemoveSlot(s.registry, SlotOf(s.registry, indeterminate).value)
  {
    var h := match FindHandleById(s.registry, id) case Some(h) => h case None => indeterminate;
    match SlotOf(s.registry, h)
    case None => s
    case Some(i) => s.(registry := RemoveSlot(s.registry, i))
  }

  /** A destroy request for an id nobody has can remove an unrelated entity. */
  lemma DestroyAsWrittenRemovesBystander()
    ensures var bystander := Entity(1, 5, true, None, None, None, None, None, None);
      var s := Scene(Stop, [bystander], None, 2);
      && FindHandleById(s.registry, 9).None?
      && DestroyEntityAsWritten(s, 9, 1).registry == []
  {
  }

  /** `DestroyEntity` as evidently intended: an unknown id is ignored, otherwise
      the first entity with `id` (and its body) is removed. */
  function DestroyEntity(s: Scene, id: Guid): (r: Scene)
    ensures FindHandleById(s.registry, id).None? ==> r == s
    ensures FindHandleById(s.registry, id).Some? ==> |r.registry| == |s.registry| - 1
    ensures r.(registry := s.registry) == s
    ensures forall j :: 0 <= j < |r.registry| ==> r.registry[j] in s.registry
  {
    match FindHandleById(s.registry, id)
    case None => s
    case Some(h) =>
      var i := SlotOf(s.registry, h).value;
      s.(registry := RemoveSlot(s.registry, i))
  }

  /** With distinct handles, destroying removes an entity carrying `id` and
      keeps every entity that does not. */
  lemma DestroyEntityRemovesOnlyMatch(s: Scene, id: Guid)
    requires HandlesDistinct(s.registry)
    ensures var r := DestroyEntity(s, id);
      forall j :: 0 <= j < |s.registry| && s.registry[j].id != id ==> s.registry[j] in r.registry
  {
    var r := DestroyEntity(s, id);
    var found := FindHandleById(s.registry, id);
    if found.Some? {
      var i := SlotOf(s.registry, found.value).value;
      assert s.registry[i].id == id;
      forall j | 0 <= j < |s.registry| && s.registry[j].id != id
        ensures s.registry[j] in r.registry
      {
        if j < i {
          assert r.registry[j] == s.registry[j];
        } else {
          assert j != i;
          assert r.registry[j - 1] == s.registry[j];
        }
      }
    }
  }
}
