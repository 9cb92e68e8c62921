# MangoEngine core, modelled in Dafny

MangoEngine is a small 2D game engine. Its scene is an entt registry. The
rendering runs on Vulkan and the game logic is written in embedded Python
scripts. This project models the parts of it that are pure bookkeeping:

- the FloppyBirb sample game's two scripts: the bird's jump latch and
  restart, and the obstacle conveyor with its recycling and restart;
- the `ScriptEngine` queues and tables: collision queues, deferred entity
  deletion, the per-frame call order, the destroy and find-by-name services;
- `Input` and the GLFW key callback that feeds it;
- the `Scene` state machine (`Stop`/`Play`), camera selection and the
  entity-editing operations;
- the 128-byte C string buffers of `NameComponent` and `ScriptComponent`,
  including the default-name counter;
- `UniformBuffer` alignment and `EnsureCapacity`;
- the frame counter and triangle batching of `Renderer_ImplVulkan`;
- swap-chain parameter selection, physical-device choice, the queue-family
  scan and the instance extension/layer checks, in both the platform layer
  (`Source/Platform/Vulkan`) and the older layer (`Source/Vulkan`).

Every Vulkan, GLFW, Box2D and Python C-API call becomes a parameter that
carries the query result, or a trace entry that records the call. The files
are:

- `wrappers.dfy`: `Option` and `Result`.
- `obstacles.dfy`, `bird.dfy`: the FloppyBirb scripts.
- `script_engine.dfy`: the scripting bridge.
- `input.dfy`, `glfw_window.dfy`: keyboard state.
- `scene.dfy`: the scene.
- `components.dfy`: C string buffers and the name and script components.
- `uniform_buffer.dfy`: the uniform buffer.
- `renderer.dfy`: the renderer.
- `swap_chain.dfy`, `physical_device.dfy`, `queue_families.dfy`,
  `instance.dfy`: Vulkan setup.

Modelling conventions:

- Positions and scales are exact reals.
- The Python scripts' `random.uniform` draws are an infinite stream
  `rng: nat -> real` together with a counter of draws already used.
- Entity GUIDs and entt handles are naturals.
- Vulkan bit masks are the sets of their bit positions.
- `strcmp` on NUL-terminated names is equality of the character sequences.
- `VkDeviceSize` arithmetic is modulo 2^64.
- The `uint32_t` and `uint16_t` conversions are written out explicitly.

## Model

| member | source | states |
|---|---|---|
| Bird.OnCreate | TestGames/FloppyBirb/Bird.py:4-7 | a new bird is not jumping, has the (0, 40) jump force and keeps its position; its `restartOnNextFrame` flag is set but no line of the script reads it |
| Bird.TickSampled | TestGames/FloppyBirb/Bird.py:9-16 | the first key sample gives an impulse of exactly the jump force iff the bird was not latched; the latch afterwards is set iff the second sample is down and the bird was latched or just jumped; nothing else changes |
| Bird.Tick | TestGames/FloppyBirb/Bird.py:9-16 | with a steady key the latch follows the key, and an impulse is applied iff the key is down and the latch was clear |
| Bird.RunCountsPresses | TestGames/FloppyBirb/Bird.py:9-16 | over a run of ticks the number of jumps is the number of rising edges of the key, and the latch ends at the last key state |
| Bird.HoldingJumpsOnce | TestGames/FloppyBirb/Bird.py:11-16 | holding the key for any number of ticks jumps exactly once |
| Bird.PressReleasePressJumpsTwice | TestGames/FloppyBirb/Bird.py:11-16 | press, release, press jumps twice |
| Bird.RunTicks | TestGames/FloppyBirb/Bird.py:9-16 | every impulse of a run is the bird's jump force, and only the latch of the bird changes |
| Bird.OnCollisionBegin | TestGames/FloppyBirb/Bird.py:18-21 | a collision succeeds iff the obstacle controller is found; the bird returns to the origin, every old obstacle entity, top then bottom of each pair in list order, is destroyed and a fresh layout is spawned |
| Bird.CollisionKeepsLatch | TestGames/FloppyBirb/Bird.py:18-21 | a collision leaves the jump latch as it was and yields the initial obstacle layout |
| Obstacles.RandomizeScale | TestGames/FloppyBirb/ObstaclesController.py:63-68 | the top takes the drawn y-scale, the two y-scales sum to the combined budget minus the window, and only scales change |
| Obstacles.SpawnObstacle | TestGames/FloppyBirb/ObstaclesController.py:28-40 | one pair with two fresh ids is appended at (x, +y) and (x, -y), scaled by the next draw; earlier pairs are untouched |
| Obstacles.SpawnInitialObstacles | TestGames/FloppyBirb/ObstaclesController.py:58-61 | `count` pairs are appended at consecutive layout slots with consecutive ids and draws; on an empty list this is the initial layout, upright |
| Obstacles.SpawnFrom | TestGames/FloppyBirb/ObstaclesController.py:58-61 | the loop from slot i spawns the remaining slots in order, each at its layout x with the next ids and draw |
| Obstacles.OnCreate | TestGames/FloppyBirb/ObstaclesController.py:5-15 | the controller starts with 15 pairs at consecutive layout slots, upright, each pair within the scale budget, having used 30 ids and 15 draws |
| Obstacles.OnCreatePositions | TestGames/FloppyBirb/ObstaclesController.py:5-15 | with the script's constants there are 15 pairs from x = 10 in steps of 1.5, tops at y = 5 and bottoms at y = -5 |
| Obstacles.OnCreateScales | TestGames/FloppyBirb/ObstaclesController.py:5-15 | every pair's y-scales sum to 9, and with draws in [4, 6] the bottom scale lies in [3, 5] |
| Obstacles.DefaultLayoutPositions | TestGames/FloppyBirb/ObstaclesController.py:5-15 | any freshly spawned field with the script's constants has the 15 positions above |
| Obstacles.DefaultLayoutScales | TestGames/FloppyBirb/ObstaclesController.py:5-15 | any freshly spawned field with the script's constants has the scale sums and bounds above |
| Obstacles.ShuffleObstacle | TestGames/FloppyBirb/ObstaclesController.py:42-56 | the recycled pair leaves its slot and goes to the end of the list, one step to the right of the previous last pair, with a new draw; it keeps its entity ids and the others keep their order |
| Obstacles.Slide | TestGames/FloppyBirb/ObstaclesController.py:20-22 | a pair moves left by the speed and keeps its height, ids and scales |
| Obstacles.TickFrom | TestGames/FloppyBirb/ObstaclesController.py:17-26 | the rest of the enumerate loop keeps the number of pairs and the id counter and never reuses a draw |
| Obstacles.Tick | TestGames/FloppyBirb/ObstaclesController.py:17-26 | a fixed update keeps the number of pairs |
| Obstacles.RemoveTakesSlot | TestGames/FloppyBirb/ObstaclesController.py:55-56 | with distinct ids, `list.remove` of pair i removes slot i, because no earlier pair has the same identity |
| Obstacles.ShuffleKeepsIdentities | TestGames/FloppyBirb/ObstaclesController.py:42-56 | recycling permutes the pairs' entity ids |
| Obstacles.SlideKeepsIdentities | TestGames/FloppyBirb/ObstaclesController.py:20-22 | sliding a pair keeps the ids of every slot |
| Obstacles.TickFromKeepsIdentities | TestGames/FloppyBirb/ObstaclesController.py:17-26 | the loop from any iteration permutes the pairs' ids |
| Obstacles.TickKeepsIdentities | TestGames/FloppyBirb/ObstaclesController.py:17-26 | a fixed update neither creates nor destroys an obstacle entity; the ids are permuted |
| Obstacles.ShuffleKeepsDistinctIds | TestGames/FloppyBirb/ObstaclesController.py:42-56 | recycling keeps all entity ids distinct |
| Obstacles.TickFromKeepsDistinctIds | TestGames/FloppyBirb/ObstaclesController.py:17-26 | the loop keeps all entity ids distinct |
| Obstacles.TickFromKeepsUpright | TestGames/FloppyBirb/ObstaclesController.py:17-26 | the loop keeps tops at +y and bottoms at -y |
| Obstacles.TickFromKeepsBalanced | TestGames/FloppyBirb/ObstaclesController.py:17-26 | the loop keeps every pair's two y-scales summing to the combined budget minus the window |
| Obstacles.TickKeepsInvariants | TestGames/FloppyBirb/ObstaclesController.py:17-26 | a fixed update keeps the field upright, within its scale budget, with distinct ids |
| Obstacles.TicksKeepInvariants | TestGames/FloppyBirb/ObstaclesController.py:17-26 | any number of fixed updates keeps the pair count, uprightness, the scale budget and distinct ids |
| Obstacles.TickFromWithoutRecycle | TestGames/FloppyBirb/ObstaclesController.py:17-26 | when no pair leaves the screen, the loop slides every pair from iteration k on, leaves the earlier ones alone and draws nothing |
| Obstacles.TickWithoutRecycle | TestGames/FloppyBirb/ObstaclesController.py:17-26 | when no pair leaves the screen, every pair moves left by the speed in place, and nothing is drawn |
| Obstacles.RecycleSkipsNext | TestGames/FloppyBirb/ObstaclesController.py:17-26 | for any field where the pair at iteration k leaves the screen and no later one does: one draw is used, earlier slots are kept, the next pair moves into slot k without sliding, the later ones slide one slot down, and the recycled pair, with its ids, lands last, one step right of the old last pair and then slid, with the new draw as its top scale |
| Obstacles.RecycleSkipsNextPair | TestGames/FloppyBirb/ObstaclesController.py:17-26 | a two-pair instance of the above: the pair that moves into a recycled slot is skipped on that tick, and the recycled pair slides twice |
| Obstacles.MemberIds | TestGames/FloppyBirb/ObstaclesController.py:71-73 | the destroyed ids list top then bottom of every pair, in list order |
| Obstacles.FreshLayout | TestGames/FloppyBirb/ObstaclesController.py:75-76 | the list spawned after clearing is a fresh layout from the current id and draw counters |
| Obstacles.SpawnedOnEmptyIsFresh | TestGames/FloppyBirb/ObstaclesController.py:58-61 | spawning on an empty list gives a fresh layout |
| Obstacles.FreshlySpawnedLayout | TestGames/FloppyBirb/ObstaclesController.py:58-61 | a fresh layout is the initial layout and is upright |
| Obstacles.FreshlySpawnedScales | TestGames/FloppyBirb/ObstaclesController.py:63-68 | a fresh layout's scales sum to the budget, and draws in range bound the bottom scale |
| Obstacles.FreshlySpawnedDistinct | TestGames/FloppyBirb/ObstaclesController.py:28-40 | a fresh layout has distinct ids, all at or above the counter it started from |
| Obstacles.Restart | TestGames/FloppyBirb/ObstaclesController.py:70-76 | a restart destroys every old obstacle entity, top and bottom of each pair, and spawns a fresh layout |
| Obstacles.RestartLaysOutAfresh | TestGames/FloppyBirb/ObstaclesController.py:70-76 | after a restart the field is the initial layout, upright, with distinct ids none of which was in use before |
| Obstacles.RestartPositionsIgnoreState | TestGames/FloppyBirb/ObstaclesController.py:70-76 | whatever the field was, a restart puts the same number of pairs at the same positions; only the draws differ |
| Obstacles.FreshLayoutsAgree | TestGames/FloppyBirb/ObstaclesController.py:58-61 | any two fresh layouts agree on every position, and each scale comes from its own draw counter |
| ScriptEngine.OnCollisionBegin | Source/Core/Scripting/ScriptEngine.cpp:170-190 | both ids get a Python object, a placeholder when none existed, existing objects are kept, and the pair is queued; nothing is called |
| ScriptEngine.OnCollisionEnd | Source/Core/Scripting/ScriptEngine.cpp:192-196 | the pair is queued and nothing else changes |
| ScriptEngine.Deliver | Source/Core/Scripting/ScriptEngine.cpp:198-218 | delivery succeeds iff every queued id still has an object, and then calls the method on each pair in queue order |
| ScriptEngine.DeliverIsReference | Source/Core/Scripting/ScriptEngine.cpp:198-218 | on a deliverable queue, the loop yields exactly the reference list of calls |
| ScriptEngine.DeletePyEntity | Source/Core/Scripting/ScriptEngine.cpp:234-239 | the id's object is removed and every other entry is kept |
| ScriptEngine.DeleteAll | Source/Core/Scripting/ScriptEngine.cpp:152-159 | the table keeps exactly the unmarked ids, with their objects unchanged |
| ScriptEngine.Drain | Source/Core/Scripting/ScriptEngine.cpp:152-159 | the deferred deletions remove the marked objects and clear the mark list, and change nothing else |
| ScriptEngine.HandleDestroyEntityEvent | Source/Core/Scripting/ScriptEngine.cpp:409-427 | a non-entity argument or an already-marked id changes nothing; otherwise the id is forwarded to the scene and marked once |
| ScriptEngine.DestroyKeepsMarksUnique | Source/Core/Scripting/ScriptEngine.cpp:409-427 | the mark list never holds an id twice |
| ScriptEngine.DestroyIdempotent | Source/Core/Scripting/ScriptEngine.cpp:409-427 | destroying the same entity twice in a frame has the effect of destroying it once |
| ScriptEngine.CallEach | Source/Core/Scripting/ScriptEngine.cpp:161-164 | the method is called once on each entity, in traversal order |
| ScriptEngine.CallEachIsReference | Source/Core/Scripting/ScriptEngine.cpp:161-164 | the call loop yields the reference list of calls |
| ScriptEngine.HandleDestroys | Source/Core/Scripting/ScriptEngine.cpp:409-427 | the destroy requests of one callback, handled in order, mark each requested id once, forward exactly the new marks to the scene in order, and change nothing else |
| ScriptEngine.Step | Source/Core/Scripting/ScriptEngine.cpp:220-232 | one script call is recorded, marks the ids its callback destroys, and queues the contact ends those destructions cause; the object table and the begin queue are untouched |
| ScriptEngine.Dispatch | Source/Core/Scripting/ScriptEngine.cpp:161-164 | a run of calls records them in order, queues the ends they cause after the queued ones, and marks exactly the ids they destroy, each once, forwarding those to the scene |
| ScriptEngine.OnUpdate | Source/Core/Scripting/ScriptEngine.cpp:133-148 | the deletions are drained first, then `OnUpdate` is called once on each remaining entity; afterwards the mark list holds, once each, exactly the ids those calls destroyed, the ends they caused wait in the end queue, and the begin queue is untouched |
| ScriptEngine.OnFixedUpdate | Source/Core/Scripting/ScriptEngine.cpp:150-168 | on success both queues are empty and the object table is the drained one |
| ScriptEngine.BeginUndeliverableFails | Source/Core/Scripting/ScriptEngine.cpp:198-207 | a queued begin naming an entity deleted in the drain makes the update fail |
| ScriptEngine.EndUndeliverableFails | Source/Core/Scripting/ScriptEngine.cpp:209-218 | with the begins deliverable, an end naming a deleted entity, queued before the update or caused by its callbacks, makes the update fail |
| ScriptEngine.FixedUpdateSucceeds | Source/Core/Scripting/ScriptEngine.cpp:150-168 | a fixed update succeeds iff every queued begin, and every end it walks (those queued before and those the per-object and begin callbacks caused), names an entity with an object after the drain |
| ScriptEngine.FixedUpdateIsRounds | Source/Core/Scripting/ScriptEngine.cpp:150-168 | a successful fixed update is the per-object round, the begin round and the end round in turn, with both queues emptied |
| ScriptEngine.FixedUpdateMarks | Source/Core/Scripting/ScriptEngine.cpp:150-168 | after a fixed update the queues are empty and the mark list holds, once each, exactly the ids the three rounds' callbacks destroyed; exactly those were forwarded to the scene |
| ScriptEngine.FixedUpdateOrdering | Source/Core/Scripting/ScriptEngine.cpp:150-168 | a fixed update calls `OnFixedUpdate` on every remaining entity, then delivers the begin queue, then the end queue followed by the ends the earlier callbacks caused, each in arrival order |
| ScriptEngine.QuietFixedUpdate | Source/Core/Scripting/ScriptEngine.cpp:150-168 | when no callback destroys or ends anything, a fixed update delivers exactly the queues it found and marks nothing |
| ScriptEngine.DestroyOnBeginDeliversEnd | Source/Core/Scripting/ScriptEngine.cpp:198-218 | a begin callback that destroys the entity it hit ends that contact, and the end is delivered in the same fixed update right after the begin |
| ScriptEngine.DestroyOnBeginMarks | Source/Core/Scripting/ScriptEngine.cpp:409-427 | in that case the destroyed entity is marked, so its object leaves the table at the next update |
| ScriptEngine.CollisionWithDestroyedEntityFails | Source/Core/Scripting/ScriptEngine.cpp:150-168 | an entity that a script destroys in the same frame as it collides reaches the delivery loop without an object |
| ScriptEngine.HandleScriptEvent | Source/Core/Scripting/ScriptEngine.cpp:241-306 | a service name selects the service of that name; any other name returns `None` |
| ScriptEngine.HandleFindEntityByNameEvent | Source/Core/Scripting/ScriptEngine.cpp:451-470 | the empty GUID returns `None` and changes nothing; any other id returns its object and creates a placeholder only when none existed |
| ScriptEngine.FindTwiceSameObject | Source/Core/Scripting/ScriptEngine.cpp:451-470 | a second lookup of the same name returns the same object and changes nothing |
| ScriptEngine.FindEntityByNameAsWritten | Source/Core/Scripting/ScriptEngine.cpp:451-455 | the lookup succeeds iff the find-by-name handler was installed, and then is the table step on the id the handler returns |
| ScriptEngine.FindEntityByNameFailsAfterPlay | Source/Core/Scene.cpp:177-191 | with the handlers the scene installs, every `FindEntityByName` call fails, whatever the name |
| ScriptEngine.FindEntityByNameWithHandler | Source/Core/Scripting/ScriptEngine.cpp:451-470 | with the handler installed as well, the call returns the object for the id the scene's lookup gives |
| Input.KeyCallback | Source/Core/Input.cpp:10-25 | a press adds the key and a release removes it; unknown keys, repeats and other actions change nothing, and no other key changes |
| Input.NoneNeverPressed | Source/Core/Input.cpp:10-25 | the unknown key never enters the pressed set |
| Input.RedundantEventsIgnored | Source/Core/Input.cpp:10-25 | pressing a held key or releasing a free key changes nothing |
| Input.Replay | Source/Core/Input.cpp:10-25 | a sequence of events never presses the unknown key |
| Input.ReplayFollowsLastEffect | Source/Core/Input.cpp:10-25 | after any sequence of events a key is held iff its last press or release was a press, or there was none and it was already held |
| GlfwWindow.MapAction | Source/Platform/Windowing/GLFWWindow.cpp:54-66 | GLFW's press, release and repeat codes map one-to-one to the engine's actions; every other code maps to no action |
| GlfwWindow.MapKey | Source/Platform/Windowing/GLFWWindow.cpp:69-108 | a GLFW key code maps to its engine key iff it is in the table, and to the unknown key otherwise |
| GlfwWindow.KeyMappingInjective | Source/Platform/Windowing/GLFWWindow.cpp:69-108 | no two GLFW codes map to the same known key |
| GlfwWindow.KeyMappingOnto | Source/Core/Input.h:31-46 | every known engine key has a GLFW code |
| GlfwWindow.GLFWKeyCallback | Source/Platform/Windowing/GLFWWindow.cpp:51-111 | a GLFW press holds the mapped key, a release frees it, and no other key changes |
| GlfwWindow.UnmappedEventIgnored | Source/Platform/Windowing/GLFWWindow.cpp:51-111 | an unmapped key, or a repeat or unknown action, leaves the pressed set unchanged |
| GlfwWindow.PressThenRelease | Source/Platform/Windowing/GLFWWindow.cpp:51-111 | a press followed by a release of the same code leaves the key free |
| GlfwWindow.ScancodeAndModsIgnored | Source/Platform/Windowing/GLFWWindow.cpp:51-111 | the scancode and modifier bits never affect the key state |
| Scene.FindCamera | Source/Core/Scene.cpp:21-45 | the view loop with `break` returns the first camera with the role, or nothing when no camera has it |
| Scene.OnCreate | Source/Core/Scene.cpp:21-45 | the renderer camera is the first editor camera, else the first primary camera, else unchanged; nothing else changes |
| Scene.FirstIsUnique | Source/Core/Scene.cpp:21-45 | there is only one first camera with a role |
| Scene.SyncTransform | Source/Core/Scene.cpp:98-103 | the translation takes the body's x and y and keeps its z; the rotation takes the body's angle on z and keeps x and y; the scale is kept |
| Scene.OnFixedUpdate | Source/Core/Scene.cpp:86-107 | outside play nothing happens; in play every entity with a transform and a body is synced with its body's pose, the others are untouched, and the scripts are ticked |
| Scene.SetFixture | Source/Core/Components/RigidbodyComponent.cpp:19-22 | a body gains one fixture, which becomes the one the component remembers; its settings are kept |
| Scene.DestroyFixture | Source/Core/Components/RigidbodyComponent.cpp:24-27 | destroying succeeds iff the remembered fixture is still alive; then the body has one fixture fewer and remembers none that is alive |
| Scene.SetThenDestroyKeepsCount | Source/Core/Components/RigidbodyComponent.cpp:19-27 | destroying right after setting leaves the fixture count as before |
| Scene.SetFixtures | Source/Core/Scene.cpp:133-149 | every body with a transform gains one remembered fixture; everything else is untouched |
| Scene.DestroyFixtures | Source/Core/Scene.cpp:225-229 | the loop succeeds iff every body still holds its remembered fixture; then each body has one fixture fewer, and everything else is untouched |
| Scene.ScriptTable | Source/Core/Scene.cpp:164-175 | the script table holds exactly the ids of entities with a script, each mapped to its file when one exists, else to the empty path |
| Scene.OnPlay | Source/Core/Scene.cpp:109-204 | play does nothing when already playing; otherwise the state becomes `Play` iff a primary camera exists, which becomes the renderer camera; with or without one, every body with a transform gains a fixture and the scripts are loaded and started |
| Scene.OnStop | Source/Core/Scene.cpp:206-230 | stop does nothing when stopped; otherwise it fails iff some body no longer holds its remembered fixture, and on success the state becomes `Stop`, the first editor camera takes over, and every body loses its remembered fixture |
| Scene.PlayThenStop | Source/Core/Scene.cpp:109-230 | with a primary camera and posed bodies, play then stop returns to `Stop` with every body holding as many fixtures as before, the one `AddRigidbody` attached included |
| Scene.PlayWithoutCameraStacksFixtures | Source/Core/Scene.cpp:109-230 | without a primary camera the scene stays stopped, so stop is ignored and two plays leave two more fixtures on a body |
| Scene.FindHandleById | Source/Core/Scene.cpp:555-563 | the loop's early return gives the handle of the first entity with the id, and nothing only when no entity has it |
| Scene.GetEntityById | Source/Core/Scene.cpp:555-565 | the handle of the first entity with the id, or `entt::entity()`, which is handle 0, when none has it |
| Scene.FindHandleByIdSeesIdsAndHandles | Source/Core/Scene.cpp:555-565 | the lookup depends only on ids and handles, not on components |
| Scene.SlotOf | Source/Core/Scene.cpp:252-281 | the registry slot holding a handle, or nothing when the handle is not in the registry |
| Scene.SlotOfSeesHandlesOnly | Source/Core/Scene.cpp:252-281 | the slot lookup depends only on the handles, not on components |
| Scene.AddRigidbody | Source/Core/Scene.cpp:252-281 | adding a body succeeds iff the entity exists and already has a body or has a transform; an existing body is kept, otherwise the default body with one fixture is added and nothing else changes |
| Scene.AddRigidbodyIdempotent | Source/Core/Scene.cpp:252-281 | adding a body twice is the same as adding it once |
| Scene.AddScript | Source/Core/Scene.cpp:283-292 | adding a script succeeds iff the entity exists; an existing script is kept, otherwise an empty one is added |
| Scene.AddScriptIdempotent | Source/Core/Scene.cpp:283-292 | adding a script twice is the same as adding it once |
| Scene.SetRigid | Source/Core/Scene.cpp:489-510 | when the handle found for the id is not in the registry nothing changes; otherwise the entity at that handle has a body iff it was asked to, a new body is the default one, it fails only when a body is wanted and the entity has neither a body nor a transform, and no other entity changes |
| Scene.SetRigidIdempotent | Source/Core/Scene.cpp:489-510 | asking twice for the same rigidity is asking once |
| Scene.SetRigidToggleRestores | Source/Core/Scene.cpp:489-510 | making a posed entity rigid and then not rigid gives back the scene it started from |
| Scene.UnknownIdReachesHandleZero | Source/Core/Scene.cpp:489-510 | as written, an id no entity has reaches handle 0: the editor camera with handle 0 and id 7 gains a body when id 9 is made rigid |
| Scene.SetRigidIntended | Source/Core/Scene.cpp:489-510 | corrected: an id no entity has changes nothing, and a found id behaves as `SetRigid` |
| Scene.SetRigidIntendedKeepsBystanders | Source/Core/Scene.cpp:489-510 | corrected: with distinct handles, an entity without the id is never changed |
| Scene.ConfigureRigidbody | Source/Core/Scene.cpp:512-531 | only the body at the handle found for the id gets the new density, friction and type, keeping its fixtures; every other entity and field is untouched |
| Scene.ConfigureLastWriteWins | Source/Core/Scene.cpp:512-531 | configuring twice leaves the second configuration |
| Scene.AddDefaultEntity | Source/Core/Scene.cpp:533-542 | a new named entity with an identity transform, white colour and the geometry is appended under a fresh handle; earlier entities are untouched |
| Scene.AddDefaultEntityKeepsHandles | Source/Core/Scene.cpp:533-542 | handles stay distinct and below the next handle |
| Scene.CreateEntity | Source/Core/Scene.cpp:452-458 | a rectangle is appended and its GUID is returned |
| Scene.CreatedEntityIsFound | Source/Core/Scene.cpp:452-458 | an entity created with a new id is found by that id, under its new handle |
| Scene.AddCamera | Source/Core/Scene.cpp:242-250 | a camera that is neither primary nor editor is appended, with a zero transform |
| Scene.AddedCameraIsNeverPicked | Source/Core/Scene.cpp:242-250 | adding a camera never changes which camera the scene picks |
| Scene.RemoveSlot | Source/Core/Scene.cpp:460-487 | erasing a slot shifts the later entities down by one and keeps the earlier ones |
| Scene.DestroyEntityAsWritten | Source/Core/Scene.cpp:460-487 | as written, a found id removes the first entity with it, as the corrected version does; an id that is not found removes exactly the entity the uninitialised handle names when that handle is valid, and changes nothing when it is not |
| Scene.DestroyAsWrittenRemovesBystander | Source/Core/Scene.cpp:460-487 | destroying an unknown id can remove an unrelated entity |
| Scene.DestroyEntity | Source/Core/Scene.cpp:460-487 | corrected: an unknown id changes nothing; a known id removes exactly one entity, and only entities already present remain |
| Scene.DestroyEntityRemovesOnlyMatch | Source/Core/Scene.cpp:460-487 | every entity with a different id survives destruction |
| CharBuffer.CLength | Source/Core/Components/NameComponent.cpp:26-40 | the length up to the first NUL, or the whole buffer when there is none |
| CharBuffer.Strncat | Source/Core/Components/NameComponent.cpp:26-40 | `strncat` appends at most n bytes of the source's C string after the destination's C string and keeps the bytes after the new terminator |
| CharBuffer.Store | Source/Core/Components/NameComponent.cpp:26-40 | storing into the zeroed 128-byte buffer keeps the first 127 bytes of the C string, NUL-terminated and NUL-padded |
| CharBuffer.StoreRoundTrip | Source/Core/Components/NameComponent.cpp:26-40 | a name without NUL shorter than 128 reads back unchanged |
| CharBuffer.StoreIdempotent | Source/Core/Components/NameComponent.cpp:26-40 | storing what was read back gives the same buffer |
| NameComponent.SetName | Source/Core/Components/NameComponent.cpp:26-40 | the name reads back as the first 127 bytes of its C string, and the buffer stays terminated |
| NameComponent.ToDecimal | Source/Core/Components/NameComponent.cpp:10-14 | `std::to_string` gives a non-empty string of decimal digits |
| NameComponent.DecimalRoundTrip | Source/Core/Components/NameComponent.cpp:10-14 | parsing the decimal text gives the number back |
| NameComponent.CounterDigits | Source/Core/Components/NameComponent.cpp:10-14 | any 64-bit counter prints in at most 20 digits, so the default name fits the buffer |
| NameComponent.NewDefault | Source/Core/Components/NameComponent.cpp:10-14 | the default constructor names the component `Entity` followed by the counter and advances the 64-bit counter with wrap-around |
| NameComponent.NewNamed | Source/Core/Components/NameComponent.cpp:16-19 | the named constructor stores the name, which reads back as the first min(C length, 127) bytes of its C string, and leaves the counter alone |
| NameComponent.DefaultNamesDistinct | Source/Core/Components/NameComponent.cpp:10-14 | different counter values give different default names |
| NameComponent.Construct | Source/Core/Components/NameComponent.cpp:8-19 | the counter advances on the default constructor and stays put on the named one |
| NameComponent.ConstructAllCounts | Source/Core/Components/NameComponent.cpp:8-19 | without wrap-around the counter advances by the number of default constructions |
| NameComponent.ConstructAllNames | Source/Core/Components/NameComponent.cpp:8-19 | the i-th default component is named after the counter advanced by the earlier default constructions |
| NameComponent.DefaultComponentsDistinct | Source/Core/Components/NameComponent.cpp:8-19 | without wrap-around no two default-constructed components share a name |
| ScriptComponent.New | Source/Core/Components/ScriptComponent.cpp:8-12 | a new component's buffer is zeroed and its file name is empty |
| ScriptComponent.SetFileName | Source/Core/Components/ScriptComponent.cpp:19-33 | the file name reads back as the first min(C length, 127) bytes of its C string, and a short name reads back unchanged |
| ScriptComponent.SetFileNameIdempotent | Source/Core/Components/ScriptComponent.cpp:19-33 | setting the file name read back changes nothing |
| UniformBuffer.GetAlignedSize | Source/Platform/Vulkan/UniformBuffer.cpp:19-28 | alignment 0 keeps the size; otherwise the result is at most the 64-bit sum size + alignment - 1 |
| UniformBuffer.AlignedIsRoundUp | Source/Platform/Vulkan/UniformBuffer.cpp:19-28 | for a power-of-two alignment without overflow, the mask formula is rounding up to the next multiple |
| UniformBuffer.AlignedSizeBounds | Source/Platform/Vulkan/UniformBuffer.cpp:19-28 | the aligned size is a multiple of the alignment, at least the size and less than size + alignment |
| UniformBuffer.AlignedSizeKeepsMultiples | Source/Platform/Vulkan/UniformBuffer.cpp:19-28 | a size already aligned is unchanged |
| UniformBuffer.AlignedSizeIdempotent | Source/Platform/Vulkan/UniformBuffer.cpp:19-28 | aligning twice is aligning once |
| UniformBuffer.AlignedSizeMonotone | Source/Platform/Vulkan/UniformBuffer.cpp:19-28 | a larger size never gets a smaller aligned size |
| UniformBuffer.AlignmentWrapsNearTop | Source/Platform/Vulkan/UniformBuffer.cpp:25 | near 2^64 the 64-bit sum wraps, and the aligned size falls to 0 |
| UniformBuffer.New | Source/Platform/Vulkan/UniformBuffer.cpp:11-17 | the constructor allocates once, with the aligned size |
| UniformBuffer.NewHoldsRequest | Source/Platform/Vulkan/UniformBuffer.cpp:11-17 | without overflow the new buffer holds the requested size and is aligned |
| UniformBuffer.EnsureCapacityAsWritten | Source/Platform/Vulkan/UniformBuffer.cpp:40-51 | as written, a larger request reallocates the memory but the recorded size stays the same |
| UniformBuffer.EnsureCapacityAsWrittenRepeats | Source/Platform/Vulkan/UniformBuffer.cpp:40-51 | as written, repeating the same request reallocates again, and the recorded size stays below the memory |
| UniformBuffer.EnsureCapacity | Source/Platform/Vulkan/UniformBuffer.cpp:40-51 | corrected: it reallocates iff the request exceeds the size; afterwards the size covers the request, and neither the size nor the alignment is lost |
| UniformBuffer.EnsureCapacitySettles | Source/Platform/Vulkan/UniformBuffer.cpp:40-51 | corrected: after one call the same request is satisfied without reallocating |
| Renderer.BeginFrame | Source/Platform/Vulkan/Renderer_ImplVulkan.cpp:98-127 | the frame index is the frame counter modulo the frames in flight, so it is always a valid slot; zero frames in flight is an error |
| Renderer.BeginFrameCycles | Source/Platform/Vulkan/Renderer_ImplVulkan.cpp:98-127 | consecutive frames use consecutive slots and wrap to 0 after the last |
| Renderer.DrawTriangle | Source/Platform/Vulkan/Renderer_ImplVulkan.cpp:188-200 | the vertex loop appends the three template vertices in the colour, with indices continuing from the vertex count |
| Renderer.TriangleKeepsConsecutive | Source/Platform/Vulkan/Renderer_ImplVulkan.cpp:188-200 | a triangle keeps index i pointing at vertex i, appends three vertices of its colour and keeps the earlier ones |
| Renderer.TrianglesNumberedInOrder | Source/Platform/Vulkan/Renderer_ImplVulkan.cpp:188-200 | a batch of triangles lays out three template vertices per triangle in draw order, with consecutive indices |
| Renderer.EndFrame | Source/Platform/Vulkan/Renderer_ImplVulkan.cpp:129-146 | the frame submits the vertices and indices drawn and resets the render data |
| Renderer.FrameSubmitsTriangles | Source/Platform/Vulkan/Renderer_ImplVulkan.cpp:129-200 | a frame submits three vertices per triangle with index i taken modulo 2^16, and rectangles add nothing |
| Renderer.IndicesWrap | Source/Platform/Vulkan/Renderer_ImplVulkan.cpp:188-200 | with 16-bit indices the 21846th triangle's vertices are numbered from 0 again |
| SwapChain.FindFormat | Source/Platform/Vulkan/SwapChain.cpp:174-185 | the first position of the wanted format in sRGB colour space, or nothing when absent |
| SwapChain.ChooseSwapSurfaceFormat | Source/Platform/Vulkan/SwapChain.cpp:174-185 | the choice is always offered; it is B8G8R8A8_UNORM in sRGB colour space iff that is offered, else the first format |
| SwapChain.FormatChoiceIgnoresLaterEntries | Source/Platform/Vulkan/SwapChain.cpp:174-185 | once the preferred format is offered, appending formats changes nothing |
| SwapChain.ChooseSwapPresentMode | Source/Platform/Vulkan/SwapChain.cpp:187-198 | mailbox iff mailbox is offered, FIFO otherwise |
| SwapChain.PresentModeSupported | Source/Platform/Vulkan/SwapChain.cpp:187-198 | with FIFO offered, as Vulkan guarantees, the choice is supported, and it does not depend on the order of the modes |
| SwapChain.Clamp | Source/Platform/Vulkan/SwapChain.cpp:200-217 | `std::clamp` keeps a value inside the bounds and moves one outside to the nearer bound |
| SwapChain.ChooseSwapExtent | Source/Platform/Vulkan/SwapChain.cpp:200-217 | a fixed surface extent is used as is; otherwise the framebuffer size clamped to the surface limits, which is unchanged when it already fits |
| SwapChain.ExtentChoiceIdempotent | Source/Platform/Vulkan/SwapChain.cpp:200-217 | choosing again from the chosen extent gives the same extent |
| SwapChain.ImageCount | Source/Platform/Vulkan/SwapChain.cpp:80-84 | one more image than the minimum, capped by a non-zero maximum, as a 32-bit value |
| SwapChain.ImageCountWithinLimits | Source/Platform/Vulkan/SwapChain.cpp:80-84 | with valid capabilities the count lies within the surface's limits; a minimum of UINT32_MAX wraps to 0 |
| SwapChain.ChooseSharing | Source/Platform/Vulkan/SwapChain.cpp:96-108 | exclusive sharing with no index list iff both families are the same one; otherwise concurrent with both indices; missing families are an error |
| SwapChain.CreateSwapChain | Source/Platform/Vulkan/SwapChain.cpp:64-122 | the create info succeeds iff both queue families were found, and uses the chosen format, present mode, extent and image count |
| SwapChain.CreateInfoValid | Source/Platform/Vulkan/SwapChain.cpp:64-122 | with valid capabilities and FIFO offered, every create info is one the surface supports |
| LegacySwapChain.ChooseSwapSurfaceFormat | Source/Vulkan/SwapChain.cpp:9-20 | the choice is always offered; it is B8G8R8A8_SRGB in sRGB colour space iff that is offered, else the first format |
| LegacySwapChain.FormatChoicesAgreeWithoutPreferred | Source/Vulkan/SwapChain.cpp:9-20 | the two layers agree when neither preferred format is offered and differ when both are |
| LegacySwapChain.ToUint32 | Source/Vulkan/SwapChain.cpp:35-57 | the `static_cast<uint32_t>` of the framebuffer size is the value modulo 2^32 |
| LegacySwapChain.ChooseSwapExtent | Source/Vulkan/SwapChain.cpp:35-57 | a fixed surface extent is used as is; otherwise the converted framebuffer size is clamped into the surface limits |
| LegacySwapChain.ExtentChoicesAgree | Source/Vulkan/SwapChain.cpp:35-57 | with a framebuffer size in range both layers choose the same extent; a width of -1 converts to UINT32_MAX and is clamped to the maximum |
| LegacySwapChain.CreateSwapChain | Source/Vulkan/SwapChain.cpp:59-116 | the legacy version scans the device's queue families itself; it succeeds iff some family can do graphics and some can present, and uses the legacy format and extent choices with the sharing mode of the scanned indices |
| LegacySwapChain.CreateInfoValid | Source/Vulkan/SwapChain.cpp:59-116 | with valid capabilities and FIFO offered, every create info is one the surface supports |
| QueueFamilies.ScanFrom | Source/Vulkan/QueueFamilyIndices.cpp:3-37 | the scan from index i either stops at the first family after which both capabilities have been seen, holding the last capable index of each up to there, or runs to the end holding the last capable index of each |
| QueueFamilies.StepKeepsLast | Source/Vulkan/QueueFamilyIndices.cpp:3-37 | one iteration keeps each index the last capable family seen so far |
| QueueFamilies.FindQueueFamilies | Source/Vulkan/QueueFamilyIndices.cpp:3-37 | each index found names a capable family and is missing iff no family has that capability; the scan stops at the first point where both are found |
| QueueFamilies.ScanIgnoresLaterFamilies | Source/Vulkan/QueueFamilyIndices.cpp:3-37 | once both families are found, appending families changes nothing |
| QueueFamilies.FirstFamilyDoingBoth | Source/Vulkan/QueueFamilyIndices.cpp:3-37 | a first family that can do both gives (0, 0) |
| QueueFamilies.GraphicsGraphicsPresent | Source/Vulkan/QueueFamilyIndices.cpp:3-37 | the scan overwrites, so [graphics, graphics, present] gives (1, 2) and not the first graphics family |
| PhysicalDevice.CheckDeviceExtensions | Source/Platform/Vulkan/PhysicalDevice.cpp:76-103 | true iff every required name is among the offered names |
| PhysicalDevice.IsDeviceSuitable | Source/Platform/Vulkan/PhysicalDevice.cpp:53-74 | a discrete GPU with geometry shaders, a graphics and a presenting family, the swap-chain extension, and at least one format and present mode |
| PhysicalDevice.FirstSuitable | Source/Platform/Vulkan/PhysicalDevice.cpp:10-35 | the first suitable device from an index on, or nothing when none is |
| PhysicalDevice.Create | Source/Platform/Vulkan/PhysicalDevice.cpp:10-35 | the constructor fails iff no device is suitable, and otherwise picks the first suitable one |
| PhysicalDevice.ChosenDeviceHostsSwapChain | Source/Platform/Vulkan/PhysicalDevice.cpp:10-35 | the chosen device always supports creating a swap chain |
| PhysicalDevice.FindSuitableMemoryType | Source/Platform/Vulkan/PhysicalDevice.cpp:37-51 | the first memory type in the mask with all required properties; failure iff there is none |
| LegacyPhysicalDevice.PickPhysicalDevice | Source/Vulkan/PhysicalDevice.cpp:9-35 | fails iff no device is suitable, and otherwise picks the first suitable one |
| LegacyPhysicalDevice.PicksAgree | Source/Vulkan/PhysicalDevice.cpp:9-35 | both layers fail on the same inputs and choose the same device |
| Instance.FindAll | Source/Vulkan/Instance.cpp:61-91 | the nested search returns true iff every required name is available |
| Instance.CheckRequiredExtensions | Source/Vulkan/Instance.cpp:61-91 | true iff every extension GLFW requires is available; no requirement gives true |
| Instance.CheckValidationLayerSupport | Source/Vulkan/Instance.cpp:93-121 | true iff the Khronos validation layer is available |
| Instance.AllFoundIsSubset | Source/Vulkan/Instance.cpp:61-91 | the check is the subset test on names, and a missing first name decides it whatever follows |

## Left out

- Box2D physics is reduced to the settings the scene writes: body density, friction, type, the number of fixtures and whether the remembered fixture is alive. Fixture shapes are not modelled. The pose a body reports after `Step` is a parameter of `Scene.OnFixedUpdate`.
- Destroying a fixture Box2D no longer holds, or the null fixture, is a `Failure` of `Scene.DestroyFixture` and `Scene.OnStop`. In the source it hands Box2D a dangling or null pointer, so what follows is unknown.
- `float`/`glm` arithmetic is exact real arithmetic. Rounding is not modelled, so `RecycleSkipsNextPair` states exact positions.
- Python's `random.uniform` is an input stream of draws. `DrawsInRange` states the range it promises.
- GUID generation is not modelled. New ids are inputs, or come from a counter.
- Every Vulkan, GLFW and filesystem query is not modelled as a call. Its result is an input: surface capabilities, formats, present modes, queue families, extensions, layers, memory types and the directory's script files.
- Python C-API calls and reference counting are not modelled. A script call is a trace entry.
- Failure to find a Python object for a queued collision is a `Failure`. The source indexes the map with `operator[]`, inserts a null object and passes it to the interpreter, so what follows is unknown.
- `HandleScriptEvent`: only the dispatch from service name to handler is modelled. The handlers' argument parsing and their calls into the scene are left out. `HandleCreateEntityEvent` only forwards to `Scene.CreateEntity`, which is modelled.
- The scene's `OnUpdate` is not modelled: camera matrices and draw calls.
- The renderer's uniform-buffer updates are not modelled: `UpdateUniformBuffer` and `MapMemory`.
- Renderer.DrawRect: the source body is empty, so the model leaves the render data unchanged and gives it no contract of its own.
- Descriptor sets, pipelines, command buffers and synchronisation in `BeginFrame`/`EndFrame` are not modelled. Only the frame index and the submitted data are.
- ScriptEngine.FindEntityByNameAsWritten: the declaration of the handler slot is not part of this model, so calling the empty slot (a null function pointer or an empty `std::function`) is a `Failure`. The scene's name search itself is an input, `lookup`.
- ScriptEngine.Reaction: what a script callback does is an input, `Scripts`. Only its destroy requests and the contact ends they cause are modelled. The rest of a callback's effects on the scene are left out, such as creating entities or setting positions.
- ScriptEngine.OnFixedUpdate: ends caused during the end delivery itself are cleared without being delivered. In the source they are pushed onto the vector the range-for is walking, whose `end()` was taken before; a reallocation there is undefined behaviour, which the model does not follow.
- Bird.OnCollisionBegin: the controller lookup is an input, as it would be with the find-by-name handler installed. As written every such lookup fails (see Findings), and the bird's contract describes the intended behaviour.
- Scene.SetRigid: removing the component leaves the `b2Body` and its fixtures in the physics world (Scene.cpp:506-509). The model drops only the component, so it says nothing about the body that stays behind.
- The initial scene state is not modelled; `Scene.h` does not initialise `_sceneState`. Every operation takes the state as part of its input.
- The order of an `unordered_map` traversal is not modelled. The order is an input, constrained by `Enumerates` to visit every key once.
- The order of an entt view is not modelled; it is taken to be registry order.
- Bird.Tick: the script reads the key twice per tick; `Bird.TickSampled` models both samples and `Bird.Tick` is the case where they agree.
- Memory allocation failure in `NameComponent` is not modelled. Nor are the leaks of the legacy checks, which return before freeing their query arrays.
- Legacy present-mode choice is not modelled separately. It is the same code as the platform layer's, and so are the legacy queue-family scan, suitability test and extension check, so those share one definition.
- The legacy `PhysicalDevice.h` is out of step with its `.cpp`. The model takes the device handle to start null, as the `.cpp` needs.
- The `Instance` constructor is not modelled: creating the instance and the debug messenger. Only its two checks are.
- Obstacles.Tick: its own contract states only that the pair count is kept. How pairs move and recycle is stated by `TickWithoutRecycle`, `RecycleSkipsNext` and the invariant lemmas.
- Obstacles.TickFrom: the same holds for one iteration onwards of the loop.
- SwapChain.Clamp: when the lower bound exceeds the upper one, `std::clamp` is undefined, and the contract says nothing about that case.
- UniformBuffer.GetAlignedSize: the contract gives only the 64-bit bound for alignments that are not powers of two. The mask trick only rounds up for powers of two, which Vulkan guarantees for `minUniformBufferOffsetAlignment`.
- Scene.ConfigureRigidbody: `RigidbodyComponent.h` declares only `SetDynamic`; the `SetDensity` and `SetFriction` that Scene.cpp:528-529 calls are not declared, so the header is out of step with Scene.cpp. The model keeps the three settings on the body and does not model their effect on existing fixtures.

## Findings

| source | as written | input that shows it | evidently intended | confidence | as-written member | corrected member |
|---|---|---|---|---|---|---|
| Source/Platform/Vulkan/UniformBuffer.cpp:40-51 | `EnsureCapacity` reallocates through `Buffer::ReallocateBuffer`, which never updates `_bufferSize`, so the recorded size stays at the old value | a buffer of size 256 and two calls with request 512: both reallocate | after a reallocation the recorded size covers the request, so the same request is then satisfied without reallocating | high, not executed | UniformBuffer.EnsureCapacityAsWrittenRepeats | UniformBuffer.EnsureCapacitySettles |
| Source/Core/Scene.cpp:555-565 | `GetEntityById` returns `entt::entity()` when no entity has the id. That is handle 0, the first entity entt creates, so the `registry.valid` checks in `SetRigid` and `ConfigureRigidbody` accept it while that entity lives | the editor camera with handle 0 and id 7, and `SetRigid(9, true)`: the camera gains a rigid body | an id that is not found changes nothing | high, not executed | Scene.UnknownIdReachesHandleZero | Scene.SetRigidIntendedKeepsBystanders |
| Source/Core/Scene.cpp:178-191 | `OnPlay` installs every script handler except the find-by-name one, and ScriptEngine.cpp:455 calls that handler unconditionally | any script calling `MangoEngine.FindEntityByName`, as Bird.py:19 does | the lookup handler is installed with the others, and the call returns the named entity's object | medium, not executed | ScriptEngine.FindEntityByNameFailsAfterPlay | ScriptEngine.FindEntityByNameWithHandler |
| Source/Core/Scene.cpp:460-487 | `DestroyEntity` declares `entt::entity entity;` without an initialiser and destroys it even when no entity has the id | a registry holding only handle 1 with id 5, destroying id 9 while the stack slot holds 1: the bystander is removed | an id that is not found destroys nothing | medium, not executed | Scene.DestroyAsWrittenRemovesBystander | Scene.DestroyEntityRemovesOnlyMatch |
