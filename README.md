# Pointer interaction in a three.js forest scene, modelled in Dafny

This project models the pointer-interaction core of a small three.js scene. It has four parts:

- **Intersector** (`intersector.dfy`) is a singleton registry of observers. `attach` and `detach` keep the registry ordered and free of duplicates. On a pointer-down, every registered observer gets `onClick` if it is hit, else its optional `onClickOut`. On a pointer-move, the list of hovered observers is updated and `onMouseEnter`/`onMouseOut` are fired.
  - The raycast becomes the set `hits` of observers the event's ray meets.
  - Which observers define `onClickOut` becomes the set `withClickOut`.
  - Every callback is appended to a `trace`: the model records the callbacks the core makes, in order.
- **Transform gizmo** (`three.dfy`, `transform_controller.dfy`). The three.js `TransformControls` is a record class: attached object, mode, three axis flags, dragging. The toggle and release rule is stated once on gizmo values (`Toggled`, `Removed`). The controller's methods are proved to follow that rule, and so is the copy of them inlined in the first World.
- **Worlds** (`world_inline.dfy` for `src/world.ts`, `world.dfy` for `src/world/world.ts`). The scene is the set of the root's child nodes.
  - `add` and `remove` keep scene membership and Intersector registration in step.
  - `updateAllMaterials` relights the nodes the scene traversal visits.
  - `getInstance` creates each World once.
  - `scenegraph.dfy` says which node an element contributes, and which elements are routed to the Intersector.
- **GltfModel** (`gltfmodel.dfy`) is a placeable model. It has a world object, optional callbacks, handlers, and `clone`.

The browser's single cursor style (`document.body.style.cursor`) and the user callbacks that get invoked are the fields of a `Host` object (`host.dfy`).

Hovering is level-triggered, which is what the code does:

- Every pointer-move that hits an observer pushes another copy of it onto the hover list and fires `onMouseEnter` again.
- A miss removes one copy and fires `onMouseOut` once.
- Nothing gates on visibility.

There is no de-duplication: the hover list may hold several copies of one observer, and `onMouseEnter` fires for it on every move that hits it, not only on the first. `HoverIsLevelTriggered` shows the repeated enter on a concrete sequence of moves. `Intersector.HoverBalanced` is the invariant that does hold: the hovered observers, counted with multiplicity, plus those sent `onMouseOut`, are exactly those sent `onMouseEnter`.

## Model

| member | source | states |
|---|---|---|
| Sequences.IndexOf | src/intersector.ts:47 | `indexOf` returns -1 exactly when the element is absent; otherwise it returns an index holding the element with no earlier occurrence |
| Sequences.RemoveFirst | src/intersector.ts:46-51 | `indexOf` then `splice(i, 1)`. An absent element leaves the list unchanged. A present one makes the list one shorter and removes exactly one copy |
| Sequences.RemoveFirstSplice | src/intersector.ts:46-51 | removal cuts out the first occurrence and keeps everything before and after it in order |
| Sequences.RemoveFirstNoDup | src/intersector.ts:46-51 | on a duplicate-free list, removal keeps it duplicate-free, rids it of the element entirely, and keeps every other element |
| Sequences.RemoveFirstAppended | src/intersector.ts:42-49 | removing an element just pushed onto a list that lacked it restores the list |
| Sequences.RemoveFirstHead | src/intersector.ts:86-88 | when the element leads the list, the leading copy is the one removed |
| Intersection.Attached | src/intersector.ts:39-44 | `attach`: the observer is registered afterwards, the old registry is kept as a prefix, at most one entry is added, nothing else is added, and no duplicate is introduced |
| Intersection.AttachIdempotent | src/intersector.ts:39-44 | attaching twice equals attaching once |
| Intersection.DetachUndoesAttach | src/intersector.ts:39-51 | detaching a newly attached observer restores the registry |
| Intersection.ClickReaction | src/intersector.ts:61-68 | definition: one observer's reaction to a pointer-down; its meaning is given by `ClickTraceFires`, `ClickNeverBoth` and `ClickReactionNoHover` |
| Intersection.ClickTrace | src/intersector.ts:60-69 | definition: the callbacks of one pointer-down over a registry; its meaning is given by `ClickTraceFires`, `ClickTraceSplit` and `ClickTraceNoHover` |
| Intersection.ClickTracePrefix | src/intersector.ts:60-69 | the loop over observers adds each observer's reaction after those of the earlier ones |
| Intersection.ClickTraceConcat | src/intersector.ts:60-69 | the callbacks for a concatenated registry are the first part's followed by the second's |
| Intersection.ClickTraceSplit | src/intersector.ts:60-69 | every callback for an earlier observer comes before every callback for a later one (registration order) |
| Intersection.ClickTraceFires | src/intersector.ts:60-69 | a pointer-down calls `onClick` on an observer iff it is registered and hit, and `onClickOut` iff it is registered, missed and defines one; it makes no hover callbacks |
| Intersection.ClickNeverBoth | src/intersector.ts:64-68 | no observer receives both `onClick` and `onClickOut` from one pointer-down |
| Intersection.ClickNotExclusive | src/intersector.ts:60-68 | two registered observers both hit both receive `onClick` |
| Intersection.ClickScenario | src/intersector.ts:53-70 | the exact callback sequence for two observers on a click on one of them, on neither, and when neither defines `onClickOut` |
| Intersection.MoveReaction | src/intersector.ts:82-91 | a hit appends the observer to the hover list and calls `onMouseEnter`, even if it is already there. A miss on a hovered observer removes one copy and calls `onMouseOut`. Any other miss changes nothing |
| Intersection.MoveTrace | src/intersector.ts:79-92 | definition: one pointer-move over a registry; its meaning is given by `MoveReaction`, `MoveTracePrefix`, `MoveTraceBalanced` and `HitEntersAgain` |
| Intersection.MoveTracePrefix | src/intersector.ts:79-92 | the loop over observers applies each observer's reaction after those of the earlier ones |
| Intersection.MoveReactionBalanced | src/intersector.ts:82-91 | one observer's reaction to a move keeps the hover list balanced against the hover callbacks |
| Intersection.MoveTraceBalanced | src/intersector.ts:72-93 | a whole pointer-move keeps the hover list balanced against the hover callbacks |
| Intersection.ClickReactionNoHover | src/intersector.ts:64-68 | an observer's click reaction contains no hover callback |
| Intersection.ClickTraceNoHover | src/intersector.ts:53-70 | a pointer-down makes no `onMouseEnter` or `onMouseOut` call |
| Intersection.ClickKeepsBalanced | src/intersector.ts:53-70 | a pointer-down keeps the hover list balanced |
| Intersection.HitEntersAgain | src/intersector.ts:82-84 | a hit pushes another copy and enters again, whether or not the observer is already hovered |
| Intersection.MissLeavesOnce | src/intersector.ts:85-91 | a miss on an observer at the head of the hover list removes that copy only and leaves once |
| Intersection.HoverIsLevelTriggered | src/intersector.ts:72-93 | two hits, two misses and a hit on one observer give two copies, then none, then one, with enter, enter, out, out, enter |
| Intersection.Intersector.constructor | src/intersector.ts:20-29 | a new Intersector keeps its camera and starts with an empty registry and an empty hover list |
| Intersection.Intersector.Attach | src/intersector.ts:39-44 | the registry becomes `Attached` of the old one and stays duplicate-free |
| Intersection.Intersector.Detach | src/intersector.ts:46-51 | the registry becomes `RemoveFirst` of the old one and stays duplicate-free; the hover list is not touched |
| Intersection.Intersector.OnClick | src/intersector.ts:53-70 | with a camera, appends exactly the callbacks `ClickTrace` assigns to the current registry; without one, `setFromCamera` throws first and nothing is appended. It changes neither list and keeps the hover balance |
| Intersection.Intersector.OnPointerMove | src/intersector.ts:72-93 | with a camera, the hover list and the callbacks move as `MoveTrace` over the current registry says; without one, `setFromCamera` throws first and nothing changes. The registry is unchanged; the hover balance is kept |
| Intersection.CameraLessIntersectorIsDeaf | src/intersector.ts:31-37 | an Intersector first created with no camera, as `Intersector.getInstance()` in the Worlds' `add` does, registers an observer but gives it no callback on a click or a move that hits it |
| Intersection.IntersectorSingleton.constructor | src/intersector.ts:18 | the static slot starts empty |
| Intersection.IntersectorSingleton.GetInstance | src/intersector.ts:31-37 | the first call creates an Intersector with the given camera. Every later call returns that same instance and ignores its camera |
| Three.Object3D.Empty | src/gltfmodel.ts:7 | a new empty node: at the origin, unit scale, not a mesh, not lit |
| Three.Object3D.Copy | src/gltfmodel.ts:57 | `Object3D.clone`: a fresh node with the same kind, material, position, scale and shading |
| Three.TransformControls.constructor | src/world/transformController.ts:9 | a new gizmo is attached to nothing, translating, with all axes shown, and not dragging |
| Three.TransformControls.Attach | src/world/transformController.ts:41 | `attach(o)` sets the attached object to `o` and changes nothing else |
| Three.TransformControls.Detach | src/world/transformController.ts:27 | `detach()` clears the attached object and changes nothing else |
| Three.TransformControls.SetMode | src/world/transformController.ts:22 | `setMode` changes the mode only |
| Three.TransformControls.SetDragging | src/world/transformController.ts:49 | the gizmo's own drag sets the `dragging` flag that release reads, and changes nothing else |
| SceneGraph.WorldElement.constructor | src/world/world.ts:16-19 | a world element keeps the world object it was given and whether it defines `clickHandler` |
| SceneGraph.WellFormed | src/world.ts:146 | definition: an element's tag agrees with `instanceof THREE.Mesh` on the node it wraps; both Worlds' `Add` and `Remove` require it |
| SceneGraph.HasClickHandler | src/world.ts:149 | definition: `'clickHandler' in object`, true of every GltfModel and of the world elements that define it; its effect is stated by the Worlds' `Add` and `Remove` |
| SceneGraph.HasGetWorldObject | src/world/world.ts:156 | definition: `'getWorldObject' in object`, true of GltfModels and world elements and false of bare meshes and CSS3D objects; used by `InsertedNode` and by the requires of the toggle and release methods |
| SceneGraph.GetWorldObject | src/world/transformController.ts:17 | definition: `object.getWorldObject()`, the node a model or world element places in the scene (also src/world.ts:146, :168, :197; src/world/world.ts:156, :171; src/world/transformController.ts:46); used by the `Toggled`/`Removed` contracts of every toggle and release method |
| SceneGraph.StandardMesh | src/world.ts:133-134 | definition: a mesh whose material is a `MeshStandardMaterial` (also src/world/world.ts:143-144); used by the relit ensures of `UpdateAllMaterials` and `Add` |
| SceneGraph.InsertedNode | src/world/world.ts:156 | definition: the world object when the element has `getWorldObject`, else the object itself; `NodeSelectionsAgree` relates it to `MeshOrWorldObject` |
| SceneGraph.MeshOrWorldObject | src/world.ts:146 | definition: the object itself when it is a mesh, else its world object; `NodeSelectionsAgree` relates it to `InsertedNode` |
| SceneGraph.NodeSelectionsAgree | src/world/world.ts:155-157 | the two ways the Worlds pick an element's node (`getWorldObject` first, or mesh first) agree on every element both accept |
| SceneGraph.Relit | src/world.ts:130-142 | a standard-material mesh gets the environment map and casts and receives shadows; any other node keeps its shading |
| SceneGraph.RelitIdempotent | src/world/world.ts:140-152 | relighting twice equals relighting once |
| TransformController.Toggled | src/world/transformController.ts:16-43 | toggle ends attached to the element's object with `dragging` unchanged. On that object in translate mode, it ends in rotate mode showing Y only. On that object in rotate mode, or on any other or no object, it ends in translate mode showing X and Z |
| TransformController.Removed | src/world/transformController.ts:45-53 | release detaches iff the gizmo is on that object and not dragging; otherwise the gizmo is unchanged; mode, axes and dragging never change |
| TransformController.RemoveIsDragSafe | src/world/transformController.ts:47-50 | mid-drag, release changes nothing |
| TransformController.RemoveOtherIsNoOp | src/world/transformController.ts:48 | release on behalf of an element the gizmo is not on changes nothing |
| TransformController.ToggleCycles | src/world/transformController.ts:16-43 | repeated toggles on one element alternate translate and rotate; starting from another target, they give translate, then rotate |
| TransformController.LastToggleWins | src/world/transformController.ts:41 | after any history of toggles, releases and drags, a final toggle leaves exactly its element attached |
| TransformController.AttachedWasToggled | src/world/transformController.ts:16-53 | only the initially attached object or a toggled one can ever be attached |
| TransformController.ModeStaysTranslateOrRotate | src/world/transformController.ts:16-53 | started outside scale mode, the gizmo never gets into scale mode |
| TransformController.TransformController.constructor | src/world/transformController.ts:8-10 | the controller owns a new gizmo in its initial state |
| TransformController.TransformController.GetTransformControl | src/world/transformController.ts:12-14 | returns the controller's own gizmo |
| TransformController.TransformController.ToggleTransformControl | src/world/transformController.ts:16-43 | the gizmo ends in `Toggled` of its old state, and the cursor is `default` |
| TransformController.TransformController.RemoveTransformControl | src/world/transformController.ts:45-53 | the gizmo ends in `Removed` of its old state |
| TransformController.ToggleTwice | src/world/transformController.ts:16-43 | two toggles on the element the gizmo translates go to rotate and back to translate, still attached to it, with dragging unchanged |
| InlineWorld.World.constructor | src/world.ts:24-84 | a new World has an empty scene and its own gizmo, with the Y axis hidden |
| InlineWorld.World.UpdateAllMaterials | src/world.ts:130-142 | every visited node's shading becomes `Relit` of its old shading; positions and scales do not change |
| InlineWorld.UpdateAllMaterialsTwice | src/world.ts:130-142 | two lighting passes have the effect of one |
| InlineWorld.World.Add | src/world.ts:144-153 | the mesh, or the element's world object, joins the scene. The element is registered iff it has `clickHandler`. An existing Intersector stays the same one and keeps its hover list and callbacks; a new one starts empty and without a camera, so it dispatches nothing. Every scene child, the new node included, is relit, and no visited node moves or rescales |
| InlineWorld.World.Remove | src/world.ts:155-163 | the element is unregistered iff it has `clickHandler`, and its node leaves the scene. An existing Intersector stays the same one and keeps its hover list and callbacks; a new one starts empty and without a camera, so it dispatches nothing |
| InlineWorld.World.ToggleTransformControl | src/world.ts:167-194 | the inlined toggle follows the same `Toggled` rule and sets the cursor to `default` |
| InlineWorld.World.RemoveTransformControl | src/world.ts:196-204 | the inlined release follows the same `Removed` rule |
| InlineWorld.AddThenRemove | src/world.ts:144-163 | for an element in neither the scene nor the registry, `Add` followed by `Remove` leaves scene and registry as they were |
| InlineWorld.WorldSingleton.constructor | src/world.ts:22 | the static slot starts empty |
| InlineWorld.WorldSingleton.GetInstance | src/world.ts:206-212 | the first call creates the World, with an empty scene and a fresh gizmo in its initial state except for a hidden Y axis; every later call returns that same World |
| ControllerWorld.World.constructor | src/world/world.ts:33-95 | a new World has an empty scene and a new controller in its initial state |
| ControllerWorld.World.UpdateAllMaterials | src/world/world.ts:140-152 | every visited node's shading becomes `Relit` of its old shading; positions and scales do not change |
| ControllerWorld.World.Add | src/world/world.ts:154-163 | the element's world object, or the mesh or CSS3D object itself, joins the scene. The element is registered iff it has `clickHandler`. An existing Intersector stays the same one and keeps its hover list and callbacks; a new one starts empty and without a camera, so it dispatches nothing. Every scene child, the new node included, is relit, and no visited node moves or rescales |
| ControllerWorld.World.Remove | src/world/world.ts:165-173 | the element is unregistered iff it has `clickHandler`, and its node leaves the scene. An existing Intersector stays the same one and keeps its hover list and callbacks; a new one starts empty and without a camera, so it dispatches nothing |
| ControllerWorld.World.ToggleTransformControl | src/world/world.ts:177-179 | has exactly the controller's `Toggled` effect and changes no World field |
| ControllerWorld.World.RemoveTransformControl | src/world/world.ts:181-183 | has exactly the controller's `Removed` effect and changes no World field |
| ControllerWorld.WorldSingleton.constructor | src/world/world.ts:31 | the static slot starts empty |
| ControllerWorld.WorldSingleton.GetInstance | src/world/world.ts:185-191 | the first call creates the World, with an empty scene and a fresh controller whose fresh gizmo is in its initial state; every later call returns that same World |
| SceneGraph.AddRemoveRestores | src/world/world.ts:154-173 | for an element in neither the scene nor the registry, add followed by remove restores both |
| ControllerWorld.AddThenRemove | src/world/world.ts:154-173 | the same round trip through the World's own `Add` and `Remove` leaves scene and registry as they were |
| Gltf.GltfModel.constructor | src/gltfmodel.ts:6-14 | a new model keeps its identifier, owns a fresh empty world object at the origin with unit scale and no standard material, and has no callbacks |
| Gltf.GltfModel.GetWorldObject | src/gltfmodel.ts:16 | definition: the current world object; `SetWorldObject` and the constructor state what it returns |
| Gltf.GltfModel.GetModel | src/gltfmodel.ts:22 | definition: the identifier, a constant; the constructor and `Clone` state what it returns |
| Gltf.GltfModel.SetWorldObject | src/gltfmodel.ts:16-20 | `getWorldObject` afterwards returns the object just set |
| Gltf.GltfModel.SetPosition | src/gltfmodel.ts:24-26 | the world object's position becomes the given one; nothing else changes |
| Gltf.GltfModel.SetScale | src/gltfmodel.ts:28-30 | all three scale components become the given value |
| Gltf.GltfModel.MouseEnterHandler | src/gltfmodel.ts:32-38 | the cursor is unchanged without `onClick`, and `pointer` with it |
| Gltf.GltfModel.MouseOutHandler | src/gltfmodel.ts:39-45 | the cursor is unchanged without `onClick`, and `default` with it |
| Gltf.GltfModel.ClickHandler | src/gltfmodel.ts:47-49 | `onClick` is invoked once iff it is defined |
| Gltf.GltfModel.ClickOutHandler | src/gltfmodel.ts:51-53 | `onClickOut` is invoked once iff it is defined |
| Gltf.GltfModel.Clone | src/gltfmodel.ts:55-60 | a new model with the same identifier and a distinct, fresh copy of the world object; no callback is copied |
| Gltf.MoveClone | src/gltfmodel.ts:55-60 | moving a clone leaves the original's world object where it was |

## Left out

- Rendering: the World constructors' renderers, lights, environment-map loading, resize listener, orbit controls and animation loop. Of the constructors, the model keeps only the empty scene, the gizmo and `showY = false`.
- `loadModel`: an asynchronous GLTF fetch through a foreign loader. `setWorldObject` is the state change it ends in.
- Ray and pointer arithmetic: the normalised device coordinates and the three.js `Raycaster` are floating point and foreign. `hits` is the set of observers the ray meets, taken as given for each event. Of `setFromCamera`, the model keeps only that it throws when the Intersector has no camera.
- DOM listener registration in the Intersector constructor, `preventDefault` and `console.log`. These are I/O with no effect on the modelled state.
- The gizmo's `dragging-changed` listener, which enables or disables the orbit controls. `TransformControls.SetDragging` stands for the drag itself.
- `getCamera`, and the camera and DOM element passed to `TransformController` and `TransformControls`: these bind rendering and pointer input inside three.js's `TransformControls`, which is not part of this model. src/world/world.ts:90 passes the `renderer` object itself where src/world.ts:75 passes `renderer.domElement`, though `TransformController` (src/world/transformController.ts:8-9) declares an `HTMLElement`; the model does not capture that difference.
- The node tree under each scene child, and the order `scene.traverse` visits it in. `UpdateAllMaterials` relights the list of visited nodes it is given, and `Add` requires that list to contain every scene child and the new node. Lights and the gizmo's own node are not in the modelled scene.
- `UpdateAllMaterials`: the environment-map texture and `envMapIntensity = 1.5` become one `envMapped` flag, because they are floating point and foreign.
- Material sharing between nodes, and the internals of three.js `Object3D.clone`, `scene.add`/`scene.remove` and `TransformControls`. They are modelled as set insertion and removal, an attribute copy, and a record of fields.
- Re-entrancy: an observer callback that attaches or detaches while the Intersector walks its registry. Callbacks are recorded, not run.
- A hovered observer that is detached stays in the hover list. The model keeps it there as the code does, and proves nothing about later moves for it.
- The callbacks' `MouseEvent` argument. A callback is identified by its kind and its observer.
- Intersection.Intersector.OnClick: a GltfModel defines `clickHandler`, so both Worlds' `add` register it (src/world.ts:149-151, src/world/world.ts:159-161). But it has no `getObject3D` (src/gltfmodel.ts:5-61). In the source, the hit test at src/intersector.ts:62 then throws a TypeError when that observer's turn comes, and no observer after it gets a callback. The model's hit test is the given `hits` set, so it treats every registered observer as a working one and carries on.
- ControllerWorld.World.Remove: like src/world/world.ts:165, it does not accept a CSS3D object, although `Add` does. A CSS3D object put into the scene therefore cannot be taken out again, and passing one anyway would make src/world/world.ts:171 call a `getWorldObject` it does not have and throw.
- Intersection.Intersector.OnPointerMove: the same TypeError at src/intersector.ts:81 ends the source's move handler at a registered GltfModel. The model carries on with the remaining observers.
- GltfModel's handlers are `clickHandler`, `clickOutHandler`, `mouseEnterHandler` and `mouseOutHandler`, while the Intersector calls `onClick`, `onClickOut`, `onMouseEnter` and `onMouseOut`. The model keeps the handlers as separate methods and calls none of them from the Intersector.
- src/button.ts and src/main.ts: geometry and text construction, bootstrapping, and a random choice of tree. The Button class defines neither `getWorldObject` nor `clickHandler`, so it is not modelled. `Widget` is a stand-in for any object implementing WorldElement, not the Button.
