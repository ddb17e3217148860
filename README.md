# smash: cloth topology and interaction state machines in Dafny

This project models the integer and boolean core of a Unity VR scene: the
mass-spring cloth component `RealisticCloth` and four small interaction
scripts.

- **RealisticCloth.** The cloth is a grid of `W` × `H` segments with
  `(W+1)(H+1)` vertices, numbered row by row. Start-up lays the vertices out,
  builds the two-triangles-per-cell index list and the spring network, and
  installs a default pin mask that pins the top edge. It also collects the
  scene's colliders whose layer is in the collision mask. At runtime,
  colliders can be registered and unregistered and vertices pinned or
  released. The floating-point physics is not modelled. A vertex position is
  a function of its grid cell, so the model keeps the cell.
- **ToggleDrivenAnimator.** An open/close part driven by a UI toggle. It has
  an "animating" lock and a one-slot pending request, which is replayed when
  the clip ends. It also has a forced close (through the close clip) and a
  snap close.
- **AnimatorToggleTrigger.** A part toggled by a single interaction event.
  When an animator is assigned, each call fires the opposite trigger and
  flips the remembered position; without one it does nothing.
- **AxisRotationWatcher.** An edge-triggered latch. It fires an event when a
  watched angle enters a target range, at most once in fire-once mode. The
  angle test arrives as a boolean.
- **RotateButton.** Start, stop and toggle a rotation flag.

Files:

- `Engine.dfy` holds stand-ins for the engine objects the scripts touch. An
  animator is a set of set trigger names plus the state last played. A UI
  toggle is its `isOn` value. The indicator image is "shows open" or not. A
  game object is reduced to its layer number.
- `ClothGrid.dfy` holds the grid topology as functions and lemmas: numbering,
  triangles, springs and pin masks.
- `ColliderRegistry.dfy` holds the collider scan and the registry list
  operations.
- `RealisticCloth.dfy` holds the component class. Its methods update arrays
  and lists in place, as the component does, and are proved against
  `ClothGrid` and `ColliderRegistry`.
- `ToggleDrivenAnimator.dfy`, `AnimatorToggleTrigger.dfy`,
  `AxisRotationWatcher.dfy` and `RotateButton.dfy` each give the transitions
  as functions on values, properties of those functions as lemmas, and a
  class whose methods update their fields exactly as the functions say.

Three facts about the grid code that the model keeps:

- The code has no guard against zero segment counts; the model accepts any
  `W, H ≥ 0`.
- A bend spring is added only where the second neighbour exists, so the bend
  count is `max(W−1,0)(H+1) + max(H−1,0)(W+1)`.
- Every vertex, border vertices included, adds each spring whose two ends
  are grid vertices whose cells are neighbours of the spring's kind.

## Model

| member | source | states |
|---|---|---|
| ClothGrid.IndexOfCell | Assets/Scripts/DumpFiles/RealisticCloth.cs:65-75 | cell (x, y) of the grid gets index y(W+1)+x in [0, (W+1)(H+1)), and that index maps back to the same cell |
| ClothGrid.CellOfIndex | Assets/Scripts/DumpFiles/RealisticCloth.cs:65-75 | every index in [0, N) belongs to a grid cell whose index is that number |
| ClothGrid.IndexBijection | Assets/Scripts/DumpFiles/RealisticCloth.cs:65-75 | the row-by-row numbering is a bijection between the grid cells and [0, N) |
| ClothGrid.RowTrianglesLength | Assets/Scripts/DumpFiles/RealisticCloth.cs:93-104 | n cells of one row contribute 6n indices |
| ClothGrid.TriangleRowsLength | Assets/Scripts/DumpFiles/RealisticCloth.cs:91-105 | m rows of cells contribute 6Wm indices |
| ClothGrid.TriangleCount | Assets/Scripts/DumpFiles/RealisticCloth.cs:90-105 | the triangle list has exactly 6WH entries |
| ClothGrid.CellTrianglesValid | Assets/Scripts/DumpFiles/RealisticCloth.cs:95-103 | a cell's two triangles use valid vertex indices, and no triangle repeats a corner |
| ClothGrid.RowTrianglesInRange | Assets/Scripts/DumpFiles/RealisticCloth.cs:93-104 | every index a row contributes lies in [0, N) |
| ClothGrid.TriangleRowsInRange | Assets/Scripts/DumpFiles/RealisticCloth.cs:91-105 | every index the first m rows contribute lies in [0, N) |
| ClothGrid.TriangleIndicesInRange | Assets/Scripts/DumpFiles/RealisticCloth.cs:90-105 | every entry of the triangle list is a vertex index in [0, N) |
| ClothGrid.TriangleLayout | Assets/Scripts/DumpFiles/RealisticCloth.cs:91-105 | the six entries at 6(yW+x) are (i, i+W+1, i+1, i+1, i+W+1, i+W+2) for i the index of cell (x, y) |
| ClothGrid.CellInRow | Assets/Scripts/DumpFiles/RealisticCloth.cs:93-104 | a full row block has 6W entries, and cell x owns the six at 6x |
| ClothGrid.RowInList | Assets/Scripts/DumpFiles/RealisticCloth.cs:91-105 | row y of cells owns the 6W entries starting at 6Wy |
| ClothGrid.RowTrianglesPrefix | Assets/Scripts/DumpFiles/RealisticCloth.cs:93-104 | the list only grows within a row: earlier states are prefixes of later ones |
| ClothGrid.TriangleRowsPrefix | Assets/Scripts/DumpFiles/RealisticCloth.cs:91-105 | the list only grows across rows: earlier states are prefixes of later ones |
| ClothGrid.CandidateFits | Assets/Scripts/DumpFiles/RealisticCloth.cs:147-172 | each spring a vertex adds joins two grid vertices whose cells are neighbours of the spring's kind (right/below, either diagonal, two steps) |
| ClothGrid.NeighbourIndices | Assets/Scripts/DumpFiles/RealisticCloth.cs:145-172 | every far end the scan adds a spring to is a vertex index in [0, N) |
| ClothGrid.VertexStepsFit | Assets/Scripts/DumpFiles/RealisticCloth.cs:147-172 | one vertex's additions keep every spring in the list well formed |
| ClothGrid.ScanRowFits | Assets/Scripts/DumpFiles/RealisticCloth.cs:143-173 | one row's additions keep every spring in the list well formed |
| ClothGrid.ScanRowsFit | Assets/Scripts/DumpFiles/RealisticCloth.cs:139-174 | the first m rows produce only well-formed springs |
| ClothGrid.SpringsFit | Assets/Scripts/DumpFiles/RealisticCloth.cs:139-175 | every spring joins two distinct indices in [0, N) that are grid neighbours of its kind |
| ClothGrid.CountKindsPartition | Assets/Scripts/DumpFiles/RealisticCloth.cs:147-172 | every spring is exactly one of structural, shear or bend |
| ClothGrid.VertexSpringCounts | Assets/Scripts/DumpFiles/RealisticCloth.cs:147-172 | a vertex adds 0-2 structural, 0 or 2 shear and 0-2 bend springs, as its far ends exist |
| ClothGrid.ScanRowCounts | Assets/Scripts/DumpFiles/RealisticCloth.cs:143-173 | the first n vertices of a row add RowKindCount springs of each kind: min(n,W) + n structural (the n only in rows y < H), 2·min(n,W) shear (only in rows y < H), min(n,max(W−1,0)) + n bend (the n only in rows y < H−1) |
| ClothGrid.StructuralCount | Assets/Scripts/DumpFiles/RealisticCloth.cs:141-174 | m rows hold mW + min(m,H)(W+1) structural springs |
| ClothGrid.ShearCount | Assets/Scripts/DumpFiles/RealisticCloth.cs:141-174 | m rows hold 2W·min(m,H) shear springs |
| ClothGrid.BendCount | Assets/Scripts/DumpFiles/RealisticCloth.cs:141-174 | m rows hold m·max(W−1,0) + min(m,max(H−1,0))(W+1) bend springs |
| ClothGrid.SpringCounts | Assets/Scripts/DumpFiles/RealisticCloth.cs:139-175 | closed forms W(H+1)+H(W+1), 2WH and max(W−1,0)(H+1)+max(H−1,0)(W+1), and their sum as the list length; the list is cleared first, so every rebuild gives them |
| ClothGrid.DefaultPinsTopRow | Assets/Scripts/DumpFiles/RealisticCloth.cs:126-134 | the default mask has N entries and pins exactly the vertices of row 0 |
| ClothGrid.PinUpdateEffect | Assets/Scripts/DumpFiles/RealisticCloth.cs:476-482 | an in-range index gets the new flag, every other entry is unchanged, the length is kept |
| ClothGrid.PinUpdateUndo | Assets/Scripts/DumpFiles/RealisticCloth.cs:476-482 | writing the old flag back restores the mask |
| ColliderRegistry.SelectedSound | Assets/Scripts/DumpFiles/RealisticCloth.cs:194-207 | every registered collider is from the scene, not on the cloth's object, and has its layer bit in the mask |
| ColliderRegistry.SelectedComplete | Assets/Scripts/DumpFiles/RealisticCloth.cs:196-207 | every scene collider that passes both tests is registered |
| ColliderRegistry.SelectedDistinct | Assets/Scripts/DumpFiles/RealisticCloth.cs:196-207 | a scene without repeats gives a registry without repeats |
| ColliderRegistry.EveryLayerMask | Assets/Scripts/DumpFiles/RealisticCloth.cs:203 | the all-layers mask keeps every collider off the cloth's own object |
| ColliderRegistry.EmptyMask | Assets/Scripts/DumpFiles/RealisticCloth.cs:203 | a zero mask keeps nothing |
| ColliderRegistry.AddedEffect | Assets/Scripts/DumpFiles/RealisticCloth.cs:462-468 | AddCollider leaves the registry unchanged for null or a present collider and appends a new one at the end; it keeps the registry free of repeats and is idempotent |
| ColliderRegistry.RemoveAbsent | Assets/Scripts/DumpFiles/RealisticCloth.cs:470-473 | removing an absent collider is a no-op |
| ColliderRegistry.RemoveFirstShape | Assets/Scripts/DumpFiles/RealisticCloth.cs:470-473 | removal cuts out the first occurrence and keeps the order of the rest |
| ColliderRegistry.RemoveFirstMultiset | Assets/Scripts/DumpFiles/RealisticCloth.cs:470-473 | removal takes away one copy of the collider and nothing else |
| ColliderRegistry.RemoveFromDistinct | Assets/Scripts/DumpFiles/RealisticCloth.cs:470-473 | on a registry without repeats, the removed collider is gone and no repeat appears |
| ColliderRegistry.AddThenRemove | Assets/Scripts/DumpFiles/RealisticCloth.cs:462-473 | adding a new collider and removing it restores the registry |
| Cloth.RealisticCloth.Start | Assets/Scripts/DumpFiles/RealisticCloth.cs:53-57 | after start the vertices are laid out by cell in a new buffer distinct from the new previous-position buffer, with previous positions equal to current, the triangle list and spring network are built, a pin mask of the right length is kept as it was and any other is replaced by a new array holding the default top-edge mask, and the registry holds the selected colliders |
| Cloth.RealisticCloth.InitializeCloth | Assets/Scripts/DumpFiles/RealisticCloth.cs:59-135 | two distinct fresh vertex buffers laid out by cell with previous positions equal to current, the triangle list, the spring network; a correct-length mask is kept, otherwise replaced by the default |
| Cloth.RealisticCloth.LayOutVertices | Assets/Scripts/DumpFiles/RealisticCloth.cs:65-87 | two distinct fresh arrays of N vertices, vertex i at cell CellOf(i), previous positions a copy |
| Cloth.RealisticCloth.BuildTriangles | Assets/Scripts/DumpFiles/RealisticCloth.cs:90-105 | the nested loops build exactly the triangle list |
| Cloth.RealisticCloth.TopEdgePins | Assets/Scripts/DumpFiles/RealisticCloth.cs:128-133 | a fresh N-entry mask with exactly indices 0..W set |
| Cloth.RealisticCloth.CreateSprings | Assets/Scripts/DumpFiles/RealisticCloth.cs:137-175 | the list is cleared and rebuilt to exactly the spring network, in scan order |
| Cloth.RealisticCloth.AddSpring | Assets/Scripts/DumpFiles/RealisticCloth.cs:177-188 | one spring between two valid vertices is appended |
| Cloth.RealisticCloth.FindColliders | Assets/Scripts/DumpFiles/RealisticCloth.cs:190-208 | the registry becomes the in-order sublist of the scene the layer and self tests keep |
| Cloth.RealisticCloth.AddCollider | Assets/Scripts/DumpFiles/RealisticCloth.cs:462-468 | the registry becomes Added(old registry, col) |
| Cloth.RealisticCloth.RemoveCollider | Assets/Scripts/DumpFiles/RealisticCloth.cs:470-473 | the registry loses the first occurrence of col, if any |
| Cloth.RealisticCloth.PinVertex | Assets/Scripts/DumpFiles/RealisticCloth.cs:476-482 | the mask becomes PinUpdate(old mask, index, pin) |
| ToggleDriven.TransitionsKeepConsistent | Assets/Scripts/ToggleDrivenAnimator.cs:53-166 | every operation keeps a queued request behind a running clip |
| ToggleDriven.StartedMatchesFlags | Assets/Scripts/ToggleDrivenAnimator.cs:58-86 | a toggle event starts a clip exactly when the part is idle, the request differs from the position and there is an animator, and then the part is marked animating towards the request; any clip that starts runs towards the recorded position |
| ToggleDriven.ToggleChangedNoOp | Assets/Scripts/ToggleDrivenAnimator.cs:58-70 | a toggle event leaves the flags alone exactly when, while idle, it asks for the current position or finds no animator, or, while a clip runs, it repeats the queued request (a running clip queues the request with or without an animator) |
| ToggleDriven.LatestRequestWins | Assets/Scripts/ToggleDrivenAnimator.cs:62-68 | while a clip runs, any burst of events only queues and the last one wins; position and lock unchanged |
| ToggleDriven.SettlesOnRequest | Assets/Scripts/ToggleDrivenAnimator.cs:53-112 | with an animator, once the running clip finishes the part is at the last requested position and nothing is queued |
| ToggleDriven.AnimFinishedOutcome | Assets/Scripts/ToggleDrivenAnimator.cs:98-112 | nothing stays queued; a clip restarts exactly when a differing request was queued and there is an animator, else the part is idle |
| ToggleDriven.ForceCloseOutcome | Assets/Scripts/ToggleDrivenAnimator.cs:123-142 | without an animator nothing changes; with one the part ends closed, queue empty, and the close clip plays exactly when it was open or moving |
| ToggleDriven.SnapCloseIsRest | Assets/Scripts/ToggleDrivenAnimator.cs:147-166 | after a snap close a forced close, a "close" event and a second snap change nothing |
| ToggleDriven.PlayTriggersEffect | Assets/Scripts/ToggleDrivenAnimator.cs:88-94 | both triggers reset, only the one for the requested direction set when its name is not empty and left reset when it is empty, no other trigger touched |
| ToggleDriven.ToggleDrivenAnimator.Awake | Assets/Scripts/ToggleDrivenAnimator.cs:33-37 | a missing animator is replaced by the object's own |
| ToggleDriven.ToggleDrivenAnimator.Start | Assets/Scripts/ToggleDrivenAnimator.cs:39-48 | the position comes from the toggle when linked, else from startsOpen, and the indicator shows it |
| ToggleDriven.ToggleDrivenAnimator.OnToggleChanged | Assets/Scripts/ToggleDrivenAnimator.cs:53-71 | flags, triggers and indicator follow ToggleChanged; the animator's played state is left as it was |
| ToggleDriven.ToggleDrivenAnimator.PlayAnimation | Assets/Scripts/ToggleDrivenAnimator.cs:74-95 | without an animator nothing changes; otherwise animating towards `open`, indicator updated, triggers as PlayTriggers; the animator's played state is left as it was |
| ToggleDriven.ToggleDrivenAnimator.OnAnimFinished | Assets/Scripts/ToggleDrivenAnimator.cs:98-112 | flags, triggers and indicator follow AnimFinished; the animator's played state is left as it was |
| ToggleDriven.ToggleDrivenAnimator.UpdateIndicator | Assets/Scripts/ToggleDrivenAnimator.cs:114-118 | the indicator, when present, shows the recorded position |
| ToggleDriven.ToggleDrivenAnimator.ForceClose | Assets/Scripts/ToggleDrivenAnimator.cs:123-142 | flags, triggers and indicator follow ForcedClose; the toggle is switched off silently when there is an animator; the animator's played state is left as it was |
| ToggleDriven.ToggleDrivenAnimator.ForceCloseImmediate | Assets/Scripts/ToggleDrivenAnimator.cs:147-166 | all three flags cleared, toggle off, indicator closed, the animator snapped to the closed state when it and the name exist |
| AnimatorToggle.ToggledParity | Assets/Scripts/AnimatorToggleTrigger.cs:42 | an even number of effective calls restores the position, an odd number inverts it |
| AnimatorToggle.ToggleTriggersEffect | Assets/Scripts/AnimatorToggleTrigger.cs:29-40 | from open the close trigger is set and the open one cleared; from closed the reverse; nothing else touched |
| AnimatorToggle.AnimatorToggleTrigger.Awake | Assets/Scripts/AnimatorToggleTrigger.cs:17-20 | the position starts as startOpened |
| AnimatorToggle.AnimatorToggleTrigger.ToggleAnimation | Assets/Scripts/AnimatorToggleTrigger.cs:25-43 | without an animator nothing changes; otherwise the triggers follow ToggleTriggers and the position flips |
| RotationWatch.FiresOnlyOnRisingEdge | Assets/Scripts/AxisRotationWatcher.cs:48-54 | the event fires only when the angle enters the range; without fire-once mode it fires on every entry |
| RotationWatch.AdvanceEffect | Assets/Scripts/AxisRotationWatcher.cs:33-58 | no target: no change, no event; otherwise isInRange is the new outcome and hasTriggered records a firing |
| RotationWatch.TriggeredStays | Assets/Scripts/AxisRotationWatcher.cs:53 | hasTriggered never goes back from true to false over a run |
| RotationWatch.RunTracksRange | Assets/Scripts/AxisRotationWatcher.cs:58 | isInRange always holds the last observed outcome |
| RotationWatch.FireOnceAtMostOnce | Assets/Scripts/AxisRotationWatcher.cs:50-54 | in fire-once mode the event fires at most once over any run, and never again once it has fired |
| RotationWatch.FiresOnEveryRisingEdge | Assets/Scripts/AxisRotationWatcher.cs:48-53 | without fire-once mode the number of firings equals the number of rising edges of the observed outcomes |
| RotationWatch.AxisRotationWatcher.Update | Assets/Scripts/AxisRotationWatcher.cs:31-59 | the event is invoked and the flags change exactly as Fires and Advance say |
| Rotation.PressParity | Assets/Scripts/DumpFiles/RotateButton.cs:20-29 | with a target, presses flip the flag by parity; without one they do nothing |
| Rotation.RotateButton.OnButtonPressed | Assets/Scripts/DumpFiles/RotateButton.cs:20-29 | with a target the flag flips, otherwise it is unchanged |
| Rotation.RotateButton.StartRotation | Assets/Scripts/DumpFiles/RotateButton.cs:32-41 | the flag is set when a target exists and unchanged otherwise |
| Rotation.RotateButton.StopRotation | Assets/Scripts/DumpFiles/RotateButton.cs:44-47 | the flag is cleared unconditionally |

## Left out

- Floating-point physics of the cloth is not modelled: gravity, spring and damping forces, the Verlet step, velocity clamping, NaN resets and the collision response.
- Spring rest lengths, stiffness and damping are not stored. A spring's kind stands for its stiffness and damping. Its rest length is the distance between its ends' initial positions, a float.
- Mesh objects, normals and bounds are not modelled. Neither are the MeshFilter/MeshRenderer components, gizmos or `transform` calls.
- The engine's object search is a parameter of `FindColliders`. Its result (`scene`) is a sequence of colliders in the order the engine returns them.
- Cloth.RealisticCloth.InitializeCloth: the per-vertex velocity buffer (all zero) is not kept.
- Cloth.RealisticCloth.InitializeCloth: negative segment counts are not modelled (W and H are `nat`). Nor is 32-bit overflow of `(W+1)(H+1)` for very large grids.
- Cloth.RealisticCloth.PinVertex: requires the mask to exist. The source would fail on a null mask before Start; the model leaves that case out.
- Engine object lifetime is not modelled. A destroyed object compares equal to null in Unity; here references are plain references.
- Null trigger and state names are not modelled; `string.IsNullOrEmpty` is read as "is empty".
- `Debug.Log` and `Debug.LogWarning` output is not modelled.
- The angle test of `AxisRotationWatcher` (Euler angle, `DeltaAngle`, tolerance) is floating point. It is the boolean input `nowInRange`. The UnityEvent's listeners are outside the model; `Update` returns whether it is invoked.
- `RotateButton.Update` is not modelled; it is a floating-point transform rotation.
- `Animator.Play`'s layer and normalised-time arguments are not modelled; the animator records only the state name.
- The other scripts of the scene are not part of this model. These are camera and dial controllers, fades, teleports, audio fades and cloth wrappers. Their behaviour is frame timing, tweens or engine calls.
