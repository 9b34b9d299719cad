# Networked grabbable objects: replication gating and pickup selection

This project models the object-interaction core of a Unity/Photon multiplayer
scene. Players pick up, hold and throw shared physical objects. Each
participant keeps its own copy of every object, and the copy decides whether
replication (the photon transform and rigidbody views) drives it or local
physics does.

- `Grabbable` (grabbable.dfy) is one participant's local copy of a
  `NetworkGrabbable`. It holds the observed-component list, the two view
  enabled flags, `isKinematic`, the collider flag, the parent, the local pose,
  the velocity and `lastThrowerID`. The two RPC handlers (held, release) and the
  two ownership callbacks are pure transitions over it. `isMine` and the local
  actor number are parameters. `Pickup` and `Drop` return the messages they
  send: an ownership request, then a buffered `SetHeldState`, or a buffered
  `Release`.
- `Hierarchy` (hierarchy.dfy) is the scene graph as a tree of transforms. It
  holds `FindHandRecursive`, the pre-order name search for the `HandMount`
  node, and proves it equal to "the first node of the pre-order walk with that
  name".
- `Protocol` (protocol.dfy) feeds one participant's copy a history of
  deliveries and callbacks. It proves that the invariant "a kinematic object
  never has replication on" survives any history. It also proves what a late
  joiner replaying the buffered messages sees. Finally it proves that an
  unconfirmed thrower keeps replication off through held states, its own
  unconfirmed releases, non-confirming transfers and failures of other
  objects, that is until a confirmation, a failure for this object or another
  participant's release arrives.
- `PickupController` (pickup_controller.dfy) is the per-player controller: the
  owner-only interact toggle, the nearest-candidate selection, the throw, and
  the `Start` rename of the hand point.
- `Wrappers` and `Geometry` hold `Option` and the vector and rotation values.
  Those values are only ever copied.

Points where the code is looser than one might expect, and the model follows it:

- `Pickup` (Assets/Scripts/NetworkConfig/NetworkGrabbable.cs:42-49) checks nothing before requesting ownership, so `Grabbable.Pickup` has no precondition.
- The code keeps no holder field. Being held shows only as `isKinematic` and the parent, and ownership is the current value of `isMine`.
- `OnOwnershipTransferFailed` (Assets/Scripts/NetworkConfig/NetworkGrabbable.cs:164-171) does not read the current replication state. It switches replication on for any matching view whose object is not kinematic.

## Model

| member | source | states |
|---|---|---|
| Hierarchy.FindHandRecursive | Assets/Scripts/NetworkConfig/NetworkGrabbable.cs:174-183 | a node the search returns carries the searched name |
| Hierarchy.FindInChildren | Assets/Scripts/NetworkConfig/NetworkGrabbable.cs:177-182 | a node the loop over the children returns carries the searched name |
| Hierarchy.FirstNamed | Assets/Scripts/NetworkConfig/NetworkGrabbable.cs:176-182 | reference "first match": None exactly when no node has the name; otherwise a node with the name, and every node before it has another name |
| Hierarchy.FindIsFirstInPreOrder | Assets/Scripts/NetworkConfig/NetworkGrabbable.cs:174-183 | the depth-first search (node first, then children left to right) returns exactly the first named node of the subtree's pre-order walk |
| Hierarchy.FindInChildrenIsFirst | Assets/Scripts/NetworkConfig/NetworkGrabbable.cs:177-182 | the children loop returns the first named node of the concatenated walks of the children, in order |
| Hierarchy.FindHandSpec | Assets/Scripts/NetworkConfig/NetworkGrabbable.cs:174-183 | the search is null if and only if no node of the subtree has the name; a hit is a subtree node, and every node before it in pre-order has a different name |
| Hierarchy.FindsUniqueMatch | Assets/Scripts/NetworkConfig/NetworkGrabbable.cs:174-183 | when exactly one node of the subtree has the name, the search returns that node |
| Grabbable.SetNetworkPhysics | Assets/Scripts/NetworkConfig/NetworkGrabbable.cs:65-83 | afterwards the observed list is empty when inactive and holds exactly the non-null views (transform first) when active; each present view's enabled flag equals the argument; nothing else changes |
| Grabbable.SyncIsExclusive | Assets/Scripts/NetworkConfig/NetworkGrabbable.cs:65-83 | when the object has at least one view, replication "on" and "off" cannot both describe the same state |
| Grabbable.SetNetworkPhysicsLastWins | Assets/Scripts/NetworkConfig/NetworkGrabbable.cs:69-83 | because the list is cleared first, only the last call counts, so calling it twice with the same flag equals calling it once |
| Grabbable.HandFor | Assets/Scripts/NetworkConfig/NetworkGrabbable.cs:96-100 | a hand is found if and only if the player view is known and its hierarchy has a node named HandMount; it is then the first such node in pre-order |
| Grabbable.OnSetHeldState | Assets/Scripts/NetworkConfig/NetworkGrabbable.cs:86-107 | always leaves replication off, kinematic on and the collider off; attaches to the hand at zero offset and identity rotation only when both the player view and its HandMount exist, otherwise parent and pose are unchanged; velocity and thrower are kept |
| Grabbable.OnSetHeldStateIdempotent | Assets/Scripts/NetworkConfig/NetworkGrabbable.cs:86-107 | delivering the same held-state message twice gives the same state as delivering it once |
| Grabbable.OnRelease | Assets/Scripts/NetworkConfig/NetworkGrabbable.cs:110-142 | detaches the object, sets the received pose and velocity, makes it dynamic with the collider on and records the thrower; replication is off if and only if this participant is the thrower and not yet the owner |
| Grabbable.OnOwnershipTransfered | Assets/Scripts/NetworkConfig/NetworkGrabbable.cs:146-160 | changes nothing for another view, for a non-owner or for a kinematic object; otherwise switches replication on; never touches physics, parent, pose or velocity; keeps the invariant |
| Grabbable.OnOwnershipTransferFailed | Assets/Scripts/NetworkConfig/NetworkGrabbable.cs:164-171 | switches replication on when the view matches and the object is not kinematic, and changes nothing otherwise; keeps the invariant |
| Grabbable.Pickup | Assets/Scripts/NetworkConfig/NetworkGrabbable.cs:42-49 | requests ownership first, then broadcasts the held state naming the player's view |
| Grabbable.Drop | Assets/Scripts/NetworkConfig/NetworkGrabbable.cs:54-58 | broadcasts one release carrying the world pose, the throw velocity and the local actor number |
| Protocol.Step | Assets/Scripts/NetworkConfig/NetworkGrabbable.cs:86-171 | each of the four handlers keeps the object's components and the invariant that a kinematic object has replication off |
| Protocol.Run | Assets/Scripts/NetworkConfig/NetworkGrabbable.cs:86-171 | a history of deliveries and callbacks never adds or removes a replication component |
| Protocol.RunPreservesInvariant | Assets/Scripts/NetworkConfig/NetworkGrabbable.cs:89-170 | if a kinematic object had replication off before, it still does after any sequence of held, release, transfer and transfer-failed inputs |
| Protocol.LateJoinSeesHold | Assets/Scripts/NetworkConfig/NetworkGrabbable.cs:86-107 | whatever came before, a copy whose last buffered message is a held state is muted, kinematic and without collision, and attached to the found hand |
| Protocol.LateJoinAgreesOnRelease | Assets/Scripts/NetworkConfig/NetworkGrabbable.cs:110-142 | for one participant, two copies with the same components agree at the moment each handles the same release, whatever histories they went through |
| Protocol.ReleaseForgetsHistory | Assets/Scripts/NetworkConfig/NetworkGrabbable.cs:110-142 | a release overwrites everything but the set of components, so two copies with the same components end equal when the predictive rule answers alike for both |
| Protocol.ParticipantsAgreeOnRelease | Assets/Scripts/NetworkConfig/NetworkGrabbable.cs:110-142 | across participants: any two participants, whatever their histories, actor numbers and ownership, hold the same copy at the moment each handles the same release, as long as neither is the unconfirmed thrower |
| Protocol.ThrowerAndObserverDiffer | Assets/Scripts/NetworkConfig/NetworkGrabbable.cs:127-141 | after the same release, the unconfirmed thrower has replication off while any participant with another actor number has it on, so their copies differ |
| Protocol.MutedUntilResolved | Assets/Scripts/NetworkConfig/NetworkGrabbable.cs:129-171 | a muted copy stays muted through held states, its own unconfirmed releases, non-confirming transfers and failures of other objects |
| Protocol.ThrowerPredictsUntilConfirmed | Assets/Scripts/NetworkConfig/NetworkGrabbable.cs:126-160 | after its own release, a thrower not yet confirmed as owner keeps replication off through held states, its own unconfirmed releases, non-confirming transfers and failures of other objects, that is until a confirmation, a failure for this object or another participant's release arrives; the confirmation then switches replication on for the flying object |
| Protocol.PickupHoldsEverywhere | Assets/Scripts/NetworkConfig/NetworkGrabbable.cs:42-49 | Pickup requests ownership, and its broadcast leaves every copy muted, kinematic and without collision |
| Protocol.DropReleasesEverywhere | Assets/Scripts/NetworkConfig/NetworkGrabbable.cs:54-58 | Drop's broadcast leaves every copy free at the sender's pose with the throw velocity and thrower; only the unconfirmed sender keeps replication off |
| PickupController.NearestIsUnique | Assets/Scripts/Player/PlayerPickupController.cs:75-91 | with the strict comparison at most one candidate is the nearest, so ties go to the earliest |
| PickupController.ThreeCandidatesExample | Assets/Scripts/Player/PlayerPickupController.cs:75-91 | of grabbables at distances 1.0, 2.5 and 0.5, only the one at 0.5 is the nearest |
| PickupController.SelectNearest | Assets/Scripts/Player/PlayerPickupController.cs:71-91 | the selected candidate has a grabbable, is no farther than any grabbable candidate and strictly nearer than every earlier one; nothing is selected exactly when no grabbable candidate is below float.MaxValue |
| PickupController.TryPickup | Assets/Scripts/Player/PlayerPickupController.cs:66-103 | with nothing eligible the controller and the calls are unchanged; otherwise it holds the nearest object and calls its Pickup exactly once with the player's own view id |
| PickupController.ThrowItem | Assets/Scripts/Player/PlayerPickupController.cs:108-125 | with an object in hand, calls its Drop exactly once with the throw velocity and then holds nothing; with empty hands it does nothing |
| PickupController.Update | Assets/Scripts/Player/PlayerPickupController.cs:40-61 | a non-owner or a frame without a press changes nothing and calls nothing; a press with empty hands picks up the nearest eligible object, a press while holding throws; at most one call per frame |
| PickupController.PickupThenThrow | Assets/Scripts/Player/PlayerPickupController.cs:40-125 | two owner presses from empty hands with an eligible candidate: the first calls Pickup on the nearest object, the second calls Drop on that same object with the throw velocity, and the hands end empty again |
| PickupController.Start | Assets/Scripts/Player/PlayerPickupController.cs:34-37 | a present hand point is renamed exactly HandMount and keeps its identity and children; an absent one stays absent |
| PickupController.StartedHandIsFound | Assets/Scripts/Player/PlayerPickupController.cs:34-37 | a hierarchy holding the renamed hand point is one where the grabbable's HandMount search succeeds, and it returns that hand point when no other node has the name |

## Left out

- Photon transport: the buffered RPC fan-out, `RequestOwnership` arbitration and the callback registration in `OnEnable`/`OnDisable` are not modelled. Messages, `isMine` and the local actor number are inputs, and no interleavings across participants are modelled.
- `OnOwnershipRequest` is an empty hook that changes nothing, so it has no member.
- `Awake` only looks up components. The model states the result of that lookup directly. The rigidbody and both photon views are required components (Assets/Scripts/NetworkConfig/NetworkGrabbable.cs:5-8), so in the source as written both views are always present. The model still allows a missing view (`None`), because the code checks each view for null. This is also why the precondition "at least one view is present" on `Grabbable.SyncIsExclusive` and `Protocol.DropReleasesEverywhere` always holds.
- The observed-component list holds only the two replication views. Any other observed component, such as one set up in the inspector, is not modelled; `ObservedComponents.Clear()` discards such components for good.
- The collider is assumed present. The source uses it without a null check, so an object without a collider would throw part-way through a handler; that path is not modelled.
- `PhotonView.Find` is a map from view id to the root transform of that view. `Physics.OverlapSphere`, the pickup radius of 2 and the interaction layer are the given candidate sequence.
- Distances are abstract reals, not single-precision floats, so NaN and rounding are not modelled. The selection keeps `float.MaxValue` as its starting bound, as the source does.
- Grabbable.Drop: the object's world pose is a parameter. The model does not compute world transforms through the parent chain.
- The throw vector is a parameter of `ThrowItem` and `Update`: forward plus 0.2 up, normalised, times the throw force of 15. This is float vector math.
- Between inputs the engine moves the object: the rigid-body simulation while it is dynamic, the photon views' stream writes while replication is on, and the hand's motion while it is attached. None of this is modelled. Pose and velocity in the model are the values the last handler wrote, so the agreement lemmas compare copies at the moment each handles a release, not later.
- `Transform.SetParent` keeping the world pose is not modelled, because both handlers overwrite the pose right after reparenting. The pose is kept in the parent's frame.
- PickupController.StartedHandIsFound: the rename is applied to a copy of the hand point. That the player's hierarchy holds the renamed node is the lemma's hypothesis; the model does not write the rename back into the tree.
- Transform identity is the `id` field. A search result is a tree value, not an engine reference.
- Input polling (`WasPressedThisFrame`) is the boolean `interactPressed`. The `PlayerInput` lookup in `Start` (Assets/Scripts/Player/PlayerPickupController.cs:28) is not modelled; it only finds the input component. The editor gizmo drawing is not modelled.
- PlayfabManager.cs (login, inventory and reward cloud calls) and CoinPickup.cs (trigger, grant, destroy) are not part of this model. They are service glue with no local logic.
