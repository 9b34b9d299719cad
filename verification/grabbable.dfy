/**
 * One participant's local copy of a shared grabbable object: the component
 * state the replication gate toggles, the physics flags it mirrors, and the
 * pure transitions run by the two broadcast handlers and the two ownership
 * callbacks. `isMine`, the local actor number and the scene lookups are
 * parameters; the transport itself is not modelled.
 */
module Grabbable {
  import opened Wrappers
  import opened Geometry
  import opened Hierarchy

  /** The replication components a photon view can observe, in the order they are re-added. */
  datatype SyncView = TransformView | RigidbodyView

  /**
   * The local state of one grabbable object.
   * - `observed`: the photon view's observed-component list.
   * - `transformView`, `rigidbodyView`: `None` when the component is missing,
   *   otherwise `Some(enabled)`.
   * - `parent`: the id of the transform the object is attached to, `None` at scene root.
   * - `localPosition`, `localRotation`: the pose in the parent's frame (the
   *   world pose when `parent` is `None`).
   */
  datatype GrabState = GrabState(
    observed: seq<SyncView>,
    transformView: Option<bool>,
    rigidbodyView: Option<bool>,
    isKinematic: bool,
    colliderEnabled: bool,
    parent: Option<int>,
    localPosition: Vector3,
    localRotation: Quaternion,
    velocity: Vector3,
    lastThrowerId: int)

  /** The broadcast handlers, as the messages that invoke them. */
  datatype Rpc =
    | SetHeldState(playerViewId: int)
    | Release(startPos: Vector3, startRot: Quaternion, velocity: Vector3, throwerId: int)

  /**
   * What `Pickup` and `Drop` hand to the transport: an ownership request for
   * this object, or an RPC sent to every participant and buffered for late joiners.
   */
  datatype Outgoing = RequestOwnership | Broadcast(rpc: Rpc)

  /** The replication components the object actually has, transform view first. */
  function PresentViews(s: GrabState): seq<SyncView>
  {
    (if s.transformView.Some? then [TransformView] else [])
    + (if s.rigidbodyView.Some? then [RigidbodyView] else [])
  }

  /**
   * Replication is switched to `active`: the observed list holds exactly the
   * present components when active and nothing otherwise, and every present
   * component's enabled flag equals `active`.
   */
  predicate SyncIs(s: GrabState, active: bool)
  {
    && s.observed == (if active then PresentViews(s) else [])
    && (s.transformView.Some? ==> s.transformView.value == active)
    && (s.rigidbodyView.Some? ==> s.rigidbodyView.value == active)
  }

  predicate SyncOff(s: GrabState)
  {
    SyncIs(s, false)
  }

  /** The object's invariant: a kinematic (held) object is never driven by replication. */
  predicate HeldImpliesMute(s: GrabState)
  {
    s.isKinematic ==> SyncOff(s)
  }

  /** Everything but the replication switch agrees between `s` and `t`. */
  predicate SameApartFromSync(s: GrabState, t: GrabState)
  {
    && PresentViews(s) == PresentViews(t)
    && s.isKinematic == t.isKinematic
    && s.colliderEnabled == t.colliderEnabled
    && s.parent == t.parent
    && s.localPosition == t.localPosition
    && s.localRotation == t.localRotation
    && s.velocity == t.velocity
    && s.lastThrowerId == t.lastThrowerId
  }

  /** A component's enabled flag after the switch: a missing component stays missing. */
  function Toggle(view: Option<bool>, active: bool): Option<bool>
  {
    if view.Some? then Some(active) else None
  }

  /**
   * The replication gate: clear the observed list, re-add the present
   * components when `isActive`, and set each present component's enabled flag.
   */
  function SetNetworkPhysics(s: GrabState, isActive: bool): (r: GrabState)
    ensures SyncIs(r, isActive)
    ensures SameApartFromSync(s, r)
  {
    s.(observed := if isActive then PresentViews(s) else [],
       transformView := Toggle(s.transformView, isActive),
       rigidbodyView := Toggle(s.rigidbodyView, isActive))
  }

  /** The switch is determined by its target: with some component present, on and off exclude each other. */
  lemma SyncIsExclusive(s: GrabState, a: bool, b: bool)
    requires PresentViews(s) != []
    requires SyncIs(s, a) && SyncIs(s, b)
    ensures a == b
  {
  }

  /**
   * Because the list is cleared first, the last call decides the outcome:
   * calling the gate after an earlier call is the same as calling it alone,
   * and in particular calling it twice with the same flag equals calling it once.
   */
  lemma SetNetworkPhysicsLastWins(s: GrabState, a: bool, b: bool)
    ensures SetNetworkPhysics(SetNetworkPhysics(s, a), b) == SetNetworkPhysics(s, b)
    ensures SetNetworkPhysics(SetNetworkPhysics(s, b), b) == SetNetworkPhysics(s, b)
  {
  }

  /** The hand the held-state handler attaches to: the player view's `HandMount` node, if both exist. */
  function HandFor(views: map<int, Transform>, playerViewId: int): (hand: Option<Transform>)
    ensures hand.Some? ==> playerViewId in views && hand.value.name == HandMountName
    ensures hand.Some? <==>
              && playerViewId in views
              && exists i :: 0 <= i < |PreOrder(views[playerViewId])|
                             && PreOrder(views[playerViewId])[i].name == HandMountName
    ensures playerViewId in views ==> hand == FirstNamed(PreOrder(views[playerViewId]), HandMountName)
  {
    if playerViewId in views then
      FindHandSpec(views[playerViewId], HandMountName);
      FindIsFirstInPreOrder(views[playerViewId], HandMountName);
      FindHandRecursive(views[playerViewId], HandMountName)
    else None
  }

  /**
   * The held-state handler. `views` stands for the photon-view lookup: the
   * root transform of each view id known locally.
   */
  function OnSetHeldState(s: GrabState, playerViewId: int, views: map<int, Transform>): (r: GrabState)
    ensures SyncOff(r) && r.isKinematic && !r.colliderEnabled
    ensures HeldImpliesMute(r)
    ensures HandFor(views, playerViewId).Some? ==>
              && r.parent == Some(HandFor(views, playerViewId).value.id)
              && r.localPosition == Zero && r.localRotation == Identity
    ensures HandFor(views, playerViewId).None? ==>
              r.parent == s.parent && r.localPosition == s.localPosition && r.localRotation == s.localRotation
    ensures PresentViews(r) == PresentViews(s)
    ensures r.velocity == s.velocity && r.lastThrowerId == s.lastThrowerId
  {
    var muted := SetNetworkPhysics(s, false).(isKinematic := true, colliderEnabled := false);
    match HandFor(views, playerViewId)
    case Some(hand) => muted.(parent := Some(hand.id), localPosition := Zero, localRotation := Identity)
    case None => muted
  }

  /** Receiving the same held-state message a second time changes nothing more. */
  lemma OnSetHeldStateIdempotent(s: GrabState, playerViewId: int, views: map<int, Transform>)
    ensures OnSetHeldState(OnSetHeldState(s, playerViewId, views), playerViewId, views)
            == OnSetHeldState(s, playerViewId, views)
  {
  }

  /**
   * The predictive rule: only the thrower whose ownership is not yet
   * confirmed keeps replication off after a release.
   */
  predicate PredictsLocally(localActor: int, throwerId: int, isMine: bool)
  {
    localActor == throwerId && !isMine
  }

  /** The release handler, run with the local actor number and the current `isMine`. */
  function OnRelease(s: GrabState, startPos: Vector3, startRot: Quaternion, velocity: Vector3,
                     throwerId: int, localActor: int, isMine: bool): (r: GrabState)
    ensures r.parent.None? && r.localPosition == startPos && r.localRotation == startRot
    ensures !r.isKinematic && r.colliderEnabled
    ensures r.velocity == velocity && r.lastThrowerId == throwerId
    ensures SyncIs(r, !PredictsLocally(localActor, throwerId, isMine))
    ensures PresentViews(s) != [] ==>
              (SyncOff(r) <==> localActor == throwerId && !isMine)
    ensures PresentViews(r) == PresentViews(s)
    ensures HeldImpliesMute(r)
  {
    var released := s.(lastThrowerId := throwerId,
                       parent := None, localPosition := startPos, localRotation := startRot,
                       isKinematic := false, colliderEnabled := true,
                       velocity := velocity);
    SetNetworkPhysics(released, !PredictsLocally(localActor, throwerId, isMine))
  }

  /**
   * The ownership-transferred callback for `targetView`, on the object whose
   * view id is `thisView`. It only ever switches replication on, and only for
   * a confirmed owner of an object that is not held.
   */
  function OnOwnershipTransfered(s: GrabState, targetView: int, thisView: int, isMine: bool): (r: GrabState)
    ensures targetView != thisView || !isMine || s.isKinematic ==> r == s
    ensures targetView == thisView && isMine && !s.isKinematic ==> SyncIs(r, true)
    ensures SameApartFromSync(s, r)
    ensures HeldImpliesMute(s) ==> HeldImpliesMute(r)
  {
    if targetView != thisView then s
    else if isMine && !s.isKinematic then SetNetworkPhysics(s, true)
    else s
  }

  /**
   * The ownership-transfer-failed callback: the safety net that switches
   * replication back on for a flying object whose transfer failed.
   */
  function OnOwnershipTransferFailed(s: GrabState, targetView: int, thisView: int): (r: GrabState)
    ensures targetView == thisView && !s.isKinematic ==> SyncIs(r, true)
    ensures !(targetView == thisView && !s.isKinematic) ==> r == s
    ensures SameApartFromSync(s, r)
    ensures HeldImpliesMute(s) ==> HeldImpliesMute(r)
  {
    if targetView == thisView && !s.isKinematic then SetNetworkPhysics(s, true) else s
  }

  /**
   * `Pickup`: ask for ownership of the object first, then broadcast the held
   * state naming the picking player's view.
   */
  function Pickup(playerViewId: int): (out: seq<Outgoing>)
    ensures |out| == 2 && out[0] == RequestOwnership
    ensures out[1].Broadcast? && out[1].rpc.SetHeldState? && out[1].rpc.playerViewId == playerViewId
  {
    [RequestOwnership, Broadcast(SetHeldState(playerViewId))]
  }

  /**
   * `Drop`: broadcast a release carrying the object's current world pose (read
   * from the engine and passed in), the throw velocity and the local actor number.
   */
  function Drop(worldPos: Vector3, worldRot: Quaternion, velocity: Vector3, localActor: int): (out: seq<Outgoing>)
    ensures |out| == 1 && out[0].Broadcast? && out[0].rpc.Release?
    ensures out[0].rpc.startPos == worldPos && out[0].rpc.startRot == worldRot
    ensures out[0].rpc.velocity == velocity && out[0].rpc.throwerId == localActor
  {
    [Broadcast(Release(worldPos, worldRot, velocity, localActor))]
  }
}
