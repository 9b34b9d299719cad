/**
 * The inputs one participant's copy of a grabbable object reacts to, in the
 * order that participant processes them, and what any such history
 * guarantees: the held-implies-mute invariant, what a late joiner replaying
 * the buffered messages ends up with, and how long a thrower keeps its local
 * prediction.
 */
module Protocol {
  import opened Wrappers
  import opened Geometry
  import opened Hierarchy
  import opened Grabbable

  /**
   * The fixed local context of a participant: its actor number, the object's
   * view id and the photon-view lookup (view id to root transform).
   */
  datatype Env = Env(localActor: int, thisView: int, views: map<int, Transform>)

  /**
   * One input, together with the ownership flag `isMine` observed when it is
   * handled where the handler reads it.
   */
  datatype Input =
    | Deliver(rpc: Rpc, isMine: bool)
    | Transferred(targetView: int, isMine: bool)
    | TransferFailed(targetView: int)

  /** Handle one input with the matching handler. */
  function Step(s: GrabState, env: Env, input: Input): (r: GrabState)
    ensures PresentViews(r) == PresentViews(s)
    ensures HeldImpliesMute(s) ==> HeldImpliesMute(r)
  {
    match input
    case Deliver(SetHeldState(playerViewId), _) =>
      OnSetHeldState(s, playerViewId, env.views)
    case Deliver(Release(pos, rot, vel, thrower), isMine) =>
      OnRelease(s, pos, rot, vel, thrower, env.localActor, isMine)
    case Transferred(target, isMine) =>
      OnOwnershipTransfered(s, target, env.thisView, isMine)
    case TransferFailed(target) =>
      OnOwnershipTransferFailed(s, target, env.thisView)
  }

  /** Handle a whole history of inputs, oldest first. */
  function Run(s: GrabState, env: Env, inputs: seq<Input>): (r: GrabState)
    ensures PresentViews(r) == PresentViews(s)
    decreases |inputs|
  {
    if inputs == [] then s
    else Step(Run(s, env, inputs[..|inputs| - 1]), env, inputs[|inputs| - 1])
  }

  /** Handling `a` and then `b` is handling `a + b`. */
  lemma {:induction false} RunAppend(s: GrabState, env: Env, a: seq<Input>, b: seq<Input>)
    ensures Run(s, env, a + b) == Run(Run(s, env, a), env, b)
    decreases |b|
  {
    if b == [] {
      assert a + b == a;
    } else {
      var b' := b[..|b| - 1];
      assert (a + b)[..|a + b| - 1] == a + b';
      assert (a + b)[|a + b| - 1] == b[|b| - 1];
      RunAppend(s, env, a, b');
    }
  }

  /** Any history of held, release, transfer and transfer-failed inputs keeps a held object muted. */
  lemma {:induction false} RunPreservesInvariant(s: GrabState, env: Env, inputs: seq<Input>)
    requires HeldImpliesMute(s)
    ensures HeldImpliesMute(Run(s, env, inputs))
    decreases |inputs|
  {
    if inputs != [] {
      RunPreservesInvariant(s, env, inputs[..|inputs| - 1]);
    }
  }

  /** Processing `input` as the last input of `history`. */
  lemma RunLast(s: GrabState, env: Env, history: seq<Input>, input: Input)
    ensures Run(s, env, history + [input]) == Step(Run(s, env, history), env, input)
  {
    assert (history + [input])[..|history|] == history;
  }

  /**
   * A participant that replays any buffered history ending in a held-state
   * message sees the object held: muted, kinematic, without collision, and
   * attached at zero offset to the holder's hand when that hand can be found.
   */
  lemma LateJoinSeesHold(s: GrabState, env: Env, history: seq<Input>, playerViewId: int, isMine: bool)
    ensures var r := Run(s, env, history + [Deliver(SetHeldState(playerViewId), isMine)]);
            && SyncOff(r) && r.isKinematic && !r.colliderEnabled
            && (HandFor(env.views, playerViewId).Some? ==>
                  r.parent == Some(HandFor(env.views, playerViewId).value.id)
                  && r.localPosition == Zero && r.localRotation == Identity)
  {
    RunLast(s, env, history, Deliver(SetHeldState(playerViewId), isMine));
  }

  /** A history that ends in a release is the release handler applied to the rest of the history. */
  lemma RunEndsWithRelease(s: GrabState, env: Env, history: seq<Input>,
                           pos: Vector3, rot: Quaternion, vel: Vector3, thrower: int, isMine: bool)
    ensures Run(s, env, history + [Deliver(Release(pos, rot, vel, thrower), isMine)])
            == OnRelease(Run(s, env, history), pos, rot, vel, thrower, env.localActor, isMine)
  {
    RunLast(s, env, history, Deliver(Release(pos, rot, vel, thrower), isMine));
  }

  /**
   * A release overwrites everything but the set of components: two copies
   * with the same components end equal when the predictive rule gives both
   * the same answer.
   */
  lemma ReleaseForgetsHistory(t1: GrabState, t2: GrabState, pos: Vector3, rot: Quaternion, vel: Vector3,
                              thrower: int, actor1: int, isMine1: bool, actor2: int, isMine2: bool)
    requires PresentViews(t1) == PresentViews(t2)
    requires PredictsLocally(actor1, thrower, isMine1) == PredictsLocally(actor2, thrower, isMine2)
    ensures OnRelease(t1, pos, rot, vel, thrower, actor1, isMine1)
            == OnRelease(t2, pos, rot, vel, thrower, actor2, isMine2)
  {
    assert t1.transformView.Some? == t2.transformView.Some? by {
      assert TransformView in PresentViews(t1) <==> t1.transformView.Some?;
      assert TransformView in PresentViews(t2) <==> t2.transformView.Some?;
    }
    assert t1.rigidbodyView.Some? == t2.rigidbodyView.Some? by {
      assert RigidbodyView in PresentViews(t1) <==> t1.rigidbodyView.Some?;
      assert RigidbodyView in PresentViews(t2) <==> t2.rigidbodyView.Some?;
    }
  }

  /**
   * After a release, the object's state no longer depends on what came
   * before: two copies with the same components, whatever histories they
   * went through, agree at the moment each handles the same release.
   */
  lemma LateJoinAgreesOnRelease(s1: GrabState, s2: GrabState, env: Env,
                                h1: seq<Input>, h2: seq<Input>, release: Rpc, isMine: bool)
    requires PresentViews(s1) == PresentViews(s2)
    requires release.Release?
    ensures Run(s1, env, h1 + [Deliver(release, isMine)]) == Run(s2, env, h2 + [Deliver(release, isMine)])
  {
    RunLast(s1, env, h1, Deliver(release, isMine));
    RunLast(s2, env, h2, Deliver(release, isMine));
    ReleaseForgetsHistory(Run(s1, env, h1), Run(s2, env, h2), release.startPos, release.startRot,
                          release.velocity, release.throwerId, env.localActor, isMine, env.localActor, isMine);
  }

  /**
   * Across participants: two participants, whatever their histories and
   * local contexts, hold the same copy at the moment each handles the same
   * release, as long as neither is the unconfirmed thrower.
   */
  lemma ParticipantsAgreeOnRelease(s1: GrabState, s2: GrabState, env1: Env, env2: Env,
                                   h1: seq<Input>, h2: seq<Input>,
                                   pos: Vector3, rot: Quaternion, vel: Vector3, thrower: int,
                                   isMine1: bool, isMine2: bool)
    requires PresentViews(s1) == PresentViews(s2)
    requires !PredictsLocally(env1.localActor, thrower, isMine1)
    requires !PredictsLocally(env2.localActor, thrower, isMine2)
    ensures Run(s1, env1, h1 + [Deliver(Release(pos, rot, vel, thrower), isMine1)])
            == Run(s2, env2, h2 + [Deliver(Release(pos, rot, vel, thrower), isMine2)])
  {
    RunEndsWithRelease(s1, env1, h1, pos, rot, vel, thrower, isMine1);
    RunEndsWithRelease(s2, env2, h2, pos, rot, vel, thrower, isMine2);
    ReleaseForgetsHistory(Run(s1, env1, h1), Run(s2, env2, h2), pos, rot, vel, thrower,
                          env1.localActor, isMine1, env2.localActor, isMine2);
  }

  /**
   * The one place participants differ after a release: the unconfirmed
   * thrower keeps replication off while every other participant has it on.
   */
  lemma ThrowerAndObserverDiffer(s1: GrabState, s2: GrabState, env1: Env, env2: Env,
                                 h1: seq<Input>, h2: seq<Input>,
                                 pos: Vector3, rot: Quaternion, vel: Vector3, isMine2: bool)
    requires PresentViews(s1) == PresentViews(s2) && PresentViews(s1) != []
    requires env2.localActor != env1.localActor
    ensures var r1 := Run(s1, env1, h1 + [Deliver(Release(pos, rot, vel, env1.localActor), false)]);
            var r2 := Run(s2, env2, h2 + [Deliver(Release(pos, rot, vel, env1.localActor), isMine2)]);
            SyncOff(r1) && SyncIs(r2, true) && r1 != r2
  {
    RunLast(s1, env1, h1, Deliver(Release(pos, rot, vel, env1.localActor), false));
    RunLast(s2, env2, h2, Deliver(Release(pos, rot, vel, env1.localActor), isMine2));
  }

  /**
   * Inputs that do not resolve the thrower's pending ownership: a held-state
   * message, another release of its own while still unconfirmed, a transfer
   * that is not a confirmation for this object, and a failure for another object.
   */
  predicate KeepsPrediction(env: Env, input: Input)
  {
    match input
    case Deliver(SetHeldState(_), _) => true
    case Deliver(Release(_, _, _, thrower), isMine) => PredictsLocally(env.localActor, thrower, isMine)
    case Transferred(target, isMine) => target != env.thisView || !isMine
    case TransferFailed(target) => target != env.thisView
  }

  /** A muted copy stays muted through inputs that do not resolve the pending ownership. */
  lemma {:induction false} MutedUntilResolved(s: GrabState, env: Env, inputs: seq<Input>)
    requires SyncOff(s)
    requires forall i :: 0 <= i < |inputs| ==> KeepsPrediction(env, inputs[i])
    ensures SyncOff(Run(s, env, inputs))
    decreases |inputs|
  {
    if inputs != [] {
      MutedUntilResolved(s, env, inputs[..|inputs| - 1]);
    }
  }

  /**
   * The predictive rule over time: the thrower that has not yet been confirmed
   * as owner keeps replication off after its own release, through every later
   * input until a confirmation, a failure or another thrower's release arrives;
   * the confirmation then switches replication on for the flying object.
   */
  lemma ThrowerPredictsUntilConfirmed(s: GrabState, env: Env, pos: Vector3, rot: Quaternion, vel: Vector3,
                                      later: seq<Input>)
    requires forall i :: 0 <= i < |later| ==> KeepsPrediction(env, later[i])
    ensures var r := Run(s, env, [Deliver(Release(pos, rot, vel, env.localActor), false)] + later);
            && SyncOff(r)
            && (!r.isKinematic ==> SyncIs(Step(r, env, Transferred(env.thisView, true)), true))
  {
    var first := [Deliver(Release(pos, rot, vel, env.localActor), false)];
    RunAppend(s, env, first, later);
    RunLast(s, env, [], first[0]);
    assert [] + first == first;
    MutedUntilResolved(Run(s, env, first), env, later);
  }

  /**
   * What `Pickup` starts: it requests ownership, and its broadcast, once
   * delivered, leaves every participant's copy held and muted.
   */
  lemma PickupHoldsEverywhere(s: GrabState, env: Env, playerViewId: int, isMine: bool)
    ensures Pickup(playerViewId)[0] == RequestOwnership
    ensures var r := Step(s, env, Deliver(Pickup(playerViewId)[1].rpc, isMine));
            SyncOff(r) && r.isKinematic && !r.colliderEnabled
  {
  }

  /**
   * What `Drop` starts: delivering its broadcast leaves every copy free-flying
   * at the sender's world pose with the throw velocity; only the sender, while
   * not yet confirmed as owner, keeps replication off.
   */
  lemma DropReleasesEverywhere(s: GrabState, env: Env, pos: Vector3, rot: Quaternion, vel: Vector3,
                               sender: int, isMine: bool)
    requires PresentViews(s) != []
    ensures var r := Step(s, env, Deliver(Drop(pos, rot, vel, sender)[0].rpc, isMine));
            && r.parent.None? && r.localPosition == pos && r.localRotation == rot
            && !r.isKinematic && r.colliderEnabled && r.velocity == vel && r.lastThrowerId == sender
            && (SyncOff(r) <==> env.localActor == sender && !isMine)
  {
  }
}
