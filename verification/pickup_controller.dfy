/**
 * The per-player pickup controller: an interact press grabs the nearest
 * grabbable in range when the hands are empty and throws the held object
 * otherwise, and only on the participant that owns the player. The overlap
 * query is given as a sequence of candidates and the throw vector as a value;
 * the calls into the grabbable object are returned instead of performed.
 */
module PickupController {
  import opened Wrappers
  import opened Geometry
  import opened Hierarchy

  /** `float.MaxValue`, the initial "closest so far" distance of the selection loop. */
  const FloatMax: real := 340282346638528859811704183484516925440.0

  /**
   * One collider returned by the overlap query: the id of the grabbable object
   * on it (`None` when it has none) and its distance from the player.
   */
  datatype Candidate = Candidate(grabbable: Option<int>, distance: real)

  /** The calls the controller makes on a grabbable object. */
  datatype Call = CallPickup(target: int, playerViewId: int) | CallDrop(target: int, velocity: Vector3)

  /** The controller's state: the object currently held, if any (so at most one). */
  datatype Controller = Controller(current: Option<int>)

  /** What one handler does: the next controller state and the calls it made, in order. */
  datatype Reaction = Reaction(next: Controller, calls: seq<Call>)

  /** A candidate the selection loop can pick: it has a grabbable and beats the initial bound. */
  predicate Eligible(c: Candidate)
  {
    c.grabbable.Some? && c.distance < FloatMax
  }

  /**
   * `k` is the nearest among the first `n` candidates: eligible, no farther than
   * any grabbable candidate, and strictly nearer than every grabbable one before it.
   */
  predicate NearestAmong(candidates: seq<Candidate>, n: nat, k: nat)
    requires n <= |candidates|
  {
    && k < n
    && Eligible(candidates[k])
    && (forall j :: 0 <= j < n && candidates[j].grabbable.Some? ==>
          candidates[k].distance <= candidates[j].distance)
    && (forall j :: 0 <= j < k && candidates[j].grabbable.Some? ==>
          candidates[k].distance < candidates[j].distance)
  }

  predicate IsNearest(candidates: seq<Candidate>, k: nat)
  {
    NearestAmong(candidates, |candidates|, k)
  }

  /** The nearest candidate is unique: ties go to the earliest. */
  lemma NearestIsUnique(candidates: seq<Candidate>, a: nat, b: nat)
    requires IsNearest(candidates, a) && IsNearest(candidates, b)
    ensures a == b
  {
  }

  /** Three grabbables at distances 1.0, 2.5 and 0.5: the one at 0.5 is the nearest, and the only one. */
  lemma ThreeCandidatesExample(a: int, b: int, c: int)
    ensures var cs := [Candidate(Some(a), 1.0), Candidate(Some(b), 2.5), Candidate(Some(c), 0.5)];
            IsNearest(cs, 2) && forall k: nat :: IsNearest(cs, k) ==> k == 2
  {
  }

  /**
   * The selection loop of `TryPickup`: skip colliders without a grabbable and
   * keep the first one whose distance is strictly below the best so far.
   */
  method SelectNearest(candidates: seq<Candidate>) returns (closest: Option<nat>)
    ensures closest.Some? ==> IsNearest(candidates, closest.value)
    ensures closest.None? <==> forall j :: 0 <= j < |candidates| ==> !Eligible(candidates[j])
  {
    closest := None;
    var minDst := FloatMax;
    var i := 0;
    while i < |candidates|
      invariant 0 <= i <= |candidates|
      invariant closest.None? ==> minDst == FloatMax && forall j :: 0 <= j < i ==> !Eligible(candidates[j])
      invariant closest.Some? ==> NearestAmong(candidates, i, closest.value)
                                  && minDst == candidates[closest.value].distance
    {
      var c := candidates[i];
      if c.grabbable.Some? {
        if c.distance < minDst {
          minDst := c.distance;
          closest := Some(i);
        }
      }
      i := i + 1;
    }
  }

  /**
   * `TryPickup`: when some candidate is eligible, hold the nearest one's object
   * and call its `Pickup` once with the player's own view id; otherwise do nothing.
   */
  method TryPickup(c: Controller, candidates: seq<Candidate>, playerViewId: int) returns (r: Reaction)
    ensures (forall j :: 0 <= j < |candidates| ==> !Eligible(candidates[j])) ==> r == Reaction(c, [])
    ensures (exists j :: 0 <= j < |candidates| && Eligible(candidates[j])) ==>
              exists k: nat :: IsNearest(candidates, k)
                               && r.next == Controller(Some(candidates[k].grabbable.value))
                               && r.calls == [CallPickup(candidates[k].grabbable.value, playerViewId)]
  {
    var closest := SelectNearest(candidates);
    if closest.Some? {
      var k := closest.value;
      var target := candidates[k].grabbable.value;
      r := Reaction(Controller(Some(target)), [CallPickup(target, playerViewId)]);
      assert IsNearest(candidates, k);
    } else {
      r := Reaction(c, []);
    }
  }

  /**
   * `ThrowItem`: with an object in hand, call its `Drop` once with the throw
   * velocity and forget it; with empty hands, do nothing.
   */
  function ThrowItem(c: Controller, throwVelocity: Vector3): (r: Reaction)
    ensures c.current.None? ==> r == Reaction(c, [])
    ensures c.current.Some? ==>
              r.next.current.None? && r.calls == [CallDrop(c.current.value, throwVelocity)]
  {
    match c.current
    case Some(held) => Reaction(Controller(None), [CallDrop(held, throwVelocity)])
    case None => Reaction(c, [])
  }

  /**
   * One frame of `Update`. `isMine` is the ownership of the player's view,
   * `interactPressed` whether the interact action was pressed this frame.
   */
  method Update(c: Controller, isMine: bool, interactPressed: bool, candidates: seq<Candidate>,
                playerViewId: int, throwVelocity: Vector3) returns (r: Reaction)
    ensures !isMine || !interactPressed ==> r == Reaction(c, [])
    ensures |r.calls| <= 1
    ensures isMine && interactPressed && c.current.Some? ==>
              r.next.current.None? && r.calls == [CallDrop(c.current.value, throwVelocity)]
    ensures isMine && interactPressed && c.current.None? ==>
              && (r.calls == [] <==> forall j :: 0 <= j < |candidates| ==> !Eligible(candidates[j]))
              && (r.calls == [] ==> r.next == c)
              && (r.calls != [] ==>
                    exists k: nat :: IsNearest(candidates, k)
                                     && r.next.current == Some(candidates[k].grabbable.value)
                                     && r.calls == [CallPickup(candidates[k].grabbable.value, playerViewId)])
  {
    if !isMine || !interactPressed {
      return Reaction(c, []);
    }
    if c.current.None? {
      r := TryPickup(c, candidates, playerViewId);
    } else {
      r := ThrowItem(c, throwVelocity);
    }
  }

  /**
   * Two interact presses on the owning participant, starting with empty hands
   * and an eligible candidate in range: the first calls `Pickup` on the nearest
   * object, the second calls `Drop` on that same object, and the hands end empty.
   */
  method PickupThenThrow(c: Controller, candidates: seq<Candidate>, playerViewId: int, throwVelocity: Vector3)
    returns (first: Reaction, second: Reaction)
    requires c.current.None?
    requires exists j :: 0 <= j < |candidates| && Eligible(candidates[j])
    ensures exists k: nat :: IsNearest(candidates, k)
                             && first.calls == [CallPickup(candidates[k].grabbable.value, playerViewId)]
                             && second.calls == [CallDrop(candidates[k].grabbable.value, throwVelocity)]
    ensures second.next == c
  {
    first := Update(c, true, true, candidates, playerViewId, throwVelocity);
    second := Update(first.next, true, true, candidates, playerViewId, throwVelocity);
  }

  /** `Start`: a present hand point is renamed to the name the grabbable searches for. */
  function Start(handPoint: Option<Transform>): (r: Option<Transform>)
    ensures r.Some? <==> handPoint.Some?
    ensures r.Some? ==>
              && r.value.name == HandMountName
              && r.value.id == handPoint.value.id && r.value.children == handPoint.value.children
  {
    match handPoint
    case Some(h) => Some(h.(name := HandMountName))
    case None => None
  }

  /**
   * The naming contract between controller and grabbable: once `Start` has
   * renamed the hand point, a hierarchy holding it is one where the hand
   * search succeeds, and it finds the hand point itself when that is the only
   * node with the name.
   */
  lemma StartedHandIsFound(root: Transform, handPoint: Transform)
    requires Start(Some(handPoint)).value in PreOrder(root)
    ensures FindHandRecursive(root, HandMountName).Some?
    ensures (forall m :: m in PreOrder(root) && m.name == HandMountName ==> m == Start(Some(handPoint)).value)
            ==> FindHandRecursive(root, HandMountName) == Start(Some(handPoint))
  {
    var hand := Start(Some(handPoint)).value;
    FindHandSpec(root, HandMountName);
    var walk := PreOrder(root);
    var k :| 0 <= k < |walk| && walk[k] == hand;
    assert walk[k].name == HandMountName;
    if forall m :: m in walk && m.name == HandMountName ==> m == hand {
      FindsUniqueMatch(root, HandMountName, hand);
    }
  }
}
