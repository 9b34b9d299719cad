/**
 * The scene-graph hierarchy of a player's representation and the name search
 * the grabbable object uses to find the hand it attaches to.
 */
module Hierarchy {
  import opened Wrappers

  /**
   * The name the pickup controller gives its attachment point and the
   * grabbable object searches for: an exact, case-sensitive match.
   */
  const HandMountName: string := "HandMount"

  /** A transform of the scene graph: an identity, a name and its ordered children. */
  datatype Transform = Transform(id: int, name: string, children: seq<Transform>)

  /** Every node of the subtree rooted at `t` in pre-order: `t`, then each child's subtree left to right. */
  function PreOrder(t: Transform): seq<Transform>
    decreases t, 1
  {
    [t] + PreOrderAll(t.children)
  }

  /** The pre-order walks of a sequence of sibling subtrees, concatenated left to right. */
  function PreOrderAll(ts: seq<Transform>): seq<Transform>
    decreases ts, 0
  {
    if ts == [] then [] else PreOrder(ts[0]) + PreOrderAll(ts[1..])
  }

  /**
   * Reference definition of "first match": the first node of `nodes` named
   * `name`, or `None` when no node carries that name.
   */
  function FirstNamed(nodes: seq<Transform>, name: string): (r: Option<Transform>)
    ensures r.None? <==> forall i :: 0 <= i < |nodes| ==> nodes[i].name != name
    ensures r.Some? ==>
              exists i :: 0 <= i < |nodes| && nodes[i] == r.value && r.value.name == name
                          && forall j :: 0 <= j < i ==> nodes[j].name != name
  {
    if nodes == [] then None
    else if nodes[0].name == name then Some(nodes[0])
    else
      var r := FirstNamed(nodes[1..], name);
      assert forall i :: 1 <= i < |nodes| ==> nodes[i] == nodes[1..][i - 1];
      r
  }

  /**
   * Depth-first search for a node named `name` below and including `current`:
   * the node itself first, then each child's subtree in order, stopping at the
   * first hit.
   */
  function FindHandRecursive(current: Transform, name: string): (found: Option<Transform>)
    ensures found.Some? ==> found.value.name == name
    decreases current, 1
  {
    if current.name == name then Some(current)
    else FindInChildren(current.children, name)
  }

  /** The `foreach` over the children of a node: the first child subtree holding a match wins. */
  function FindInChildren(children: seq<Transform>, name: string): (found: Option<Transform>)
    ensures found.Some? ==> found.value.name == name
    decreases children, 0
  {
    if children == [] then None
    else
      var f := FindHandRecursive(children[0], name);
      if f.Some? then f else FindInChildren(children[1..], name)
  }

  /** Whether the first non-empty search result is taken from `a` or else from `b`. */
  lemma {:induction false} FirstNamedAppend(a: seq<Transform>, b: seq<Transform>, name: string)
    ensures FirstNamed(a + b, name)
            == if FirstNamed(a, name).Some? then FirstNamed(a, name) else FirstNamed(b, name)
  {
    if a == [] {
      assert a + b == b;
    } else {
      assert (a + b)[1..] == a[1..] + b;
      FirstNamedAppend(a[1..], b, name);
    }
  }

  /** The depth-first search returns exactly the first node of the pre-order walk that has the name. */
  lemma {:induction false} FindIsFirstInPreOrder(t: Transform, name: string)
    ensures FindHandRecursive(t, name) == FirstNamed(PreOrder(t), name)
    decreases t, 1
  {
    FirstNamedAppend([t], PreOrderAll(t.children), name);
    FindInChildrenIsFirst(t.children, name);
  }

  /** The children loop returns the first named node of the concatenated sibling walks. */
  lemma {:induction false} FindInChildrenIsFirst(ts: seq<Transform>, name: string)
    ensures FindInChildren(ts, name) == FirstNamed(PreOrderAll(ts), name)
    decreases ts, 0
  {
    if ts != [] {
      FindIsFirstInPreOrder(ts[0], name);
      FindInChildrenIsFirst(ts[1..], name);
      FirstNamedAppend(PreOrder(ts[0]), PreOrderAll(ts[1..]), name);
    }
  }

  /**
   * The search comes back empty exactly when no node of the subtree carries
   * the name; a hit is a node of the subtree with that name, and every node
   * visited before it in pre-order has a different name.
   */
  lemma FindHandSpec(t: Transform, name: string)
    ensures FindHandRecursive(t, name).None? <==>
              forall i :: 0 <= i < |PreOrder(t)| ==> PreOrder(t)[i].name != name
    ensures FindHandRecursive(t, name).Some? ==>
              exists i :: 0 <= i < |PreOrder(t)| && PreOrder(t)[i] == FindHandRecursive(t, name).value
                          && forall j :: 0 <= j < i ==> PreOrder(t)[j].name != name
  {
    FindIsFirstInPreOrder(t, name);
  }

  /** If `n` is the only node of the subtree named `name`, the search finds `n`. */
  lemma FindsUniqueMatch(t: Transform, name: string, n: Transform)
    requires n in PreOrder(t) && n.name == name
    requires forall m :: m in PreOrder(t) && m.name == name ==> m == n
    ensures FindHandRecursive(t, name) == Some(n)
  {
    FindIsFirstInPreOrder(t, name);
    var walk := PreOrder(t);
    var k :| 0 <= k < |walk| && walk[k] == n;
    assert walk[k].name == name;
  }
}
