/**
 The semantic tree an application describes itself with: a flat list of nodes whose children are
 indices into the list. Acceptance means exactly that the list is a tree rooted at node 0.
 */
module Semantics {
  import opened Wrappers
  import opened Words
  import opened Scalars

  const MAX_SEMANTIC_NODES := 256
  const MAX_SEMANTIC_DEPTH := 32
  const MAX_SEMANTIC_TEXT_BYTES := 256
  const MAX_SEMANTIC_ACTIONS := 7

  datatype Action = Default | Focus | Click | Increment | Decrement | Expand | Collapse

  /** What `Validate` looks at; the role and the control's state are never inspected. */
  datatype Node = Node(id: u64, bounds: Rect, text: seq<byte>, position: Option<(u16, u16)>,
                       actions: seq<Action>, children: seq<u32>)

  datatype Refusal = NoScene | BadSize | BadIdentity | BadBounds | LongLabel | TooManyActions | BadPosition
                   | BadChild | TwoParents | Unreachable | TooDeep

  // ---- Field checks ------------------------------------------------------------------------

  ghost predicate FreshIdentity(nodes: seq<Node>, i: nat)
    requires i < |nodes|
  {
    nodes[i].id != 0 && forall j :: 0 <= j < i ==> nodes[j].id != nodes[i].id
  }

  predicate GoodPosition(position: Option<(u16, u16)>) {
    position.Some? ==> 0 < position.value.0 <= position.value.1
  }

  ghost predicate GoodFields(nodes: seq<Node>, i: nat)
    requires i < |nodes|
  {
    FreshIdentity(nodes, i) && ValidRect(nodes[i].bounds) && |nodes[i].text| <= MAX_SEMANTIC_TEXT_BYTES &&
    |nodes[i].actions| <= MAX_SEMANTIC_ACTIONS && GoodPosition(nodes[i].position)
  }

  /** `e` names a check that node `i` really fails. */
  ghost predicate Explains(nodes: seq<Node>, i: nat, e: Refusal)
    requires i < |nodes|
  {
    match e
    case BadIdentity => !FreshIdentity(nodes, i)
    case BadBounds => !ValidRect(nodes[i].bounds)
    case LongLabel => |nodes[i].text| > MAX_SEMANTIC_TEXT_BYTES
    case TooManyActions => |nodes[i].actions| > MAX_SEMANTIC_ACTIONS
    case BadPosition => !GoodPosition(nodes[i].position)
    case _ => false
  }

  // ---- What a tree is ----------------------------------------------------------------------

  predicate Lists(nodes: seq<Node>, parent: nat, child: nat) {
    parent < |nodes| && child in nodes[parent].children
  }

  /** A walk along child links, starting at the root. */
  ghost predicate IsPath(nodes: seq<Node>, path: seq<nat>)
    decreases |path|
  {
    path != [] &&
    if |path| == 1 then path[0] == 0
    else IsPath(nodes, path[..|path| - 1]) && Lists(nodes, path[|path| - 2], path[|path| - 1])
  }

  ghost predicate PathTo(nodes: seq<Node>, path: seq<nat>, target: nat) {
    IsPath(nodes, path) && path[|path| - 1] == target
  }

  /** Children follow their parent, exist, and are listed once. */
  ghost predicate OrderedChildren(nodes: seq<Node>, i: nat)
    requires i < |nodes|
  {
    (forall k :: 0 <= k < |nodes[i].children| ==> i < nodes[i].children[k] < |nodes|) &&
    (forall j, k :: 0 <= j < k < |nodes[i].children| ==> nodes[i].children[j] != nodes[i].children[k])
  }

  ghost predicate InOrder(nodes: seq<Node>) {
    forall i :: 0 <= i < |nodes| ==> OrderedChildren(nodes, i)
  }

  ghost predicate OnePath(nodes: seq<Node>, target: nat) {
    exists path ::
      PathTo(nodes, path, target) && |path| <= MAX_SEMANTIC_DEPTH + 1 &&
      forall other :: PathTo(nodes, other, target) ==> other == path
  }

  /** Every node is reached from the root along exactly one path, of at most 32 links. */
  ghost predicate IsTree(nodes: seq<Node>) {
    InOrder(nodes) && forall target: nat :: target < |nodes| ==> OnePath(nodes, target)
  }

  // ---- Parents -----------------------------------------------------------------------------

  ghost predicate HasParent(nodes: seq<Node>, child: nat) {
    exists parent :: Lists(nodes, parent, child)
  }

  ghost predicate ParentsUnique(nodes: seq<Node>) {
    forall p, q, child :: Lists(nodes, p, child) && Lists(nodes, q, child) ==> p == q
  }

  ghost predicate Claimed(nodes: seq<Node>) {
    InOrder(nodes) && ParentsUnique(nodes) && forall child :: 0 < child < |nodes| ==> HasParent(nodes, child)
  }

  ghost function Route(nodes: seq<Node>, target: nat): (path: seq<nat>)
    requires Claimed(nodes) && target < |nodes|
    ensures PathTo(nodes, path, target)
  {
    if target == 0 then [0]
    else
      assert HasParent(nodes, target);
      var parent :| Lists(nodes, parent, target);
      assert OrderedChildren(nodes, parent);
      var path := Route(nodes, parent) + [target];
      assert path[..|path| - 1] == Route(nodes, parent);
      path
  }

  ghost predicate Shallow(nodes: seq<Node>)
    requires Claimed(nodes)
  {
    forall t: nat :: t < |nodes| ==> |Route(nodes, t)| <= MAX_SEMANTIC_DEPTH + 1
  }

  lemma {:induction false} RouteUnique(nodes: seq<Node>, path: seq<nat>, target: nat)
    requires Claimed(nodes) && target < |nodes| && PathTo(nodes, path, target)
    ensures path == Route(nodes, target)
    decreases |path|
  {
    if |path| > 1 {
      var before := path[|path| - 2];
      assert OrderedChildren(nodes, before);
      RouteUnique(nodes, path[..|path| - 1], before);
      assert path == path[..|path| - 1] + [target];
    } else if target != 0 {
      assert false;
    }
  }

  /** A list is a tree exactly when the claims settle and no route is too long. */
  lemma {:induction false} TreeIsClaimed(nodes: seq<Node>)
    requires nodes != []
    ensures IsTree(nodes) <==> Claimed(nodes) && Shallow(nodes)
  {
    hide Claimed; hide Shallow; hide IsTree;
    if Claimed(nodes) && Shallow(nodes) {
      ClaimedIsTree(nodes);
    }
    if IsTree(nodes) {
      TreeClaims(nodes);
      TreeShallow(nodes);
    }
  }

  lemma {:induction false} TreeShallow(nodes: seq<Node>)
    requires IsTree(nodes) && Claimed(nodes)
    ensures Shallow(nodes)
  {
    hide Claimed;
    forall t: nat | t < |nodes| ensures |Route(nodes, t)| <= MAX_SEMANTIC_DEPTH + 1 {
      assert OnePath(nodes, t);
      assert PathTo(nodes, Route(nodes, t), t);
    }
  }

  lemma {:induction false} ClaimedIsTree(nodes: seq<Node>)
    requires Claimed(nodes) && Shallow(nodes)
    ensures IsTree(nodes)
  {
    forall target: nat | target < |nodes| ensures OnePath(nodes, target) {
      var route := Route(nodes, target);
      forall other | PathTo(nodes, other, target) ensures other == route {
        RouteUnique(nodes, other, target);
      }
    }
  }

  lemma {:induction false} TreeClaims(nodes: seq<Node>)
    requires IsTree(nodes) && nodes != []
    ensures Claimed(nodes)
  {
    forall child | 0 < child < |nodes| ensures HasParent(nodes, child) {
      assert OnePath(nodes, child);
      var path :| PathTo(nodes, path, child);
      assert Lists(nodes, path[|path| - 2], child);
    }
    forall p, q, child | Lists(nodes, p, child) && Lists(nodes, q, child) ensures p == q {
      TreeParentUnique(nodes, p, q, child);
    }
  }

  lemma {:induction false} TreeParentUnique(nodes: seq<Node>, p: nat, q: nat, child: nat)
    requires IsTree(nodes) && Lists(nodes, p, child) && Lists(nodes, q, child)
    ensures p == q
  {
    assert OrderedChildren(nodes, p);
    assert OnePath(nodes, p) && OnePath(nodes, q) && OnePath(nodes, child);
    var x :| PathTo(nodes, x, p);
    var y :| PathTo(nodes, y, q);
    PathExtends(nodes, x, p, child);
    PathExtends(nodes, y, q, child);
    assert x + [child] == y + [child];
    assert (x + [child])[|x| - 1] == p && (y + [child])[|y| - 1] == q;
  }

  lemma {:induction false} PathExtends(nodes: seq<Node>, path: seq<nat>, last: nat, child: nat)
    requires PathTo(nodes, path, last) && Lists(nodes, last, child)
    ensures PathTo(nodes, path + [child], child)
  {
    assert (path + [child])[..|path|] == path;
  }

  /** No node of a tree is its own descendant, at any distance. */
  lemma {:induction false} TreeAcyclic(nodes: seq<Node>, path: seq<nat>, i: nat, j: nat)
    requires IsTree(nodes) && IsPath(nodes, path) && i < j < |path|
    ensures path[i] < path[j]
    decreases |path|
  {
    var front := path[..|path| - 1];
    assert OrderedChildren(nodes, path[|path| - 2]);
    if j < |path| - 1 {
      TreeAcyclic(nodes, front, i, j);
      assert front[i] == path[i] && front[j] == path[j];
    } else if i < |path| - 2 {
      TreeAcyclic(nodes, front, i, |path| - 2);
      assert front[i] == path[i];
    }
  }

  // ---- The check in the source's form ------------------------------------------------------

  method CheckFields(nodes: seq<Node>) returns (r: Result<(), Refusal>)
    ensures r.Ok? <==> forall i :: 0 <= i < |nodes| ==> GoodFields(nodes, i)
    ensures (r.Err? ==> exists i: nat ::
               i < |nodes| && Explains(nodes, i, r.error) && forall j: nat :: j < i ==> GoodFields(nodes, j))
  {
    var identities: set<u64> := {};
    var i := 0;
    while i < |nodes|
      invariant 0 <= i <= |nodes|
      invariant forall j :: 0 <= j < i ==> GoodFields(nodes, j)
      invariant forall id :: id in identities <==> exists j :: 0 <= j < i && nodes[j].id == id
    {
      var node := nodes[i];
      if node.id == 0 || node.id in identities {
        assert Explains(nodes, i, BadIdentity) && !GoodFields(nodes, i);
        return Err(BadIdentity);
      }
      identities := identities + {node.id};
      if !ValidRect(node.bounds) {
        assert Explains(nodes, i, BadBounds) && !GoodFields(nodes, i);
        return Err(BadBounds);
      }
      if |node.text| > MAX_SEMANTIC_TEXT_BYTES {
        assert Explains(nodes, i, LongLabel) && !GoodFields(nodes, i);
        return Err(LongLabel);
      }
      if |node.actions| > MAX_SEMANTIC_ACTIONS {
        assert Explains(nodes, i, TooManyActions) && !GoodFields(nodes, i);
        return Err(TooManyActions);
      }
      if !GoodPosition(node.position) {
        assert Explains(nodes, i, BadPosition) && !GoodFields(nodes, i);
        return Err(BadPosition);
      }
      i := i + 1;
    }
    return Ok(());
  }

  /** The claims made by the lists of nodes before `i` and by the first `k` children of node `i`. */
  ghost predicate ClaimedBy(nodes: seq<Node>, i: nat, k: nat, parent: nat, child: nat) {
    parent < |nodes| &&
    ((parent < i && child in nodes[parent].children) ||
     (parent == i && k <= |nodes[i].children| && child in nodes[i].children[..k]))
  }

  ghost predicate IsClaimed(nodes: seq<Node>, i: nat, k: nat, child: nat) {
    exists parent :: ClaimedBy(nodes, i, k, parent, child)
  }

  ghost predicate Marks(nodes: seq<Node>, i: nat, k: nat, claimed: seq<bool>) {
    |claimed| == |nodes| &&
    (forall child: nat :: child < |nodes| ==> (claimed[child] <==> IsClaimed(nodes, i, k, child))) &&
    forall p, q, child :: ClaimedBy(nodes, i, k, p, child) && ClaimedBy(nodes, i, k, q, child) ==> p == q
  }

  lemma {:induction false} MarksCarry(nodes: seq<Node>, i: nat, k: nat, i': nat, k': nat, claimed: seq<bool>)
    requires Marks(nodes, i, k, claimed)
    requires forall p: nat, child: nat {:trigger ClaimedBy(nodes, i', k', p, child)} ::
               ClaimedBy(nodes, i', k', p, child) ==> ClaimedBy(nodes, i, k, p, child)
    requires forall p: nat, child: nat {:trigger ClaimedBy(nodes, i, k, p, child)} ::
               ClaimedBy(nodes, i, k, p, child) ==> ClaimedBy(nodes, i', k', p, child)
    ensures Marks(nodes, i', k', claimed)
  {
    hide ClaimedBy;
  }

  lemma {:induction false} NothingMarked(nodes: seq<Node>, claimed: seq<bool>)
    requires |claimed| == |nodes| && forall i :: 0 <= i < |claimed| ==> !claimed[i]
    ensures Marks(nodes, 0, 0, claimed)
  {
  }

  lemma {:induction false} MarksStep(nodes: seq<Node>, i: nat, k: nat, before: seq<bool>, after: seq<bool>)
    requires i < |nodes| && k < |nodes[i].children| && nodes[i].children[k] < |nodes|
    requires Marks(nodes, i, k, before) && !before[nodes[i].children[k]]
    requires after == before[nodes[i].children[k] := true]
    ensures Marks(nodes, i, k + 1, after)
  {
    var extra, k' := nodes[i].children[k], k + 1;
    assert nodes[i].children[..k + 1] == nodes[i].children[..k] + [extra];
    forall child: nat | child < |nodes|
      ensures after[child] <==> IsClaimed(nodes, i, k', child) {
      if child == extra {
        assert ClaimedBy(nodes, i, k', i, child);
      } else if before[child] {
        var p :| ClaimedBy(nodes, i, k, p, child);
        assert ClaimedBy(nodes, i, k', p, child);
      } else if IsClaimed(nodes, i, k', child) {
        var p :| ClaimedBy(nodes, i, k', p, child);
        assert ClaimedBy(nodes, i, k, p, child);
      }
    }
    forall p, q, child | ClaimedBy(nodes, i, k', p, child) && ClaimedBy(nodes, i, k', q, child)
      ensures p == q {
      assert child == extra || (ClaimedBy(nodes, i, k, p, child) && ClaimedBy(nodes, i, k, q, child));
      assert !ClaimedBy(nodes, i, k, p, extra) && !ClaimedBy(nodes, i, k, q, extra);
    }
  }

  lemma {:induction false} MarksNext(nodes: seq<Node>, i: nat, claimed: seq<bool>)
    requires i < |nodes| && Marks(nodes, i, |nodes[i].children|, claimed)
    ensures Marks(nodes, i + 1, 0, claimed)
  {
    var kids := nodes[i].children;
    assert kids[..|kids|] == kids;
    MarksCarry(nodes, i, |kids|, i + 1, 0, claimed);
  }

  lemma {:induction false} MarksDone(nodes: seq<Node>, claimed: seq<bool>)
    requires Marks(nodes, |nodes|, 0, claimed)
    ensures ParentsUnique(nodes)
    ensures forall child: nat :: child < |nodes| ==> (claimed[child] <==> HasParent(nodes, child))
  {
    forall p, child ensures Lists(nodes, p, child) <==> ClaimedBy(nodes, |nodes|, 0, p, child) {
    }
    forall child: nat | child < |nodes| ensures claimed[child] <==> HasParent(nodes, child) {
      if HasParent(nodes, child) {
        var p :| Lists(nodes, p, child);
        assert ClaimedBy(nodes, |nodes|, 0, p, child);
      }
      if claimed[child] {
        var p :| ClaimedBy(nodes, |nodes|, 0, p, child);
        assert Lists(nodes, p, child);
      }
    }
  }

  method CheckClaims(nodes: seq<Node>) returns (r: Result<(), Refusal>)
    requires nodes != []
    ensures r.Ok? <==> Claimed(nodes)
    ensures r == Err(BadChild) ==> !InOrder(nodes)
    ensures r == Err(TwoParents) ==> !ParentsUnique(nodes)
    ensures r == Err(Unreachable) ==> exists child :: 0 < child < |nodes| && !HasParent(nodes, child)
    ensures r.Err? ==> r.error in {BadChild, TwoParents, Unreachable}
  {
    hide Marks; hide ParentsUnique; hide HasParent;
    var claimed := new bool[|nodes|](_ => false);
    NothingMarked(nodes, claimed[..]);
    var i := 0;
    while i < |nodes|
      invariant 0 <= i <= |nodes|
      invariant Marks(nodes, i, 0, claimed[..])
      invariant forall j :: 0 <= j < i ==> OrderedChildren(nodes, j)
    {
      var seen: set<u32> := {};
      var kids := nodes[i].children;
      var k := 0;
      while k < |kids|
        invariant 0 <= k <= |kids| && seen == set c | c in kids[..k]
        invariant Marks(nodes, i, k, claimed[..])
        invariant forall j :: 0 <= j < k ==> i < kids[j] < |nodes|
        invariant forall j, l :: 0 <= j < l < k ==> kids[j] != kids[l]
      {
        var child := kids[k];
        if child <= i || child >= |nodes| || child in seen {
          assert !OrderedChildren(nodes, i);
          return Err(BadChild);
        }
        assert kids[..k + 1] == kids[..k] + [child];
        seen := seen + {child};
        if claimed[child] {
          TakenTwice(nodes, i, k, claimed[..]);
          return Err(TwoParents);
        }
        ghost var before := claimed[..];
        claimed[child] := true;
        MarksStep(nodes, i, k, before, claimed[..]);
        k := k + 1;
      }
      MarksNext(nodes, i, claimed[..]);
      i := i + 1;
    }
    MarksDone(nodes, claimed[..]);
    i := 1;
    while i < |nodes|
      invariant 1 <= i <= |nodes|
      invariant forall child :: 0 < child < i ==> HasParent(nodes, child)
    {
      if !claimed[i] {
        return Err(Unreachable);
      }
      i := i + 1;
    }
    return Ok(());
  }

  lemma {:induction false} TakenTwice(nodes: seq<Node>, i: nat, k: nat, claimed: seq<bool>)
    requires i < |nodes| && k < |nodes[i].children| && nodes[i].children[k] < |nodes|
    requires nodes[i].children[k] !in nodes[i].children[..k]
    requires Marks(nodes, i, k, claimed) && claimed[nodes[i].children[k]]
    ensures !ParentsUnique(nodes)
  {
    var child := nodes[i].children[k];
    var p :| ClaimedBy(nodes, i, k, p, child);
    assert Lists(nodes, p, child) && Lists(nodes, i, child);
  }

  /** Settled entries hold the true depth: node 0, and every child of a node already passed. */
  ghost predicate Depths(nodes: seq<Node>, i: nat, k: nat, depth: seq<nat>)
    requires Claimed(nodes)
  {
    |depth| == |nodes| &&
    (forall t: nat :: t < |nodes| && (t == 0 || IsClaimed(nodes, i, k, t)) ==>
       depth[t] + 1 == |Route(nodes, t)| <= MAX_SEMANTIC_DEPTH + 1)
  }

  lemma {:induction false} RouteStep(nodes: seq<Node>, parent: nat, child: nat)
    requires Claimed(nodes) && Lists(nodes, parent, child)
    ensures child < |nodes| && Route(nodes, child) == Route(nodes, parent) + [child]
  {
    assert OrderedChildren(nodes, parent);
    PathExtends(nodes, Route(nodes, parent), parent, child);
    RouteUnique(nodes, Route(nodes, parent) + [child], child);
  }

  lemma {:induction false} DepthsStep(nodes: seq<Node>, i: nat, k: nat, before: seq<nat>, after: seq<nat>)
    requires Claimed(nodes) && i < |nodes| && k < |nodes[i].children| && nodes[i].children[k] < |nodes|
    requires Depths(nodes, i, k, before) && after == before[nodes[i].children[k] := before[i] + 1]
    requires before[i] + 2 == |Route(nodes, nodes[i].children[k])| <= MAX_SEMANTIC_DEPTH + 1
    ensures Depths(nodes, i, k + 1, after)
  {
    hide Claimed; hide Route;
    var child := nodes[i].children[k];
    assert nodes[i].children[..k + 1] == nodes[i].children[..k] + [child];
    forall t: nat | t < |nodes| && (t == 0 || IsClaimed(nodes, i, k + 1, t))
      ensures after[t] + 1 == |Route(nodes, t)| <= MAX_SEMANTIC_DEPTH + 1 {
      if t != child && t != 0 {
        var p :| ClaimedBy(nodes, i, k + 1, p, t);
        assert ClaimedBy(nodes, i, k, p, t);
      }
    }
  }

  lemma {:induction false} DepthsNext(nodes: seq<Node>, i: nat, depth: seq<nat>)
    requires Claimed(nodes) && i < |nodes| && Depths(nodes, i, |nodes[i].children|, depth)
    ensures Depths(nodes, i + 1, 0, depth)
  {
    hide Claimed; hide Route;
    var kids := nodes[i].children;
    assert kids[..|kids|] == kids;
    forall t: nat | t < |nodes| && t != 0 && IsClaimed(nodes, i + 1, 0, t)
      ensures depth[t] + 1 == |Route(nodes, t)| <= MAX_SEMANTIC_DEPTH + 1 {
      var p :| ClaimedBy(nodes, i + 1, 0, p, t);
      assert ClaimedBy(nodes, i, |kids|, p, t);
    }
  }

  /** By the time node `i` is passed its own parent has been, so its depth is settled. */
  lemma {:induction false} Settled(nodes: seq<Node>, i: nat, k: nat, depth: seq<nat>)
    requires Claimed(nodes) && i < |nodes| && Depths(nodes, i, k, depth)
    ensures depth[i] + 1 == |Route(nodes, i)| <= MAX_SEMANTIC_DEPTH + 1
  {
    if i != 0 {
      assert HasParent(nodes, i);
      var p :| Lists(nodes, p, i);
      assert OrderedChildren(nodes, p);
      assert ClaimedBy(nodes, i, k, p, i);
    }
  }

  lemma {:induction false} DepthsDone(nodes: seq<Node>, depth: seq<nat>)
    requires Claimed(nodes) && Depths(nodes, |nodes|, 0, depth)
    ensures Shallow(nodes)
  {
    forall t: nat | t < |nodes| ensures |Route(nodes, t)| <= MAX_SEMANTIC_DEPTH + 1 {
      if t != 0 {
        assert HasParent(nodes, t);
        var p :| Lists(nodes, p, t);
        assert ClaimedBy(nodes, |nodes|, 0, p, t);
      }
    }
  }

  method CheckDepth(nodes: seq<Node>) returns (r: Result<(), Refusal>)
    requires Claimed(nodes) && nodes != []
    ensures r.Ok? <==> Shallow(nodes)
    ensures r.Err? ==> r.error == TooDeep
  {
    hide Route; hide Claimed;
    var depth := new nat[|nodes|](_ => 0);
    assert Depths(nodes, 0, 0, depth[..]) by { RootDepth(nodes, depth[..]); }
    var i := 0;
    while i < |nodes|
      invariant 0 <= i <= |nodes|
      invariant Depths(nodes, i, 0, depth[..])
    {
      var kids := nodes[i].children;
      var k := 0;
      while k < |kids|
        invariant 0 <= k <= |kids|
        invariant Depths(nodes, i, k, depth[..])
      {
        var child := kids[k];
        Settled(nodes, i, k, depth[..]);
        RouteStep(nodes, i, child);
        ghost var before := depth[..];
        depth[child] := depth[i] + 1;
        if depth[child] > MAX_SEMANTIC_DEPTH {
          return Err(TooDeep);
        }
        DepthsStep(nodes, i, k, before, depth[..]);
        k := k + 1;
      }
      DepthsNext(nodes, i, depth[..]);
      i := i + 1;
    }
    DepthsDone(nodes, depth[..]);
    return Ok(());
  }

  lemma {:induction false} RootDepth(nodes: seq<Node>, depth: seq<nat>)
    requires Claimed(nodes) && nodes != [] && |depth| == |nodes| && depth[0] == 0
    ensures Depths(nodes, 0, 0, depth)
  {
    assert Route(nodes, 0) == [0];
  }

  /** Accepts exactly the trees whose nodes pass their field checks. */
  method Validate(sceneRevision: u64, nodes: seq<Node>) returns (r: Result<(), Refusal>)
    ensures (r.Ok? <==> sceneRevision != 0 && 0 < |nodes| <= MAX_SEMANTIC_NODES && IsTree(nodes) &&
                        forall i :: 0 <= i < |nodes| ==> GoodFields(nodes, i))
    ensures r == Err(NoScene) <==> sceneRevision == 0
    ensures r == Err(BadSize) <==> sceneRevision != 0 && !(0 < |nodes| <= MAX_SEMANTIC_NODES)
    ensures r == Err(TooDeep) ==> Claimed(nodes) && !Shallow(nodes)
  {
    hide GoodFields; hide Claimed; hide IsTree;
    if sceneRevision == 0 {
      return Err(NoScene);
    }
    if nodes == [] || |nodes| > MAX_SEMANTIC_NODES {
      return Err(BadSize);
    }
    TreeIsClaimed(nodes);
    r := CheckFields(nodes);
    if r.Err? {
      return;
    }
    r := CheckClaims(nodes);
    if r.Err? {
      return;
    }
    r := CheckDepth(nodes);
  }
}
