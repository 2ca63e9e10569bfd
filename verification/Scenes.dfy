/** Retained scenes: transactions gather mutations and take effect all at once or not at all. */
module Scenes {
  import opened Wrappers
  import opened Words

  type NodeKey = (u64, u64)
  type TransactionKey = (u64, u64)

  /** A node's placement and paint are carried, never looked into. */
  datatype Node = Node(contextId: u64, nodeId: u64, surfaceContextId: u64, surfaceId: u64, rest: seq<byte>)
  datatype Mutation = CreateNode(node: Node) | UpdateNode(node: Node) | DeleteNode(contextId: u64, nodeId: u64)
  datatype SceneState = SceneState(revision: u64, target: u64, nodes: map<NodeKey, Node>,
                                   transactions: map<TransactionKey, seq<Mutation>>)

  /** The source's one error type here; its message text is not modelled. */
  datatype InvalidMessage = InvalidMessage

  datatype Op =
    | Begin(c: u64, t: u64)
    | Create(c: u64, t: u64, node: Node)
    | Update(c: u64, t: u64, node: Node)
    | Delete(c: u64, t: u64, nodeId: u64)
    | Abort(c: u64, t: u64)
    | Commit(c: u64, t: u64, target: u64, expected: Option<u64>)
    | Cleanup(surfaceContextId: u64, surfaceId: u64)

  /** Revision committed, nodes cleaned up, or whether there was anything to abort. */
  datatype Answer = Done | Aborted(live: bool) | Committed(revision: u64) | Removed(count: nat) | Failed

  function Empty(target: u64): SceneState {
    SceneState(0, target, map[], map[])
  }

  // ---- Mutation lists ----------------------------------------------------------------------

  function KeyOf(m: Mutation): NodeKey {
    match m
    case CreateNode(node) => (node.contextId, node.nodeId)
    case UpdateNode(node) => (node.contextId, node.nodeId)
    case DeleteNode(contextId, nodeId) => (contextId, nodeId)
  }

  predicate Applicable(nodes: map<NodeKey, Node>, m: Mutation) {
    if m.CreateNode? then KeyOf(m) !in nodes else KeyOf(m) in nodes
  }

  function ApplyOne(nodes: map<NodeKey, Node>, m: Mutation): map<NodeKey, Node> {
    if m.DeleteNode? then nodes - {KeyOf(m)} else nodes[KeyOf(m) := m.node]
  }

  /** The whole list applied in order, or nothing when some mutation does not apply. */
  function ApplyAll(nodes: map<NodeKey, Node>, ms: seq<Mutation>): Option<map<NodeKey, Node>> {
    if ms == [] then Some(nodes)
    else
      match ApplyAll(nodes, ms[..|ms| - 1])
      case None => None
      case Some(before) =>
        if Applicable(before, ms[|ms| - 1]) then Some(ApplyOne(before, ms[|ms| - 1])) else None
  }

  /** The last mutation of a key decides it; keys no mutation names stay as they were. */
  ghost predicate Decides(nodes: map<NodeKey, Node>, ms: seq<Mutation>, r: map<NodeKey, Node>, key: NodeKey) {
    if ms == [] then (key in r <==> key in nodes) && (key in r ==> r[key] == nodes[key])
    else
      var m := ms[|ms| - 1];
      if KeyOf(m) != key then Decides(nodes, ms[..|ms| - 1], r, key)
      else if m.DeleteNode? then key !in r
      else key in r && r[key] == m.node
  }

  lemma {:induction false} DecidesOnlyLooksAtKey(nodes: map<NodeKey, Node>, ms: seq<Mutation>, r: map<NodeKey, Node>,
                                                 q: map<NodeKey, Node>, key: NodeKey)
    requires (key in r <==> key in q) && (key in r ==> r[key] == q[key])
    ensures Decides(nodes, ms, r, key) <==> Decides(nodes, ms, q, key)
  {
    if ms != [] {
      DecidesOnlyLooksAtKey(nodes, ms[..|ms| - 1], r, q, key);
    }
  }

  lemma {:induction false} LastMutationWins(nodes: map<NodeKey, Node>, ms: seq<Mutation>, key: NodeKey)
    requires ApplyAll(nodes, ms).Some?
    ensures Decides(nodes, ms, ApplyAll(nodes, ms).value, key)
    decreases |ms|
  {
    if ms != [] {
      var front, m := ms[..|ms| - 1], ms[|ms| - 1];
      LastMutationWins(nodes, front, key);
      if KeyOf(m) != key {
        DecidesOnlyLooksAtKey(nodes, front, ApplyAll(nodes, front).value, ApplyAll(nodes, ms).value, key);
      }
    }
  }

  // ---- Calls -------------------------------------------------------------------------------

  function Queue(s: SceneState, key: TransactionKey, m: Mutation): (SceneState, Answer) {
    if key !in s.transactions then (s, Failed)
    else (s.(transactions := s.transactions[key := s.transactions[key] + [m]]), Done)
  }

  function CommitTransaction(s: SceneState, key: TransactionKey, target: u64, expected: Option<u64>): (SceneState, Answer) {
    if target != s.target || (expected.Some? && expected.value != s.revision) || key !in s.transactions then (s, Failed)
    else
      match ApplyAll(s.nodes, s.transactions[key])
      case None => (s, Failed)
      case Some(candidate) =>
        if s.revision == U64_MAX then (s, Failed)
        else (s.(nodes := candidate, revision := s.revision + 1, transactions := s.transactions - {key}),
              Committed(s.revision + 1))
  }

  function KeepOthers(nodes: map<NodeKey, Node>, surfaceContextId: u64, surfaceId: u64): map<NodeKey, Node> {
    map k | k in nodes && !(nodes[k].surfaceContextId == surfaceContextId && nodes[k].surfaceId == surfaceId) :: nodes[k]
  }

  /** Nodes go first, so an exhausted revision refuses a cleanup that already happened. */
  function CleanSurface(s: SceneState, surfaceContextId: u64, surfaceId: u64): (SceneState, Answer) {
    var kept := KeepOthers(s.nodes, surfaceContextId, surfaceId);
    if |kept| == |s.nodes| then (s, Removed(0))
    else if s.revision == U64_MAX then (s.(nodes := kept), Failed)
    else (s.(nodes := kept, revision := s.revision + 1), Removed(if |kept| <= |s.nodes| then |s.nodes| - |kept| else 0))
  }

  function Step(s: SceneState, op: Op): (SceneState, Answer) {
    match op
    case Begin(c, t) =>
      if c == 0 || t == 0 || (c, t) in s.transactions then (s, Failed)
      else (s.(transactions := s.transactions[(c, t) := []]), Done)
    case Create(c, t, node) => if node.contextId != c then (s, Failed) else Queue(s, (c, t), CreateNode(node))
    case Update(c, t, node) => if node.contextId != c then (s, Failed) else Queue(s, (c, t), UpdateNode(node))
    case Delete(c, t, nodeId) => if nodeId == 0 then (s, Failed) else Queue(s, (c, t), DeleteNode(c, nodeId))
    case Abort(c, t) => (s.(transactions := s.transactions - {(c, t)}), Aborted((c, t) in s.transactions))
    case Commit(c, t, target, expected) => CommitTransaction(s, (c, t), target, expected)
    case Cleanup(surfaceContextId, surfaceId) => CleanSurface(s, surfaceContextId, surfaceId)
  }

  function After(target: u64, ops: seq<Op>): SceneState {
    if ops == [] then Empty(target) else Step(After(target, ops[..|ops| - 1]), ops[|ops| - 1]).0
  }

  function AnswerAt(target: u64, ops: seq<Op>, i: nat): Answer
    requires i < |ops|
  {
    Step(After(target, ops[..i]), ops[i]).1
  }

  // ---- Single calls ------------------------------------------------------------------------

  lemma {:induction false} KeptIsSmaller(nodes: map<NodeKey, Node>, surfaceContextId: u64, surfaceId: u64)
    ensures var kept := KeepOthers(nodes, surfaceContextId, surfaceId);
            |kept| <= |nodes| && (|kept| == |nodes| <==> kept == nodes)
  {
    var kept := KeepOthers(nodes, surfaceContextId, surfaceId);
    assert nodes.Keys == kept.Keys + (nodes.Keys - kept.Keys);
    assert |kept| == |kept.Keys| && |nodes| == |nodes.Keys|;
    if |kept| == |nodes| {
      assert |nodes.Keys - kept.Keys| == 0;
      assert kept.Keys == nodes.Keys;
    }
  }

  /** A failed call leaves a trace exactly when it is a cleanup of something at the last revision. */
  lemma {:induction false} FailureTracesExactly(s: SceneState, op: Op)
    ensures (Step(s, op).1.Failed? && Step(s, op).0 != s
             <==> op.Cleanup? && s.revision == U64_MAX && KeepOthers(s.nodes, op.surfaceContextId, op.surfaceId) != s.nodes)
  {
    if op.Cleanup? {
      KeptIsSmaller(s.nodes, op.surfaceContextId, op.surfaceId);
    }
  }

  /** At the last revision a cleanup reports failure and has removed the nodes all the same. */
  lemma {:induction false} ExhaustedCleanupStillRemoves(s: SceneState, surfaceContextId: u64, surfaceId: u64)
    requires s.revision == U64_MAX
    ensures var (r, answer) := CleanSurface(s, surfaceContextId, surfaceId);
            r.nodes == KeepOthers(s.nodes, surfaceContextId, surfaceId) &&
            (answer.Failed? <==> r.nodes != s.nodes)
  {
    KeptIsSmaller(s.nodes, surfaceContextId, surfaceId);
  }

  // ---- Invariant ---------------------------------------------------------------------------

  ghost predicate Filed(nodes: map<NodeKey, Node>) {
    forall k :: k in nodes ==> nodes[k].contextId == k.0 && nodes[k].nodeId == k.1
  }

  /** A transaction only holds mutations of its own context. */
  ghost predicate Owned(key: TransactionKey, ms: seq<Mutation>) {
    forall i :: 0 <= i < |ms| ==> KeyOf(ms[i]).0 == key.0
  }

  ghost predicate Inv(s: SceneState) {
    Filed(s.nodes) && (forall key :: key in s.transactions ==> Owned(key, s.transactions[key]))
  }

  lemma {:induction false} AppliedFiled(nodes: map<NodeKey, Node>, ms: seq<Mutation>)
    requires Filed(nodes) && ApplyAll(nodes, ms).Some?
    ensures Filed(ApplyAll(nodes, ms).value)
    decreases |ms|
  {
    if ms != [] {
      AppliedFiled(nodes, ms[..|ms| - 1]);
    }
  }

  lemma {:induction false} StepSafe(s: SceneState, op: Op)
    requires Inv(s)
    ensures Inv(Step(s, op).0)
  {
    if op.Commit? && (op.c, op.t) in s.transactions && ApplyAll(s.nodes, s.transactions[(op.c, op.t)]).Some? {
      AppliedFiled(s.nodes, s.transactions[(op.c, op.t)]);
    }
  }

  lemma {:induction false} RunSafe(target: u64, ops: seq<Op>)
    ensures Inv(After(target, ops))
    decreases |ops|
  {
    hide Step; hide Inv;
    if ops == [] {
      EmptySafe(target);
    } else {
      RunSafe(target, ops[..|ops| - 1]);
      StepSafe(After(target, ops[..|ops| - 1]), ops[|ops| - 1]);
    }
  }

  lemma {:induction false} EmptySafe(target: u64)
    ensures Inv(Empty(target))
  {
  }

  // ---- Context isolation -------------------------------------------------------------------

  lemma {:induction false} OwnedLeavesOthers(nodes: map<NodeKey, Node>, key: TransactionKey, ms: seq<Mutation>, other: NodeKey)
    requires Owned(key, ms) && ApplyAll(nodes, ms).Some? && other.0 != key.0
    ensures var r := ApplyAll(nodes, ms).value;
            (other in r <==> other in nodes) && (other in r ==> r[other] == nodes[other])
    decreases |ms|
  {
    if ms != [] {
      OwnedLeavesOthers(nodes, key, ms[..|ms| - 1], other);
    }
  }

  /** No operation of one context touches another context's nodes. */
  lemma {:induction false} ContextsIsolated(target: u64, ops: seq<Op>, op: Op, other: NodeKey)
    requires !op.Cleanup? && other.0 != op.c
    ensures var s := After(target, ops);
            var r := Step(s, op).0;
            (other in r.nodes <==> other in s.nodes) && (other in r.nodes ==> r.nodes[other] == s.nodes[other])
  {
    hide After;
    RunSafe(target, ops);
    var s := After(target, ops);
    if op.Commit? && (op.c, op.t) in s.transactions && ApplyAll(s.nodes, s.transactions[(op.c, op.t)]).Some? {
      OwnedLeavesOthers(s.nodes, (op.c, op.t), s.transactions[(op.c, op.t)], other);
    }
  }

  // ---- Replay ------------------------------------------------------------------------------

  function MutationOf(op: Op): Option<Mutation> {
    match op
    case Create(_, _, node) => Some(CreateNode(node))
    case Update(_, _, node) => Some(UpdateNode(node))
    case Delete(c, _, nodeId) => Some(DeleteNode(c, nodeId))
    case _ => None
  }

  predicate Names(op: Op, key: TransactionKey) {
    !op.Cleanup? && (op.c, op.t) == key
  }

  function GatherNext(before: Option<seq<Mutation>>, op: Op, answer: Answer, key: TransactionKey): Option<seq<Mutation>> {
    if !Names(op, key) || answer.Failed? then before
    else if op.Begin? then Some([])
    else if op.Abort? || op.Commit? then None
    else if before.Some? && MutationOf(op).Some? then Some(before.value + [MutationOf(op).value])
    else None
  }

  /** What a transaction has gathered, read off the operations that name it since it last began. */
  function Gathered(target: u64, ops: seq<Op>, key: TransactionKey): Option<seq<Mutation>> {
    if ops == [] then None
    else
      var n := |ops| - 1;
      GatherNext(Gathered(target, ops[..n], key), ops[n], AnswerAt(target, ops, n), key)
  }

  /** The committed lists applied in commit order, with the surface cleanups in between. */
  function Replay(target: u64, ops: seq<Op>): Option<map<NodeKey, Node>> {
    if ops == [] then Some(map[])
    else
      var n := |ops| - 1;
      var op := ops[n];
      match Replay(target, ops[..n])
      case None => None
      case Some(nodes) =>
        if op.Cleanup? then Some(KeepOthers(nodes, op.surfaceContextId, op.surfaceId))
        else if op.Commit? && !AnswerAt(target, ops, n).Failed? then
          var gathered := Gathered(target, ops[..n], (op.c, op.t));
          if gathered.None? then None else ApplyAll(nodes, gathered.value)
        else Some(nodes)
  }

  ghost predicate OpenAs(s: SceneState, key: TransactionKey, gathered: Option<seq<Mutation>>) {
    if gathered.None? then key !in s.transactions
    else key in s.transactions && s.transactions[key] == gathered.value
  }

  lemma {:induction false} OpenStep(s: SceneState, op: Op, key: TransactionKey, before: Option<seq<Mutation>>)
    requires OpenAs(s, key, before)
    ensures OpenAs(Step(s, op).0, key, GatherNext(before, op, Step(s, op).1, key))
  {
    hide ApplyAll; hide KeepOthers;
  }

  /** A transaction holds exactly what was gathered for it, whatever ran in between. */
  lemma {:induction false} OpenTransactions(target: u64, ops: seq<Op>, key: TransactionKey)
    ensures OpenAs(After(target, ops), key, Gathered(target, ops, key))
    decreases |ops|
  {
    hide Step; hide OpenAs; hide GatherNext;
    if ops == [] {
      NothingOpen(target, key);
    } else {
      var n := |ops| - 1;
      OpenTransactions(target, ops[..n], key);
      OpenStep(After(target, ops[..n]), ops[n], key, Gathered(target, ops[..n], key));
    }
  }

  lemma {:induction false} NothingOpen(target: u64, key: TransactionKey)
    ensures OpenAs(Empty(target), key, None)
  {
  }

  /** The nodes are the committed effects replayed: open, aborted and failed transactions add nothing. */
  lemma {:induction false} NodesAreReplay(target: u64, ops: seq<Op>)
    ensures Replay(target, ops) == Some(After(target, ops).nodes)
    decreases |ops|
  {
    hide ApplyAll; hide KeepOthers; hide Gathered;
    if ops != [] {
      var n := |ops| - 1;
      NodesAreReplay(target, ops[..n]);
      var op := ops[n];
      if op.Cleanup? {
        KeptIsSmaller(After(target, ops[..n]).nodes, op.surfaceContextId, op.surfaceId);
      }
      if op.Commit? {
        OpenTransactions(target, ops[..n], (op.c, op.t));
      }
    }
  }

  // ---- Uncommitted work is invisible -------------------------------------------------------

  function Without(ops: seq<Op>, key: TransactionKey): seq<Op> {
    if ops == [] then []
    else
      var front, last := Without(ops[..|ops| - 1], key), ops[|ops| - 1];
      if Names(last, key) then front else front + [last]
  }

  ghost predicate NeverCommits(target: u64, ops: seq<Op>, key: TransactionKey) {
    forall i :: 0 <= i < |ops| && ops[i].Commit? && Names(ops[i], key) ==> AnswerAt(target, ops, i).Failed?
  }

  ghost predicate SameButFor(s: SceneState, r: SceneState, key: TransactionKey) {
    s.nodes == r.nodes && s.revision == r.revision && s.target == r.target &&
    s.transactions - {key} == r.transactions - {key}
  }

  lemma {:induction false} SameStep(s: SceneState, r: SceneState, key: TransactionKey, op: Op)
    requires SameButFor(s, r, key) && !Names(op, key)
    ensures SameButFor(Step(s, op).0, Step(r, op).0, key) && Step(s, op).1 == Step(r, op).1
  {
    hide ApplyAll; hide KeepOthers;
    if !op.Cleanup? {
      var other := (op.c, op.t);
      SameEntry(s.transactions, r.transactions, key, other);
      SameRemoval(s.transactions, r.transactions, key, other);
      SamePut(s.transactions, r.transactions, key, other, []);
      if other in s.transactions && MutationOf(op).Some? {
        SamePut(s.transactions, r.transactions, key, other, s.transactions[other] + [MutationOf(op).value]);
      }
    }
  }

  lemma {:induction false} SameEntry(s: map<TransactionKey, seq<Mutation>>, r: map<TransactionKey, seq<Mutation>>,
                                     key: TransactionKey, other: TransactionKey)
    requires s - {key} == r - {key} && other != key
    ensures (other in s <==> other in r) && (other in s ==> s[other] == r[other])
  {
    assert other in s <==> other in s - {key};
    assert other in r <==> other in r - {key};
    assert other in s ==> s[other] == (s - {key})[other] == (r - {key})[other] == r[other];
  }

  lemma {:induction false} SameRemoval(s: map<TransactionKey, seq<Mutation>>, r: map<TransactionKey, seq<Mutation>>,
                                       key: TransactionKey, other: TransactionKey)
    requires s - {key} == r - {key}
    ensures s - {other} - {key} == r - {other} - {key}
  {
    assert s - {other} - {key} == s - {key} - {other};
    assert r - {other} - {key} == r - {key} - {other};
  }

  lemma {:induction false} SamePut(s: map<TransactionKey, seq<Mutation>>, r: map<TransactionKey, seq<Mutation>>,
                                   key: TransactionKey, other: TransactionKey, ms: seq<Mutation>)
    requires s - {key} == r - {key} && other != key
    ensures s[other := ms] - {key} == r[other := ms] - {key}
  {
    assert s[other := ms] - {key} == (s - {key})[other := ms];
    assert r[other := ms] - {key} == (r - {key})[other := ms];
  }

  lemma {:induction false} UncommittedStep(s: SceneState, key: TransactionKey, op: Op)
    requires Names(op, key) && (op.Commit? ==> Step(s, op).1.Failed?)
    ensures SameButFor(s, Step(s, op).0, key)
  {
    hide ApplyAll;
  }

  /** Leaving out a transaction that never commits changes no node, no revision and no other transaction. */
  lemma {:induction false} UncommittedIsInvisible(target: u64, ops: seq<Op>, key: TransactionKey)
    requires NeverCommits(target, ops, key)
    ensures SameButFor(After(target, ops), After(target, Without(ops, key)), key)
    decreases |ops|
  {
    hide Step;
    if ops != [] {
      var n := |ops| - 1;
      var front := ops[..n];
      forall i | 0 <= i < n ensures AnswerAt(target, front, i) == AnswerAt(target, ops, i) {
        assert front[..i] == ops[..i];
      }
      UncommittedIsInvisible(target, front, key);
      if Names(ops[n], key) {
        assert !ops[n].Commit? || AnswerAt(target, ops, n).Failed?;
        UncommittedStep(After(target, front), key, ops[n]);
      } else {
        SameStep(After(target, front), After(target, Without(front, key)), key, ops[n]);
        var kept := Without(front, key) + [ops[n]];
        assert kept[..|kept| - 1] == Without(front, key);
      }
    }
  }

  // ---- Revisions ---------------------------------------------------------------------------

  /** Changes so far: commits that went through, and cleanups that removed something. */
  function Changes(target: u64, ops: seq<Op>): nat {
    if ops == [] then 0
    else
      var n := |ops| - 1;
      var answer := AnswerAt(target, ops, n);
      Changes(target, ops[..n]) + if answer.Committed? || (answer.Removed? && answer.count != 0) then 1 else 0
  }

  /** The revision is the number of changes. */
  lemma {:induction false} RevisionCountsChanges(target: u64, ops: seq<Op>)
    ensures After(target, ops).revision == Changes(target, ops)
    decreases |ops|
  {
    hide ApplyAll; hide KeepOthers;
    if ops != [] {
      var n := |ops| - 1;
      RevisionCountsChanges(target, ops[..n]);
      if ops[n].Cleanup? {
        KeptIsSmaller(After(target, ops[..n]).nodes, ops[n].surfaceContextId, ops[n].surfaceId);
      }
    }
  }
}
