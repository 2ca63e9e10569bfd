/** The scene object: a commit builds a candidate map in a loop and swaps it in at the end. */
module SceneStore {
  import opened Wrappers
  import opened Words
  import opened Scenes

  class Scene {
    var revision: u64
    const target: u64
    var nodes: map<NodeKey, Node>
    var transactions: map<TransactionKey, seq<Mutation>>

    /** The source refuses generation zero with an error instead of constructing. */
    constructor (targetGeneration: u64)
      requires targetGeneration != 0
      ensures St() == Empty(targetGeneration)
    {
      revision, target, nodes, transactions := 0, targetGeneration, map[], map[];
    }

    static method Open(targetGeneration: u64) returns (r: Result<Scene, InvalidMessage>)
      ensures r.Ok? <==> targetGeneration != 0
      ensures r.Ok? ==> fresh(r.value) && r.value.St() == Empty(targetGeneration)
    {
      if targetGeneration == 0 {
        return Err(InvalidMessage);
      }
      var scene := new Scene(targetGeneration);
      return Ok(scene);
    }

    ghost function St(): SceneState
      reads this
    {
      SceneState(revision, target, nodes, transactions)
    }

    method BeginTransaction(c: u64, t: u64) returns (r: Result<(), InvalidMessage>)
      modifies this`transactions
      ensures (St(), Said(r)) == Step(old(St()), Begin(c, t))
    {
      if c == 0 || t == 0 || (c, t) in transactions {
        return Err(InvalidMessage);
      }
      transactions := transactions[(c, t) := []];
      return Ok(());
    }

    method PushMutation(key: TransactionKey, m: Mutation) returns (r: Result<(), InvalidMessage>)
      modifies this`transactions
      ensures (St(), Said(r)) == Queue(old(St()), key, m)
    {
      if key !in transactions {
        return Err(InvalidMessage);
      }
      transactions := transactions[key := transactions[key] + [m]];
      return Ok(());
    }

    method CreateIn(c: u64, t: u64, node: Node) returns (r: Result<(), InvalidMessage>)
      modifies this`transactions
      ensures (St(), Said(r)) == Step(old(St()), Create(c, t, node))
    {
      if node.contextId != c {
        return Err(InvalidMessage);
      }
      r := PushMutation((c, t), CreateNode(node));
    }

    method UpdateIn(c: u64, t: u64, node: Node) returns (r: Result<(), InvalidMessage>)
      modifies this`transactions
      ensures (St(), Said(r)) == Step(old(St()), Update(c, t, node))
    {
      if node.contextId != c {
        return Err(InvalidMessage);
      }
      r := PushMutation((c, t), UpdateNode(node));
    }

    method DeleteIn(c: u64, t: u64, nodeId: u64) returns (r: Result<(), InvalidMessage>)
      modifies this`transactions
      ensures (St(), Said(r)) == Step(old(St()), Delete(c, t, nodeId))
    {
      if nodeId == 0 {
        return Err(InvalidMessage);
      }
      r := PushMutation((c, t), DeleteNode(c, nodeId));
    }

    method AbortTransaction(c: u64, t: u64) returns (live: bool)
      modifies this`transactions
      ensures (St(), Aborted(live)) == Step(old(St()), Abort(c, t))
    {
      live := (c, t) in transactions;
      transactions := transactions - {(c, t)};
    }

    method CommitIn(c: u64, t: u64, expectedTarget: u64, expected: Option<u64>) returns (r: Result<u64, InvalidMessage>)
      modifies this
      ensures (St(), if r.Ok? then Committed(r.value) else Failed) == Step(old(St()), Commit(c, t, expectedTarget, expected))
    {
      hide ApplyAll;
      if expectedTarget != target {
        return Err(InvalidMessage);
      }
      if expected.Some? && expected.value != revision {
        return Err(InvalidMessage);
      }
      if (c, t) !in transactions {
        return Err(InvalidMessage);
      }
      var candidate := BuildCandidate(transactions[(c, t)]);
      if candidate.None? || revision == U64_MAX {
        return Err(InvalidMessage);
      }
      nodes := candidate.value;
      revision := revision + 1;
      transactions := transactions - {(c, t)};
      return Ok(revision);
    }

    method BuildCandidate(ms: seq<Mutation>) returns (candidate: Option<map<NodeKey, Node>>)
      ensures candidate == ApplyAll(nodes, ms)
    {
      var built := nodes;
      var i := 0;
      while i < |ms|
        invariant 0 <= i <= |ms| && ApplyAll(nodes, ms[..i]) == Some(built)
      {
        assert ms[..i + 1][..i] == ms[..i];
        var m := ms[i];
        if if m.CreateNode? then KeyOf(m) in built else KeyOf(m) !in built {
          NeverRecovers(nodes, ms, i + 1);
          return None;
        }
        built := if m.DeleteNode? then built - {KeyOf(m)} else built[KeyOf(m) := m.node];
        i := i + 1;
      }
      assert ms[..i] == ms;
      return Some(built);
    }

    method RemoveSurfaceReferences(surfaceContextId: u64, surfaceId: u64) returns (r: Result<nat, InvalidMessage>)
      modifies this`nodes, this`revision
      ensures (St(), if r.Ok? then Removed(r.value) else Failed) == CleanSurface(old(St()), surfaceContextId, surfaceId)
    {
      KeptIsSmaller(nodes, surfaceContextId, surfaceId);
      var before := |nodes|;
      nodes := KeepOthers(nodes, surfaceContextId, surfaceId);
      var removed := before - |nodes|;
      if removed != 0 {
        if revision == U64_MAX {
          return Err(InvalidMessage);
        }
        revision := revision + 1;
      }
      return Ok(removed);
    }
  }

  function Said(r: Result<(), InvalidMessage>): Answer {
    if r.Ok? then Done else Failed
  }

  lemma {:induction false} NeverRecovers(nodes: map<NodeKey, Node>, ms: seq<Mutation>, n: nat)
    requires n <= |ms| && ApplyAll(nodes, ms[..n]).None?
    ensures ApplyAll(nodes, ms).None?
    decreases |ms|
  {
    if n == |ms| {
      assert ms[..n] == ms;
    } else {
      assert ms[..|ms| - 1][..n] == ms[..n];
      NeverRecovers(nodes, ms[..|ms| - 1], n);
    }
  }
}
