/** Draining the node of pods that use Portworx volumes, and what is left of the cordon. */
module Drain {
  import opened Common

  datatype Pod = Pod(name: string, managed: bool)

  /** How the cluster answers: the pods it lists (None: it does not), and which of the
      calls behind a drain succeed; `undoOk` is the rollback of the cordon. */
  datatype Cluster = Cluster(pods: Option<seq<Pod>>, cordonOk: bool, deleteOk: bool, undoOk: bool, goneOk: bool)

  /** `drained`: the pods handed to the drain; `cordoned`: the node afterwards. */
  datatype DrainResult = DrainResult(ok: bool, cordoned: bool, drained: seq<Pod>)

  function Managed(pods: seq<Pod>): (r: seq<Pod>)
    ensures |r| <= |pods|
    ensures |r| == |pods| ==> r == pods
  {
    if pods == [] then []
    else if pods[0].managed then [pods[0]] + Managed(pods[1..])
    else Managed(pods[1..])
  }

  /** `DrainPodsFromNode`: cordon; delete the pods, with the cordon undone on failure;
      wait for them to go, with the cordon left in place on failure. */
  function DrainPods(cordoned: bool, c: Cluster): (bool, bool) {
    if !c.cordonOk then (false, cordoned)
    else if !c.deleteOk then (false, !c.undoOk)
    else (c.goneOk, true)
  }

  function DrainNode(cordoned: bool, drainAll: bool, c: Cluster): DrainResult {
    if c.pods.None? then DrainResult(false, cordoned, [])
    else
      var pods := if drainAll then c.pods.value else Managed(c.pods.value);
      if pods == [] then DrainResult(true, cordoned, [])
      else
        var (ok, after) := DrainPods(cordoned, c);
        DrainResult(ok, after, pods)
  }

  /** The filter loop, with the list replaced only when something was filtered out. */
  method DrainPxVolumeConsumerPods(cordoned: bool, drainAllPxDepPods: bool, c: Cluster) returns (r: DrainResult)
    ensures r == DrainNode(cordoned, drainAllPxDepPods, c)
  {
    if c.pods.None? {
      return DrainResult(false, cordoned, []);
    }
    var pods := c.pods.value;
    if !drainAllPxDepPods && |pods| > 0 {
      var newPods: seq<Pod> := [];
      for i := 0 to |pods|
        invariant newPods + Managed(pods[i..]) == Managed(pods)
      {
        assert pods[i..][1..] == pods[i + 1..];
        if pods[i].managed {
          assert newPods + ([pods[i]] + Managed(pods[i + 1..])) == (newPods + [pods[i]]) + Managed(pods[i + 1..]);
          newPods := newPods + [pods[i]];
        }
      }
      assert pods[|pods|..] == [] && newPods + [] == newPods;
      if |pods| != |newPods| {
        pods := newPods;
      }
    }
    if |pods| <= 0 {
      return DrainResult(true, cordoned, []);
    }
    var (ok, after) := DrainPods(cordoned, c);
    return DrainResult(ok, after, pods);
  }

  /** Only managed pods are drained, unless all are asked for; and then exactly those, in order. */
  lemma {:induction false} ManagedMeaning(pods: seq<Pod>, p: Pod)
    ensures multiset(Managed(pods))[p] == if p.managed then multiset(pods)[p] else 0
  {
    if pods != [] {
      ManagedMeaning(pods[1..], p);
      assert pods == [pods[0]] + pods[1..];
    }
  }

  /** ... in order. */
  lemma {:induction false} ManagedInOrder(pods: seq<Pod>)
    ensures Sublist(Managed(pods), pods)
  {
    if pods != [] {
      ManagedInOrder(pods[1..]);
      if pods[0].managed { assert Managed(pods)[1..] == Managed(pods[1..]); }
    }
  }

  lemma {:induction false} SublistSelf(pods: seq<Pod>)
    ensures Sublist(pods, pods)
  {
    if pods != [] { SublistSelf(pods[1..]); }
  }

  /** Who is drained: of the listed pods the managed ones, or all if all are asked for, in
      their order; so no unmanaged pod is evicted without being asked for. */
  lemma DrainedAre(cordoned: bool, drainAll: bool, c: Cluster, p: Pod)
    ensures var d := DrainNode(cordoned, drainAll, c).drained;
            && multiset(d)[p] == (if c.pods.Some? && (drainAll || p.managed) then multiset(c.pods.value)[p] else 0)
            && (c.pods.Some? ==> Sublist(d, c.pods.value))
  {
    if c.pods.Some? {
      ManagedMeaning(c.pods.value, p);
      ManagedInOrder(c.pods.value);
      SublistSelf(c.pods.value);
    }
  }

  /** There is a pod to be drained. */
  predicate AnyToDrain(drainAll: bool, pods: seq<Pod>) {
    exists p :: p in pods && (drainAll || p.managed)
  }

  lemma {:induction false} ManagedNonempty(pods: seq<Pod>)
    ensures Managed(pods) != [] <==> AnyToDrain(false, pods)
  {
    if pods != [] {
      ManagedNonempty(pods[1..]);
      assert pods == [pods[0]] + pods[1..];
    }
  }

  /** When a drain succeeds, and when the node is cordoned after it, whether it was before or
      not: a failed drain leaves a cordon of its own exactly if the pods were deleted but
      did not go away in time, or the deletion failed and so did undoing the cordon. */
  lemma FailedDrainLeavesCordon(cordoned: bool, drainAll: bool, c: Cluster)
    ensures var d := DrainNode(cordoned, drainAll, c);
            var acts := c.pods.Some? && AnyToDrain(drainAll, c.pods.value);
            && (d.ok <==> c.pods.Some? && (acts ==> c.cordonOk && c.deleteOk && c.goneOk))
            && (d.cordoned <==> if acts && c.cordonOk then c.deleteOk || !c.undoOk else cordoned)
  {
    if c.pods.Some? {
      ManagedNonempty(c.pods.value);
      if c.pods.value != [] { assert c.pods.value[0] in c.pods.value; }
    }
  }
}
