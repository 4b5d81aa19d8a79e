/** The copy of the de-duplication kept in server/scripts/cleanupGraph.js.
    Its per-tree body is the same sort, minute-keyed map and "save only when
    shorter" rule as the root-level script, so it runs
    `GraphCleanup.CleanupTree`; only its own pass over the collection is
    modelled here. */
module ScriptsGraphCleanup {
  import opened Models
  import GraphCleanup

  /** `cleanupHistory` of the scripts copy, with its `totalRemoved` counter. */
  method CleanupHistory(trees: seq<Tree>) returns (totalRemoved: nat)
    requires forall i, j :: 0 <= i < j < |trees| ==> trees[i] != trees[j]
    modifies trees
    ensures forall t :: t in trees ==> t.State() == GraphCleanup.CleanedState(old(t.State()))
    ensures totalRemoved == 0 <==> forall t :: t in trees ==> |t.history| == |old(t.history)|
  {
    totalRemoved := 0;
    var i := 0;
    while i < |trees|
      invariant 0 <= i <= |trees|
      invariant forall j :: 0 <= j < i ==> trees[j].State() == GraphCleanup.CleanedState(old(trees[j].State()))
      invariant forall j :: i <= j < |trees| ==> trees[j].State() == old(trees[j].State())
      invariant totalRemoved == 0 <==> forall j :: 0 <= j < i ==> |trees[j].history| == |old(trees[j].history)|
    {
      label before:
      var removed := GraphCleanup.CleanupTree(trees[i]);
      forall j | 0 <= j < |trees| && j != i
        ensures trees[j].State() == old@before(trees[j].State())
      {
        assert trees[j] != trees[i];
      }
      totalRemoved := totalRemoved + removed;
      i := i + 1;
    }
  }
}
