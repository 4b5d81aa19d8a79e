/** The copy of the gap interpolation kept in server/scripts/repairDatabase.js.
    Its per-tree body computes the same points as the root-level script (the
    same threshold, count, dates and rounded values, written inline), so it
    runs `HistoryRepair.RepairTree`; only its own pass over the collection is
    modelled here. */
module ScriptsHistoryRepair {
  import opened Models
  import HistoryRepair

  /** `repairHistory` of the scripts copy: every tree in turn. */
  method RepairHistory(trees: seq<Tree>)
    requires forall i, j :: 0 <= i < j < |trees| ==> trees[i] != trees[j]
    modifies trees
    ensures forall t :: t in trees ==> t.State() == HistoryRepair.RepairedState(old(t.State()))
  {
    var i := 0;
    while i < |trees|
      invariant 0 <= i <= |trees|
      invariant forall j :: 0 <= j < i ==> trees[j].State() == HistoryRepair.RepairedState(old(trees[j].State()))
      invariant forall j :: i <= j < |trees| ==> trees[j].State() == old(trees[j].State())
    {
      label before:
      var _ := HistoryRepair.RepairTree(trees[i]);
      forall j | 0 <= j < |trees| && j != i
        ensures trees[j].State() == old@before(trees[j].State())
      {
        assert trees[j] != trees[i];
      }
      i := i + 1;
    }
  }
}
