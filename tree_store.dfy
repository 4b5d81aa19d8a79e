/** The client-side tree store of client/src/stores/tree.js: the list of trees
    the map shows, the socket update that replaces one of them, the merge of
    the analytics payload, and the `myTrees` view. */
module TreeStore {
  import opened Wrappers
  import opened Models

  /** A tree as the client holds it. `history` is `None` when the payload
      carries no history field. */
  datatype ClientTree = ClientTree(id: Id, name: string, status: Status, waterLevel: real, history: Option<seq<Sample>>)

  /** The logged-in user of the auth store, as far as `myTrees` reads it. */
  datatype AuthUser = AuthUser(adoptedTrees: Option<seq<Id>>)

  ghost predicate DistinctIds(s: seq<ClientTree>) {
    forall i, j :: 0 <= i < j < |s| ==> s[i].id != s[j].id
  }

  /** `trees.findIndex(t => t._id === id)`. */
  function FindIndex(s: seq<ClientTree>, id: Id): (r: int)
    ensures -1 <= r < |s|
    ensures r == -1 <==> forall i :: 0 <= i < |s| ==> s[i].id != id
    ensures r >= 0 ==> s[r].id == id && forall i :: 0 <= i < r ==> s[i].id != id
  {
    if s == [] then -1
    else if s[0].id == id then 0
    else
      var r := FindIndex(s[1..], id);
      if r == -1 then -1 else r + 1
  }

  /** The list after `updateTree(u)`. */
  function Updated(s: seq<ClientTree>, u: ClientTree): seq<ClientTree> {
    var idx := FindIndex(s, u.id);
    if idx == -1 then s
    else s[idx := u.(history := if u.history.Some? then u.history else s[idx].history)]
  }

  /** An unknown id leaves the list as it is; otherwise only the first entry
      with that id is replaced, by the incoming tree with the old history
      kept when the incoming one has none. */
  lemma UpdatedSpec(s: seq<ClientTree>, u: ClientTree)
    ensures |Updated(s, u)| == |s|
    ensures (forall i :: 0 <= i < |s| ==> s[i].id != u.id) ==> Updated(s, u) == s
    ensures forall i :: 0 <= i < |s| && i != FindIndex(s, u.id) ==> Updated(s, u)[i] == s[i]
    ensures var idx := FindIndex(s, u.id);
      idx >= 0 ==>
        && Updated(s, u)[idx].(history := u.history) == u
        && Updated(s, u)[idx].history == (if u.history.Some? then u.history else s[idx].history)
  {
  }

  /** One step of the `fetchFullAnalytics` merge. */
  function MergeOne(s: seq<ClientTree>, rich: ClientTree): seq<ClientTree> {
    var idx := FindIndex(s, rich.id);
    if idx != -1 then s[idx := s[idx].(history := rich.history)] else s + [rich]
  }

  /** The list after the whole `forEach` of the merge. */
  function MergeAll(s: seq<ClientTree>, rich: seq<ClientTree>): seq<ClientTree> {
    if rich == [] then s else MergeOne(MergeAll(s, rich[..|rich| - 1]), rich[|rich| - 1])
  }

  /** The analytics entry for `id`, if any. */
  function RichFor(rich: seq<ClientTree>, id: Id): Option<ClientTree> {
    if rich == [] then None
    else if rich[|rich| - 1].id == id then Some(rich[|rich| - 1])
    else RichFor(rich[..|rich| - 1], id)
  }

  /** The analytics entries whose id is not in the store, in their order. */
  function Unmatched(s: seq<ClientTree>, rich: seq<ClientTree>): seq<ClientTree> {
    if rich == [] then []
    else
      var r := rich[|rich| - 1];
      Unmatched(s, rich[..|rich| - 1]) + (if FindIndex(s, r.id) == -1 then [r] else [])
  }

  lemma {:induction false} UnmatchedIds(s: seq<ClientTree>, rich: seq<ClientTree>, id: Id)
    requires exists j :: 0 <= j < |Unmatched(s, rich)| && Unmatched(s, rich)[j].id == id
    ensures RichFor(rich, id).Some?
  {
    if rich != [] {
      var p := rich[..|rich| - 1];
      if rich[|rich| - 1].id != id {
        var j :| 0 <= j < |Unmatched(s, rich)| && Unmatched(s, rich)[j].id == id;
        assert Unmatched(s, p)[j].id == id;
        UnmatchedIds(s, p, id);
      }
    }
  }

  /** A store entry after the merge: its history is that of the analytics
      entry with its id, when there is one. */
  function MergedEntry(t: ClientTree, rich: seq<ClientTree>): ClientTree {
    match RichFor(rich, t.id)
    case None => t
    case Some(r) => t.(history := r.history)
  }

  /** With distinct ids on both sides, the merge keeps every store entry in
      place and replaces only its history, by that of the analytics entry
      with its id when there is one, and appends the unmatched analytics
      entries at the end, in order. */
  lemma {:induction false} MergeAllSpec(s: seq<ClientTree>, rich: seq<ClientTree>)
    requires DistinctIds(s) && DistinctIds(rich)
    ensures |MergeAll(s, rich)| == |s| + |Unmatched(s, rich)|
    ensures forall i :: 0 <= i < |s| ==> MergeAll(s, rich)[i] == MergedEntry(s[i], rich)
    ensures MergeAll(s, rich)[|s|..] == Unmatched(s, rich)
  {
    if rich != [] {
      var p := rich[..|rich| - 1];
      var r := rich[|rich| - 1];
      assert rich == p + [r];
      assert DistinctIds(p) by {
        forall i, j | 0 <= i < j < |p|
          ensures p[i].id != p[j].id
        {
          assert rich[i] == p[i] && rich[j] == p[j];
        }
      }
      MergeAllSpec(s, p);
      var m := MergeAll(s, p);
      var sIdx := FindIndex(s, r.id);
      if sIdx != -1 {
        MergeMatched(s, p, r, m, sIdx);
      } else {
        NotInRich(p, r);
        MergeUnmatched(s, p, r, m);
      }
    }
  }

  lemma FindIndexAt(s: seq<ClientTree>, id: Id, k: nat)
    requires k < |s| && s[k].id == id
    requires forall i :: 0 <= i < k ==> s[i].id != id
    ensures FindIndex(s, id) == k
  {
  }

  /** The step of an analytics entry whose id is in the store. */
  lemma MergeMatched(s: seq<ClientTree>, p: seq<ClientTree>, r: ClientTree, m: seq<ClientTree>, sIdx: nat)
    requires DistinctIds(s) && m == MergeAll(s, p)
    requires |m| == |s| + |Unmatched(s, p)| && m[|s|..] == Unmatched(s, p)
    requires forall i :: 0 <= i < |s| ==> m[i] == MergedEntry(s[i], p)
    requires sIdx < |s| && sIdx == FindIndex(s, r.id)
    ensures var rich := p + [r];
      && |MergeAll(s, rich)| == |s| + |Unmatched(s, rich)|
      && (forall i :: 0 <= i < |s| ==> MergeAll(s, rich)[i] == MergedEntry(s[i], rich))
      && MergeAll(s, rich)[|s|..] == Unmatched(s, rich)
  {
    var rich := p + [r];
    forall i | 0 <= i <= sIdx
      ensures m[i].id == s[i].id
    {
      assert m[i] == MergedEntry(s[i], p);
    }
    FindIndexAt(m, r.id, sIdx);
    var out := m[sIdx := m[sIdx].(history := r.history)];
    MergeAllSnoc(s, p, r);
    assert MergeAll(s, rich) == out;
    UnmatchedSnoc(s, p, r);
    forall i | 0 <= i < |s|
      ensures out[i] == MergedEntry(s[i], rich)
    {
      RichForSnoc(p, r, s[i].id);
      if i != sIdx {
        assert s[i].id != r.id;
      }
    }
    assert out[|s|..] == m[|s|..];
  }

  /** The step of an analytics entry whose id is not in the store. */
  lemma MergeUnmatched(s: seq<ClientTree>, p: seq<ClientTree>, r: ClientTree, m: seq<ClientTree>)
    requires RichFor(p, r.id).None? && m == MergeAll(s, p)
    requires |m| == |s| + |Unmatched(s, p)| && m[|s|..] == Unmatched(s, p)
    requires forall i :: 0 <= i < |s| ==> m[i] == MergedEntry(s[i], p)
    requires FindIndex(s, r.id) == -1
    ensures var rich := p + [r];
      && |MergeAll(s, rich)| == |s| + |Unmatched(s, rich)|
      && (forall i :: 0 <= i < |s| ==> MergeAll(s, rich)[i] == MergedEntry(s[i], rich))
      && MergeAll(s, rich)[|s|..] == Unmatched(s, rich)
  {
    var rich, out := p + [r], m + [r];
    MergedLacks(s, p, r, m);
    MergeAllSnoc(s, p, r);
    MergeOneAppends(m, r);
    assert MergeAll(s, rich) == out;
    UnmatchedSnoc(s, p, r);
    assert Unmatched(s, rich) == m[|s|..] + [r];
    KeptEntries(s, p, r, m);
    assert out[|s|..] == m[|s|..] + [r];
  }

  /** An entry whose id is not in the store leaves every store entry's merge as it was. */
  lemma KeptEntries(s: seq<ClientTree>, p: seq<ClientTree>, r: ClientTree, m: seq<ClientTree>)
    requires |m| >= |s|
    requires forall i :: 0 <= i < |s| ==> m[i] == MergedEntry(s[i], p)
    requires FindIndex(s, r.id) == -1
    ensures forall i :: 0 <= i < |s| ==> (m + [r])[i] == MergedEntry(s[i], p + [r])
  {
    forall i | 0 <= i < |s|
      ensures (m + [r])[i] == MergedEntry(s[i], p + [r])
    {
      RichForSnoc(p, r, s[i].id);
    }
  }

  /** An id in neither the store nor the analytics so far is absent from their merge. */
  lemma MergedLacks(s: seq<ClientTree>, p: seq<ClientTree>, r: ClientTree, m: seq<ClientTree>)
    requires RichFor(p, r.id).None?
    requires |m| == |s| + |Unmatched(s, p)| && m[|s|..] == Unmatched(s, p)
    requires forall i :: 0 <= i < |s| ==> m[i] == MergedEntry(s[i], p)
    requires FindIndex(s, r.id) == -1
    ensures forall j :: 0 <= j < |m| ==> m[j].id != r.id
  {
    forall j | 0 <= j < |m|
      ensures m[j].id != r.id
    {
      if j < |s| {
        assert m[j] == MergedEntry(s[j], p);
      } else {
        assert m[j] == Unmatched(s, p)[j - |s|];
        if m[j].id == r.id {
          UnmatchedIds(s, p, r.id);
        }
      }
    }
  }

  lemma MergeAllSnoc(s: seq<ClientTree>, p: seq<ClientTree>, r: ClientTree)
    ensures MergeAll(s, p + [r]) == MergeOne(MergeAll(s, p), r)
  {
    assert (p + [r])[..|p|] == p;
  }

  lemma MergeOneAppends(m: seq<ClientTree>, r: ClientTree)
    requires forall j :: 0 <= j < |m| ==> m[j].id != r.id
    ensures MergeOne(m, r) == m + [r]
  {
  }

  lemma UnmatchedSnoc(s: seq<ClientTree>, p: seq<ClientTree>, r: ClientTree)
    ensures Unmatched(s, p + [r]) == Unmatched(s, p) + (if FindIndex(s, r.id) == -1 then [r] else [])
  {
    assert (p + [r])[..|p|] == p;
  }

  lemma RichForSnoc(p: seq<ClientTree>, r: ClientTree, id: Id)
    ensures RichFor(p + [r], id) == if id == r.id then Some(r) else RichFor(p, id)
  {
    assert (p + [r])[..|p|] == p;
  }

  lemma NotInRich(p: seq<ClientTree>, r: ClientTree)
    requires DistinctIds(p + [r])
    ensures RichFor(p, r.id).None?
  {
    forall j | 0 <= j < |p|
      ensures p[j].id != r.id
    {
      assert (p + [r])[j] == p[j] && (p + [r])[|p|] == r;
    }
    RichForNone(p, r.id);
  }

  lemma {:induction false} RichForNone(rich: seq<ClientTree>, id: Id)
    requires forall j :: 0 <= j < |rich| ==> rich[j].id != id
    ensures RichFor(rich, id).None?
  {
    if rich != [] {
      var p := rich[..|rich| - 1];
      assert forall j :: 0 <= j < |p| ==> p[j] == rich[j];
      RichForNone(p, id);
    }
  }

  /** The trees of `trees` whose id is in `ids`, in store order. */
  function KeepAdopted(trees: seq<ClientTree>, ids: seq<Id>): seq<ClientTree> {
    if trees == [] then []
    else
      var p := KeepAdopted(trees[..|trees| - 1], ids);
      var t := trees[|trees| - 1];
      if t.id in ids then p + [t] else p
  }

  lemma {:induction false} KeepAdoptedSpec(trees: seq<ClientTree>, ids: seq<Id>)
    ensures forall t :: t in KeepAdopted(trees, ids) <==> t in trees && t.id in ids
    ensures |KeepAdopted(trees, ids)| <= |trees|
  {
    if trees != [] {
      var init := trees[..|trees| - 1];
      KeepAdoptedSpec(init, ids);
      assert trees == init + [trees[|trees| - 1]];
    }
  }

  /** `myTrees`: nothing without a user or an adopted list, otherwise the
      store's trees whose id is adopted, in store order. */
  function MyTrees(trees: seq<ClientTree>, user: Option<AuthUser>): (r: seq<ClientTree>)
    ensures user.None? || user.value.adoptedTrees.None? ==> r == []
    ensures user.Some? && user.value.adoptedTrees.Some? ==>
      forall t :: t in r <==> t in trees && t.id in user.value.adoptedTrees.value
    ensures |r| <= |trees|
  {
    if user.None? || user.value.adoptedTrees.None? then []
    else
      KeepAdoptedSpec(trees, user.value.adoptedTrees.value);
      KeepAdopted(trees, user.value.adoptedTrees.value)
  }

  lemma {:induction false} KeepAdoptedAppend(a: seq<ClientTree>, b: seq<ClientTree>, ids: seq<Id>)
    ensures KeepAdopted(a + b, ids) == KeepAdopted(a, ids) + KeepAdopted(b, ids)
  {
    if b == [] {
      assert a + b == a;
    } else {
      var b' := b[..|b| - 1];
      KeepAdoptedAppend(a, b', ids);
      assert (a + b)[..|a + b| - 1] == a + b';
      assert (a + b)[|a + b| - 1] == b[|b| - 1];
    }
  }

  /** The view distributes over concatenation, so it keeps the store order. */
  lemma MyTreesAppend(a: seq<ClientTree>, b: seq<ClientTree>, user: Option<AuthUser>)
    ensures MyTrees(a + b, user) == MyTrees(a, user) + MyTrees(b, user)
  {
    if user.Some? && user.value.adoptedTrees.Some? {
      KeepAdoptedAppend(a, b, user.value.adoptedTrees.value);
    }
  }

  /** The store itself. */
  class Store {
    var trees: seq<ClientTree>

    constructor ()
      ensures trees == []
    {
      trees := [];
    }

    /** `updateTree`. */
    method UpdateTree(updatedTree: ClientTree)
      modifies this
      ensures trees == Updated(old(trees), updatedTree)
    {
      var idx := FindIndex(trees, updatedTree.id);
      if idx != -1 {
        var oldHistory := trees[idx].history;
        trees := trees[idx := updatedTree.(history := if updatedTree.history.Some? then updatedTree.history else oldHistory)];
      }
    }

    /** The merge of `fetchFullAnalytics` over `data.allTrees`; a payload
        without that field changes nothing. */
    method MergeAnalytics(allTrees: Option<seq<ClientTree>>)
      modifies this
      ensures allTrees.None? ==> trees == old(trees)
      ensures allTrees.Some? ==> trees == MergeAll(old(trees), allTrees.value)
    {
      if allTrees.None? {
        return;
      }
      var rich := allTrees.value;
      var i := 0;
      while i < |rich|
        invariant 0 <= i <= |rich|
        invariant trees == MergeAll(old(trees), rich[..i])
      {
        var richTree := rich[i];
        var idx := FindIndex(trees, richTree.id);
        if idx != -1 {
          trees := trees[idx := trees[idx].(history := richTree.history)];
        } else {
          trees := trees + [richTree];
        }
        assert rich[..i + 1][..i] == rich[..i];
        i := i + 1;
      }
      assert rich[..i] == rich;
    }

    /** The `myTrees` computed value. */
    function MyTreesView(user: Option<AuthUser>): (r: seq<ClientTree>)
      reads this
      ensures r == MyTrees(trees, user)
    {
      MyTrees(trees, user)
    }
  }
}
