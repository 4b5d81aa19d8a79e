/** The adopt/abandon toggle of `POST /adopt` in server/routes/users.js: the
    tree id is taken out of the user's `adoptedTrees` when it is there, and
    added at the end when it is not. */
module Adoption {
  import opened Wrappers
  import opened Models

  datatype AdoptError = UserNotFound

  /** `list.indexOf(id)`. */
  function IndexOf(list: seq<Id>, id: Id): (r: int)
    ensures -1 <= r < |list|
    ensures r == -1 <==> id !in list
    ensures r >= 0 ==> list[r] == id && id !in list[..r]
  {
    if list == [] then -1
    else if list[0] == id then 0
    else
      var r := IndexOf(list[1..], id);
      assert forall x :: x in list <==> x == list[0] || x in list[1..];
      if r == -1 then -1
      else
        assert list[..r + 1] == [list[0]] + list[1..][..r];
        r + 1
  }

  /** The list after one toggle. */
  function Toggle(list: seq<Id>, id: Id): seq<Id> {
    var index := IndexOf(list, id);
    if index > -1 then list[..index] + list[index + 1..] else list + [id]
  }

  /** The entries other than `id`, in order. */
  function Without(list: seq<Id>, id: Id): (r: seq<Id>)
    ensures id !in r
    ensures id !in list ==> r == list
  {
    if list == [] then []
    else if list[0] == id then Without(list[1..], id)
    else [list[0]] + Without(list[1..], id)
  }

  lemma {:induction false} WithoutConcat(a: seq<Id>, b: seq<Id>, id: Id)
    ensures Without(a + b, id) == Without(a, id) + Without(b, id)
  {
    if a != [] {
      var t := a[1..];
      WithoutConcat(t, b, id);
      assert (a + b)[0] == a[0];
      assert (a + b)[1..] == t + b;
      if a[0] == id {
        assert Without(a + b, id) == Without(t + b, id);
      } else {
        assert Without(a + b, id) == [a[0]] + Without(t + b, id);
        assert Without(a, id) == [a[0]] + Without(t, id);
      }
    } else {
      assert a + b == b;
    }
  }

  /** A present id loses its first occurrence, an absent one is appended;
      either way every other entry keeps its place relative to the rest. */
  lemma ToggleSpec(list: seq<Id>, id: Id)
    ensures id !in list ==> Toggle(list, id) == list + [id]
    ensures id in list ==> |Toggle(list, id)| == |list| - 1
    ensures id in list ==>
      (exists i :: 0 <= i < |list| && list[i] == id && id !in list[..i] && Toggle(list, id) == list[..i] + list[i + 1..])
    ensures Without(Toggle(list, id), id) == Without(list, id)
  {
    var index := IndexOf(list, id);
    if index > -1 {
      assert list == list[..index] + [id] + list[index + 1..];
      WithoutConcat(list[..index] + [id], list[index + 1..], id);
      WithoutConcat(list[..index], [id], id);
      WithoutConcat(list[..index], list[index + 1..], id);
    } else {
      WithoutConcat(list, [id], id);
    }
  }

  /** Toggling an absent id twice gives the list back. */
  lemma ToggleTwiceAbsent(list: seq<Id>, id: Id)
    requires id !in list
    ensures Toggle(Toggle(list, id), id) == list
  {
    var l := list + [id];
    assert IndexOf(l, id) == |list| by {
      assert l[|list|] == id;
      assert l[..|list|] == list;
    }
    assert l[..|list|] == list;
  }

  /** On a list without duplicates, toggling a present id twice moves it to
      the end: the list comes back unchanged only when it was already last. */
  lemma ToggleTwicePresent(list: seq<Id>, id: Id)
    requires forall i, j :: 0 <= i < j < |list| ==> list[i] != list[j]
    requires id in list
    ensures Toggle(Toggle(list, id), id) == Without(list, id) + [id]
    ensures Toggle(Toggle(list, id), id) == list <==> list[|list| - 1] == id
  {
    var index := IndexOf(list, id);
    var once := list[..index] + list[index + 1..];
    assert id !in list[index + 1..] by {
      forall k | index + 1 <= k < |list|
        ensures list[k] != id
      {
      }
    }
    assert id !in once;
    assert Without(once, id) == once;
    ToggleSpec(list, id);
    if list[|list| - 1] != id {
      assert Toggle(Toggle(list, id), id)[|list| - 1] == id;
    } else {
      assert index == |list| - 1;
      assert list == once + [id];
    }
  }

  /** `POST /adopt`: an unknown user is a 404 and nothing changes; a missing
      `adoptedTrees` counts as empty; the tree id is toggled in place. */
  method Adopt(user: User?, treeId: Id) returns (r: Result<User, AdoptError>)
    modifies user
    ensures user == null ==> r == Err(UserNotFound)
    ensures user != null ==> r == Ok(user)
    ensures user != null ==> user.adoptedTrees == Some(Toggle(old(user.adoptedTrees).GetOr([]), treeId))
    ensures user != null ==> user.xp == old(user.xp) && user.level == old(user.level) && user.badges == old(user.badges)
  {
    if user == null {
      return Err(UserNotFound);
    }
    if user.adoptedTrees.None? {
      user.adoptedTrees := Some([]);
    }
    var list := user.adoptedTrees.value;
    assert list == old(user.adoptedTrees).GetOr([]);
    var index := IndexOf(list, treeId);
    ghost var toggled := Toggle(list, treeId);
    if index > -1 {
      user.adoptedTrees := Some(list[..index] + list[index + 1..]);
    } else {
      user.adoptedTrees := Some(list + [treeId]);
    }
    return Ok(user);
  }
}
