/** Lists of users that the forms edit by toggling a user in or out by id:
    the page's `selectedUsers` and the edit form's `membersToAdd` and
    `membersToRemove`, and the member list the edit form submits. */
module Selection {
  import opened Records

  /** `list.some(u => u.id === id)` */
  predicate HasUser(s: seq<User>, id: int)
  {
    exists i :: 0 <= i < |s| && s[i].id == id
  }

  /** `list.filter(u => u.id !== id)`: every user with that id goes, the rest
      stay. */
  function WithoutUser(s: seq<User>, id: int): (r: seq<User>)
    ensures !HasUser(r, id)
    ensures forall v :: v in r <==> v in s && v.id != id
    ensures HasUser(s, id) ==> |r| < |s|
    ensures !HasUser(s, id) ==> r == s
  {
    if s == [] then []
    else if s[0].id == id then WithoutUser(s[1..], id)
    else
      var rest := WithoutUser(s[1..], id);
      assert !HasUser(s[1..], id) ==> s == [s[0]] + s[1..];
      [s[0]] + rest
  }

  /** Filtering distributes over concatenation, so the users that stay keep
      their relative order. */
  lemma {:induction false} WithoutUserAppend(a: seq<User>, b: seq<User>, id: int)
    ensures WithoutUser(a + b, id) == WithoutUser(a, id) + WithoutUser(b, id)
  {
    if a == [] {
      assert a + b == b;
    } else {
      assert (a + b)[0] == a[0];
      assert (a + b)[1..] == a[1..] + b;
      WithoutUserAppend(a[1..], b, id);
    }
  }

  /** The toggle updater shared by `handleUserSelect` and the edit form's
      `handleAddMember` / `handleRemoveMember`: a user whose id is present is
      filtered out (with every other entry of that id), an absent one is
      appended at the end. */
  function Toggle(s: seq<User>, u: User): (r: seq<User>)
    ensures HasUser(r, u.id) <==> !HasUser(s, u.id)
    ensures forall v: User :: v.id != u.id ==> (v in r <==> v in s)
    ensures HasUser(s, u.id) ==> |r| < |s| && forall v :: v in r ==> v in s
    ensures !HasUser(s, u.id) ==> r == s + [u]
  {
    if HasUser(s, u.id) then WithoutUser(s, u.id)
    else
      assert (s + [u])[|s|] == u;
      s + [u]
  }

  /** Toggling a user that is not in the list twice gives the list back. */
  lemma {:induction false} ToggleTwice(s: seq<User>, u: User)
    requires !HasUser(s, u.id)
    ensures Toggle(Toggle(s, u), u) == s
  {
    WithoutUserAppend(s, [u], u.id);
    assert WithoutUser([u], u.id) == [];
  }

  /** `list.map(user => +user.id)` */
  function Ids(s: seq<User>): (r: seq<int>)
    ensures |r| == |s|
    ensures forall i :: 0 <= i < |s| ==> r[i] == s[i].id
  {
    if s == [] then [] else [s[0].id] + Ids(s[1..])
  }

  lemma {:induction false} IdsAppend(a: seq<User>, b: seq<User>)
    ensures Ids(a + b) == Ids(a) + Ids(b)
  {
  }

  /** `currentMembers.filter(member => !isMarkedForRemoval(member))`: the
      members whose id is not marked stay, each as often as before, and no
      other entry is added. */
  function KeepUnmarked(current: seq<User>, marked: seq<User>): (r: seq<User>)
    ensures forall v :: v in r <==> v in current && !HasUser(marked, v.id)
    ensures |r| <= |current|
    ensures marked == [] ==> r == current
  {
    if current == [] then []
    else if HasUser(marked, current[0].id) then KeepUnmarked(current[1..], marked)
    else
      assert marked == [] ==> current == [current[0]] + current[1..];
      [current[0]] + KeepUnmarked(current[1..], marked)
  }

  /** Filtering distributes over concatenation, so the kept members keep
      their order and multiplicity in `current`. */
  lemma {:induction false} KeepUnmarkedAppend(a: seq<User>, b: seq<User>, marked: seq<User>)
    ensures KeepUnmarked(a + b, marked) == KeepUnmarked(a, marked) + KeepUnmarked(b, marked)
  {
    if a == [] {
      assert a + b == b;
    } else {
      assert (a + b)[0] == a[0];
      assert (a + b)[1..] == a[1..] + b;
      KeepUnmarkedAppend(a[1..], b, marked);
    }
  }

  /** The `chat_members` the edit form submits: the current members not
      marked for removal, in their order, then the users to add, in theirs. */
  function FinalMemberIds(current: seq<User>, toRemove: seq<User>, toAdd: seq<User>): (r: seq<int>)
    ensures |r| == |KeepUnmarked(current, toRemove)| + |toAdd|
    ensures r[..|r| - |toAdd|] == Ids(KeepUnmarked(current, toRemove))
    ensures r[|r| - |toAdd|..] == Ids(toAdd)
  {
    IdsAppend(KeepUnmarked(current, toRemove), toAdd);
    Ids(KeepUnmarked(current, toRemove) + toAdd)
  }

  /** An id occurs in the id list exactly when some user of the list has it. */
  lemma IdsHas(s: seq<User>, x: int)
    ensures x in Ids(s) <==> HasUser(s, x)
  {
    if x in Ids(s) {
      var k :| 0 <= k < |s| && Ids(s)[k] == x;
      assert s[k].id == x;
    }
    if HasUser(s, x) {
      var k :| 0 <= k < |s| && s[k].id == x;
      assert Ids(s)[k] == x;
    }
  }

  /** An id is submitted exactly when it belongs to a current member that is
      not marked for removal or to a user marked for addition. */
  lemma {:induction false} FinalMemberIdsMembership(current: seq<User>, toRemove: seq<User>, toAdd: seq<User>, x: int)
    ensures x in FinalMemberIds(current, toRemove, toAdd)
      <==> (HasUser(current, x) && !HasUser(toRemove, x)) || HasUser(toAdd, x)
  {
    var keep := KeepUnmarked(current, toRemove);
    IdsAppend(keep, toAdd);
    IdsHas(keep, x);
    IdsHas(toAdd, x);
    if HasUser(keep, x) {
      var k :| 0 <= k < |keep| && keep[k].id == x;
      assert keep[k] in keep;
    }
    if HasUser(current, x) && !HasUser(toRemove, x) {
      var k :| 0 <= k < |current| && current[k].id == x;
      assert current[k] in keep;
    }
  }

  /** With nothing marked either way, the edit form submits the current
      members unchanged. */
  lemma NoEditsKeepMembers(current: seq<User>)
    ensures FinalMemberIds(current, [], []) == Ids(current)
  {
  }
}
