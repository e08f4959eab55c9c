/** The ordered role list of the generator screen: at most three roles, no two
    with the same label, reordered only by swapping neighbours. The list
    transforms are pure; the class in App.dfy applies them to its state. */
module RoleList {

  /** A role as the user sees it (`label`) and as the list operations address
      it (`id`, an opaque token chosen when the role is added). */
  datatype Role = Role(id: string, text: string)

  datatype Direction = Up | Down

  /** The most roles a list may hold. */
  const MaxRoles := 3

  predicate DistinctLabels(roles: seq<Role>) {
    forall i, j :: 0 <= i < j < |roles| ==> roles[i].text != roles[j].text
  }

  predicate DistinctIds(roles: seq<Role>) {
    forall i, j :: 0 <= i < j < |roles| ==> roles[i].id != roles[j].id
  }

  /** The invariants every role operation keeps. Distinct ids are what make
      removal by id remove exactly one entry. */
  predicate Valid(roles: seq<Role>) {
    |roles| <= MaxRoles && DistinctLabels(roles) && DistinctIds(roles)
  }

  /** `roles.find(r => r.label === text)` finds something. */
  predicate HasLabel(roles: seq<Role>, text: string) {
    exists i :: 0 <= i < |roles| && roles[i].text == text
  }

  /** `id` is not the id of any role in the list. */
  predicate FreshId(roles: seq<Role>, id: string) {
    forall i :: 0 <= i < |roles| ==> roles[i].id != id
  }

  /** `roles.map(r => r.text)`. */
  function Labels(roles: seq<Role>): (r: seq<string>)
    ensures |r| == |roles| && forall i :: 0 <= i < |roles| ==> r[i] == roles[i].text
  {
    if roles == [] then [] else [roles[0].text] + Labels(roles[1..])
  }

  /** Adding a role: nothing happens when the list is full or the label is
      already there; otherwise a role with that label and the fresh id is
      appended and the earlier entries stay as they were. */
  function AddRole(roles: seq<Role>, text: string, freshId: string): (r: seq<Role>)
    ensures r == roles <==> |roles| >= MaxRoles || HasLabel(roles, text)
    ensures r != roles ==> |r| == |roles| + 1 && r[..|roles|] == roles && r[|roles|] == Role(freshId, text)
    ensures |roles| < MaxRoles ==> HasLabel(r, text)
    ensures Valid(roles) && FreshId(roles, freshId) ==> Valid(r)
  {
    if |roles| >= MaxRoles || HasLabel(roles, text) then roles
    else roles + [Role(freshId, text)]
  }

  /** `roles.filter(r => r.id !== id)`. */
  function RemoveRole(roles: seq<Role>, id: string): (r: seq<Role>)
    ensures |r| <= |roles|
  {
    if roles == [] then []
    else if roles[0].id != id then [roles[0]] + RemoveRole(roles[1..], id)
    else RemoveRole(roles[1..], id)
  }

  /** The index `moveRole` swaps with. */
  function Target(index: int, dir: Direction): int {
    if dir == Up then index - 1 else index + 1
  }

  /** The list with positions `i` and `j` exchanged. */
  function Swap(roles: seq<Role>, i: nat, j: nat): (r: seq<Role>)
    requires i < |roles| && j < |roles|
    ensures |r| == |roles| && r[i] == roles[j] && r[j] == roles[i]
    ensures forall k :: 0 <= k < |roles| && k != i && k != j ==> r[k] == roles[k]
    ensures multiset(r) == multiset(roles)
  {
    roles[i := roles[j]][j := roles[i]]
  }

  /** Moving the role at `index` one place up or down: a no-op when there is
      no neighbour on that side, otherwise a swap with that neighbour. */
  function MoveRole(roles: seq<Role>, index: nat, dir: Direction): (r: seq<Role>)
    requires index < |roles|
    ensures r == roles <== Target(index, dir) < 0 || Target(index, dir) >= |roles|
    ensures 0 <= Target(index, dir) < |roles| ==> r == Swap(roles, index, Target(index, dir))
    ensures Valid(roles) ==> Valid(r)
  {
    var target := Target(index, dir);
    if target < 0 || target >= |roles| then roles else Swap(roles, index, target)
  }

  // ---------------------------------------------------------------------------

  /** The roles left are exactly those whose id differs from `id`. */
  lemma {:induction false} RemoveRoleMembers(roles: seq<Role>, id: string)
    ensures forall x :: x in RemoveRole(roles, id) <==> x in roles && x.id != id
    decreases |roles|
  {
    if roles != [] {
      RemoveRoleMembers(roles[1..], id);
      assert roles == [roles[0]] + roles[1..];
    }
  }

  /** Removal keeps the list valid. */
  lemma {:induction false} RemoveRoleValid(roles: seq<Role>, id: string)
    requires Valid(roles)
    ensures Valid(RemoveRole(roles, id))
    decreases |roles|
  {
    if roles != [] {
      var rest := RemoveRole(roles[1..], id);
      RemoveRoleValid(roles[1..], id);
      RemoveRoleMembers(roles[1..], id);
      if roles[0].id != id {
        var r := [roles[0]] + rest;
        forall i, j | 0 <= i < j < |r| ensures r[i].text != r[j].text && r[i].id != r[j].id {
          if i == 0 {
            assert r[j] in roles[1..];
          }
        }
      }
    }
  }

  lemma {:induction false} RemoveRoleConcat(a: seq<Role>, b: seq<Role>, id: string)
    ensures RemoveRole(a + b, id) == RemoveRole(a, id) + RemoveRole(b, id)
    decreases |a|
  {
    if a != [] {
      assert (a + b)[0] == a[0] && (a + b)[1..] == a[1..] + b;
      RemoveRoleConcat(a[1..], b, id);
    } else {
      assert a + b == b;
    }
  }

  /** Removing an id no role carries leaves the list as it was. */
  lemma {:induction false} RemoveAbsent(roles: seq<Role>, id: string)
    requires FreshId(roles, id)
    ensures RemoveRole(roles, id) == roles
    decreases |roles|
  {
    if roles != [] {
      RemoveAbsent(roles[1..], id);
      assert roles == [roles[0]] + roles[1..];
    }
  }

  /** Removing the id of the role at `k` removes exactly that entry and keeps
      the others in order, in a list whose ids are distinct. */
  lemma {:induction false} RemovePresent(roles: seq<Role>, k: nat)
    requires k < |roles| && DistinctIds(roles)
    ensures RemoveRole(roles, roles[k].id) == roles[..k] + roles[k + 1..]
    decreases k
  {
    var id, rest := roles[k].id, roles[1..];
    assert DistinctIds(rest) by {
      forall i, j | 0 <= i < j < |rest| ensures rest[i].id != rest[j].id {
        assert rest[i] == roles[i + 1] && rest[j] == roles[j + 1];
      }
    }
    if k == 0 {
      assert FreshId(rest, id) by {
        forall i | 0 <= i < |rest| ensures rest[i].id != id {
          assert rest[i] == roles[i + 1];
        }
      }
      RemoveAbsent(rest, id);
    } else {
      assert roles[0].id != id;
      assert rest[k - 1] == roles[k];
      RemovePresent(rest, k - 1);
      assert roles[..k] == [roles[0]] + rest[..k - 1];
      assert roles[k + 1..] == rest[k..];
    }
  }

  /** Moving a role and moving it back restores the list. */
  lemma MoveRoleUndo(roles: seq<Role>, index: nat, dir: Direction)
    requires index < |roles| && 0 <= Target(index, dir) < |roles|
    ensures MoveRole(MoveRole(roles, index, dir), Target(index, dir), if dir == Up then Down else Up) == roles
  {
    var moved := MoveRole(roles, index, dir);
    var back := MoveRole(moved, Target(index, dir), if dir == Up then Down else Up);
    assert back == Swap(moved, Target(index, dir), index);
  }

  /** Adding a label a second time changes nothing. */
  lemma AddRoleIdempotent(roles: seq<Role>, text: string, id1: string, id2: string)
    ensures AddRole(AddRole(roles, text, id1), text, id2) == AddRole(roles, text, id1)
  {
  }
}
