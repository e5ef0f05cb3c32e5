/** The user administration screen (backoffice/src/pages/UserAdmin.tsx): a table over
    an in-memory list of users, starting from three mock users, where a button
    toggles one user's blocked flag and shows an info toast. Toasts are recorded by
    title in `toasts`. */
module UserAdminPage {
  import opened Wrappers

  const BLOCKED_TITLE := "Usuario bloqueado"
  const UNBLOCKED_TITLE := "Usuario desbloqueado"

  datatype User = User(id: int, name: string, email: string, isBlocked: bool)

  /** `mockUsers`, the list the screen starts from. */
  function MockUsers(): (r: seq<User>)
    ensures |r| == 3 && DistinctIds(r)
  {
    [ User(1, "Juan Pérez", "juan@example.com", false),
      User(2, "Ana Gómez", "ana@example.com", true),
      User(3, "Carlos Ruiz", "carlos@example.com", false) ]
  }

  /** The identifiers of the list, in order. */
  function Ids(users: seq<User>): (r: seq<int>)
    ensures |r| == |users| && forall i :: 0 <= i < |users| ==> r[i] == users[i].id
  {
    if users == [] then [] else [users[0].id] + Ids(users[1..])
  }

  predicate DistinctIds(users: seq<User>)
  {
    forall i, j :: 0 <= i < j < |users| ==> users[i].id != users[j].id
  }

  /** The callback of `map` in `toggleBlock`: flip the flag of a record with the given
      id, return any other record as it is. */
  function Toggled(u: User, id: int): User
  {
    if u.id == id then u.(isBlocked := !u.isBlocked) else u
  }

  /** `prev.map(...)` in `toggleBlock`: same length and order, identifiers, names and
      emails kept, and the blocked flag negated exactly on the records with `id`. */
  function ToggleMap(users: seq<User>, id: int): (r: seq<User>)
    ensures |r| == |users|
    ensures forall i :: 0 <= i < |users| ==>
      r[i].id == users[i].id && r[i].name == users[i].name && r[i].email == users[i].email
    ensures forall i :: 0 <= i < |users| ==>
      r[i].isBlocked == (if users[i].id == id then !users[i].isBlocked else users[i].isBlocked)
  {
    if users == [] then [] else [Toggled(users[0], id)] + ToggleMap(users[1..], id)
  }

  /** Records with another id come out identical. */
  lemma ToggleMapKeepsOthers(users: seq<User>, id: int, i: int)
    requires 0 <= i < |users| && users[i].id != id
    ensures ToggleMap(users, id)[i] == users[i]
  {
  }

  /** Toggling an id that no record has changes nothing. */
  lemma ToggleMapAbsent(users: seq<User>, id: int)
    requires forall i :: 0 <= i < |users| ==> users[i].id != id
    ensures ToggleMap(users, id) == users
  {
  }

  /** Toggling the same id twice restores the list. */
  lemma ToggleMapInvolution(users: seq<User>, id: int)
    ensures ToggleMap(ToggleMap(users, id), id) == users
  {
  }

  /** The list keeps its identifiers, so distinct identifiers stay distinct. */
  lemma ToggleMapKeepsIds(users: seq<User>, id: int)
    ensures Ids(ToggleMap(users, id)) == Ids(users)
    ensures DistinctIds(users) ==> DistinctIds(ToggleMap(users, id))
  {
  }

  /** `users.find((u) => u.id === id)`: the first record with that id, if any. */
  function Find(users: seq<User>, id: int): (r: Option<User>)
    ensures r.None? <==> forall i :: 0 <= i < |users| ==> users[i].id != id
    ensures r.Some? ==> exists i :: 0 <= i < |users| && FirstWithId(users, id, i) && r.value == users[i]
  {
    if users == [] then None
    else if users[0].id == id then Some(users[0])
    else
      var r := Find(users[1..], id);
      assert r.Some? ==> exists i :: 0 <= i < |users| - 1 && FirstWithId(users[1..], id, i) && r.value == users[1..][i];
      assert forall i :: 0 <= i < |users| - 1 && FirstWithId(users[1..], id, i) ==> FirstWithId(users, id, i + 1);
      r
  }

  /** Index `i` holds the first record whose id is `id`. */
  predicate FirstWithId(users: seq<User>, id: int, i: int)
  {
    0 <= i < |users| && users[i].id == id && forall j :: 0 <= j < i ==> users[j].id != id
  }

  /** The toast title: "unblocked" when the record found before the toggle was
      blocked, "blocked" otherwise, including when no record was found. */
  function ToastTitle(found: Option<User>): (t: string)
    ensures t == UNBLOCKED_TITLE || t == BLOCKED_TITLE
    ensures t == UNBLOCKED_TITLE <==> found.Some? && found.value.isBlocked
  {
    if found.Some? && found.value.isBlocked then UNBLOCKED_TITLE else BLOCKED_TITLE
  }

  /** The title says "unblocked" exactly when the first record with `id` was blocked
      before the toggle. */
  lemma ToastTitleRule(users: seq<User>, id: int)
    ensures ToastTitle(Find(users, id)) == UNBLOCKED_TITLE
        <==> exists i :: FirstWithId(users, id, i) && users[i].isBlocked
    ensures ToastTitle(Find(users, id)) == UNBLOCKED_TITLE || ToastTitle(Find(users, id)) == BLOCKED_TITLE
  {
    var r := Find(users, id);
    if r.Some? {
      var i :| 0 <= i < |users| && FirstWithId(users, id, i) && r.value == users[i];
      assert forall k :: FirstWithId(users, id, k) ==> k == i;
    }
  }

  /** Finding the id in the toggled list gives the same record with its flag flipped,
      so the title describes the state the record is left in. */
  lemma ToastTitleDescribesNewState(users: seq<User>, id: int)
    requires Find(users, id).Some?
    ensures Find(ToggleMap(users, id), id).Some?
    ensures Find(ToggleMap(users, id), id).value == Toggled(Find(users, id).value, id)
    ensures ToastTitle(Find(users, id)) == BLOCKED_TITLE
        <==> Find(ToggleMap(users, id), id).value.isBlocked
  {
    FindToggled(users, id);
  }

  lemma FindToggled(users: seq<User>, id: int)
    ensures Find(ToggleMap(users, id), id)
         == (match Find(users, id) case Some(u) => Some(Toggled(u, id)) case None => None)
  {
  }

  /** With distinct identifiers, toggling an id that is present changes exactly one
      record, the one with that id. */
  lemma ToggleMapChangesOne(users: seq<User>, id: int) returns (k: nat)
    requires DistinctIds(users) && Find(users, id).Some?
    ensures k < |users| && users[k].id == id
    ensures forall i :: 0 <= i < |users| ==> (ToggleMap(users, id)[i] != users[i] <==> i == k)
  {
    var r := ToggleMap(users, id);
    k :| 0 <= k < |users| && FirstWithId(users, id, k) && Find(users, id).value == users[k];
    forall i | 0 <= i < |users| ensures r[i] != users[i] <==> i == k {
      if i == k {
        assert r[i].isBlocked != users[i].isBlocked;
      } else {
        assert users[i].id != id;
        ToggleMapKeepsOthers(users, id, i);
      }
    }
  }

  /** The three mock users have identifiers 1, 2 and 3, and only user 2 starts blocked. */
  lemma MockUsersShape()
    ensures Ids(MockUsers()) == [1, 2, 3] && DistinctIds(MockUsers())
    ensures forall i :: 0 <= i < 3 ==> (MockUsers()[i].isBlocked <==> MockUsers()[i].id == 2)
  {
  }

  class UserAdmin {
    var users: seq<User>
    /** Titles of the info toasts shown, oldest first. */
    var toasts: seq<string>

    /** Every record has its own identifier: `mockUsers` starts that way and the
        toggle keeps every identifier. */
    predicate Valid()
      reads this
    {
      DistinctIds(users)
    }

    /** `useState<User[]>(mockUsers)`. */
    constructor ()
      ensures users == MockUsers() && toasts == []
      ensures Valid()
    {
      users := MockUsers();
      toasts := [];
      MockUsersShape();
    }

    /** `toggleBlock(id)`: replace the list by its toggled copy, then show a toast whose
        title comes from the record as it was before the toggle. */
    method ToggleBlock(id: int)
      requires Valid()
      modifies this
      ensures users == ToggleMap(old(users), id)
      ensures toasts == old(toasts) + [ToastTitle(Find(old(users), id))]
      ensures Valid()
      ensures Find(old(users), id).Some? ==>
        exists k :: 0 <= k < |users| && old(users)[k].id == id
          && forall i :: 0 <= i < |users| ==> (users[i] != old(users)[i] <==> i == k)
    {
      var before := users;
      users := ToggleMap(users, id);
      var user := Find(before, id);
      toasts := toasts + [ToastTitle(user)];
      ToggleMapKeepsIds(before, id);
      if user.Some? {
        var k := ToggleMapChangesOne(before, id);
      }
    }
  }
}
