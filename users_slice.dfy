/** The Redux `usersSlice`: the registered users held by the store, with
    reducers that replace the list, drop users by `_id` and replace the
    first user with a matching `_id`. */
module UsersSlice {
  import opened ListOps

  datatype User = User(dbId: string, name: string, email: string, semester: string, role: string)

  /** Whether a user survives `removeUser(id)`. */
  function Keeps(id: string): User -> bool
  {
    (u: User) => u.dbId != id
  }

  /** `findIndex` on `_id`: the first match, or -1. */
  function FirstIndex(users: seq<User>, id: string): (r: int)
    ensures -1 <= r < |users|
    ensures r >= 0 ==> users[r].dbId == id && forall j :: 0 <= j < r ==> users[j].dbId != id
    ensures r == -1 ==> forall j :: 0 <= j < |users| ==> users[j].dbId != id
  {
    if users == [] then -1
    else if users[0].dbId == id then 0
    else
      var k := FirstIndex(users[1..], id);
      if k == -1 then -1 else k + 1
  }

  /** The search `findIndex` runs. */
  method FindIndex(users: seq<User>, id: string) returns (index: int)
    ensures index == FirstIndex(users, id)
  {
    index := 0;
    while index < |users| && users[index].dbId != id
      invariant 0 <= index <= |users|
      invariant forall j :: 0 <= j < index ==> users[j].dbId != id
    {
      index := index + 1;
    }
    if index == |users| {
      index := -1;
    }
    FirstIndexUnique(users, id, index);
  }

  /** The first match is the only index with a match and none before it. */
  lemma FirstIndexUnique(users: seq<User>, id: string, i: int)
    requires -1 <= i < |users|
    requires i >= 0 ==> users[i].dbId == id && forall j :: 0 <= j < i ==> users[j].dbId != id
    requires i == -1 ==> forall j :: 0 <= j < |users| ==> users[j].dbId != id
    ensures i == FirstIndex(users, id)
  {
    var r := FirstIndex(users, id);
    if i >= 0 && r >= 0 {
      assert !(r < i) && !(i < r);
    }
  }

  /** Ids no two users share, as the database's `_id` guarantees. */
  predicate UniqueIds(users: seq<User>)
  {
    forall i, j :: 0 <= i < j < |users| ==> users[i].dbId != users[j].dbId
  }

  /** With unique ids the index `findIndex` finds is the only user with that
      id, so `updateUser` replacing it leaves no other copy of the user. */
  lemma UniqueIdsFoundOnly(users: seq<User>, id: string, j: int)
    requires UniqueIds(users)
    requires 0 <= j < |users| && users[j].dbId == id
    ensures FirstIndex(users, id) == j
  {
  }

  class UsersState {
    var users: seq<User>

    constructor ()
      ensures users == []
    {
      users := [];
    }

    /** `addUsers`: the payload overwrites the list. */
    method AddUsers(payload: seq<User>)
      modifies this
      ensures users == payload
    {
      users := payload;
    }

    /** `removeUser`. */
    method RemoveUser(id: string)
      modifies this
      ensures users == Filter(old(users), Keeps(id))
    {
      users := Filter(users, Keeps(id));
    }

    /** `updateUser`: replace the first user with the payload's `_id`. */
    method UpdateUser(payload: User)
      modifies this
      ensures var i := FirstIndex(old(users), payload.dbId);
        users == if i == -1 then old(users) else old(users)[i := payload]
    {
      var index := FindIndex(users, payload.dbId);
      if index != -1 {
        users := users[index := payload];
      }
    }
  }

  /** `removeUser` drops every user with the id and keeps the others in
      their order; with no such user the list is unchanged. */
  lemma RemoveUserMeaning(users: seq<User>, id: string)
    ensures forall u :: u in Filter(users, Keeps(id)) <==> u in users && u.dbId != id
    ensures forall a, b :: users == a + b ==>
      Filter(users, Keeps(id)) == Filter(a, Keeps(id)) + Filter(b, Keeps(id))
    ensures (forall j :: 0 <= j < |users| ==> users[j].dbId != id) ==> Filter(users, Keeps(id)) == users
  {
    FilterMembers(users, Keeps(id));
    forall a, b | users == a + b
      ensures Filter(users, Keeps(id)) == Filter(a, Keeps(id)) + Filter(b, Keeps(id))
    {
      FilterConcat(a, b, Keeps(id));
    }
    if forall j :: 0 <= j < |users| ==> users[j].dbId != id {
      FilterKeepsAll(users, Keeps(id));
    }
  }

  /** `updateUser` keeps the length, changes at most the first match, and
      with no match changes nothing. */
  lemma UpdateUserMeaning(users: seq<User>, payload: User)
    ensures var i := FirstIndex(users, payload.dbId);
      var r := if i == -1 then users else users[i := payload];
      |r| == |users| &&
      (forall j :: 0 <= j < |users| && users[j].dbId != payload.dbId ==> r[j] == users[j]) &&
      (forall j :: 0 <= j < |users| && j != i ==> r[j] == users[j]) &&
      (i != -1 ==> r[i] == payload && users[i].dbId == payload.dbId)
  {
  }
}
