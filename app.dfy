/** The signup and signin endpoints run against the two tables of the
    store: `groups(id, members)` and `users(id, attributes, group_id)`.
    A table is a sequence of rows in rowid order; an insert gets the id
    SQLite gives a new rowid, one more than the largest id in the table. */
module App {
  import opened PyStr
  import opened Matching

  datatype Option<T> = None | Some(value: T)

  /** A row of `groups`: its id and the canonical string of its first member. */
  datatype Group = Group(id: int, members: string)

  /** A row of `users`. */
  datatype User = User(id: int, attributes: string, groupId: int)

  /** What an endpoint answers, without the HTTP and JSON plumbing. */
  datatype Response =
    | AttributesRequired                  // 400 {"error": "Attributes are required"}
    | UserNotFound                        // 404 {"error": "User not found"}
    | Created(userId: int, groupId: int)  // 201 {"user_id", "group_id"}
    | SignedIn(userId: int)               // 200 {"message": "Sign-in successful", "user_id"}
  {
    function Status(): int
    {
      match this
      case AttributesRequired => 400
      case UserNotFound => 404
      case Created(_, _) => 201
      case SignedIn(_) => 200
    }
  }

  // ---------------------------------------------------------------------
  // Ids

  function GroupIds(groups: seq<Group>): (ids: seq<int>)
    ensures |ids| == |groups| && forall k :: 0 <= k < |groups| ==> ids[k] == groups[k].id
  {
    seq(|groups|, k requires 0 <= k < |groups| => groups[k].id)
  }

  function UserIds(users: seq<User>): (ids: seq<int>)
    ensures |ids| == |users| && forall k :: 0 <= k < |users| ==> ids[k] == users[k].id
  {
    seq(|users|, k requires 0 <= k < |users| => users[k].id)
  }

  /** The id SQLite gives an inserted row: 1 in an empty table, otherwise one
      more than the largest id present. */
  function NextId(ids: seq<int>): (n: int)
    ensures forall k :: 0 <= k < |ids| ==> ids[k] < n
    ensures if ids == [] then n == 1 else n - 1 in ids
  {
    if ids == [] then 1 else MaxId(ids) + 1
  }

  function MaxId(ids: seq<int>): (m: int)
    requires ids != []
    ensures m in ids && forall k :: 0 <= k < |ids| ==> ids[k] <= m
  {
    if |ids| == 1 then ids[0]
    else
      var m := MaxId(ids[1..]);
      assert ids == [ids[0]] + ids[1..];
      if ids[0] < m then m else ids[0]
  }

  /** Ids strictly increase along the table, so table order is creation order. */
  predicate Increasing(ids: seq<int>)
  {
    forall i, j :: 0 <= i < j < |ids| ==> ids[i] < ids[j]
  }

  /** The store's invariant: both tables in increasing id order, and every
      user's `group_id` names a row of `groups`. */
  predicate TablesValid(groups: seq<Group>, users: seq<User>)
  {
    Increasing(GroupIds(groups)) && Increasing(UserIds(users)) &&
    forall k :: 0 <= k < |users| ==> users[k].groupId in GroupIds(groups)
  }

  /** Appending a row with the next id keeps a table in increasing order. */
  lemma AppendNextIdIncreasing(ids: seq<int>)
    ensures Increasing(ids) ==> Increasing(ids + [NextId(ids)])
  {
  }

  /** Inserting a group with the next id keeps the store's invariant. */
  lemma InsertGroupKeepsValid(groups: seq<Group>, users: seq<User>, members: string)
    requires TablesValid(groups, users)
    ensures TablesValid(groups + [Group(NextId(GroupIds(groups)), members)], users)
  {
    var groups' := groups + [Group(NextId(GroupIds(groups)), members)];
    assert GroupIds(groups') == GroupIds(groups) + [NextId(GroupIds(groups))];
    AppendNextIdIncreasing(GroupIds(groups));
  }

  /** Inserting a user with the next id, in a group that exists, keeps the
      store's invariant. */
  lemma InsertUserKeepsValid(groups: seq<Group>, users: seq<User>, attributes: string, groupId: int)
    requires TablesValid(groups, users) && groupId in GroupIds(groups)
    ensures TablesValid(groups, users + [User(NextId(UserIds(users)), attributes, groupId)])
  {
    var users' := users + [User(NextId(UserIds(users)), attributes, groupId)];
    assert UserIds(users') == UserIds(users) + [NextId(UserIds(users))];
    AppendNextIdIncreasing(UserIds(users));
  }

  // ---------------------------------------------------------------------
  // The group-matching scan

  /** The first group, at or after position `from`, that matches the request. */
  function FirstMatchFrom(groups: seq<Group>, attrs: seq<string>, from: nat): (r: Option<nat>)
    requires from <= |groups|
    ensures r.Some? ==>
      from <= r.value < |groups| && Matches(groups[r.value].members, attrs) &&
      forall j :: from <= j < r.value ==> !Matches(groups[j].members, attrs)
    ensures r.None? ==> forall j :: from <= j < |groups| ==> !Matches(groups[j].members, attrs)
    decreases |groups| - from
  {
    if from == |groups| then None
    else if Matches(groups[from].members, attrs) then Some(from)
    else FirstMatchFrom(groups, attrs, from + 1)
  }

  /** The group signup joins: the earliest in table order that matches. */
  function FirstMatch(groups: seq<Group>, attrs: seq<string>): (r: Option<nat>)
    ensures r.Some? ==>
      r.value < |groups| && Matches(groups[r.value].members, attrs) &&
      forall j :: 0 <= j < r.value ==> !Matches(groups[j].members, attrs)
    ensures r.None? <==> forall j :: 0 <= j < |groups| ==> !Matches(groups[j].members, attrs)
  {
    FirstMatchFrom(groups, attrs, 0)
  }

  /** The `for g in groups` loop of signup: scan the groups in table order and
      stop at the first one that shares an attribute with the request. */
  method FindGroup(groups: seq<Group>, attrs: seq<string>) returns (found: Option<nat>)
    ensures found == FirstMatch(groups, attrs)
  {
    found := None;
    var i := 0;
    while i < |groups|
      invariant 0 <= i <= |groups|
      invariant FirstMatchFrom(groups, attrs, i) == FirstMatch(groups, attrs)
    {
      if Matches(groups[i].members, attrs) {
        found := Some(i);
        return;
      }
      i := i + 1;
    }
  }

  /** The rows `SELECT * FROM users WHERE id = ?` returns. */
  function SelectUser(users: seq<User>, id: int): (rows: seq<User>)
    ensures forall u :: u in rows <==> u in users && u.id == id
  {
    if users == [] then []
    else if users[0].id == id then [users[0]] + SelectUser(users[1..], id)
    else SelectUser(users[1..], id)
  }

  // ---------------------------------------------------------------------
  // The store

  class Database {
    var groups: seq<Group>
    var users: seq<User>

    ghost predicate Valid()
      reads this
    {
      TablesValid(groups, users)
    }

    /** Opens the store with the rows already in it. */
    constructor (groups0: seq<Group>, users0: seq<User>)
      ensures groups == groups0 && users == users0
    {
      groups := groups0;
      users := users0;
    }

    /** `INSERT INTO groups (members) VALUES (?)`, answering the new id. */
    method InsertGroup(members: string) returns (id: int)
      modifies this
      ensures id == NextId(GroupIds(old(groups)))
      ensures groups == old(groups) + [Group(id, members)] && users == old(users)
      ensures old(Valid()) ==> Valid()
    {
      id := NextId(GroupIds(groups));
      if Valid() {
        InsertGroupKeepsValid(groups, users, members);
      }
      groups := groups + [Group(id, members)];
    }

    /** `INSERT INTO users (attributes, group_id) VALUES (?, ?)`, answering
        the new id. */
    method InsertUser(attributes: string, groupId: int) returns (id: int)
      modifies this
      ensures id == NextId(UserIds(old(users)))
      ensures users == old(users) + [User(id, attributes, groupId)] && groups == old(groups)
      ensures old(Valid()) && groupId in GroupIds(groups) ==> Valid()
    {
      id := NextId(UserIds(users));
      if Valid() && groupId in GroupIds(groups) {
        InsertUserKeepsValid(groups, users, attributes, groupId);
      }
      users := users + [User(id, attributes, groupId)];
    }

    /** POST /signup */
    method Signup(attributes: Option<seq<string>>) returns (r: Response)
      modifies this
      ensures old(Valid()) ==> Valid()
      ensures r.Status() == if attributes.None? || attributes.value == [] then 400 else 201
      ensures r.AttributesRequired? <==> attributes.None? || attributes.value == []
      ensures r.AttributesRequired? ==> groups == old(groups) && users == old(users)
      ensures !r.AttributesRequired? ==>
        var attrs := attributes.value;
        var key := Canonical(attrs);
        r.Created? &&
        (match FirstMatch(old(groups), attrs)
         case Some(i) =>
           groups == old(groups) && r.groupId == old(groups)[i].id
         case None =>
           r.groupId == NextId(GroupIds(old(groups))) &&
           groups == old(groups) + [Group(r.groupId, key)]) &&
        r.userId == NextId(UserIds(old(users))) &&
        users == old(users) + [User(r.userId, key, r.groupId)]
    {
      if attributes.None? || attributes.value == [] {
        return AttributesRequired;
      }
      var attrs := attributes.value;
      var key := Canonical(attrs);

      var rows := groups;
      var found := FindGroup(rows, attrs);
      var groupId;
      if found.None? {
        groupId := InsertGroup(key);
        assert GroupIds(groups)[|groups| - 1] == groupId;
      } else {
        groupId := rows[found.value].id;
        assert GroupIds(groups)[found.value] == groupId;
      }

      var userId := InsertUser(key, groupId);
      r := Created(userId, groupId);
    }

    /** POST /signin */
    method Signin(userId: Option<int>) returns (r: Response)
      ensures r.UserNotFound? <==> userId.None? || userId.value !in UserIds(users)
      ensures !r.UserNotFound? ==> r == SignedIn(userId.value)
      ensures r.Status() == if r.UserNotFound? then 404 else 200
    {
      if userId.None? {
        // `WHERE id = NULL` selects nothing
        return UserNotFound;
      }
      var rows := SelectUser(users, userId.value);
      if rows == [] {
        forall k | 0 <= k < |users| ensures UserIds(users)[k] != userId.value {
          assert users[k] in users;
        }
        return UserNotFound;
      }
      assert rows[0] in users;
      r := SignedIn(userId.value);
    }
  }
}
