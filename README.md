# social_network signup and signin, modelled in Dafny

The service puts users into groups by their attributes. The model covers its
two endpoints:

- `POST /signup` takes a list of attribute strings.
  - It refuses a missing or empty list.
  - Otherwise it builds the canonical string `','.join(sorted(attributes))`.
  - It scans the `groups` table in table order and takes the first group that
    shares an attribute with the request. A group's attributes are the
    comma-separated pieces of its `members` string, each whitespace-stripped.
    The request's attributes are compared as given.
  - If no group matches, it inserts a new group whose `members` string is the
    canonical string.
  - It then inserts one user row holding the canonical string and the chosen
    group's id.
- `POST /signin` looks a user up by id. It answers not-found when no row has
  that id, and success otherwise.

The SQLite store becomes a `Database` class with two sequence fields, `groups`
and `users`, holding rows in rowid order. An insert gets the id SQLite gives a
new rowid: 1 in an empty table, otherwise one more than the largest id present.
The HTTP answer becomes a `Response` datatype: 400, 404, 201 with both ids, or
200 with the user id.

Files:

- `pystr.dfy` (module `PyStr`): the Python string built-ins the endpoint uses.
  - String ordering and `sorted`.
  - `','.join` and `str.split(',')`.
  - `str.strip()` with Python's whitespace set.
- `matching.dfy` (module `Matching`): the canonical string, the shared-attribute
  test, and their properties.
- `app.dfy` (module `App`):
  - rows, ids and the store's invariant;
  - the first-match scan, as a loop proved against a recursive specification;
  - the `Database` class with `Signup` and `Signin`.
- `scenarios.dfy` (module `Scenarios`): request sequences on an empty store and
  the answers they must get, derived only from the endpoints' contracts.

Two behaviours of the code shape which requests share a group:

- The stored string is the sorted, joined request, untrimmed. Only the pieces
  read back from a stored string are stripped; request attributes are compared
  as given. So an attribute with whitespace at an end does not match the group
  it created (`Matching.PaddedAttributeMissesOwnGroup`, `Scenarios.PaddedSignups`),
  while the stripped attribute does match it: `x` joins the group of ` x`
  (`Matching.StrippedRequestMatchesPadded`).
- Stored strings are split at every comma, including commas inside an
  attribute; request attributes are not split. So an attribute such as `a,b`
  does not match the group it created (`Matching.CommaAttributeMissesOwnGroup`,
  `Scenarios.CommaSignups`), while `a` alone joins that group although the two
  requests share no attribute (`Matching.CommaPartMatches`,
  `Scenarios.CommaPartSignups`).

This is why several lemmas below assume attributes without commas, or without
whitespace at their ends.

## Model

| member | source | states |
|---|---|---|
| PyStr.LessEqTotal | app.py:18 | any two strings are comparable under the order `sorted` uses |
| PyStr.LessEqAntisymmetric | app.py:18 | strings that are each `<=` the other are equal |
| PyStr.LessEqTransitive | app.py:18 | the string order is transitive |
| PyStr.Insert | app.py:18 | inserting into an ordered list keeps it ordered and adds exactly that one string |
| PyStr.Sort | app.py:18 | `sorted` gives an ordered permutation of its input |
| PyStr.SortedFirstIsLeast | app.py:18 | the head of an ordered list is `<=` every entry |
| PyStr.SortedSameFirst | app.py:18 | two ordered permutations of one multiset start with the same string |
| PyStr.SortedUnique | app.py:18 | an ordered permutation is unique, so `sorted` is fully determined by the multiset of its input |
| PyStr.Split | app.py:24 | `split(',')` gives at least one piece and no piece holds a comma |
| PyStr.JoinSplit | app.py:18-24 | joining the pieces of a split with `,` gives the string back |
| PyStr.SplitWithoutComma | app.py:24 | a comma-free string splits into itself alone |
| PyStr.SplitAtComma | app.py:24 | splitting at a comma gives the pieces of each side |
| PyStr.SplitJoin | app.py:18-24 | splitting a join of comma-free parts gives the parts back, duplicates and empty parts included |
| PyStr.PartIsPiece | app.py:18-24 | a comma-free part of a join is one of its pieces, even when other parts hold commas |
| PyStr.StripTrailing | app.py:24 | removes exactly the trailing whitespace: a prefix is kept, the removed tail is all whitespace, the kept end is not |
| PyStr.Strip | app.py:24 | `strip()` leaves no whitespace at either end |
| PyStr.StripRemovesEnds | app.py:24 | `strip()` removes whitespace at the ends only: the result is a contiguous slice with whitespace on both sides of it |
| PyStr.StripAddsNothing | app.py:24 | every character of a stripped string occurs in the original |
| PyStr.StripFixedIff | app.py:24 | `strip()` leaves a string unchanged if and only if neither end is whitespace |
| Matching.CanonicalIsSortedJoin | app.py:18 | the stored string is the comma-join of the ordered permutation of the request |
| Matching.CanonicalPermutationInvariant | app.py:18 | permutations of one attribute list give the same stored string |
| Matching.CanonicalSplitsBack | app.py:18 | for comma-free attributes the stored string splits back into the sorted request, so it has the same multiset: nothing trimmed, dropped or de-duplicated |
| Matching.MatchesAt | app.py:24-25 | a request attribute equal to a stripped piece of `members` makes the group match |
| Matching.MatchedPiece | app.py:24-25 | a matching group has a stripped piece equal to some request attribute (the converse of `MatchesAt`) |
| Matching.CanonicalHasPiece | app.py:18-24 | each comma-free request attribute is a piece of the stored string |
| Matching.UnchangedPieceMatches | app.py:24-25 | a request attribute that is a piece and is unchanged by `strip()` makes the group match |
| Matching.SharedAttributeMatches | app.py:18-25 | two requests sharing a trimmed, comma-free attribute: the second matches the group the first creates |
| Matching.MatchesCanonicalIff | app.py:18-25 | for a group created from comma-free attributes: it matches if and only if some request attribute equals some stripped attribute of the group |
| Matching.MatchedAttributeOfGroup | app.py:18-25 | the "only if" half of `MatchesCanonicalIff` |
| Matching.AttributeOfGroupMatches | app.py:18-25 | the "if" half of `MatchesCanonicalIff` |
| Matching.DisjointAttributesMiss | app.py:18-25 | a request sharing no attribute with a group created from trimmed, comma-free attributes does not match it |
| Matching.PositionInSort | app.py:18 | every request attribute occurs in its sorted list |
| Matching.SourceOfSorted | app.py:18 | every entry of the sorted list is a request attribute |
| Matching.CanonicalSingle | app.py:18 | a one-attribute request stores that attribute unchanged |
| Matching.CommaAttributeMissesOwnGroup | app.py:18-25 | an attribute holding a comma does not match the group created from itself alone, because only the stored string is split |
| Matching.CommaPartMatches | app.py:18-25 | a trimmed, comma-free `x` matches the group created from `x,y` |
| Matching.StrippedRequestMatchesPadded | app.py:18-25 | the stripped form of a comma-free attribute matches the group created from the unstripped attribute |
| Matching.PaddedAttributeMissesOwnGroup | app.py:18-25 | a comma-free attribute with whitespace at an end does not match the group created from itself, because request attributes are not stripped |
| App.MaxId | app.py:31-35 | the largest id is present in the table and no id exceeds it |
| App.NextId | app.py:31-35 | an inserted row's id is above every id in the table: 1 in an empty table, otherwise one more than an id present |
| App.InsertGroupKeepsValid | app.py:31 | appending a group with the next id keeps ids increasing and every user's `group_id` valid |
| App.InsertUserKeepsValid | app.py:35 | appending a user with the next id, in an existing group, keeps the store's invariant |
| App.FirstMatchFrom | app.py:22-27 | the first group at or after a position that matches; `None` exactly when no group from there on matches |
| App.FirstMatch | app.py:22-27 | the chosen group matches and no earlier group does; `None` if and only if no group matches |
| App.FindGroup | app.py:21-27 | the `for`/`break` scan returns exactly `FirstMatch` |
| App.SelectUser | app.py:44 | `SELECT * FROM users WHERE id = ?` returns exactly the rows with that id |
| App.Database.constructor | app.py:7 | opens the store on the given rows |
| App.Database.InsertGroup | app.py:31-32 | appends one group with the next id and the given `members`, leaves `users` alone, and keeps the invariant |
| App.Database.InsertUser | app.py:35 | appends one user with the next id, leaves `groups` alone, and keeps the invariant when the group exists |
| App.Database.Signup | app.py:10-36 | a missing or empty list gives 400 and changes nothing. Otherwise the answer is 201. If `FirstMatch` finds a group (the earliest match), `groups` is unchanged and that group's id is returned. If nothing matches (its `None` case), exactly one group is appended with the canonical string and a fresh id. Exactly one user row is appended with a fresh id, the canonical string and the chosen group's id. The store's invariant is preserved. |
| App.Database.Signin | app.py:41-47 | not-found (404) if and only if the id is missing or no row has it, otherwise success (200) echoing the id; neither table changes |
| Scenarios.SharedAttributeSignups | app.py:10-36 | two requests sharing a trimmed, comma-free attribute on an empty store get user 1 and user 2, both in group 1 |
| Scenarios.DisjointSignups | app.py:10-36 | a comma-free first request, and a second request none of whose attributes equals a stripped attribute of the first, get groups 1 and 2 |
| Scenarios.PaddedSignups | app.py:10-36 | the same padded, comma-free attribute twice gets two different groups |
| Scenarios.CommaSignups | app.py:10-36 | the same attribute holding a comma, twice, gets two different groups |
| Scenarios.CommaPartSignups | app.py:10-36 | `x,y` and then a trimmed, comma-free `x` alone get user 1 and user 2, both in group 1 |
| Scenarios.FirstSignup | app.py:10-36 | the first signup on an empty store creates group 1 and user 1 with the canonical string |
| Scenarios.SecondSignupJoins | app.py:21-36 | a signup matching the only group joins it as user 2 and adds no group |
| Scenarios.ThirdSignupFounds | app.py:29-36 | a signup matching no group creates group 2 as user 3 |
| Scenarios.SigninsAndEmptySignup | app.py:13-47 | with users 1 to 3: an unknown id cannot sign in, user 1 can, and an empty list is refused |
| Scenarios.ThreeSignups | app.py:10-47 | found, join and found again, then two signins and an empty signup, with all six answers fixed |
| Scenarios.ClientFlow | test_flask_app.py:30-35 | the client script's signup with `attr1` and `attr2` gets user 1 in group 1, and user 1 can then sign in |
| Scenarios.ColourMatches | app.py:24-25 | `blue,green` matches the group of `red,blue`, and `yellow` does not |
| Scenarios.BlueIsShared | app.py:24-25 | `blue,green` matches the group of `red,blue` |
| Scenarios.YellowIsNotShared | app.py:24-25 | `yellow` does not match the group of `red,blue` |
| Scenarios.ColourScenario | app.py:10-47 | the colour requests get `(1,1)`, `(2,1)`, `(3,2)`, then 404, 200 and 400 |

## Left out

- Flask routing, `request.json` parsing and `jsonify`: the endpoints take the already-decoded field and answer a `Response` value. `Response.Status` gives the HTTP status of each answer, and the contracts of `Signup` and `Signin` state it.
- The `cs50` SQL driver and the SQLite file: foreign code. They are replaced by the two row sequences and the rowid rule. SQLite's failure modes are not modelled: a full disk, a locked file, or the rowid limit of 2^63-1.
- JSON values of other types. `attributes` is modelled as absent or a list of strings. A non-list truthy value, such as a string, would be sorted character by character by the source. `user_id` is modelled as absent or an integer. Strings and floats compared under SQLite's type affinity are not modelled.
- The table schema is not part of the source. Ids follow SQLite's rule for an `INTEGER PRIMARY KEY` without `AUTOINCREMENT`: one more than the largest id present, so the id of a deleted top row could be reused. With `AUTOINCREMENT` SQLite never reuses such an id. The service never deletes rows, so the two agree when the store starts empty; on a store opened with existing rows they can differ.
- Concurrent requests. Two signups racing between the scan and the insert are not modelled: each request is one atomic step.
- Sorting by Python's Timsort is modelled by insertion sort. Both give the unique ordered permutation (`PyStr.SortedUnique`), so the stored string is the same.
- The client script `test_flask_app.py` only prints responses. Only its signup-then-signin flow is modelled, by `Scenarios.ClientFlow`. Its `GET /group/{id}` request targets an endpoint the service does not have. It also calls update and delete helpers that the script never defines, so those calls fail before sending any request.
- Token issuance, caching, the work queue, the group query endpoint, and user update and delete are not in the service's code, so they are not part of this model.
