/** Clients of the store that run the signup and signin endpoints on a
    fresh, empty database and pin down what they answer, using nothing but
    the endpoints' contracts and the lemmas about matching. */
module Scenarios {
  import opened PyStr
  import opened Matching
  import opened App

  /** Two signups that share an attribute (one without commas or surrounding
      whitespace) end up in the group the first one created. */
  method SharedAttributeSignups(first: seq<string>, second: seq<string>, shared: string)
      returns (r1: Response, r2: Response)
    requires shared in first && shared in second
    requires Comma !in shared && Trimmed(shared)
    ensures r1 == Created(1, 1) && r2 == Created(2, 1)
  {
    var db := new Database([], []);
    r1 := db.Signup(Some(first));
    SharedAttributeMatches(first, second, shared);
    r2 := db.Signup(Some(second));
  }

  /** Two signups where no attribute of the second equals a stripped attribute
      of the first (which holds no commas) get two different groups. */
  method DisjointSignups(first: seq<string>, second: seq<string>)
      returns (r1: Response, r2: Response)
    requires first != [] && second != []
    requires forall j :: 0 <= j < |first| ==> Comma !in first[j]
    requires forall i, j :: 0 <= i < |second| && 0 <= j < |first| ==> second[i] != Strip(first[j])
    ensures r1 == Created(1, 1) && r2 == Created(2, 2)
  {
    var db := new Database([], []);
    r1 := db.Signup(Some(first));
    MatchesCanonicalIff(first, second);
    r2 := db.Signup(Some(second));
  }

  /** Signing up twice with the same attribute, surrounded by whitespace,
      creates two groups: the stored pieces are stripped, the request is not. */
  method PaddedSignups(a: string) returns (r1: Response, r2: Response)
    requires Comma !in a && !Trimmed(a)
    ensures r1 == Created(1, 1) && r2 == Created(2, 2)
  {
    var db := new Database([], []);
    r1 := db.Signup(Some([a]));
    PaddedAttributeMissesOwnGroup(a);
    r2 := db.Signup(Some([a]));
  }

  /** Signing up twice with one attribute that holds a comma, such as `a,b`,
      creates two groups: the stored string is split at the comma, the
      request attribute is not. */
  method CommaSignups(a: string) returns (r1: Response, r2: Response)
    requires Comma in a
    ensures r1 == Created(1, 1) && r2 == Created(2, 2)
  {
    var db := new Database([], []);
    r1 := db.Signup(Some([a]));
    CommaAttributeMissesOwnGroup(a);
    r2 := db.Signup(Some([a]));
  }

  /** A signup for `x` alone joins the group created by `x,y`, although the
      two requests share no attribute. */
  method CommaPartSignups(x: string, y: string) returns (r1: Response, r2: Response)
    requires Comma !in x && Trimmed(x)
    ensures r1 == Created(1, 1) && r2 == Created(2, 1)
  {
    var db := new Database([], []);
    r1 := db.Signup(Some([x + [Comma] + y]));
    CommaPartMatches(x, y);
    r2 := db.Signup(Some([x]));
  }

  /** The first signup on an empty store founds group 1 and user 1. */
  method FirstSignup(a: seq<string>) returns (db: Database, r: Response)
    requires a != []
    ensures fresh(db) && db.Valid() && r == Created(1, 1)
    ensures db.groups == [Group(1, Canonical(a))] && db.users == [User(1, Canonical(a), 1)]
  {
    db := new Database([], []);
    r := db.Signup(Some(a));
  }

  /** A second signup matching the only group joins it as user 2. */
  method SecondSignupJoins(db: Database, a: seq<string>, b: seq<string>) returns (r: Response)
    requires b != [] && Matches(Canonical(a), b)
    requires db.groups == [Group(1, Canonical(a))] && db.users == [User(1, Canonical(a), 1)]
    modifies db
    ensures r == Created(2, 1)
    ensures db.groups == [Group(1, Canonical(a))]
    ensures db.users == [User(1, Canonical(a), 1), User(2, Canonical(b), 1)]
  {
    r := db.Signup(Some(b));
  }

  /** A third signup matching no group founds group 2 as user 3. */
  method ThirdSignupFounds(db: Database, a: seq<string>, c: seq<string>) returns (r: Response)
    requires c != [] && !Matches(Canonical(a), c)
    requires db.groups == [Group(1, Canonical(a))]
    requires |db.users| == 2 && db.users[0].id == 1 && db.users[1].id == 2
    modifies db
    ensures r == Created(3, 2)
    ensures db.groups == [Group(1, Canonical(a)), Group(2, Canonical(c))]
    ensures |db.users| == 3 && db.users[0].id == 1 && db.users[1].id == 2 && db.users[2].id == 3
  {
    assert FirstMatch(db.groups, c) == None;
    assert NextId(GroupIds(db.groups)) == 2;
    assert NextId(UserIds(db.users)) == 3;
    r := db.Signup(Some(c));
  }

  /** With users 1, 2 and 3 in the store, an unknown id cannot sign in, user 1
      can, and a signup without attributes is refused. */
  method SigninsAndEmptySignup(db: Database) returns (r4: Response, r5: Response, r6: Response)
    requires |db.users| == 3 && db.users[0].id == 1 && db.users[1].id == 2 && db.users[2].id == 3
    modifies db
    ensures r4 == UserNotFound && r5 == SignedIn(1) && r6 == AttributesRequired
  {
    assert UserIds(db.users) == [1, 2, 3];
    r4 := db.Signin(Some(999));
    r5 := db.Signin(Some(1));
    r6 := db.Signup(Some([]));
  }

  /** Three signups where the second matches the first one's group and the
      third does not, then two signins and a signup without attributes. */
  method ThreeSignups(a: seq<string>, b: seq<string>, c: seq<string>) returns (responses: seq<Response>)
    requires a != [] && b != [] && c != []
    requires Matches(Canonical(a), b) && !Matches(Canonical(a), c)
    ensures responses == [Created(1, 1), Created(2, 1), Created(3, 2), UserNotFound, SignedIn(1), AttributesRequired]
  {
    var db, r1 := FirstSignup(a);
    var r2 := SecondSignupJoins(db, a, b);
    var r3 := ThirdSignupFounds(db, a, c);
    var r4, r5, r6 := SigninsAndEmptySignup(db);
    responses := [r1, r2, r3, r4, r5, r6];
  }

  /** The client script's flow on an empty store: signing up with attr1 and
      attr2 creates user 1 in group 1, and user 1 can then sign in. */
  method ClientFlow() returns (responses: seq<Response>)
    ensures responses == [Created(1, 1), SignedIn(1)]
  {
    var db, r1 := FirstSignup(["attr1", "attr2"]);
    assert UserIds(db.users) == [1];
    var r2 := db.Signin(Some(1));
    responses := [r1, r2];
  }

  /** Red and blue found group 1, blue and green join it, yellow founds
      group 2; an unknown user cannot sign in and the first user can. */
  method ColourScenario() returns (responses: seq<Response>)
    ensures responses == [Created(1, 1), Created(2, 1), Created(3, 2), UserNotFound, SignedIn(1), AttributesRequired]
  {
    ColourMatches();
    responses := ThreeSignups(["red", "blue"], ["blue", "green"], ["yellow"]);
  }

  /** Blue and green share "blue" with red and blue; yellow shares nothing. */
  lemma ColourMatches()
    ensures Matches(Canonical(["red", "blue"]), ["blue", "green"])
    ensures !Matches(Canonical(["red", "blue"]), ["yellow"])
  {
    BlueIsShared();
    YellowIsNotShared();
  }

  lemma BlueIsShared()
    ensures Matches(Canonical(["red", "blue"]), ["blue", "green"])
  {
    assert "blue" in ["blue", "green"] && "blue" in ["red", "blue"];
    SharedAttributeMatches(["red", "blue"], ["blue", "green"], "blue");
  }

  lemma YellowIsNotShared()
    ensures !Matches(Canonical(["red", "blue"]), ["yellow"])
  {
    assert Trimmed("red") && Trimmed("blue");
    DisjointAttributesMiss(["red", "blue"], ["yellow"]);
  }
}
