/** The two expressions at the heart of signup: the canonical attribute
    string (`','.join(sorted(attributes))`) and the "any shared attribute"
    test of a request against one group's `members` string. */
module Matching {
  import opened PyStr

  /** The string a signup stores, for its new group and for its user row. */
  function Canonical(attrs: seq<string>): string
  {
    Join(Sort(attrs))
  }

  /** The canonical string is the join of THE ordered permutation of the
      request, whatever order the request listed its attributes in. */
  lemma CanonicalIsSortedJoin(attrs: seq<string>, s: seq<string>)
    requires Sorted(s) && multiset(s) == multiset(attrs)
    ensures Canonical(attrs) == Join(s)
  {
    SortedUnique(Sort(attrs), s);
  }

  /** Two permutations of one attribute list give one canonical string. */
  lemma CanonicalPermutationInvariant(a: seq<string>, b: seq<string>)
    requires multiset(a) == multiset(b)
    ensures Canonical(a) == Canonical(b)
  {
    CanonicalIsSortedJoin(b, Sort(a));
  }

  /** Nothing is trimmed, dropped or merged: when no attribute holds a comma,
      splitting the canonical string gives back every attribute, duplicates
      included, in order. */
  lemma CanonicalSplitsBack(attrs: seq<string>)
    requires attrs != []
    requires forall i :: 0 <= i < |attrs| ==> Comma !in attrs[i]
    ensures Split(Canonical(attrs)) == Sort(attrs)
    ensures multiset(Split(Canonical(attrs))) == multiset(attrs)
  {
    var s := Sort(attrs);
    assert |s| == |multiset(s)| == |multiset(attrs)| == |attrs|;
    forall k | 0 <= k < |s| ensures Comma !in s[k] {
      assert s[k] in multiset(attrs);
    }
    SplitJoin(s);
  }

  /** `[attr.strip() for attr in members.split(',')]` */
  function GroupAttributes(members: string): seq<string>
  {
    var pieces := Split(members);
    seq(|pieces|, k requires 0 <= k < |pieces| => Strip(pieces[k]))
  }

  /** A group matches a request when some request attribute, taken as given,
      is one of the group's stripped comma-separated pieces:
      `any(attr in group_attributes for attr in attributes)`. */
  predicate Matches(members: string, attrs: seq<string>)
  {
    exists i :: 0 <= i < |attrs| && attrs[i] in GroupAttributes(members)
  }

  /** Request attribute `i` equal to stripped piece `k` makes the group match. */
  lemma MatchesAt(members: string, attrs: seq<string>, i: int, k: int)
    requires 0 <= i < |attrs| && 0 <= k < |Split(members)|
    requires attrs[i] == Strip(Split(members)[k])
    ensures Matches(members, attrs)
  {
    assert GroupAttributes(members)[k] == attrs[i];
  }

  /** A matching group has a stripped piece equal to a request attribute. */
  lemma MatchedPiece(members: string, attrs: seq<string>) returns (i: int, k: int)
    requires Matches(members, attrs)
    ensures 0 <= i < |attrs| && 0 <= k < |Split(members)|
    ensures attrs[i] == Strip(Split(members)[k])
  {
    var pool := GroupAttributes(members);
    i :| 0 <= i < |attrs| && attrs[i] in pool;
    k :| 0 <= k < |pool| && pool[k] == attrs[i];
  }

  /** Every comma-free attribute of a request is a piece of its canonical
      string, even when other attributes hold commas. */
  lemma CanonicalHasPiece(attrs: seq<string>, a: string)
    requires a in attrs && Comma !in a
    ensures a in Split(Canonical(attrs))
  {
    assert a in multiset(attrs);
    PartIsPiece(Sort(attrs), a);
  }

  /** A shared attribute with no comma and no surrounding whitespace makes
      the request match the group created from the other request. */
  lemma SharedAttributeMatches(groupAttrs: seq<string>, attrs: seq<string>, a: string)
    requires a in groupAttrs && a in attrs
    requires Comma !in a && Trimmed(a)
    ensures Matches(Canonical(groupAttrs), attrs)
  {
    CanonicalHasPiece(groupAttrs, a);
    StripFixedIff(a);
    UnchangedPieceMatches(Canonical(groupAttrs), attrs, a);
  }

  lemma UnchangedPieceMatches(members: string, attrs: seq<string>, a: string)
    requires a in Split(members) && a in attrs && Strip(a) == a
    ensures Matches(members, attrs)
  {
    var i :| 0 <= i < |attrs| && attrs[i] == a;
    var k :| 0 <= k < |Split(members)| && Split(members)[k] == a;
    MatchesAt(members, attrs, i, k);
  }

  /** For a group created from comma-free attributes, matching is exactly
      "some request attribute equals some stripped attribute of the group". */
  lemma MatchesCanonicalIff(groupAttrs: seq<string>, attrs: seq<string>)
    requires groupAttrs != []
    requires forall j :: 0 <= j < |groupAttrs| ==> Comma !in groupAttrs[j]
    ensures Matches(Canonical(groupAttrs), attrs) <==>
      exists i, j :: 0 <= i < |attrs| && 0 <= j < |groupAttrs| && attrs[i] == Strip(groupAttrs[j])
  {
    CanonicalSplitsBack(groupAttrs);
    if Matches(Canonical(groupAttrs), attrs) {
      MatchedAttributeOfGroup(groupAttrs, attrs);
    }
    if exists i, j :: 0 <= i < |attrs| && 0 <= j < |groupAttrs| && attrs[i] == Strip(groupAttrs[j]) {
      var i, j :| 0 <= i < |attrs| && 0 <= j < |groupAttrs| && attrs[i] == Strip(groupAttrs[j]);
      AttributeOfGroupMatches(groupAttrs, attrs, i, j);
    }
  }

  /** A request that shares no attribute with a group created from trimmed,
      comma-free attributes does not match that group. */
  lemma DisjointAttributesMiss(groupAttrs: seq<string>, attrs: seq<string>)
    requires groupAttrs != []
    requires forall j :: 0 <= j < |groupAttrs| ==> Comma !in groupAttrs[j] && Trimmed(groupAttrs[j])
    requires forall i :: 0 <= i < |attrs| ==> attrs[i] !in groupAttrs
    ensures !Matches(Canonical(groupAttrs), attrs)
  {
    MatchesCanonicalIff(groupAttrs, attrs);
    forall i, j | 0 <= i < |attrs| && 0 <= j < |groupAttrs|
      ensures attrs[i] != Strip(groupAttrs[j])
    {
      StripFixedIff(groupAttrs[j]);
    }
  }

  lemma MatchedAttributeOfGroup(groupAttrs: seq<string>, attrs: seq<string>)
    requires Split(Canonical(groupAttrs)) == Sort(groupAttrs)
    requires Matches(Canonical(groupAttrs), attrs)
    ensures exists i, j :: 0 <= i < |attrs| && 0 <= j < |groupAttrs| && attrs[i] == Strip(groupAttrs[j])
  {
    var i, k := MatchedPiece(Canonical(groupAttrs), attrs);
    var j := SourceOfSorted(groupAttrs, k);
    assert attrs[i] == Strip(groupAttrs[j]);
  }

  lemma AttributeOfGroupMatches(groupAttrs: seq<string>, attrs: seq<string>, i: int, j: int)
    requires Split(Canonical(groupAttrs)) == Sort(groupAttrs)
    requires 0 <= i < |attrs| && 0 <= j < |groupAttrs| && attrs[i] == Strip(groupAttrs[j])
    ensures Matches(Canonical(groupAttrs), attrs)
  {
    var k := PositionInSort(groupAttrs, j);
    MatchesAt(Canonical(groupAttrs), attrs, i, k);
  }

  /** Where attribute `j` of a request lands in its ordered permutation. */
  lemma PositionInSort(attrs: seq<string>, j: int) returns (k: int)
    requires 0 <= j < |attrs|
    ensures 0 <= k < |Sort(attrs)| && Sort(attrs)[k] == attrs[j]
  {
    var s := Sort(attrs);
    assert attrs[j] in multiset(attrs);
    k :| 0 <= k < |s| && s[k] == attrs[j];
  }

  /** Where entry `k` of an ordered permutation came from in the request. */
  lemma SourceOfSorted(attrs: seq<string>, k: int) returns (j: int)
    requires 0 <= k < |Sort(attrs)|
    ensures 0 <= j < |attrs| && attrs[j] == Sort(attrs)[k]
  {
    var s := Sort(attrs);
    assert s[k] in multiset(s);
    j :| 0 <= j < |attrs| && attrs[j] == s[k];
  }

  /** A one-attribute request stores that attribute unchanged. */
  lemma CanonicalSingle(a: string)
    ensures Canonical([a]) == a
  {
    assert Sort([a]) == [a] by {
      assert |Sort([a])| == |multiset(Sort([a]))| == 1;
      assert Sort([a])[0] in multiset([a]);
    }
  }

  /** Request attributes are not stripped: one whose ends are whitespace does
      not match the group created from itself alone. */
  lemma {:induction false} PaddedAttributeMissesOwnGroup(a: string)
    requires Comma !in a && !Trimmed(a)
    ensures !Matches(Canonical([a]), [a])
  {
    CanonicalSingle(a);
    SplitWithoutComma(a);
    StripFixedIff(a);
  }

  /** Stored strings are split at commas but request attributes are not: an
      attribute holding a comma does not match the group created from itself
      alone. */
  lemma CommaAttributeMissesOwnGroup(a: string)
    requires Comma in a
    ensures !Matches(Canonical([a]), [a])
  {
    CanonicalSingle(a);
    if Matches(a, [a]) {
      var i, k := MatchedPiece(a, [a]);
      StripAddsNothing(Split(a)[k], Comma);
      assert false;
    }
  }

  /** Each comma-separated part of an attribute with commas is matched on its
      own: the group created from `x,y` takes a request for `x` alone. */
  lemma CommaPartMatches(x: string, y: string)
    requires Comma !in x && Trimmed(x)
    ensures Matches(Canonical([x + [Comma] + y]), [x])
  {
    var a := x + [Comma] + y;
    CanonicalSingle(a);
    SplitAtComma(x, y);
    SplitWithoutComma(x);
    StripFixedIff(x);
    MatchesAt(a, [x], 0, 0);
  }

  /** Stored pieces are stripped: the group created from a padded attribute
      takes a request for the stripped attribute, such as `x` after ` x`. */
  lemma StrippedRequestMatchesPadded(a: string)
    requires Comma !in a
    ensures Matches(Canonical([a]), [Strip(a)])
  {
    CanonicalSingle(a);
    SplitWithoutComma(a);
    MatchesAt(a, [Strip(a)], 0, 0);
  }
}
