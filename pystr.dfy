/** The Python string built-ins that signup relies on: the ordering `sorted`
    uses, `','.join`, `str.split(',')` and `str.strip()`, written over
    `seq<char>` with the properties the matching rule needs. */
module PyStr {

  /** The separator of a stored attribute string. */
  const Comma: char := ','

  /** Python's `str.isspace()` for one character: the characters `str.strip()`
      with no argument removes. */
  predicate IsSpace(c: char)
  {
    c == ' ' || ('\t' <= c <= '\r') || ('\U{1C}' <= c <= '\U{1F}') ||
    c == '\U{85}' || c == '\U{A0}' || c == '\U{1680}' ||
    ('\U{2000}' <= c <= '\U{200A}') || c == '\U{2028}' || c == '\U{2029}' ||
    c == '\U{202F}' || c == '\U{205F}' || c == '\U{3000}'
  }

  // ---------------------------------------------------------------------
  // Ordering of str values

  /** Python's `a <= b` on two strings: code point by code point, and a
      proper prefix comes first. */
  predicate LessEq(a: string, b: string)
  {
    a == [] || (b != [] && (a[0] < b[0] || (a[0] == b[0] && LessEq(a[1..], b[1..]))))
  }

  lemma {:induction false} LessEqReflexive(a: string)
    ensures LessEq(a, a)
  {
    if a != [] {
      LessEqReflexive(a[1..]);
    }
  }

  lemma {:induction false} LessEqTotal(a: string, b: string)
    ensures LessEq(a, b) || LessEq(b, a)
  {
    if a != [] && b != [] && a[0] == b[0] {
      LessEqTotal(a[1..], b[1..]);
    }
  }

  lemma {:induction false} LessEqAntisymmetric(a: string, b: string)
    requires LessEq(a, b) && LessEq(b, a)
    ensures a == b
  {
    if a != [] {
      LessEqAntisymmetric(a[1..], b[1..]);
      assert a == [a[0]] + a[1..] && b == [b[0]] + b[1..];
    }
  }

  lemma {:induction false} LessEqTransitive(a: string, b: string, c: string)
    requires LessEq(a, b) && LessEq(b, c)
    ensures LessEq(a, c)
  {
    if a != [] && a[0] == b[0] && b[0] == c[0] {
      LessEqTransitive(a[1..], b[1..], c[1..]);
    }
  }

  // ---------------------------------------------------------------------
  // sorted()

  predicate Sorted(s: seq<string>)
  {
    forall i :: 0 < i < |s| ==> LessEq(s[i - 1], s[i])
  }

  /** Puts `x` into its place in the sorted list `s`. */
  function Insert(x: string, s: seq<string>): (r: seq<string>)
    requires Sorted(s)
    ensures Sorted(r) && multiset(r) == multiset(s) + multiset{x}
    ensures |r| == |s| + 1 && (r[0] == x || (s != [] && r[0] == s[0]))
  {
    if s == [] then [x]
    else if LessEq(x, s[0]) then [x] + s
    else
      LessEqTotal(x, s[0]);
      assert s == [s[0]] + s[1..];
      [s[0]] + Insert(x, s[1..])
  }

  /** Python's `sorted(xs)` on a list of strings: an ordered permutation. */
  function Sort(s: seq<string>): (r: seq<string>)
    ensures Sorted(r) && multiset(r) == multiset(s)
  {
    if s == [] then []
    else
      assert s == [s[0]] + s[1..];
      Insert(s[0], Sort(s[1..]))
  }

  lemma {:induction false} SortedFirstIsLeast(s: seq<string>, k: int)
    requires Sorted(s) && 0 <= k < |s|
    ensures LessEq(s[0], s[k])
  {
    if k == 0 {
      LessEqReflexive(s[0]);
    } else {
      SortedFirstIsLeast(s, k - 1);
      LessEqTransitive(s[0], s[k - 1], s[k]);
    }
  }

  lemma SortedTail(s: seq<string>)
    requires Sorted(s) && s != []
    ensures Sorted(s[1..])
  {
    forall i | 0 < i < |s| - 1 ensures LessEq(s[1..][i - 1], s[1..][i]) {
      assert s[1..][i - 1] == s[i] && s[1..][i] == s[i + 1];
    }
  }

  lemma MultisetTail(a: seq<string>, b: seq<string>)
    requires a != [] && b != [] && a[0] == b[0] && multiset(a) == multiset(b)
    ensures multiset(a[1..]) == multiset(b[1..])
  {
    assert a == [a[0]] + a[1..] && b == [b[0]] + b[1..];
    assert multiset(a) == multiset{a[0]} + multiset(a[1..]);
    assert multiset(b) == multiset{b[0]} + multiset(b[1..]);
    assert multiset(a[1..]) == multiset(a) - multiset{a[0]};
    assert multiset(b[1..]) == multiset(b) - multiset{b[0]};
  }

  /** Two ordered permutations of one multiset start with the same string. */
  lemma SortedSameFirst(a: seq<string>, b: seq<string>)
    requires Sorted(a) && Sorted(b) && multiset(a) == multiset(b) && a != []
    ensures b != [] && a[0] == b[0]
  {
    assert |b| == |multiset(b)| == |multiset(a)| == |a|;
    assert a[0] in multiset(b);
    var i :| 0 <= i < |b| && b[i] == a[0];
    SortedFirstIsLeast(b, i);
    assert b[0] in multiset(a);
    var j :| 0 <= j < |a| && a[j] == b[0];
    SortedFirstIsLeast(a, j);
    LessEqAntisymmetric(a[0], b[0]);
  }

  /** An ordered permutation is unique: whichever order the input came in,
      `sorted` gives the same list. */
  lemma {:induction false} SortedUnique(a: seq<string>, b: seq<string>)
    requires Sorted(a) && Sorted(b) && multiset(a) == multiset(b)
    ensures a == b
  {
    if a == [] {
      assert |b| == |multiset(b)| == 0;
    } else {
      SortedSameFirst(a, b);
      SortedTail(a);
      SortedTail(b);
      MultisetTail(a, b);
      SortedUnique(a[1..], b[1..]);
      assert a == [a[0]] + a[1..] && b == [b[0]] + b[1..];
    }
  }

  // ---------------------------------------------------------------------
  // ','.join() and str.split(',')

  /** Python's `','.join(parts)`. */
  function Join(parts: seq<string>): string
  {
    if parts == [] then ""
    else if |parts| == 1 then parts[0]
    else parts[0] + [Comma] + Join(parts[1..])
  }

  /** Python's `s.split(',')`: always at least one piece, none holding a comma. */
  function Split(s: string): (pieces: seq<string>)
    ensures |pieces| >= 1
    ensures forall k :: 0 <= k < |pieces| ==> Comma !in pieces[k]
  {
    if s == [] then [""]
    else
      var rest := Split(s[1..]);
      if s[0] == Comma then [""] + rest
      else [[s[0]] + rest[0]] + rest[1..]
  }

  /** Joining the pieces of a split gives the string back. */
  lemma {:induction false} JoinSplit(s: string)
    ensures Join(Split(s)) == s
  {
    if s != [] {
      JoinSplit(s[1..]);
      assert s == [s[0]] + s[1..];
    }
  }

  lemma {:induction false} SplitWithoutComma(p: string)
    requires Comma !in p
    ensures Split(p) == [p]
  {
    if p != [] {
      SplitWithoutComma(p[1..]);
      assert p == [p[0]] + p[1..];
    }
  }

  /** A comma in the middle splits into the pieces of each side. */
  lemma {:induction false} SplitAtComma(x: string, y: string)
    ensures Split(x + [Comma] + y) == Split(x) + Split(y)
  {
    if x != [] {
      SplitAtComma(x[1..], y);
      assert (x + [Comma] + y)[1..] == x[1..] + [Comma] + y;
    } else {
      assert (x + [Comma] + y)[1..] == y;
    }
  }

  /** Splitting a join gives the parts back when no part holds a comma. */
  lemma {:induction false} SplitJoin(parts: seq<string>)
    requires parts != []
    requires forall k :: 0 <= k < |parts| ==> Comma !in parts[k]
    ensures Split(Join(parts)) == parts
  {
    SplitWithoutComma(parts[0]);
    if |parts| > 1 {
      SplitJoin(parts[1..]);
      SplitAtComma(parts[0], Join(parts[1..]));
      assert parts == [parts[0]] + parts[1..];
    }
  }

  /** A comma-free part of a join is one of the pieces of its split, even
      when other parts hold commas. */
  lemma {:induction false} PartIsPiece(parts: seq<string>, p: string)
    requires p in parts && Comma !in p
    ensures p in Split(Join(parts))
  {
    if |parts| == 1 {
      SplitWithoutComma(p);
    } else {
      SplitAtComma(parts[0], Join(parts[1..]));
      if p == parts[0] {
        SplitWithoutComma(p);
      } else {
        PartIsPiece(parts[1..], p);
      }
    }
  }

  // ---------------------------------------------------------------------
  // str.strip()

  /** Neither end of `s` is whitespace. */
  predicate Trimmed(s: string)
  {
    s == [] || (!IsSpace(s[0]) && !IsSpace(s[|s| - 1]))
  }

  function StripTrailing(s: string): (r: string)
    ensures |r| <= |s| && r == s[..|r|]
    ensures forall k :: |r| <= k < |s| ==> IsSpace(s[k])
    ensures r == [] || !IsSpace(r[|r| - 1])
  {
    if s != [] && IsSpace(s[|s| - 1]) then StripTrailing(s[..|s| - 1]) else s
  }

  /** `r` is `s` with the whitespace `s[..i]` and `s[i + |r|..]` removed. */
  predicate StrippedAt(s: string, r: string, i: int)
  {
    0 <= i <= |s| - |r| && r == s[i..i + |r|] &&
    (forall k :: 0 <= k < i ==> IsSpace(s[k])) &&
    (forall k :: i + |r| <= k < |s| ==> IsSpace(s[k]))
  }

  /** Python's `s.strip()`: whitespace removed from both ends. */
  function Strip(s: string): (r: string)
    ensures Trimmed(r)
  {
    if s != [] && IsSpace(s[0]) then Strip(s[1..])
    else
      var r := StripTrailing(s);
      assert r != [] ==> r[0] == s[0];
      r
  }

  /** What `strip()` removes is whitespace, and only from the ends. */
  lemma {:induction false} StripRemovesEnds(s: string)
    ensures exists i :: StrippedAt(s, Strip(s), i)
  {
    if s != [] && IsSpace(s[0]) {
      StripRemovesEnds(s[1..]);
      var i :| StrippedAt(s[1..], Strip(s[1..]), i);
      assert StrippedAt(s, Strip(s), i + 1);
    } else {
      assert StrippedAt(s, Strip(s), 0);
    }
  }

  /** `strip()` leaves a string alone exactly when neither end is whitespace. */
  lemma {:induction false} StripFixedIff(s: string)
    ensures Strip(s) == s <==> Trimmed(s)
  {
    if Trimmed(s) && s != [] {
      var r := Strip(s);
      StripRemovesEnds(s);
      var i :| StrippedAt(s, r, i);
      assert i == 0;
      assert i + |r| == |s|;
    }
  }

  /** `strip()` only removes characters: whatever it keeps was in the input. */
  lemma StripAddsNothing(s: string, c: char)
    requires c in Strip(s)
    ensures c in s
  {
    StripRemovesEnds(s);
    var i :| StrippedAt(s, Strip(s), i);
    var k :| 0 <= k < |Strip(s)| && Strip(s)[k] == c;
    assert s[i + k] == c;
  }
}
