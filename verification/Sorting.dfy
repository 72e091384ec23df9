/** Sorting by a text key in code-unit order. */
module Sorting {
  import opened Prelude
  import opened Text

  /** Every key before a later one: strict order, so keys are distinct. */
  ghost predicate StrictlySorted<T>(key: T -> string, s: seq<T>) {
    forall i, j :: 0 <= i < j < |s| ==> Less(key(s[i]), key(s[j]))
  }

  ghost predicate DistinctKeys<T>(key: T -> string, s: seq<T>) {
    forall i, j :: 0 <= i < j < |s| ==> key(s[i]) != key(s[j])
  }

  function InsertBy<T>(key: T -> string, x: T, s: seq<T>): seq<T> {
    if s == [] || !Less(key(s[0]), key(x)) then [x] + s else [s[0]] + InsertBy(key, x, s[1..])
  }

  /** `list.sort((a, b) => a.key < b.key ? -1 : a.key > b.key ? 1 : 0)`, which is stable. */
  function SortBy<T>(key: T -> string, s: seq<T>): seq<T> {
    if s == [] then [] else InsertBy(key, s[0], SortBy(key, s[1..]))
  }

  lemma {:induction false} InsertByElements<T(!new)>(key: T -> string, x: T, s: seq<T>)
    ensures multiset(InsertBy(key, x, s)) == multiset{x} + multiset(s)
  {
    if s != [] {
      assert s == [s[0]] + s[1..];
      if Less(key(s[0]), key(x)) {
        InsertByElements(key, x, s[1..]);
      }
    }
  }

  lemma {:induction false} SortByElements<T(!new)>(key: T -> string, s: seq<T>)
    ensures multiset(SortBy(key, s)) == multiset(s)
    ensures |SortBy(key, s)| == |s|
    ensures forall x :: x in SortBy(key, s) <==> x in s
  {
    if s != [] {
      assert s == [s[0]] + s[1..];
      SortByElements(key, s[1..]);
      InsertByElements(key, s[0], SortBy(key, s[1..]));
    }
    assert |multiset(SortBy(key, s))| == |multiset(s)|;
    forall x ensures x in SortBy(key, s) <==> x in s {
      assert x in SortBy(key, s) <==> x in multiset(SortBy(key, s));
      assert x in s <==> x in multiset(s);
    }
  }

  lemma {:induction false} InsertBySorted<T(!new)>(key: T -> string, x: T, s: seq<T>)
    requires StrictlySorted(key, s) && forall y :: y in s ==> key(y) != key(x)
    ensures StrictlySorted(key, InsertBy(key, x, s))
  {
    if s != [] {
      LessTotal(key(s[0]), key(x));
      assert s[0] in s;
      if Less(key(s[0]), key(x)) {
        var tail := InsertBy(key, x, s[1..]);
        InsertBySorted(key, x, s[1..]);
        InsertByElements(key, x, s[1..]);
        forall j | 0 <= j < |tail| ensures Less(key(s[0]), key(tail[j])) {
          assert tail[j] in multiset(tail);
          if tail[j] != x {
            assert tail[j] in s[1..];
          }
        }
      } else {
        forall j | 0 <= j < |s| ensures Less(key(x), key(s[j])) {
          if j > 0 {
            LessTransitive(key(x), key(s[0]), key(s[j]));
          }
        }
      }
    }
  }

  lemma {:induction false} SortBySorted<T(!new)>(key: T -> string, s: seq<T>)
    requires DistinctKeys(key, s)
    ensures StrictlySorted(key, SortBy(key, s))
  {
    if s != [] {
      SortBySorted(key, s[1..]);
      SortByElements(key, s[1..]);
      forall y | y in SortBy(key, s[1..]) ensures key(y) != key(s[0]) {
        assert y in s[1..];
        var i :| 0 <= i < |s[1..]| && s[1..][i] == y;
        assert s[i + 1] == y;
      }
      InsertBySorted(key, s[0], SortBy(key, s[1..]));
    }
  }

  /** A strictly sorted list is determined by its elements. */
  lemma {:induction false} SortedIsUnique<T(!new)>(key: T -> string, a: seq<T>, b: seq<T>)
    requires StrictlySorted(key, a) && StrictlySorted(key, b)
    requires forall x :: x in a <==> x in b
    ensures a == b
    decreases |a|
  {
    if a == [] {
      EmptyOrMember(b);
    } else {
      assert a[0] in a && a[0] in b;
      assert b != [] && b[0] in b && b[0] in a;
      SameHead(key, a, b);
      forall x ensures x in a[1..] <==> x in b[1..] {
        TailMembers(key, a, x);
        TailMembers(key, b, x);
      }
      SortedIsUnique(key, a[1..], b[1..]);
      assert a == [a[0]] + a[1..] && b == [b[0]] + b[1..];
    }
  }

  lemma {:induction false} SameHead<T(!new)>(key: T -> string, a: seq<T>, b: seq<T>)
    requires StrictlySorted(key, a) && StrictlySorted(key, b) && a != [] && b != [] && a[0] in b && b[0] in a
    ensures a[0] == b[0]
  {
    var i :| 0 <= i < |b| && b[i] == a[0];
    var j :| 0 <= j < |a| && a[j] == b[0];
    LessTotal(key(a[0]), key(b[0]));
  }

  lemma {:induction false} TailMembers<T(!new)>(key: T -> string, a: seq<T>, x: T)
    requires StrictlySorted(key, a) && a != []
    ensures x in a[1..] <==> x in a && x != a[0]
  {
    assert a == [a[0]] + a[1..];
    LessTotal(key(a[0]), key(a[0]));
    if x in a[1..] {
      var i :| 0 <= i < |a[1..]| && a[1..][i] == x;
      assert a[i + 1] == x;
    }
  }

  /** Sorting lists of the same elements with distinct keys gives the same list. */
  lemma {:induction false} SortOfSameElements<T(!new)>(key: T -> string, a: seq<T>, b: seq<T>)
    requires DistinctKeys(key, a) && DistinctKeys(key, b)
    requires forall x :: x in a <==> x in b
    ensures SortBy(key, a) == SortBy(key, b)
  {
    SortBySorted(key, a);
    SortBySorted(key, b);
    SortByElements(key, a);
    SortByElements(key, b);
    SortedIsUnique(key, SortBy(key, a), SortBy(key, b));
  }

  // ----- non-strict order, when keys may repeat -----

  ghost predicate Ordered<T>(key: T -> string, s: seq<T>) {
    forall i, j :: 0 <= i < j < |s| ==> !Less(key(s[j]), key(s[i]))
  }

  lemma {:induction false} NotLessTransitive(a: string, b: string, c: string)
    requires !Less(b, a) && !Less(c, b)
    ensures !Less(c, a)
  {
    LessTotal(a, b);
    LessTotal(b, c);
    LessTotal(a, c);
    if Less(a, b) && Less(b, c) {
      LessTransitive(a, b, c);
    }
  }

  lemma {:induction false} InsertByOrdered<T(!new)>(key: T -> string, x: T, s: seq<T>)
    requires Ordered(key, s)
    ensures Ordered(key, InsertBy(key, x, s))
  {
    hide Less;
    if s == [] || !Less(key(s[0]), key(x)) {
      forall j | 0 <= j < |s| ensures !Less(key(s[j]), key(x)) {
        LessTotal(key(s[0]), key(s[0]));
        NotLessTransitive(key(x), key(s[0]), key(s[j]));
      }
    } else {
      InsertByOrdered(key, x, s[1..]);
      InsertByElements(key, x, s[1..]);
      LessTotal(key(s[0]), key(x));
      var r := InsertBy(key, x, s[1..]);
      forall j | 0 <= j < |r| ensures !Less(key(r[j]), key(s[0])) {
        assert r[j] in multiset(r);
        assert r[j] == x || r[j] in s[1..];
      }
    }
  }

  lemma {:induction false} SortByOrdered<T(!new)>(key: T -> string, s: seq<T>)
    ensures Ordered(key, SortBy(key, s))
  {
    if s != [] {
      SortByOrdered(key, s[1..]);
      InsertByOrdered(key, s[0], SortBy(key, s[1..]));
    }
  }
}
