/** A stable sort and counting over sequences. */
module Sorting {

  ghost predicate TotalPreorder<T(!new)>(le: (T, T) -> bool) {
    && (forall a, b :: le(a, b) || le(b, a))
    && (forall a, b, c :: le(a, b) && le(b, c) ==> le(a, c))
  }

  ghost predicate IsSorted<T>(s: seq<T>, le: (T, T) -> bool) {
    forall i, j :: 0 <= i < j < |s| ==> le(s[i], s[j])
  }

  function Insert<T>(x: T, s: seq<T>, le: (T, T) -> bool): seq<T> {
    if s == [] || le(x, s[0]) then [x] + s else [s[0]] + Insert(x, s[1..], le)
  }

  function Sort<T>(s: seq<T>, le: (T, T) -> bool): seq<T> {
    if s == [] then [] else Insert(s[0], Sort(s[1..], le), le)
  }

  lemma {:induction false} InsertContents<T>(x: T, s: seq<T>, le: (T, T) -> bool)
    ensures multiset(Insert(x, s, le)) == multiset([x]) + multiset(s)
  {
    if s != [] && !le(x, s[0]) {
      InsertContents(x, s[1..], le);
      assert s == [s[0]] + s[1..];
    }
  }

  lemma {:induction false} InsertSorted<T(!new)>(x: T, s: seq<T>, le: (T, T) -> bool)
    requires TotalPreorder(le) && IsSorted(s, le)
    ensures IsSorted(Insert(x, s, le), le)
  {
    if s != [] && !le(x, s[0]) {
      InsertSorted(x, s[1..], le);
      var rest := Insert(x, s[1..], le);
      InsertContents(x, s[1..], le);
      forall j | 0 <= j < |rest| ensures le(s[0], rest[j]) {
        assert rest[j] in multiset(rest);
        assert rest[j] == x || rest[j] in s[1..];
      }
    }
  }

  /** Sorting rearranges. */
  lemma {:induction false} SortContents<T>(s: seq<T>, le: (T, T) -> bool)
    ensures multiset(Sort(s, le)) == multiset(s) && |Sort(s, le)| == |s|
  {
    if s != [] {
      SortContents(s[1..], le);
      InsertContents(s[0], Sort(s[1..], le), le);
      assert s == [s[0]] + s[1..];
    }
    assert |multiset(Sort(s, le))| == |Sort(s, le)|;
  }

  lemma {:induction false} SortSorted<T(!new)>(s: seq<T>, le: (T, T) -> bool)
    requires TotalPreorder(le)
    ensures IsSorted(Sort(s, le), le)
  {
    if s != [] {
      SortSorted(s[1..], le);
      InsertSorted(s[0], Sort(s[1..], le), le);
    }
  }

  lemma SortMembers<T>(s: seq<T>, le: (T, T) -> bool)
    ensures forall x :: x in Sort(s, le) <==> x in s
  {
    SortContents(s, le);
    forall x ensures x in Sort(s, le) <==> x in s {
      assert x in multiset(Sort(s, le)) <==> x in multiset(s);
    }
  }

  /** Two sorted arrangements of the same entries are equal when the order tells the entries apart. */
  lemma {:induction false} SortedUnique<T(!new)>(a: seq<T>, b: seq<T>, le: (T, T) -> bool)
    requires multiset(a) == multiset(b) && IsSorted(a, le) && IsSorted(b, le)
    requires forall x, y :: x in a && y in a && le(x, y) && le(y, x) ==> x == y
    ensures a == b
  {
    hide IsSorted;
    assert |multiset(a)| == |a| && |multiset(b)| == |b|;
    if a != [] {
      SameFirst(a, b, le);
      var x, s, t := a[0], a[1..], b[1..];
      assert a == [x] + s && b == [x] + t;
      assert multiset(s) == multiset(a) - multiset{x} && multiset(t) == multiset(b) - multiset{x};
      TailSorted(a, le);
      TailSorted(b, le);
      SortedUnique(s, t, le);
    }
  }

  lemma TailSorted<T>(s: seq<T>, le: (T, T) -> bool)
    requires s != [] && IsSorted(s, le)
    ensures IsSorted(s[1..], le) && forall x :: x in s[1..] ==> x in s
  {}

  lemma SameFirst<T(!new)>(a: seq<T>, b: seq<T>, le: (T, T) -> bool)
    requires a != [] && b != [] && multiset(a) == multiset(b) && IsSorted(a, le) && IsSorted(b, le)
    requires forall x, y :: x in a && y in a && le(x, y) && le(y, x) ==> x == y
    ensures a[0] == b[0]
  {
    var x, y := a[0], b[0];
    assert x in multiset(b) && y in multiset(a);
    var i :| 0 <= i < |a| && a[i] == y;
    var j :| 0 <= j < |b| && b[j] == x;
    if i > 0 && j > 0 {
      assert le(a[0], a[i]) && le(b[0], b[j]);
    }
  }

  /** How many entries satisfy `p`. */
  function Count<T>(s: seq<T>, p: T -> bool): nat {
    if s == [] then 0 else (if p(s[0]) then 1 else 0) + Count(s[1..], p)
  }

  lemma {:induction false} CountAppend<T>(a: seq<T>, b: seq<T>, p: T -> bool)
    ensures Count(a + b, p) == Count(a, p) + Count(b, p)
  {
    if a == [] {
      assert a + b == b;
    } else {
      CountAppend(a[1..], b, p);
      assert (a + b)[1..] == a[1..] + b;
    }
  }

  lemma {:induction false} CountInsert<T>(x: T, s: seq<T>, le: (T, T) -> bool, p: T -> bool)
    ensures Count(Insert(x, s, le), p) == Count([x], p) + Count(s, p)
  {
    if s == [] || le(x, s[0]) {
      CountAppend([x], s, p);
    } else {
      CountInsert(x, s[1..], le, p);
      CountAppend([s[0]], Insert(x, s[1..], le), p);
    }
  }

  lemma {:induction false} CountSort<T>(s: seq<T>, le: (T, T) -> bool, p: T -> bool)
    ensures Count(Sort(s, le), p) == Count(s, p)
  {
    if s != [] {
      CountSort(s[1..], le, p);
      CountInsert(s[0], Sort(s[1..], le), le, p);
    }
  }

  /** When `p` holds exactly on the positions from `a` to `b`, the count is `b - a`. */
  lemma {:induction false} CountRange<T>(s: seq<T>, p: T -> bool, a: int, b: int)
    requires 0 <= a <= b <= |s|
    requires forall i :: 0 <= i < |s| ==> (p(s[i]) <==> a <= i < b)
    ensures Count(s, p) == b - a
  {
    if s != [] {
      var t := s[1..];
      assert forall i :: 0 <= i < |t| ==> t[i] == s[i + 1];
      CountRange(t, p, if a > 0 then a - 1 else 0, if b > 0 then b - 1 else 0);
    }
  }

  lemma {:induction false} CountImplied<T>(s: seq<T>, p: T -> bool, q: T -> bool)
    requires forall x :: x in s && p(x) ==> q(x)
    ensures Count(s, p) <= Count(s, q)
  {
    if s != [] {
      CountImplied(s[1..], p, q);
    }
  }

  lemma {:induction false} CountSplit<T>(s: seq<T>, p: T -> bool, q: T -> bool, r: T -> bool)
    requires forall x :: x in s ==> (r(x) <==> p(x) || q(x)) && !(p(x) && q(x))
    ensures Count(s, r) == Count(s, p) + Count(s, q)
  {
    if s != [] {
      CountSplit(s[1..], p, q, r);
    }
  }

  lemma {:induction false} CountPositive<T>(s: seq<T>, p: T -> bool, x: T)
    requires x in s && p(x)
    ensures Count(s, p) >= 1
  {
    if s[0] != x {
      CountPositive(s[1..], p, x);
    }
  }

  lemma {:induction false} CountAtMost<T>(s: seq<T>, p: T -> bool)
    ensures Count(s, p) <= |s|
  {
    if s != [] {
      CountAtMost(s[1..], p);
    }
  }

  // ---- orders ------------------------------------------------------------

  /** Lexicographic order of strings. */
  predicate TextLe(a: string, b: string) {
    a == [] || (b != [] && (a[0] < b[0] || (a[0] == b[0] && TextLe(a[1..], b[1..]))))
  }

  lemma {:induction false} TextLeTotal(a: string, b: string)
    ensures TextLe(a, b) || TextLe(b, a)
  {
    if a != [] && b != [] && a[0] == b[0] {
      TextLeTotal(a[1..], b[1..]);
    }
  }

  lemma {:induction false} TextLeTransitive(a: string, b: string, c: string)
    requires TextLe(a, b) && TextLe(b, c)
    ensures TextLe(a, c)
  {
    if a != [] && a[0] == b[0] == c[0] {
      TextLeTransitive(a[1..], b[1..], c[1..]);
    }
  }

  /** The first difference of two texts, with the smaller character in the first. */
  ghost predicate DiffersAt(a: string, b: string, i: int) {
    0 <= i < |a| && i < |b| && a[..i] == b[..i] && a[i] < b[i]
  }

  lemma DiffersLater(a: string, b: string, i: int)
    requires a != [] && b != [] && a[0] == b[0]
    ensures DiffersAt(a, b, i + 1) <==> DiffersAt(a[1..], b[1..], i)
    ensures !DiffersAt(a, b, 0)
  {
    if 0 <= i && i + 1 < |a| && i + 1 < |b| {
      assert a[..i + 1] == [a[0]] + a[1..][..i] && b[..i + 1] == [b[0]] + b[1..][..i];
      assert a[1..][..i] == a[..i + 1][1..] && b[1..][..i] == b[..i + 1][1..];
    }
  }

  lemma DiffersFirst(a: string, b: string, i: int)
    requires DiffersAt(a, b, i) && i > 0
    ensures a[0] == b[0]
  {
    assert a[0] == a[..i][0] && b[0] == b[..i][0];
  }

  /** Dictionary order: the first difference decides, and a prefix comes first. */
  lemma {:induction false} TextLeIff(a: string, b: string)
    ensures TextLe(a, b) <==> a <= b || exists i :: DiffersAt(a, b, i)
  {
    if a == [] || b == [] {
    } else if a[0] == b[0] {
      TextLeIff(a[1..], b[1..]);
      assert a == [a[0]] + a[1..] && b == [b[0]] + b[1..];
      hide DiffersAt;
      if i :| DiffersAt(a, b, i) {
        DiffersLater(a, b, i - 1);
      }
      if i :| DiffersAt(a[1..], b[1..], i) {
        DiffersLater(a, b, i);
      }
    } else {
      assert a[0] < b[0] ==> DiffersAt(a, b, 0);
      if i :| DiffersAt(a, b, i) {
        if i > 0 {
          DiffersFirst(a, b, i);
        }
      }
    }
  }

  function RealLe(): (real, real) -> bool {
    (a, b) => a <= b
  }
}
