/** `sort($files, SORT_NATURAL)` on frame file names. Every listed name ends in
    four digits and `.jpg`; the order compares the part before the digits (the
    stem) character by character and, for equal stems, the frame numbers. For
    the run's own files, which share one stem, that is numeric order. */
module NaturalOrder {
  import opened Text

  /** A name ending in `dddd.jpg`. */
  predicate Numbered(f: string)
  {
    |f| >= 8 && AllDigits(f[|f| - 8..|f| - 4]) && f[|f| - 4..] == ".jpg"
  }

  function Stem(f: string): string
    requires Numbered(f)
  {
    f[..|f| - 8]
  }

  function Number(f: string): (k: nat)
    requires Numbered(f)
    ensures k < 10000
  {
    assert Pow10(4) == 10000;
    DecimalValue(f[|f| - 8..|f| - 4])
  }

  /** Strict lexicographic order on character codes. */
  predicate LexLess(a: string, b: string)
  {
    if a == [] then b != []
    else if b == [] then false
    else a[0] < b[0] || (a[0] == b[0] && LexLess(a[1..], b[1..]))
  }

  lemma {:induction false} LexLessIrreflexive(a: string)
    ensures !LexLess(a, a)
  {
    if a != [] { LexLessIrreflexive(a[1..]); }
  }

  lemma {:induction false} LexLessTransitive(a: string, b: string, c: string)
    requires LexLess(a, b) && LexLess(b, c)
    ensures LexLess(a, c)
  {
    if a != [] && b != [] && c != [] && a[0] == b[0] == c[0] {
      LexLessTransitive(a[1..], b[1..], c[1..]);
    }
  }

  lemma {:induction false} LexLessTotal(a: string, b: string)
    ensures a == b || LexLess(a, b) || LexLess(b, a)
  {
    if a != [] && b != [] && a[0] == b[0] {
      LexLessTotal(a[1..], b[1..]);
      if a[1..] == b[1..] {
        assert a == [a[0]] + a[1..] && b == [b[0]] + b[1..];
      }
    }
  }

  lemma {:induction false} LexLessAsymmetric(a: string, b: string)
    requires LexLess(a, b)
    ensures !LexLess(b, a)
  {
    if a != [] && b != [] && a[0] == b[0] {
      LexLessAsymmetric(a[1..], b[1..]);
    }
  }

  /** `a` may come before `b` in the natural order. */
  predicate Before(a: string, b: string)
    requires Numbered(a) && Numbered(b)
  {
    LexLess(Stem(a), Stem(b)) || (Stem(a) == Stem(b) && Number(a) <= Number(b))
  }

  /** Any two numbered names are ordered one way or the other, and both ways
      only when they are the same name: the order is total and antisymmetric. */
  lemma BeforeTotal(a: string, b: string)
    requires Numbered(a) && Numbered(b)
    ensures Before(a, b) || Before(b, a)
  {
    LexLessTotal(Stem(a), Stem(b));
  }

  lemma BeforeAntisymmetric(a: string, b: string)
    requires Numbered(a) && Numbered(b)
    requires Before(a, b) && Before(b, a)
    ensures a == b
  {
    if Stem(a) != Stem(b) {
      LexLessAsymmetric(Stem(a), Stem(b));
      assert false;
    }
    LexLessIrreflexive(Stem(a));
    assert Number(a) == Number(b);
    assert |a| == |b|;
    DecimalValueInjective(a[|a| - 8..|a| - 4], b[|b| - 8..|b| - 4]);
    assert a == Stem(a) + a[|a| - 8..|a| - 4] + a[|a| - 4..];
    assert b == Stem(b) + b[|b| - 8..|b| - 4] + b[|b| - 4..];
  }

  lemma BeforeTransitive(a: string, b: string, c: string)
    requires Numbered(a) && Numbered(b) && Numbered(c)
    requires Before(a, b) && Before(b, c)
    ensures Before(a, c)
  {
    if LexLess(Stem(a), Stem(b)) && LexLess(Stem(b), Stem(c)) {
      LexLessTransitive(Stem(a), Stem(b), Stem(c));
    }
  }

  predicate AllNumbered(s: seq<string>)
  {
    forall i :: 0 <= i < |s| ==> Numbered(s[i])
  }

  predicate Sorted(s: seq<string>)
    requires AllNumbered(s)
  {
    forall i, j :: 0 <= i < j < |s| ==> Before(s[i], s[j])
  }

  /** Putting a name that comes before the head in front keeps the order. */
  lemma PrependSorted(f: string, s: seq<string>)
    requires Numbered(f) && AllNumbered(s) && Sorted(s)
    requires s != [] && Before(f, s[0])
    ensures AllNumbered([f] + s) && Sorted([f] + s)
  {
    var t := [f] + s;
    forall i, j | 0 <= i < j < |t| ensures Before(t[i], t[j]) {
      if i == 0 && j > 1 { BeforeTransitive(f, s[0], t[j]); }
    }
  }

  /** Keeping the head in front of the tail with f inserted keeps the order:
      the head comes before f and before every other element of the tail. */
  lemma ConsSorted(f: string, s: seq<string>, rest: seq<string>)
    requires Numbered(f) && AllNumbered(s) && Sorted(s) && s != []
    requires Before(s[0], f)
    requires AllNumbered(rest) && Sorted(rest)
    requires multiset(rest) == multiset(s[1..]) + multiset{f}
    ensures AllNumbered([s[0]] + rest) && Sorted([s[0]] + rest)
  {
    forall j | 0 <= j < |rest| ensures Before(s[0], rest[j]) {
      assert rest[j] in multiset(rest);
      if rest[j] != f {
        assert rest[j] in multiset(s[1..]);
        var k :| 0 <= k < |s[1..]| && s[1..][k] == rest[j];
        assert s[k + 1] == rest[j];
      }
    }
    var t := [s[0]] + rest;
    forall i, j | 0 <= i < j < |t| ensures Before(t[i], t[j]) {
      if i > 0 { assert t[i] == rest[i - 1] && t[j] == rest[j - 1]; }
    }
  }

  function Insert(f: string, s: seq<string>): (r: seq<string>)
    requires Numbered(f) && AllNumbered(s)
    ensures AllNumbered(r)
    ensures multiset(r) == multiset(s) + multiset{f} && |r| == |s| + 1
    ensures Sorted(s) ==> Sorted(r)
  {
    if s == [] then [f]
    else if Before(f, s[0]) then
      assert Sorted(s) ==> Sorted([f] + s) by {
        if Sorted(s) { PrependSorted(f, s); }
      }
      [f] + s
    else
      BeforeTotal(f, s[0]);
      var rest := Insert(f, s[1..]);
      assert s == [s[0]] + s[1..];
      assert Sorted(s) ==> Sorted([s[0]] + rest) by {
        if Sorted(s) { ConsSorted(f, s, rest); }
      }
      [s[0]] + rest
  }

  /** The model of PHP's natural sort: an insertion sort under `Before`. */
  function NaturalSort(s: seq<string>): (r: seq<string>)
    requires AllNumbered(s)
    ensures AllNumbered(r) && |r| == |s|
    ensures Sorted(r)
    ensures multiset(r) == multiset(s)
  {
    if s == [] then []
    else
      assert s == [s[0]] + s[1..];
      Insert(s[0], NaturalSort(s[1..]))
  }

  /** The first element of a sorted sequence comes before every element. */
  lemma HeadFirst(a: seq<string>, x: string)
    requires AllNumbered(a) && Sorted(a) && x in multiset(a)
    ensures Before(a[0], x)
  {
    var i :| 0 <= i < |a| && a[i] == x;
    if i == 0 { BeforeTotal(x, x); }
  }

  lemma TailSorted(a: seq<string>)
    requires AllNumbered(a) && Sorted(a) && a != []
    ensures AllNumbered(a[1..]) && Sorted(a[1..])
    ensures multiset(a[1..]) == multiset(a) - multiset{a[0]}
  {
    assert a == [a[0]] + a[1..];
  }

  /** Two sorted sequences holding the same names are the same sequence. */
  lemma {:induction false} SortedUnique(a: seq<string>, b: seq<string>)
    requires AllNumbered(a) && AllNumbered(b)
    requires Sorted(a) && Sorted(b)
    requires multiset(a) == multiset(b)
    ensures a == b
    decreases |a|
  {
    if a == [] {
      assert |multiset(b)| == 0;
    } else {
      assert |b| == |multiset(b)| == |multiset(a)| == |a| > 0;
      HeadFirst(a, b[0]);
      HeadFirst(b, a[0]);
      BeforeAntisymmetric(a[0], b[0]);
      TailSorted(a);
      TailSorted(b);
      SortedUnique(a[1..], b[1..]);
      assert a == [a[0]] + a[1..] && b == [b[0]] + b[1..];
    }
  }

  /** The order in which the directory lists the files does not matter: any
      two listings of the same names sort to the same sequence. */
  lemma SortIgnoresListingOrder(a: seq<string>, b: seq<string>)
    requires AllNumbered(a) && multiset(a) == multiset(b)
    ensures AllNumbered(b)
    ensures NaturalSort(a) == NaturalSort(b)
  {
    forall i | 0 <= i < |b| ensures Numbered(b[i]) {
      assert b[i] in multiset(a);
    }
    SortedUnique(NaturalSort(a), NaturalSort(b));
  }

  /** A sorted sequence is its own natural sort. */
  lemma SortedIsFixed(s: seq<string>)
    requires AllNumbered(s) && Sorted(s)
    ensures NaturalSort(s) == s
  {
    SortedUnique(NaturalSort(s), s);
  }
}
