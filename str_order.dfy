/** Python's ordering of `str` values and its `sorted()` on a list of names:
    what the page combiner relies on to put the page files in order. */
module StrOrder {
  import opened Decimal

  /** Python's `a < b` on strings: code points compared left to right, and a
      proper prefix sorts before the longer string. */
  predicate LexLess(a: string, b: string)
    decreases |a|
  {
    if |a| == 0 then |b| > 0
    else if |b| == 0 then false
    else if a[0] != b[0] then a[0] < b[0]
    else LexLess(a[1..], b[1..])
  }

  lemma {:induction false} LexIrreflexive(a: string)
    ensures !LexLess(a, a)
    decreases |a|
  {
    if |a| > 0 { LexIrreflexive(a[1..]); }
  }

  lemma {:induction false} LexAsymmetric(a: string, b: string)
    ensures LexLess(a, b) ==> !LexLess(b, a)
    decreases |a|
  {
    if |a| > 0 && |b| > 0 && a[0] == b[0] { LexAsymmetric(a[1..], b[1..]); }
  }

  lemma {:induction false} LexTransitive(a: string, b: string, c: string)
    requires LexLess(a, b) && LexLess(b, c)
    ensures LexLess(a, c)
    decreases |a|
  {
    if |a| > 0 && a[0] == b[0] && b[0] == c[0] { LexTransitive(a[1..], b[1..], c[1..]); }
  }

  /** Two different strings are always ordered one way or the other. */
  lemma {:induction false} LexTotal(a: string, b: string)
    requires a != b
    ensures LexLess(a, b) || LexLess(b, a)
    decreases |a|
  {
    if |a| > 0 && |b| > 0 && a[0] == b[0] {
      assert a == [a[0]] + a[1..] && b == [b[0]] + b[1..];
      LexTotal(a[1..], b[1..]);
    }
  }

  lemma LexAntisymmetric(a: string, b: string)
    requires !LexLess(a, b) && !LexLess(b, a)
    ensures a == b
  {
    if a != b { LexTotal(a, b); }
  }

  /** "Not greater" is transitive: what keeps an insertion sorted. */
  lemma LexLeqTransitive(a: string, b: string, c: string)
    requires !LexLess(b, a) && !LexLess(c, b)
    ensures !LexLess(c, a)
  {
    if LexLess(c, a) && a != b {
      LexTotal(a, b);
      LexTransitive(c, a, b);
    }
  }

  /** A common prefix does not decide the order. */
  lemma {:induction false} LexCommonPrefix(p: string, x: string, y: string)
    ensures LexLess(p + x, p + y) == LexLess(x, y)
    decreases |p|
  {
    if |p| > 0 {
      assert (p + x)[0] == (p + y)[0];
      assert (p + x)[1..] == p[1..] + x && (p + y)[1..] == p[1..] + y;
      LexCommonPrefix(p[1..], x, y);
    } else {
      assert p + x == x && p + y == y;
    }
  }

  /** Between two different strings of one length, whatever follows them
      does not change the order. */
  lemma {:induction false} LexEqualLengthHead(a: string, r: string, b: string, t: string)
    requires |a| == |b| && a != b
    ensures LexLess(a + r, b + t) == LexLess(a, b)
    decreases |a|
  {
    if a[0] == b[0] {
      assert a == [a[0]] + a[1..] && b == [b[0]] + b[1..];
      assert (a + r)[1..] == a[1..] + r && (b + t)[1..] == b[1..] + t;
      LexEqualLengthHead(a[1..], r, b[1..], t);
    }
  }

  /** On digit strings of equal length the text order is the numeric order:
      why zero-padded names sort numerically. */
  lemma {:induction false} LexNumeralOrder(a: string, b: string)
    requires |a| == |b| && AllDigits(a) && AllDigits(b)
    ensures LexLess(a, b) <==> Value(a) < Value(b)
    decreases |a|
  {
    if |a| > 0 {
      var p := Pow10(|a| - 1);
      var da, db := DigitValue(a[0]), DigitValue(b[0]);
      assert Value(a) == da * p + Value(a[1..]);
      assert Value(b) == db * p + Value(b[1..]);
      if da < db {
        LeadingDigitDecides(a, b);
      } else if db < da {
        LeadingDigitDecides(b, a);
      } else {
        LexNumeralOrder(a[1..], b[1..]);
      }
    }
  }

  /** A smaller leading digit makes a smaller number, whatever follows. */
  lemma LeadingDigitDecides(a: string, b: string)
    requires |a| == |b| > 0 && AllDigits(a) && AllDigits(b)
    requires DigitValue(a[0]) < DigitValue(b[0])
    ensures Value(a) < Value(b)
  {
    ValueBound(a[1..]);
    PlaceValueOrder(DigitValue(a[0]), DigitValue(b[0]), Pow10(|a| - 1), Value(a[1..]), Value(b[1..]));
  }

  lemma PlaceValueOrder(da: nat, db: nat, p: nat, va: nat, vb: nat)
    requires da < db && va < p
    ensures da * p + va < db * p + vb
  {
    MulLeq(da + 1, db, p);
  }

  /** `x` is the part before the first `sep`, so it is recovered from the whole. */
  lemma SplitAtSeparator(x1: string, y1: string, x2: string, y2: string, sep: char)
    requires sep !in x1 && sep !in x2
    requires x1 + [sep] + y1 == x2 + [sep] + y2
    ensures x1 == x2 && y1 == y2
  {
    var w1, w2 := x1 + [sep] + y1, x2 + [sep] + y2;
    var k := if |x1| < |x2| then |x1| else |x2|;
    assert w1[k] == w2[k];
    assert |x1| == |x2|;
    assert x1 == w1[..|x1|] && x2 == w2[..|x2|];
    assert y1 == w1[|x1| + 1..] && y2 == w2[|x2| + 1..];
  }

  /** Non-decreasing in Python's string order. */
  predicate Sorted(s: seq<string>)
  {
    forall i, j :: 0 <= i < j < |s| ==> !LexLess(s[j], s[i])
  }

  /** Puts `x` in front of the first element not smaller than it. */
  function Insert(x: string, s: seq<string>): (r: seq<string>)
    requires Sorted(s)
    ensures Sorted(r)
    ensures multiset(r) == multiset(s) + multiset{x}
  {
    if s == [] then [x]
    else if !LexLess(s[0], x) then
      assert forall j :: 0 <= j < |s| ==> !LexLess(s[j], x) by {
        forall j | 0 <= j < |s| ensures !LexLess(s[j], x) {
          if j > 0 { LexLeqTransitive(x, s[0], s[j]); }
        }
      }
      [x] + s
    else
      var t := Insert(x, s[1..]);
      assert s == [s[0]] + s[1..];
      assert forall j :: 0 <= j < |t| ==> !LexLess(t[j], s[0]) by {
        forall j | 0 <= j < |t| ensures !LexLess(t[j], s[0]) {
          assert t[j] in multiset(t);
          if t[j] == x {
            LexAsymmetric(s[0], x);
          } else {
            assert t[j] in multiset(s[1..]);
            var i :| 0 <= i < |s[1..]| && s[1..][i] == t[j];
            assert s[i + 1] == t[j];
          }
        }
      }
      [s[0]] + t
  }

  /** Python's `sorted()` on a list of names. */
  function SortStrings(s: seq<string>): (r: seq<string>)
    ensures Sorted(r)
    ensures multiset(r) == multiset(s)
  {
    if s == [] then []
    else
      assert s == [s[0]] + s[1..];
      Insert(s[0], SortStrings(s[1..]))
  }

  /** Two sorted arrangements of one multiset start with the same name. */
  lemma SameLeast(s: seq<string>, t: seq<string>)
    requires Sorted(s) && Sorted(t) && multiset(s) == multiset(t) && s != []
    ensures t != [] && s[0] == t[0]
  {
    assert s[0] in multiset(t);
    var i :| 0 <= i < |t| && t[i] == s[0];
    assert t[0] in multiset(s);
    var j :| 0 <= j < |s| && s[j] == t[0];
    LexIrreflexive(s[0]);
    assert !LexLess(t[i], t[0]);
    assert !LexLess(s[j], s[0]);
    LexAntisymmetric(s[0], t[0]);
  }

  lemma DropHead(s: seq<string>)
    requires Sorted(s) && s != []
    ensures Sorted(s[1..])
    ensures multiset(s[1..]) == multiset(s) - multiset{s[0]}
  {
    assert s == [s[0]] + s[1..];
  }

  /** There is only one sorted arrangement of a multiset of names, so any
      sorted permutation is the one `sorted()` returns. */
  lemma {:induction false} SortedUnique(s: seq<string>, t: seq<string>)
    requires Sorted(s) && Sorted(t) && multiset(s) == multiset(t)
    ensures s == t
    decreases |s|
  {
    if s != [] {
      SameLeast(s, t);
      DropHead(s);
      DropHead(t);
      SortedUnique(s[1..], t[1..]);
      assert s == [s[0]] + s[1..] && t == [t[0]] + t[1..];
    } else {
      assert |multiset(t)| == 0;
    }
  }
}
