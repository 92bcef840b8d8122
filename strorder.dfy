/** The order Python uses on `str` values: lexicographic by code point, a
    proper prefix before any of its extensions. scikit-learn's LabelEncoder
    sorts the distinct categories of a column by this order. (Dafny's own `<`
    on sequences means "proper prefix", which is not this order.) */
module StrOrder {

  predicate Less(a: string, b: string)
    decreases |a|
  {
    if |a| == 0 then |b| > 0
    else if |b| == 0 then false
    else if a[0] != b[0] then a[0] < b[0]
    else Less(a[1..], b[1..])
  }

  lemma {:induction false} LessIrreflexive(a: string)
    ensures !Less(a, a)
  {
    if |a| > 0 {
      LessIrreflexive(a[1..]);
    }
  }

  lemma {:induction false} LessAsymmetric(a: string, b: string)
    ensures Less(a, b) ==> !Less(b, a)
    decreases |a|
  {
    if |a| > 0 && |b| > 0 && a[0] == b[0] {
      LessAsymmetric(a[1..], b[1..]);
    }
  }

  lemma {:induction false} LessTransitive(a: string, b: string, c: string)
    requires Less(a, b) && Less(b, c)
    ensures Less(a, c)
    decreases |a|
  {
    if |a| > 0 && a[0] == b[0] && b[0] == c[0] {
      LessTransitive(a[1..], b[1..], c[1..]);
    }
  }

  lemma {:induction false} LessTotal(a: string, b: string)
    ensures a == b || Less(a, b) || Less(b, a)
    decreases |a|
  {
    if |a| > 0 && |b| > 0 && a[0] == b[0] {
      LessTotal(a[1..], b[1..]);
      if a[1..] == b[1..] {
        assert a == [a[0]] + a[1..] && b == [b[0]] + b[1..];
      }
    }
  }

  /** The four facts above, for every pair and triple at once. */
  lemma StrictTotalOrder()
    ensures forall a :: !Less(a, a)
    ensures forall a, b :: Less(a, b) ==> !Less(b, a)
    ensures forall a, b, c :: Less(a, b) && Less(b, c) ==> Less(a, c)
    ensures forall a, b :: a == b || Less(a, b) || Less(b, a)
  {
    forall a { LessIrreflexive(a); }
    forall a, b { LessAsymmetric(a, b); }
    forall a, b, c | Less(a, b) && Less(b, c) { LessTransitive(a, b, c); }
    forall a, b { LessTotal(a, b); }
  }

  /** `k` is the greatest element of `s`. */
  predicate IsGreatest(k: string, s: set<string>)
  {
    k in s && forall j :: j in s && j != k ==> Less(j, k)
  }

  lemma {:induction false} GreatestExists(s: set<string>)
    requires s != {}
    ensures exists k :: IsGreatest(k, s)
    decreases |s|
  {
    var x :| x in s;
    if s != {x} {
      var rest := s - {x};
      GreatestExists(rest);
      var k :| IsGreatest(k, rest);
      LessTotal(x, k);
      if Less(k, x) {
        forall j | j in s && j != x ensures Less(j, x) {
          if j != k { LessTransitive(j, k, x); }
        }
        assert IsGreatest(x, s);
      } else {
        assert IsGreatest(k, s);
      }
    } else {
      assert IsGreatest(x, s);
    }
  }

  /** The greatest string of a non-empty finite set. */
  function Greatest(s: set<string>): (k: string)
    requires s != {}
    ensures k in s
    ensures forall j :: j in s && j != k ==> Less(j, k)
  {
    GreatestExists(s);
    StrictTotalOrder();
    var k :| IsGreatest(k, s);
    k
  }
}
