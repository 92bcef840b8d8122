/** The contract of scikit-learn's LabelEncoder, as Model/model.py uses it:
    `fit` takes the sorted distinct values of a column as `classes_`, and
    `transform` numbers them 0..n-1 in that order. The model states this
    directly: the code of a category is the number of distinct categories
    that sort before it. */
module LabelEncoding {
  import opened StrOrder

  /** The distinct values of a column. */
  function DistinctValues(values: seq<string>): set<string>
  {
    set v | v in values
  }

  /** The categories of `keys` that sort before `k`. */
  function Before(k: string, keys: set<string>): set<string>
  {
    set x | x in keys && Less(x, k)
  }

  /** The position of `k` in the sorted list of `keys`. */
  function Rank(k: string, keys: set<string>): nat
  {
    |Before(k, keys)|
  }

  /** A category->code table as LabelEncoder produces it: codes are exactly
      0..n-1 and follow the order of the categories. */
  predicate IsLabelTable(m: map<string, int>)
  {
    && (forall k :: k in m ==> 0 <= m[k] < |m|)
    && (forall a, b :: a in m && b in m && Less(a, b) ==> m[a] < m[b])
    && m.Values == Codes(|m|)
  }

  /** The codes 0..n-1. */
  function Codes(n: nat): (r: set<int>)
    ensures forall i :: i in r <==> 0 <= i < n
  {
    if n == 0 then {} else Codes(n - 1) + {n - 1}
  }

  /** Two distinct categories of a table never share a code. */
  predicate Injective(m: map<string, int>)
  {
    forall a, b :: a in m && b in m && a != b ==> m[a] != m[b]
  }

  /** `dict(zip(le.classes_, le.transform(le.classes_)))` after
      `le.fit(values)`. */
  function Fit(values: seq<string>): (m: map<string, int>)
    ensures m.Keys == DistinctValues(values)
  {
    var keys := DistinctValues(values);
    map k | k in keys :: Rank(k, keys)
  }

  /** A fitted table numbers its categories 0..n-1 in sorted order. */
  lemma FitIsLabelTable(values: seq<string>)
    ensures IsLabelTable(Fit(values))
  {
    var keys := DistinctValues(values);
    RankTable(keys, Fit(values));
  }

  lemma RankTable(keys: set<string>, m: map<string, int>)
    requires m == map k | k in keys :: Rank(k, keys)
    ensures IsLabelTable(m)
  {
    StrictTotalOrder();
    assert m.Keys == keys;
    forall k | k in m ensures 0 <= m[k] < |m| {
      assert Before(k, keys) < keys by {
        assert k in keys - Before(k, keys);
      }
      StrictSubsetCard(Before(k, keys), keys);
    }
    forall a, b | a in m && b in m && Less(a, b) ensures m[a] < m[b] {
      assert Before(a, keys) < Before(b, keys) by {
        assert a in Before(b, keys) - Before(a, keys);
      }
      StrictSubsetCard(Before(a, keys), Before(b, keys));
    }
    LabelTableIsInjective(m);
    InjectiveValuesCard(m);
    assert m.Values <= Codes(|m|);
    CodesCard(|m|);
    SubsetEqualCard(m.Values, Codes(|m|));
  }

  /** Order-preserving codes are distinct codes. */
  lemma LabelTableIsInjective(m: map<string, int>)
    requires forall a, b :: a in m && b in m && Less(a, b) ==> m[a] < m[b]
    ensures Injective(m)
  {
    forall a, b | a in m && b in m && a != b ensures m[a] != m[b] {
      LessTotal(a, b);
    }
  }

  // ---- cardinality facts the table proofs rest on

  lemma {:induction false} SubsetCard<T>(a: set<T>, b: set<T>)
    requires a <= b
    ensures |a| <= |b|
    decreases |b|
  {
    if a != {} {
      var x :| x in a;
      SubsetCard(a - {x}, b - {x});
    }
  }

  lemma StrictSubsetCard<T>(a: set<T>, b: set<T>)
    requires a < b
    ensures |a| < |b|
  {
    assert b - a != {} by {
      if b - a == {} { assert false; }
    }
    var x :| x in b - a;
    SubsetCard(a, b - {x});
  }

  lemma SubsetEqualCard<T>(a: set<T>, b: set<T>)
    requires a <= b && |a| == |b|
    ensures a == b
  {
    if a != b {
      StrictSubsetCard(a, b);
    }
  }

  lemma {:induction false} CodesCard(n: nat)
    ensures |Codes(n)| == n
  {
    if n > 0 {
      CodesCard(n - 1);
    }
  }

  lemma {:induction false} InjectiveValuesCard(m: map<string, int>)
    requires Injective(m)
    ensures |m.Values| == |m.Keys|
    decreases |m.Keys|
  {
    if m.Keys != {} {
      var k :| k in m.Keys;
      var rest := map j | j in m.Keys && j != k :: m[j];
      assert rest.Keys == m.Keys - {k};
      InjectiveValuesCard(rest);
      forall v ensures v in m.Values <==> v in rest.Values + {m[k]} {
        if v in m.Values {
          var j :| j in m && m[j] == v;
          if j != k { assert rest[j] == v; }
        }
      }
      assert m.Values == rest.Values + {m[k]};
      assert m[k] !in rest.Values;
    }
  }

  // ---- properties of fitted tables

  /** A fitted table is total on the values it was fitted on: every value of
      the column has a code, so `fit_transform` never meets an unknown one. */
  lemma FitCoversColumn(values: seq<string>, i: nat)
    requires i < |values|
    ensures values[i] in Fit(values)
    ensures 0 <= Fit(values)[values[i]] < |DistinctValues(values)|
  {
    FitIsLabelTable(values);
  }

  /** For a two-valued column, the smaller category gets code 0 and the
      larger code 1. */
  lemma {:induction false} FitTwoValues(values: seq<string>, lo: string, hi: string)
    requires DistinctValues(values) == {lo, hi} && Less(lo, hi)
    ensures Fit(values) == map[lo := 0, hi := 1]
  {
    var m := Fit(values);
    FitIsLabelTable(values);
    LessIrreflexive(lo);
    assert lo != hi;
    assert |m| == 2 by {
      assert m.Keys == {lo} + {hi};
    }
    assert m[lo] < m[hi];
  }
}
