/** The checklist domains: the distinct years and months of the series loaded
    at start-up, in order of first appearance (the behaviour of pandas'
    `Series.unique()`). They are computed once and never refreshed. */
module Universe {
  import opened Bars

  /** The set of values a list holds, as Python's `set(...)` gives it. */
  function Elements(s: seq<int>): set<int>
  {
    set x | x in s
  }

  /** Only the empty list has no values. */
  lemma ElementsEmpty(s: seq<int>)
    ensures Elements(s) == {} <==> s == []
  {
    if s != [] {
      assert s[0] in Elements(s);
    }
  }

  predicate NoDuplicates(s: seq<int>)
  {
    forall i, j :: 0 <= i < j < |s| ==> s[i] != s[j]
  }

  /** The index at which `x` first occurs in `s`. */
  function FirstIndex(s: seq<int>, x: int): (i: nat)
    requires x in s
    ensures i < |s| && s[i] == x
    ensures forall k :: 0 <= k < i ==> s[k] != x
  {
    if s[0] == x then 0 else 1 + FirstIndex(s[1..], x)
  }

  /** `Series.unique()`: each distinct value once, in order of first appearance. */
  function Unique(s: seq<int>): (u: seq<int>)
    ensures NoDuplicates(u)
    ensures Elements(u) == Elements(s)
    decreases |s|
  {
    if s == [] then []
    else
      var p, x := s[..|s| - 1], s[|s| - 1];
      assert s == p + [x];
      var u := Unique(p);
      assert Elements(s) == Elements(p) + {x};
      assert Elements(u + [x]) == Elements(u) + {x};
      if x in u then u else u + [x]
  }

  /** Ordered by first appearance: values listed earlier occur earlier in `s`. */
  predicate InFirstAppearanceOrder(s: seq<int>, u: seq<int>)
    requires forall k :: 0 <= k < |u| ==> u[k] in s
  {
    forall i, j :: 0 <= i < j < |u| ==> FirstIndex(s, u[i]) < FirstIndex(s, u[j])
  }

  /** An index holding `x` with no earlier `x` is the first index of `x`. */
  lemma FirstIndexUnique(s: seq<int>, x: int, i: nat)
    requires i < |s| && s[i] == x
    requires forall k :: 0 <= k < i ==> s[k] != x
    ensures FirstIndex(s, x) == i
  {
  }

  /** Appending a value does not move the first occurrence of an earlier one. */
  lemma FirstIndexAppend(p: seq<int>, x: int, y: int)
    requires y in p
    ensures FirstIndex(p + [x], y) == FirstIndex(p, y)
  {
    FirstIndexUnique(p + [x], y, FirstIndex(p, y));
  }

  /** A value new to `p` first occurs at the appended position. */
  lemma FirstIndexOfNew(p: seq<int>, x: int)
    requires x !in p
    ensures FirstIndex(p + [x], x) == |p|
  {
    FirstIndexUnique(p + [x], x, |p|);
  }

  /** The values of `Unique(s)` appear in the order in which they first occur in `s`. */
  lemma {:induction false} UniqueFirstAppearanceOrder(s: seq<int>)
    ensures forall k :: 0 <= k < |Unique(s)| ==> Unique(s)[k] in s
    ensures InFirstAppearanceOrder(s, Unique(s))
    decreases |s|
  {
    var u := Unique(s);
    assert forall k :: 0 <= k < |u| ==> u[k] in Elements(s);
    if s != [] {
      var p, x := s[..|s| - 1], s[|s| - 1];
      assert s == p + [x];
      var v := Unique(p);
      UniqueFirstAppearanceOrder(p);
      assert forall k :: 0 <= k < |v| ==> v[k] in Elements(p);
      forall k | 0 <= k < |v|
        ensures FirstIndex(s, v[k]) == FirstIndex(p, v[k])
      {
        FirstIndexAppend(p, x, v[k]);
      }
      if x !in v {
        assert x !in Elements(p);
        FirstIndexOfNew(p, x);
        assert u == v + [x];
        forall i, j | 0 <= i < j < |u|
          ensures FirstIndex(s, u[i]) < FirstIndex(s, u[j])
        {
          if j == |v| {
            assert FirstIndex(s, u[i]) == FirstIndex(p, v[i]) < |p|;
          }
        }
      }
    }
  }

  /** An ordering by first appearance in `p + [x]` of values of `p` is one in `p`. */
  lemma RestrictOrder(p: seq<int>, x: int, w: seq<int>)
    requires forall k :: 0 <= k < |w| ==> w[k] in p
    requires forall k :: 0 <= k < |w| ==> w[k] in p + [x]
    requires InFirstAppearanceOrder(p + [x], w)
    ensures InFirstAppearanceOrder(p, w)
  {
    forall k | 0 <= k < |w| ensures FirstIndex(p + [x], w[k]) == FirstIndex(p, w[k]) {
      FirstIndexAppend(p, x, w[k]);
    }
  }

  /** In an ordering by first appearance, a value that occurs only at the end comes last. */
  lemma NewValueIsLast(p: seq<int>, x: int, w: seq<int>)
    requires x !in p && x in w
    requires NoDuplicates(w)
    requires forall k :: 0 <= k < |w| ==> w[k] in p + [x]
    requires InFirstAppearanceOrder(p + [x], w)
    ensures w[|w| - 1] == x
  {
  }

  /** Unique is pinned down by its three properties: any duplicate-free list of
      exactly the values of `s`, in first-appearance order, is `Unique(s)`. */
  lemma {:induction false} UniqueIsDetermined(s: seq<int>, w: seq<int>)
    requires NoDuplicates(w)
    requires Elements(w) == Elements(s)
    requires forall k :: 0 <= k < |w| ==> w[k] in s
    requires InFirstAppearanceOrder(s, w)
    ensures w == Unique(s)
    decreases |s|, 1
  {
    if s == [] {
      ElementsEmpty(w);
    } else {
      var p, x := s[..|s| - 1], s[|s| - 1];
      assert s == p + [x];
      assert Elements(s) == Elements(p) + {x};
      if x in p {
        assert Elements(w) == Elements(p);
        assert forall k :: 0 <= k < |w| ==> w[k] in Elements(w);
        RestrictOrder(p, x, w);
        UniqueIsDetermined(p, w);
      } else {
        UniqueIsDeterminedNew(p, x, w);
      }
    }
  }

  /** The step of UniqueIsDetermined where the last value of the list is new. */
  lemma {:induction false} UniqueIsDeterminedNew(p: seq<int>, x: int, w: seq<int>)
    requires x !in p
    requires NoDuplicates(w)
    requires Elements(w) == Elements(p) + {x}
    requires forall k :: 0 <= k < |w| ==> w[k] in p + [x]
    requires InFirstAppearanceOrder(p + [x], w)
    ensures w == Unique(p + [x])
    decreases |p| + 1, 0
  {
    assert x in Elements(w);
    NewValueIsLast(p, x, w);
    var w' := w[..|w| - 1];
    assert w == w' + [x];
    assert forall k :: 0 <= k < |w'| ==> w'[k] == w[k];
    assert x !in Elements(w');
    assert Elements(w) == Elements(w') + {x};
    assert x !in Elements(p);
    assert Elements(w') == Elements(p);
    assert forall k :: 0 <= k < |w'| ==> w'[k] in Elements(w');
    RestrictOrder(p, x, w');
    UniqueIsDetermined(p, w');
    assert (p + [x])[..|p|] == p;
  }

  /** `year_options`: the distinct years of the series loaded at start-up. */
  function YearOptions(initial: seq<Bar>): (u: seq<int>)
    ensures NoDuplicates(u)
    ensures Elements(u) == set b | b in initial :: b.year
  {
    var ys := Years(initial);
    assert Elements(ys) == set b | b in initial :: b.year by {
      forall y | y in Elements(ys) ensures y in set b | b in initial :: b.year {
        var i :| 0 <= i < |ys| && ys[i] == y;
        assert initial[i] in initial;
      }
    }
    Unique(ys)
  }

  /** `month_options`: the distinct months of the series loaded at start-up. */
  function MonthOptions(initial: seq<Bar>): (u: seq<int>)
    ensures NoDuplicates(u)
    ensures Elements(u) == set b | b in initial :: b.month
  {
    var ms := Months(initial);
    assert Elements(ms) == set b | b in initial :: b.month by {
      forall m | m in Elements(ms) ensures m in set b | b in initial :: b.month {
        var i :| 0 <= i < |ms| && ms[i] == m;
        assert initial[i] in initial;
      }
    }
    Unique(ms)
  }

  /** The year checklist lists the years in the order the series first reaches them. */
  lemma YearOptionsOrder(initial: seq<Bar>)
    ensures forall k :: 0 <= k < |YearOptions(initial)| ==> YearOptions(initial)[k] in Years(initial)
    ensures InFirstAppearanceOrder(Years(initial), YearOptions(initial))
  {
    UniqueFirstAppearanceOrder(Years(initial));
  }

  /** The month checklist lists the months in the order the series first reaches them. */
  lemma MonthOptionsOrder(initial: seq<Bar>)
    ensures forall k :: 0 <= k < |MonthOptions(initial)| ==> MonthOptions(initial)[k] in Months(initial)
    ensures InFirstAppearanceOrder(Months(initial), MonthOptions(initial))
  {
    UniqueFirstAppearanceOrder(Months(initial));
  }
}
