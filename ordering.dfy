/**
 * The two orderings the list endpoints use: descending recipe id and
 * descending tag name. Names are compared lexicographically by character
 * code; a database collation is not modelled.
 */
module Ordering {

  /** `a` comes strictly before `b` in lexicographic order. */
  predicate Below(a: string, b: string)
  {
    if |a| == 0 then |b| > 0
    else if |b| == 0 then false
    else a[0] < b[0] || (a[0] == b[0] && Below(a[1..], b[1..]))
  }

  lemma {:induction false} BelowAsymmetric(a: string, b: string)
    ensures !(Below(a, b) && Below(b, a))
  {
    if |a| > 0 && |b| > 0 && a[0] == b[0] {
      BelowAsymmetric(a[1..], b[1..]);
    }
  }

  lemma {:induction false} BelowTransitive(a: string, b: string, c: string)
    requires Below(a, b) && Below(b, c)
    ensures Below(a, c)
  {
    if |a| > 0 && |b| > 0 && |c| > 0 && a[0] == b[0] && b[0] == c[0] {
      BelowTransitive(a[1..], b[1..], c[1..]);
    }
  }

  lemma {:induction false} BelowTotal(a: string, b: string)
    ensures a == b || Below(a, b) || Below(b, a)
  {
    if |a| > 0 && |b| > 0 && a[0] == b[0] {
      BelowTotal(a[1..], b[1..]);
      if a[1..] == b[1..] {
        assert a == [a[0]] + a[1..];
        assert b == [b[0]] + b[1..];
      }
    }
  }

  /** `below` is a strict total order on T. */
  ghost predicate StrictTotal<T(!new)>(below: (T, T) -> bool)
  {
    && (forall a, b :: !(below(a, b) && below(b, a)))
    && (forall a, b, c :: below(a, b) && below(b, c) ==> below(a, c))
    && (forall a, b :: a == b || below(a, b) || below(b, a))
  }

  lemma NameOrderIsStrictTotal()
    ensures StrictTotal(Below)
  {
    forall a, b ensures !(Below(a, b) && Below(b, a)) {
      BelowAsymmetric(a, b);
    }
    forall a, b, c | Below(a, b) && Below(b, c) ensures Below(a, c) {
      BelowTransitive(a, b, c);
    }
    forall a, b ensures a == b || Below(a, b) || Below(b, a) {
      BelowTotal(a, b);
    }
  }

  lemma IdOrderIsStrictTotal()
    ensures StrictTotal((a: nat, b: nat) => a < b)
  {
  }

  /** `m` is the greatest element of `s` under `below`. */
  predicate IsGreatest<T(==)>(m: T, s: set<T>, below: (T, T) -> bool)
  {
    m in s && forall x :: x in s ==> x == m || below(x, m)
  }

  lemma {:induction false} GreatestExists<T(!new)>(s: set<T>, below: (T, T) -> bool)
    requires StrictTotal(below)
    requires s != {}
    ensures exists m :: IsGreatest(m, s, below)
    decreases s
  {
    var x :| x in s;
    if s == {x} {
      assert IsGreatest(x, s, below);
    } else {
      var rest := s - {x};
      GreatestExists(rest, below);
      var m :| IsGreatest(m, rest, below);
      if below(m, x) {
        assert IsGreatest(x, s, below);
      } else {
        assert IsGreatest(m, s, below);
      }
    }
  }

  /** The greatest element of a non-empty set; unique because `below` is asymmetric. */
  function Greatest<T(==,!new)>(s: set<T>, below: (T, T) -> bool): (m: T)
    requires StrictTotal(below)
    requires s != {}
    ensures IsGreatest(m, s, below)
  {
    GreatestExists(s, below);
    var m :| IsGreatest(m, s, below); m
  }

  /**
   * The elements of `s`, greatest first: what an `order_by('-key')` over a
   * filtered table yields.
   */
  function SortDesc<T(==,!new)>(s: set<T>, below: (T, T) -> bool): (r: seq<T>)
    requires StrictTotal(below)
    ensures |r| == |s|
    ensures forall i :: 0 <= i < |r| ==> r[i] in s
    ensures forall x :: x in s ==> x in r
    ensures forall i, j :: 0 <= i < j < |r| ==> below(r[j], r[i])
    decreases s
  {
    if s == {} then []
    else
      var m := Greatest(s, below);
      [m] + SortDesc(s - {m}, below)
  }
}
