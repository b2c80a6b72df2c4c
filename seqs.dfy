/** Sequence helpers shared by the diff: duplicate-freedom, first index of an
    element, "append what is not there yet" (the rule used for both the
    unified column order and the union of row keys), and substring search. */
module Seqs {

  /** No element occurs twice. */
  predicate NoDup<T(==)>(s: seq<T>) {
    forall i, j :: 0 <= i < j < |s| ==> s[i] != s[j]
  }

  /** Position of the first occurrence of `x` in `s`. */
  function IndexOf<T(==)>(s: seq<T>, x: T): (i: nat)
    requires x in s
    ensures i < |s| && s[i] == x
    ensures forall j :: 0 <= j < i ==> s[j] != x
  {
    if s[0] == x then 0 else 1 + IndexOf(s[1..], x)
  }

  /** The elements of `b` that do not occur in `a`, in their order in `b`. */
  function Absent<T(==)>(a: seq<T>, b: seq<T>): (r: seq<T>)
  {
    if b == [] then [] else (if b[0] in a then [] else [b[0]]) + Absent(a, b[1..])
  }

  /** `a` followed by the elements of `b` that `a` lacks. */
  function AppendNew<T(==)>(a: seq<T>, b: seq<T>): (r: seq<T>)
  {
    a + Absent(a, b)
  }

  lemma {:induction false} AbsentMembers<T>(a: seq<T>, b: seq<T>, x: T)
    ensures x in Absent(a, b) <==> x in b && x !in a
  {
    if b != [] {
      AbsentMembers(a, b[1..], x);
      assert b == [b[0]] + b[1..];
    }
  }

  /** Taking one more element of `b` extends `Absent` by that element exactly
      when `a` lacks it. */
  lemma {:induction false} AbsentSnoc<T>(a: seq<T>, b: seq<T>, x: T)
    ensures Absent(a, b + [x]) == Absent(a, b) + (if x in a then [] else [x])
  {
    if b == [] {
      assert [x][1..] == [];
    } else {
      assert (b + [x])[1..] == b[1..] + [x];
      AbsentSnoc(a, b[1..], x);
    }
  }

  lemma {:induction false} AbsentNoDup<T>(a: seq<T>, b: seq<T>)
    requires NoDup(b)
    ensures NoDup(Absent(a, b))
  {
    if b != [] {
      var t := b[1..];
      assert NoDup(t) by {
        forall i, j | 0 <= i < j < |t| ensures t[i] != t[j] {
          assert t[i] == b[i + 1] && t[j] == b[j + 1];
        }
      }
      AbsentNoDup(a, t);
      AbsentMembers(a, t, b[0]);
      assert b[0] !in t by {
        forall i | 0 <= i < |t| ensures t[i] != b[0] {
          assert t[i] == b[i + 1];
        }
      }
    }
  }

  /** Elements of `Absent(a, b)` keep the relative order they had in `b`. */
  lemma {:induction false} AbsentOrder<T>(a: seq<T>, b: seq<T>, i: nat, j: nat)
    requires NoDup(b)
    requires i < j < |Absent(a, b)|
    ensures Absent(a, b)[i] in b && Absent(a, b)[j] in b
    ensures IndexOf(b, Absent(a, b)[i]) < IndexOf(b, Absent(a, b)[j])
  {
    var r := Absent(a, b);
    AbsentMembers(a, b, r[i]);
    AbsentMembers(a, b, r[j]);
    var t := b[1..];
    var rt := Absent(a, t);
    assert NoDup(t) by {
      forall p, q | 0 <= p < q < |t| ensures t[p] != t[q] {
        assert t[p] == b[p + 1] && t[q] == b[q + 1];
      }
    }
    if b[0] in a {
      assert r == rt;
      AbsentOrder(a, t, i, j);
      IndexOfTail(b, r[i]);
      IndexOfTail(b, r[j]);
    } else {
      assert r == [b[0]] + rt;
      AbsentMembers(a, t, r[j]);
      IndexOfTail(b, r[j]);
      if i == 0 {
        assert IndexOf(b, r[i]) == 0;
      } else {
        AbsentOrder(a, t, i - 1, j - 1);
        AbsentMembers(a, t, r[i]);
        IndexOfTail(b, r[i]);
      }
    }
  }

  /** In a duplicate-free sequence, an element of the tail sits one further
      than in the tail. */
  lemma IndexOfTail<T>(b: seq<T>, x: T)
    requires |b| > 0 && NoDup(b) && x in b[1..]
    ensures IndexOf(b, x) == 1 + IndexOf(b[1..], x)
  {
    var k := IndexOf(b[1..], x);
    assert b[k + 1] == x;
    assert b[0] != x;
  }

  /** Every element of `s` occurs in `b`, and in the same relative order. */
  ghost predicate KeepsOrder<T>(s: seq<T>, b: seq<T>) {
    forall i, j :: 0 <= i < j < |s| ==> InOrder(b, s[i], s[j])
  }

  /** `x` and `y` both occur in `b`, `x` first. */
  ghost predicate InOrder<T>(b: seq<T>, x: T, y: T) {
    x in b && y in b && IndexOf(b, x) < IndexOf(b, y)
  }

  /** `Absent(a, b)` keeps `b`'s relative order. */
  lemma AbsentKeepsOrder<T>(a: seq<T>, b: seq<T>)
    requires NoDup(b)
    ensures KeepsOrder(Absent(a, b), b)
  {
    forall i, j | 0 <= i < j < |Absent(a, b)|
      ensures InOrder(b, Absent(a, b)[i], Absent(a, b)[j])
    {
      AbsentOrder(a, b, i, j);
    }
  }

  /** Nothing is absent from `a` when every element of `b` is in `a`. */
  lemma {:induction false} AbsentAllIn<T>(a: seq<T>, b: seq<T>)
    requires forall x :: x in b ==> x in a
    ensures Absent(a, b) == []
  {
    if b != [] {
      assert b[0] in a;
      AbsentAllIn(a, b[1..]);
    }
  }

  /** Order is transitive: what keeps `m`'s order, where `m` keeps `b`'s, keeps `b`'s. */
  lemma KeepsOrderTrans<T>(s: seq<T>, m: seq<T>, b: seq<T>)
    requires KeepsOrder(s, m) && KeepsOrder(m, b)
    ensures KeepsOrder(s, b)
  {
    forall i, j | 0 <= i < j < |s|
      ensures InOrder(b, s[i], s[j])
    {
      KeepsOrderAt(s, m, i, j);
      var p, q := IndexOf(m, s[i]), IndexOf(m, s[j]);
      KeepsOrderAt(m, b, p, q);
    }
  }

  lemma KeepsOrderAt<T>(s: seq<T>, b: seq<T>, i: nat, j: nat)
    requires KeepsOrder(s, b) && i < j < |s|
    ensures s[i] in b && s[j] in b && IndexOf(b, s[i]) < IndexOf(b, s[j])
  {
  }

  lemma AppendNewMembers<T>(a: seq<T>, b: seq<T>)
    ensures forall x :: x in AppendNew(a, b) <==> x in a || x in b
  {
    forall x ensures x in AppendNew(a, b) <==> x in a || x in b {
      AbsentMembers(a, b, x);
    }
  }

  lemma AppendNewNoDup<T>(a: seq<T>, b: seq<T>)
    requires NoDup(a) && NoDup(b)
    ensures NoDup(AppendNew(a, b))
  {
    var r := AppendNew(a, b);
    var ab := Absent(a, b);
    AbsentNoDup(a, b);
    forall i, j | 0 <= i < j < |r| ensures r[i] != r[j] {
      if j >= |a| && i < |a| {
        AbsentMembers(a, b, r[j]);
        assert r[j] == ab[j - |a|];
      } else if i >= |a| {
        assert r[i] == ab[i - |a|] && r[j] == ab[j - |a|];
      }
    }
  }

  /** What `AppendNew` promises: `a` is kept as a prefix, nothing is listed
      twice, every element of either side is listed, and the appended part
      keeps `b`'s relative order. */
  lemma AppendNewProperties<T>(a: seq<T>, b: seq<T>)
    requires NoDup(a) && NoDup(b)
    ensures var r := AppendNew(a, b);
      && r[..|a|] == a
      && NoDup(r)
      && (forall x :: x in r <==> x in a || x in b)
      && KeepsOrder(r[|a|..], b)
  {
    AppendNewNoDup(a, b);
    AppendNewMembers(a, b);
    AbsentKeepsOrder(a, b);
    assert AppendNew(a, b)[|a|..] == Absent(a, b);
  }

  /** `p` occurs in `s` as a contiguous block (Python's `p in s` on strings). */
  predicate Contains<T(==)>(s: seq<T>, p: seq<T>)
  {
    p <= s || (s != [] && Contains(s[1..], p))
  }

  lemma {:induction false} ContainsExtend<T>(w: seq<T>, x: seq<T>, y: seq<T>, p: seq<T>)
    requires Contains(x, p)
    ensures Contains(w + x + y, p)
  {
    if w == [] {
      ContainsRight(x, y, p);
      assert w + x + y == x + y;
    } else {
      ContainsExtend(w[1..], x, y, p);
      assert (w + x + y)[1..] == w[1..] + x + y;
    }
  }

  lemma {:induction false} ContainsRight<T>(x: seq<T>, y: seq<T>, p: seq<T>)
    requires Contains(x, p)
    ensures Contains(x + y, p)
  {
    if p <= x {
      assert (x + y)[..|p|] == x[..|p|];
    } else {
      ContainsRight(x[1..], y, p);
      assert (x + y)[1..] == x[1..] + y;
    }
  }

  /** A sequence with `p` spliced in contains `p`. */
  lemma ContainsInfix<T>(a: seq<T>, p: seq<T>, b: seq<T>)
    ensures Contains(a + p + b, p)
  {
    assert p <= p + [];
    assert Contains(p, p);
    ContainsExtend(a, p, b, p);
  }
}
