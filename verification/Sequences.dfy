/** Sequence operations the models share: filtering, reversal and stable sorting. */
module Sequences {
  import opened Wrappers

  predicate HasPrefix<T(==)>(s: seq<T>, prefix: seq<T>) { |prefix| <= |s| && s[..|prefix|] == prefix }

  predicate NoDuplicates<T(==)>(s: seq<T>) { forall i, j :: 0 <= i < j < |s| ==> s[i] != s[j] }

  lemma ConcatNoDuplicates<T>(a: seq<T>, b: seq<T>)
    ensures NoDuplicates(a + b) <==> NoDuplicates(a) && NoDuplicates(b) && forall x :: x in a ==> x !in b
  {
    var s := a + b;
    if NoDuplicates(s) {
      forall i, j | 0 <= i < j < |a| ensures a[i] != a[j] {
        assert s[i] != s[j];
      }
      forall i, j | 0 <= i < j < |b| ensures b[i] != b[j] {
        assert s[|a| + i] != s[|a| + j];
      }
      forall x | x in a ensures x !in b {
        var i :| 0 <= i < |a| && a[i] == x;
        forall j | 0 <= j < |b| ensures b[j] != x {
          assert s[i] != s[|a| + j];
        }
      }
    } else {
      var i, j :| 0 <= i < j < |s| && s[i] == s[j];
      if i < |a| <= j {
        assert a[i] in a && b[j - |a|] in b;
      }
    }
  }

  function Filter<T>(s: seq<T>, keep: T -> bool): seq<T> {
    if s == [] then []
    else if keep(s[|s| - 1]) then Filter(s[..|s| - 1], keep) + [s[|s| - 1]]
    else Filter(s[..|s| - 1], keep)
  }

  function Reverse<T>(s: seq<T>): seq<T> {
    seq(|s|, i requires 0 <= i < |s| => s[|s| - 1 - i])
  }

  lemma {:induction false} FilterElements<T>(s: seq<T>, keep: T -> bool)
    ensures forall x :: x in Filter(s, keep) <==> x in s && keep(x)
  {
    if s != [] {
      FilterElements(s[..|s| - 1], keep);
      assert s == s[..|s| - 1] + [s[|s| - 1]];
    }
  }

  lemma {:induction false} FilterAppend<T>(s: seq<T>, t: seq<T>, keep: T -> bool)
    ensures Filter(s + t, keep) == Filter(s, keep) + Filter(t, keep)
  {
    if t == [] {
      assert s + t == s;
    } else {
      assert (s + t)[..|s + t| - 1] == s + t[..|t| - 1];
      FilterAppend(s, t[..|t| - 1], keep);
    }
  }

  /** Narrowing first by a weaker test changes nothing. */
  lemma {:induction false} FilterRefines<T>(s: seq<T>, coarse: T -> bool, exact: T -> bool)
    requires forall x :: x in s && exact(x) ==> coarse(x)
    ensures Filter(Filter(s, coarse), exact) == Filter(s, exact)
  {
    if s != [] {
      var init := s[..|s| - 1];
      FilterRefines(init, coarse, exact);
      if coarse(s[|s| - 1]) {
        assert Filter(s, coarse)[..|Filter(s, coarse)| - 1] == Filter(init, coarse);
      }
    }
  }

  lemma {:induction false} FilterAll<T>(s: seq<T>, keep: T -> bool)
    requires forall x :: x in s ==> keep(x)
    ensures Filter(s, keep) == s
  {
    if s != [] {
      FilterAll(s[..|s| - 1], keep);
      assert s == s[..|s| - 1] + [s[|s| - 1]];
    }
  }

  lemma {:induction false} FilterNone<T>(s: seq<T>, keep: T -> bool)
    requires forall x :: x in s ==> !keep(x)
    ensures Filter(s, keep) == []
  {
    if s != [] {
      FilterNone(s[..|s| - 1], keep);
    }
  }

  function Map<T, U>(s: seq<T>, f: T -> U): (r: seq<U>)
    ensures |r| == |s| && forall i :: 0 <= i < |s| ==> r[i] == f(s[i])
  {
    seq(|s|, i requires 0 <= i < |s| => f(s[i]))
  }

  /** The results of f on the elements it is defined on, in order. */
  function Collect<T, U>(s: seq<T>, f: T -> Option<U>): seq<U> {
    if s == [] then []
    else (if f(s[0]).Some? then [f(s[0]).value] else []) + Collect(s[1..], f)
  }

  lemma {:induction false} CollectElements<T, U>(s: seq<T>, f: T -> Option<U>)
    ensures forall y :: y in Collect(s, f) <==> exists x :: x in s && f(x) == Some(y)
  {
    if s != [] {
      CollectElements(s[1..], f);
      assert s == [s[0]] + s[1..];
    }
  }

  lemma {:induction false} CollectAppend<T, U>(a: seq<T>, b: seq<T>, f: T -> Option<U>)
    ensures Collect(a + b, f) == Collect(a, f) + Collect(b, f)
  {
    if a == [] {
      assert a + b == b;
    } else {
      var head := if f(a[0]).Some? then [f(a[0]).value] else [];
      assert (a + b)[1..] == a[1..] + b && (a + b)[0] == a[0];
      CollectAppend(a[1..], b, f);
      assert Collect(a + b, f) == head + (Collect(a[1..], f) + Collect(b, f));
    }
  }

  /** Collecting twice is collecting once with the composition. */
  lemma {:induction false} CollectTwice<T, U, V>(s: seq<T>, f: T -> Option<U>, g: U -> Option<V>, both: T -> Option<V>)
    requires forall x :: x in s ==> both(x) == if f(x).Some? then g(f(x).value) else None
    ensures Collect(Collect(s, f), g) == Collect(s, both)
  {
    if s != [] {
      var head := if f(s[0]).Some? then [f(s[0]).value] else [];
      CollectTwice(s[1..], f, g, both);
      CollectAppend(head, Collect(s[1..], f), g);
      assert s[0] in s;
    }
  }

  /** What is collected depends, as a multiset, on the elements as a multiset. */
  lemma {:induction false} CollectPermuted<T, U>(a: seq<T>, b: seq<T>, f: T -> Option<U>)
    requires multiset(a) == multiset(b)
    ensures multiset(Collect(a, f)) == multiset(Collect(b, f))
  {
    if a == [] {
      assert |b| == |multiset(b)| == 0;
    } else {
      HeadAndTail(a);
      var i := Occurs(a[0], b);
      var left, right := b[..i], b[i + 1..];
      assert b == left + [a[0]] + right;
      Middle(left, [a[0]], right);
      CancelOne(multiset(a[1..]), multiset(left + right), a[0]);
      CollectPermuted(a[1..], left + right, f);
      CollectWithout(left, a[0], right, f);
    }
  }

  lemma CollectWithout<T, U>(left: seq<T>, x: T, right: seq<T>, f: T -> Option<U>)
    ensures multiset(Collect(left + [x] + right, f)) ==
            multiset(Collect(left + right, f)) + multiset(if f(x).Some? then [f(x).value] else [])
  {
    CollectAppend(left + [x], right, f);
    CollectAppend(left, [x], f);
    CollectOne(x, f);
    CollectAppend(left, right, f);
    Middle(Collect(left, f), if f(x).Some? then [f(x).value] else [], Collect(right, f));
  }

  lemma CollectOne<T, U>(x: T, f: T -> Option<U>)
    ensures Collect([x], f) == if f(x).Some? then [f(x).value] else []
  {
    assert [x][1..] == [];
  }

  lemma Middle<T>(a: seq<T>, b: seq<T>, c: seq<T>)
    ensures multiset(a + b + c) == multiset(a + c) + multiset(b)
  {
  }

  // ---- Multisets of elements ----

  lemma HeadAndTail<T>(a: seq<T>)
    requires a != []
    ensures multiset(a) == multiset(a[1..]) + multiset{a[0]}
  {
    assert a == [a[0]] + a[1..];
  }

  lemma CancelOne<T>(a: multiset<T>, b: multiset<T>, x: T)
    requires a + multiset{x} == b + multiset{x}
    ensures a == b
  {
    assert a == a + multiset{x} - multiset{x};
  }

  lemma Occurs<T>(x: T, b: seq<T>) returns (i: nat)
    requires x in multiset(b)
    ensures i < |b| && b[i] == x
  {
    i :| i < |b| && b[i] == x;
  }
}
