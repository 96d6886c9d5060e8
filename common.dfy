/** Option and Result wrappers, and the Python list operations the engine relies on. */
module Common {

  datatype Option<+T> = None | Some(value: T)

  datatype Result<+T, +E> = Success(value: T) | Failure(error: E)

  /** No element occurs twice. */
  predicate NoDup<T(==)>(xs: seq<T>)
  {
    forall i, j :: 0 <= i < j < |xs| ==> xs[i] != xs[j]
  }

  /** Python's `xs.remove(x)` guarded by `x in xs`: drops the first occurrence of `x`. */
  function RemoveFirst<T(==)>(xs: seq<T>, x: T): seq<T>
  {
    if xs == [] then []
    else if xs[0] == x then xs[1..]
    else [xs[0]] + RemoveFirst(xs[1..], x)
  }

  /** The loop `for r in rs: if r in xs: xs.remove(r)`. */
  function RemoveEach<T(==)>(xs: seq<T>, rs: seq<T>): seq<T>
    decreases |rs|
  {
    if rs == [] then xs else RemoveEach(RemoveFirst(xs, rs[0]), rs[1..])
  }

  /** `remove` takes away exactly one occurrence of `x`, when there is one. */
  lemma {:induction false} RemoveFirstCount<T>(xs: seq<T>, x: T)
    ensures multiset(RemoveFirst(xs, x)) == multiset(xs) - multiset{x}
    ensures |RemoveFirst(xs, x)| == if x in xs then |xs| - 1 else |xs|
    decreases |xs|
  {
    if xs != [] {
      assert xs == [xs[0]] + xs[1..];
      if xs[0] != x {
        RemoveFirstCount(xs[1..], x);
        assert multiset([xs[0]] + RemoveFirst(xs[1..], x)) == multiset{xs[0]} + multiset(RemoveFirst(xs[1..], x));
      }
    }
  }

  /** Removing the elements of `rs` one occurrence each is multiset difference. */
  lemma {:induction false} RemoveEachCount<T>(xs: seq<T>, rs: seq<T>)
    ensures multiset(RemoveEach(xs, rs)) == multiset(xs) - multiset(rs)
    decreases |rs|
  {
    if rs != [] {
      var ys := RemoveFirst(xs, rs[0]);
      RemoveFirstCount(xs, rs[0]);
      RemoveEachCount(ys, rs[1..]);
      HeadTail(rs);
      DiffDiff(multiset(xs), multiset{rs[0]}, multiset(rs[1..]));
    }
  }

  lemma HeadTail<T>(rs: seq<T>)
    requires rs != []
    ensures multiset(rs) == multiset{rs[0]} + multiset(rs[1..])
  {
    assert rs == [rs[0]] + rs[1..];
  }

  lemma DiffDiff<T>(a: multiset<T>, b: multiset<T>, c: multiset<T>)
    ensures (a - b) - c == a - (b + c)
  {
    forall v ensures ((a - b) - c)[v] == (a - (b + c))[v] { }
  }

  /** The first index from `i` on whose flag is set; |bs| when there is none. */
  function FirstTrue(bs: seq<bool>, i: nat): (j: nat)
    requires i <= |bs|
    ensures i <= j <= |bs|
    ensures j < |bs| ==> bs[j]
    ensures forall m :: i <= m < j ==> !bs[m]
    decreases |bs| - i
  {
    if i == |bs| then i
    else if bs[i] then i
    else FirstTrue(bs, i + 1)
  }

  /** An index whose flag is set, with no flag set before it, is the first one. */
  lemma FirstTrueIs(bs: seq<bool>, j: nat)
    requires j <= |bs| && (j < |bs| ==> bs[j])
    requires forall m :: 0 <= m < j ==> !bs[m]
    ensures FirstTrue(bs, 0) == j
  {
  }

  /** Writing a key's old value back undoes an update of that key. */
  lemma MapRestore<K, V>(m: map<K, V>, k: K, v: V)
    requires k in m
    ensures m[k := v][k := m[k]] == m
  {
  }

  /** The elements of `xs` that lie in `s`, in order. */
  function FilterIn<T>(xs: seq<T>, s: set<T>): (r: seq<T>)
  {
    if xs == [] then [] else (if xs[0] in s then [xs[0]] else []) + FilterIn(xs[1..], s)
  }

  /** The elements of `xs` outside `s`, in order. */
  function FilterOut<T>(xs: seq<T>, s: set<T>): (r: seq<T>)
  {
    if xs == [] then [] else (if xs[0] in s then [] else [xs[0]]) + FilterOut(xs[1..], s)
  }

  lemma {:induction false} RemoveEachSnoc<T>(xs: seq<T>, rs: seq<T>, x: T)
    ensures RemoveEach(xs, rs + [x]) == RemoveFirst(RemoveEach(xs, rs), x)
    decreases |rs|
  {
    if rs == [] {
      assert RemoveEach(RemoveFirst(xs, x), []) == RemoveFirst(xs, x);
    } else {
      assert (rs + [x])[0] == rs[0] && (rs + [x])[1..] == rs[1..] + [x];
      RemoveEachSnoc(RemoveFirst(xs, rs[0]), rs[1..], x);
    }
  }

  lemma {:induction false} RemoveEachSkips<T>(x: T, ys: seq<T>, rs: seq<T>)
    requires x !in rs
    ensures RemoveEach([x] + ys, rs) == [x] + RemoveEach(ys, rs)
    decreases |rs|
  {
    if rs != [] {
      assert ([x] + ys)[0] == x && ([x] + ys)[1..] == ys;
      assert RemoveFirst([x] + ys, rs[0]) == [x] + RemoveFirst(ys, rs[0]);
      RemoveEachSkips(x, RemoveFirst(ys, rs[0]), rs[1..]);
    }
  }

  /** Removing, one occurrence each, the elements of `xs` that lie in `s` leaves exactly those outside `s`. */
  lemma {:induction false} RemoveFiltered<T>(xs: seq<T>, s: set<T>)
    ensures RemoveEach(xs, FilterIn(xs, s)) == FilterOut(xs, s)
    decreases |xs|
  {
    if xs != [] {
      RemoveFiltered(xs[1..], s);
      if xs[0] in s {
        RemoveFilteredHead(xs, s);
      } else {
        RemoveFilteredSkip(xs, s);
      }
    }
  }

  lemma RemoveFilteredHead<T>(xs: seq<T>, s: set<T>)
    requires xs != [] && xs[0] in s
    requires RemoveEach(xs[1..], FilterIn(xs[1..], s)) == FilterOut(xs[1..], s)
    ensures RemoveEach(xs, FilterIn(xs, s)) == FilterOut(xs, s)
  {
    var rest := xs[1..];
    var rs := FilterIn(xs, s);
    assert rs == [xs[0]] + FilterIn(rest, s);
    assert rs[0] == xs[0] && rs[1..] == FilterIn(rest, s);
    assert RemoveFirst(xs, xs[0]) == rest;
  }

  lemma RemoveFilteredSkip<T>(xs: seq<T>, s: set<T>)
    requires xs != [] && xs[0] !in s
    requires RemoveEach(xs[1..], FilterIn(xs[1..], s)) == FilterOut(xs[1..], s)
    ensures RemoveEach(xs, FilterIn(xs, s)) == FilterOut(xs, s)
  {
    var rest := xs[1..];
    assert xs == [xs[0]] + rest;
    FilterInSubset(rest, s);
    RemoveEachSkips(xs[0], rest, FilterIn(rest, s));
    assert FilterIn(xs, s) == FilterIn(rest, s);
  }

  lemma {:induction false} FilterInSubset<T>(xs: seq<T>, s: set<T>)
    ensures forall x :: x in FilterIn(xs, s) ==> x in s && x in xs
    decreases |xs|
  {
    if xs != [] {
      FilterInSubset(xs[1..], s);
    }
  }

  lemma {:induction false} FilterInSnoc<T>(xs: seq<T>, x: T, s: set<T>)
    ensures FilterIn(xs + [x], s) == FilterIn(xs, s) + (if x in s then [x] else [])
    decreases |xs|
  {
    if xs == [] {
      assert FilterIn([x], s) == (if x in s then [x] else []) + FilterIn([], s);
    } else {
      assert (xs + [x])[0] == xs[0] && (xs + [x])[1..] == xs[1..] + [x];
      FilterInSnoc(xs[1..], x, s);
      var h := if xs[0] in s then [xs[0]] else [];
      var t := if x in s then [x] else [];
      calc {
        FilterIn(xs + [x], s);
        h + FilterIn(xs[1..] + [x], s);
        h + (FilterIn(xs[1..], s) + t);
        (h + FilterIn(xs[1..], s)) + t;
        FilterIn(xs, s) + t;
      }
    }
  }

  /** One turn of a loop that collects, in order, the elements of `xs` that lie in `s`. */
  lemma FilterInStep<T>(xs: seq<T>, i: nat, s: set<T>, acc: seq<T>, hit: bool)
    requires i < |xs| && acc == FilterIn(xs[..i], s) && hit == (xs[i] in s)
    ensures (if hit then acc + [xs[i]] else acc) == FilterIn(xs[..i + 1], s)
  {
    assert xs[..i + 1] == xs[..i] + [xs[i]];
    FilterInSnoc(xs[..i], xs[i], s);
  }

  /** Filtering keeps exactly the elements outside `s`, each with its multiplicity. */
  lemma {:induction false} FilterOutMembers<T>(xs: seq<T>, s: set<T>)
    ensures forall x :: x in FilterOut(xs, s) <==> x in xs && x !in s
    ensures multiset(FilterOut(xs, s)) <= multiset(xs)
    decreases |xs|
  {
    if xs != [] {
      FilterOutMembers(xs[1..], s);
      assert xs == [xs[0]] + xs[1..];
      assert multiset(xs) == multiset{xs[0]} + multiset(xs[1..]);
    }
  }

  /** Removing any elements only shrinks a list. */
  lemma RemoveEachShrinks<T>(xs: seq<T>, rs: seq<T>)
    ensures multiset(RemoveEach(xs, rs)) <= multiset(xs)
    ensures forall x :: x in RemoveEach(xs, rs) ==> x in xs
  {
    RemoveEachCount(xs, rs);
    var r := RemoveEach(xs, rs);
    forall x | x in r ensures x in xs {
      assert x in multiset(r);
    }
  }

  /** Removing from a list without duplicates leaves no occurrence and no duplicates. */
  lemma {:induction false} RemoveFirstNoDup<T>(xs: seq<T>, x: T)
    requires NoDup(xs)
    ensures NoDup(RemoveFirst(xs, x)) && x !in RemoveFirst(xs, x)
    ensures forall y :: y in RemoveFirst(xs, x) ==> y in xs
    decreases |xs|
  {
    if xs != [] && xs[0] != x {
      assert NoDup(xs[1..]) by {
        forall i, j | 0 <= i < j < |xs[1..]| ensures xs[1..][i] != xs[1..][j] {
          assert xs[1..][i] == xs[i + 1] && xs[1..][j] == xs[j + 1];
        }
      }
      RemoveFirstNoDup(xs[1..], x);
      var r := RemoveFirst(xs[1..], x);
      assert xs[0] !in r by {
        forall i | 1 <= i < |xs| ensures xs[i] != xs[0] { }
      }
      assert NoDup([xs[0]] + r) by {
        forall i, j | 0 <= i < j < |[xs[0]] + r| ensures ([xs[0]] + r)[i] != ([xs[0]] + r)[j] {
          if i == 0 {
            assert ([xs[0]] + r)[j] == r[j - 1];
          } else {
            assert ([xs[0]] + r)[i] == r[i - 1] && ([xs[0]] + r)[j] == r[j - 1];
          }
        }
      }
    } else if xs != [] {
      assert forall i :: 1 <= i < |xs| ==> xs[i] != xs[0];
    }
  }

  /** `remove` keeps only elements that were there. */
  lemma {:induction false} RemoveFirstMembers<T>(xs: seq<T>, x: T)
    ensures forall y :: y in RemoveFirst(xs, x) ==> y in xs
    ensures forall y :: y in xs && y != x ==> y in RemoveFirst(xs, x)
  {
    RemoveFirstCount(xs, x);
    forall y | y in RemoveFirst(xs, x) ensures y in xs {
      assert multiset(RemoveFirst(xs, x))[y] > 0;
    }
    forall y | y in xs && y != x ensures y in RemoveFirst(xs, x) {
      assert multiset(RemoveFirst(xs, x))[y] == multiset(xs)[y] > 0;
    }
  }

  /** Every occurrence of an element of `s` survives filtering. */
  lemma {:induction false} FilterInCount<T>(xs: seq<T>, s: set<T>, x: T)
    requires x in s
    ensures multiset(FilterIn(xs, s))[x] == multiset(xs)[x]
    decreases |xs|
  {
    if xs != [] {
      FilterInCount(xs[1..], s, x);
      assert xs == [xs[0]] + xs[1..];
    }
  }
}
