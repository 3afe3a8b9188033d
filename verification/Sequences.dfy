/** Facts about sequences that the component proofs share. */
module Sequences {
  import opened Types

  lemma SliceStep<T>(xs: seq<T>, i: nat)
    requires i < |xs|
    ensures xs[i..][0] == xs[i] && xs[i..][1..] == xs[i + 1..]
  {
  }

  lemma ConcatAssociates<T>(xs: seq<T>, ys: seq<T>, zs: seq<T>)
    ensures xs + (ys + zs) == xs + ys + zs
  {
  }

  /** The images `f` keeps, in order. */
  function FilterMap<T, U>(f: T -> Option<U>, xs: seq<T>): (r: seq<U>) {
    if xs == [] then []
    else (match f(xs[0]) case Some(u) => [u] case None => []) + FilterMap(f, xs[1..])
  }

  lemma FilterMapOne<T, U>(f: T -> Option<U>, x: T)
    ensures FilterMap(f, [x]) == if f(x).Some? then [f(x).value] else []
  {
    assert [x][1..] == [];
  }

  lemma {:induction false} FilterMapConcat<T, U>(f: T -> Option<U>, xs: seq<T>, ys: seq<T>)
    ensures FilterMap(f, xs + ys) == FilterMap(f, xs) + FilterMap(f, ys)
  {
    if xs == [] {
      assert xs + ys == ys;
    } else {
      FilterMapConcat(f, xs[1..], ys);
      assert (xs + ys)[0] == xs[0] && (xs + ys)[1..] == xs[1..] + ys;
      var first: seq<U> := match f(xs[0]) case Some(u) => [u] case None => [];
      ConcatAssociates(first, FilterMap(f, xs[1..]), FilterMap(f, ys));
    }
  }

  /** The kept images as a multiset, split at any element. */
  lemma FilterMapSplit<T, U>(f: T -> Option<U>, xs: seq<T>, x: T, ys: seq<T>)
    ensures multiset(FilterMap(f, xs + [x] + ys))
         == multiset(FilterMap(f, [x])) + multiset(FilterMap(f, xs + ys))
  {
    FilterMapConcat(f, xs + [x], ys);
    FilterMapConcat(f, xs, [x]);
    FilterMapConcat(f, xs, ys);
  }

  /** Permuting the input permutes the kept images. */
  lemma {:induction false} FilterMapPermutation<T, U>(f: T -> Option<U>, xs: seq<T>, ys: seq<T>)
    requires multiset(xs) == multiset(ys)
    ensures multiset(FilterMap(f, xs)) == multiset(FilterMap(f, ys))
  {
    if xs == [] {
      assert |multiset(ys)| == 0;
    } else {
      var i := Remove(xs, ys);
      var before, after := ys[..i], ys[i + 1..];
      FilterMapPermutation(f, xs[1..], before + after);
      assert multiset(FilterMap(f, ys)) == multiset(FilterMap(f, [xs[0]])) + multiset(FilterMap(f, before + after)) by {
        FilterMapSplit(f, before, xs[0], after);
      }
      assert multiset(FilterMap(f, xs)) == multiset(FilterMap(f, [xs[0]])) + multiset(FilterMap(f, xs[1..])) by {
        FilterMapConcat(f, [xs[0]], xs[1..]);
        assert xs == [xs[0]] + xs[1..];
      }
    }
  }

  /** The first element of `xs` sits somewhere in a permutation `ys`; removing it leaves a permutation. */
  lemma Remove<T>(xs: seq<T>, ys: seq<T>) returns (i: nat)
    requires xs != [] && multiset(xs) == multiset(ys)
    ensures i < |ys| && ys == ys[..i] + [xs[0]] + ys[i + 1..]
    ensures multiset(xs[1..]) == multiset(ys[..i] + ys[i + 1..])
  {
    assert xs[0] in multiset(ys);
    i :| 0 <= i < |ys| && ys[i] == xs[0];
    var x, before, after := xs[0], ys[..i], ys[i + 1..];
    assert xs == [x] + xs[1..];
    assert ys == before + [x] + after;
    assert multiset(ys) == multiset(before) + multiset{x} + multiset(after);
    assert multiset(before + after) == multiset(ys) - multiset{x};
    assert multiset(xs[1..]) == multiset(xs) - multiset{x};
  }

  /** Every kept image is the image of some element. */
  lemma {:induction false} FilterMapOrigin<T, U>(f: T -> Option<U>, xs: seq<T>, u: U) returns (x: T)
    requires u in FilterMap(f, xs)
    ensures x in xs && f(x) == Some(u)
  {
    x := xs[0];
    if f(x) != Some(u) {
      x := FilterMapOrigin(f, xs[1..], u);
    }
  }

  predicate Distinct<T(==)>(xs: seq<T>) {
    forall i, j :: 0 <= i < j < |xs| ==> xs[i] != xs[j]
  }

  lemma DistinctHead<T>(x: T, xs: seq<T>)
    ensures Distinct([x] + xs) <==> x !in xs && Distinct(xs)
  {
    var both := [x] + xs;
    assert forall i :: 0 <= i < |xs| ==> both[i + 1] == xs[i];
    if x in xs {
      var i :| 0 <= i < |xs| && xs[i] == x;
      assert both[0] == both[i + 1];
    } else if Distinct(xs) {
      forall i, j | 0 < i < j < |both| ensures both[i] != both[j] {
        assert both[i] == xs[i - 1] && both[j] == xs[j - 1];
      }
    } else {
      var i, j :| 0 <= i < j < |xs| && xs[i] == xs[j];
      assert both[i + 1] == both[j + 1];
    }
  }

  /** A concatenation is duplicate-free exactly when both parts are and share nothing. */
  lemma {:induction false} DistinctConcat<T>(xs: seq<T>, ys: seq<T>)
    ensures Distinct(xs + ys) <==> Distinct(xs) && Distinct(ys) && forall x :: x in xs ==> x !in ys
  {
    if xs == [] {
      assert xs + ys == ys;
    } else {
      DistinctConcat(xs[1..], ys);
      assert xs == [xs[0]] + xs[1..] && xs + ys == [xs[0]] + (xs[1..] + ys);
      DistinctHead(xs[0], xs[1..]);
      DistinctHead(xs[0], xs[1..] + ys);
    }
  }

  /** A sequence is duplicate-free exactly when no element has multiplicity above one. */
  lemma {:induction false} DistinctByMultiset<T>(xs: seq<T>)
    ensures Distinct(xs) <==> forall x :: x in multiset(xs) ==> multiset(xs)[x] == 1
  {
    if xs == [] {
    } else {
      var rest := xs[1..];
      DistinctByMultiset(rest);
      assert xs == [xs[0]] + rest;
      assert forall x :: multiset(xs)[x] == multiset(rest)[x] + (if x == xs[0] then 1 else 0);
      if Distinct(xs) {
        assert Distinct(rest);
        assert xs[0] !in rest by { assert forall k :: 0 <= k < |rest| ==> rest[k] == xs[k + 1]; }
      } else {
        var i, j :| 0 <= i < j < |xs| && xs[i] == xs[j];
        if i == 0 { assert xs[j] == rest[j - 1]; } else { assert rest[i - 1] == rest[j - 1]; }
      }
    }
  }

  lemma DistinctPermutation<T>(xs: seq<T>, ys: seq<T>)
    requires multiset(xs) == multiset(ys)
    ensures Distinct(xs) == Distinct(ys)
  {
    DistinctByMultiset(xs);
    DistinctByMultiset(ys);
  }

  /** No two elements have the same image under `f`. */
  predicate KeepsApart<T, U(==)>(f: T -> Option<U>, xs: seq<T>) {
    forall i, j :: 0 <= i < j < |xs| && f(xs[i]).Some? ==> f(xs[i]) != f(xs[j])
  }

  lemma KeepsApartHead<T, U>(f: T -> Option<U>, x: T, rest: seq<T>)
    ensures KeepsApart(f, [x] + rest)
       <==> KeepsApart(f, rest) && (f(x).Some? ==> forall j :: 0 <= j < |rest| ==> f(rest[j]) != f(x))
  {
    var xs := [x] + rest;
    assert forall j :: 0 <= j < |rest| ==> xs[j + 1] == rest[j];
    if KeepsApart(f, xs) {
      forall i, j | 0 <= i < j < |rest| && f(rest[i]).Some? ensures f(rest[i]) != f(rest[j]) {
        assert xs[i + 1] == rest[i] && xs[j + 1] == rest[j];
      }
      if f(x).Some? {
        forall j | 0 <= j < |rest| ensures f(rest[j]) != f(x) { assert xs[0] == x && xs[j + 1] == rest[j]; }
      }
    }
  }

  /** The images `f` keeps are distinct exactly when no two elements keep the same one. */
  lemma {:induction false} FilterMapDistinct<T, U>(f: T -> Option<U>, xs: seq<T>)
    ensures Distinct(FilterMap(f, xs)) <==> KeepsApart(f, xs)
  {
    if xs == [] {
    } else {
      var x, rest := xs[0], xs[1..];
      FilterMapDistinct(f, rest);
      assert xs == [x] + rest;
      KeepsApartHead(f, x, rest);
      if f(x).Some? {
        DistinctHead(f(x).value, FilterMap(f, rest));
        FilterMapMember(f, rest, f(x).value);
        assert FilterMap(f, xs) == [f(x).value] + FilterMap(f, rest);
      } else {
        assert FilterMap(f, xs) == FilterMap(f, rest);
      }
    }
  }

  lemma {:induction false} FilterMapMember<T, U>(f: T -> Option<U>, xs: seq<T>, u: U)
    ensures u in FilterMap(f, xs) <==> exists i :: 0 <= i < |xs| && f(xs[i]) == Some(u)
  {
    if xs == [] {
    } else {
      FilterMapMember(f, xs[1..], u);
      assert xs == [xs[0]] + xs[1..];
    }
  }

  function Sum(xs: seq<nat>): (r: nat) {
    if xs == [] then 0 else xs[0] + Sum(xs[1..])
  }

  lemma {:induction false} SumConcat(xs: seq<nat>, ys: seq<nat>)
    ensures Sum(xs + ys) == Sum(xs) + Sum(ys)
  {
    if xs == [] {
      assert xs + ys == ys;
    } else {
      SumConcat(xs[1..], ys);
      assert (xs + ys)[1..] == xs[1..] + ys;
    }
  }

  lemma {:induction false} SumPermutation(xs: seq<nat>, ys: seq<nat>)
    requires multiset(xs) == multiset(ys)
    ensures Sum(xs) == Sum(ys) && |xs| == |ys|
  {
    if xs == [] {
      assert |multiset(ys)| == 0;
    } else {
      var i := Remove(xs, ys);
      SumPermutation(xs[1..], ys[..i] + ys[i + 1..]);
      SumConcat(ys[..i], ys[i + 1..]);
      SumConcat(ys[..i], ys[i..]);
      assert ys[..i] + ys[i..] == ys;
      assert ys[i..][1..] == ys[i + 1..];
    }
  }

  /** The transactions of a chain in commit order. */
  function Transactions(chain: seq<Block>): (r: seq<Transaction>) {
    if chain == [] then [] else chain[0].transactions + Transactions(chain[1..])
  }

  lemma {:induction false} TransactionsConcat(xs: seq<Block>, ys: seq<Block>)
    ensures Transactions(xs + ys) == Transactions(xs) + Transactions(ys)
  {
    if xs == [] {
      assert xs + ys == ys;
    } else {
      TransactionsConcat(xs[1..], ys);
      assert (xs + ys)[0] == xs[0] && (xs + ys)[1..] == xs[1..] + ys;
      ConcatAssociates(xs[0].transactions, Transactions(xs[1..]), Transactions(ys));
    }
  }

  /** Appending one block appends its transactions. */
  lemma TransactionsPush(xs: seq<Block>, b: Block)
    ensures Transactions(xs + [b]) == Transactions(xs) + b.transactions
  {
    TransactionsConcat(xs, [b]);
    assert Transactions([b]) == b.transactions + [];
  }
}
