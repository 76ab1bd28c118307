/**
  Sequences without repetition, built by appending an element only when it is
  not there yet: the order in which a dictionary's keys, or a day's
  (subject, topic) pairs, first appear.
*/
module Dedup {

  predicate Distinct<T(==)>(xs: seq<T>) {
    forall i, j :: 0 <= i < j < |xs| ==> xs[i] != xs[j]
  }

  /** `xs` with `x` appended, unless `x` is already in it. */
  function AppendNew<T(==)>(xs: seq<T>, x: T): (r: seq<T>)
    ensures xs <= r && x in r
    ensures |r| == if x in xs then |xs| else |xs| + 1
    ensures Distinct(xs) ==> Distinct(r)
  {
    if x in xs then xs else xs + [x]
  }

  /** Every element of `xs` in turn offered to `AppendNew`. */
  function AppendAll<T(==)>(acc: seq<T>, xs: seq<T>): seq<T> {
    if xs == [] then acc
    else AppendNew(AppendAll(acc, xs[..|xs| - 1]), xs[|xs| - 1])
  }

  /** The elements of `xs` in the order of their first occurrence. */
  function FirstOccurrences<T(==)>(xs: seq<T>): seq<T> {
    AppendAll([], xs)
  }

  /** One more element offers itself to the first occurrences of the rest. */
  lemma FirstOccurrencesSnoc<T>(xs: seq<T>, x: T)
    ensures FirstOccurrences(xs + [x]) == AppendNew(FirstOccurrences(xs), x)
  {
    assert (xs + [x])[..|xs|] == xs;
  }

  lemma {:induction false} AppendAllConcat<T>(acc: seq<T>, xs: seq<T>, ys: seq<T>)
    ensures AppendAll(acc, xs + ys) == AppendAll(AppendAll(acc, xs), ys)
    decreases |ys|
  {
    if ys == [] {
      assert xs + ys == xs;
    } else {
      assert (xs + ys)[..|xs + ys| - 1] == xs + ys[..|ys| - 1];
      AppendAllConcat(acc, xs, ys[..|ys| - 1]);
    }
  }

  lemma {:induction false} AppendAllMembers<T>(acc: seq<T>, xs: seq<T>)
    ensures forall y :: y in AppendAll(acc, xs) <==> y in acc || y in xs
    decreases |xs|
  {
    if xs != [] {
      var init := xs[..|xs| - 1];
      AppendAllMembers(acc, init);
      assert xs == init + [xs[|xs| - 1]];
    }
  }

  lemma {:induction false} AppendAllDistinct<T>(acc: seq<T>, xs: seq<T>)
    requires Distinct(acc)
    ensures Distinct(AppendAll(acc, xs))
    decreases |xs|
  {
    if xs != [] {
      AppendAllDistinct(acc, xs[..|xs| - 1]);
    }
  }

  lemma {:induction false} AppendAllExtends<T>(acc: seq<T>, xs: seq<T>)
    ensures acc <= AppendAll(acc, xs)
    decreases |xs|
  {
    if xs != [] {
      AppendAllExtends(acc, xs[..|xs| - 1]);
    }
  }

  /** First occurrences have no repetition, hold exactly the elements, and start with the first element. */
  lemma FirstOccurrencesFacts<T>(xs: seq<T>)
    ensures Distinct(FirstOccurrences(xs))
    ensures forall y :: y in FirstOccurrences(xs) <==> y in xs
    ensures xs != [] ==> FirstOccurrences(xs) != [] && FirstOccurrences(xs)[0] == xs[0]
  {
    AppendAllDistinct([], xs);
    AppendAllMembers([], xs);
    if xs != [] {
      AppendAllConcat([], [xs[0]], xs[1..]);
      assert [xs[0]] + xs[1..] == xs;
      assert AppendAll([], [xs[0]]) == [xs[0]] by {
        assert [xs[0]][..0] == [];
      }
      AppendAllExtends([xs[0]], xs[1..]);
    }
  }

  /** The key of every element, in order. */
  function KeysBy<T, K>(xs: seq<T>, key: T -> K): (ks: seq<K>)
    ensures |ks| == |xs|
    ensures forall i :: 0 <= i < |xs| ==> ks[i] == key(xs[i])
  {
    seq(|xs|, i requires 0 <= i < |xs| => key(xs[i]))
  }

  /** The elements in order, without every element whose key an earlier element already has. */
  function KeepFirstBy<T, K(==)>(xs: seq<T>, key: T -> K): seq<T> {
    if xs == [] then []
    else
      var kept := KeepFirstBy(xs[..|xs| - 1], key);
      var x := xs[|xs| - 1];
      if key(x) in KeysBy(kept, key) then kept else kept + [x]
  }

  /** Position `i` holds the first element with its key. */
  predicate FirstOfKey<T, K(==)>(xs: seq<T>, key: T -> K, i: int)
    requires 0 <= i < |xs|
  {
    forall j :: 0 <= j < i ==> key(xs[j]) != key(xs[i])
  }

  /** The positions below `n` that hold the first element with their key, in increasing order. */
  function FirstPositions<T, K(==)>(xs: seq<T>, key: T -> K, n: nat): (ps: seq<nat>)
    requires n <= |xs|
    ensures forall m :: 0 <= m < |ps| ==> ps[m] < n
  {
    if n == 0 then []
    else FirstPositions(xs, key, n - 1) + (if FirstOfKey(xs, key, n - 1) then [n - 1] else [])
  }

  /** The elements at the given positions. */
  function Select<T>(xs: seq<T>, ps: seq<nat>): (r: seq<T>)
    requires forall m :: 0 <= m < |ps| ==> ps[m] < |xs|
    ensures |r| == |ps|
    ensures forall m :: 0 <= m < |ps| ==> r[m] == xs[ps[m]]
  {
    seq(|ps|, m requires 0 <= m < |ps| => xs[ps[m]])
  }

  /** The first positions are increasing, and are exactly the positions that come first with their key. */
  lemma {:induction false} FirstPositionsFacts<T, K>(xs: seq<T>, key: T -> K, n: nat)
    requires n <= |xs|
    ensures forall m, m' :: 0 <= m < m' < |FirstPositions(xs, key, n)| ==> FirstPositions(xs, key, n)[m] < FirstPositions(xs, key, n)[m']
    ensures forall i :: 0 <= i < n ==> (i in FirstPositions(xs, key, n) <==> FirstOfKey(xs, key, i))
  {
    if n > 0 {
      FirstPositionsFacts(xs, key, n - 1);
    }
  }

  /** A key is among the kept elements' keys exactly when some element has it. */
  lemma {:induction false} KeepFirstHas<T, K>(xs: seq<T>, key: T -> K, k: K)
    ensures k in KeysBy(KeepFirstBy(xs, key), key) <==> k in KeysBy(xs, key)
  {
    if xs != [] {
      var init := xs[..|xs| - 1];
      var x := xs[|xs| - 1];
      var kept := KeepFirstBy(init, key);
      KeepFirstHas(init, key, k);
      assert KeysBy(xs, key) == KeysBy(init, key) + [key(x)];
      if key(x) !in KeysBy(kept, key) {
        assert KeysBy(kept + [x], key) == KeysBy(kept, key) + [key(x)];
      }
    }
  }

  /** The kept elements' keys are distinct. */
  lemma {:induction false} KeepFirstKeys<T, K>(xs: seq<T>, key: T -> K)
    ensures Distinct(KeysBy(KeepFirstBy(xs, key), key))
  {
    if xs != [] {
      var init := xs[..|xs| - 1];
      var x := xs[|xs| - 1];
      var kept := KeepFirstBy(init, key);
      KeepFirstKeys(init, key);
      if key(x) !in KeysBy(kept, key) {
        assert KeysBy(kept + [x], key) == KeysBy(kept, key) + [key(x)];
      }
    }
  }

  /** The last position comes first with its key exactly when no earlier element has that key. */
  lemma LastFirstOfKey<T, K>(xs: seq<T>, key: T -> K)
    requires xs != []
    ensures FirstOfKey(xs, key, |xs| - 1) <==> key(xs[|xs| - 1]) !in KeysBy(xs[..|xs| - 1], key)
  {
    var n := |xs| - 1;
    var init := xs[..n];
    if key(xs[n]) in KeysBy(init, key) {
      var j :| 0 <= j < n && KeysBy(init, key)[j] == key(xs[n]);
      assert key(xs[j]) == key(xs[n]);
    }
  }

  /** Whether a position comes first with its key depends only on the positions up to it. */
  lemma {:induction false} FirstPositionsPrefix<T, K>(xs: seq<T>, key: T -> K, m: nat, n: nat)
    requires n <= m <= |xs|
    ensures FirstPositions(xs[..m], key, n) == FirstPositions(xs, key, n)
  {
    if n > 0 {
      FirstPositionsPrefix(xs, key, m, n - 1);
      assert FirstOfKey(xs[..m], key, n - 1) == FirstOfKey(xs, key, n - 1);
    }
  }

  /** What is kept is the subsequence of the elements that come first with their key. */
  lemma {:induction false} KeepFirstSpec<T, K>(xs: seq<T>, key: T -> K)
    ensures KeepFirstBy(xs, key) == Select(xs, FirstPositions(xs, key, |xs|))
  {
    if xs != [] {
      var n := |xs| - 1;
      var init := xs[..n];
      var q := FirstPositions(xs, key, n);
      var kept := KeepFirstBy(init, key);
      KeepFirstSpec(init, key);
      FirstPositionsPrefix(xs, key, n, n);
      assert kept == Select(xs, q);
      LastFirstOfKey(xs, key);
      KeepFirstHas(init, key, key(xs[n]));
      if FirstOfKey(xs, key, n) {
        assert FirstPositions(xs, key, |xs|) == q + [n];
        assert KeepFirstBy(xs, key) == kept + [xs[n]];
        assert Select(xs, q + [n]) == Select(xs, q) + [xs[n]];
      } else {
        assert FirstPositions(xs, key, |xs|) == q;
        assert KeepFirstBy(xs, key) == kept;
      }
    }
  }

  /** A sequence whose every element comes first with its key is kept whole. */
  lemma {:induction false} KeepFirstAllFirst<T, K>(xs: seq<T>, key: T -> K)
    requires forall i :: 0 <= i < |xs| ==> FirstOfKey(xs, key, i)
    ensures KeepFirstBy(xs, key) == xs
  {
    if xs != [] {
      var n := |xs| - 1;
      var init := xs[..n];
      forall i | 0 <= i < n
        ensures FirstOfKey(init, key, i)
      {
        assert FirstOfKey(xs, key, i);
      }
      KeepFirstAllFirst(init, key);
      LastFirstOfKey(xs, key);
      assert FirstOfKey(xs, key, n);
      assert xs == init + [xs[n]];
    }
  }

  /** A sequence whose keys are already distinct is kept whole. */
  lemma KeepFirstDistinct<T, K>(xs: seq<T>, key: T -> K)
    requires Distinct(KeysBy(xs, key))
    ensures KeepFirstBy(xs, key) == xs
  {
    forall i | 0 <= i < |xs|
      ensures FirstOfKey(xs, key, i)
    {
      forall j | 0 <= j < i
        ensures key(xs[j]) != key(xs[i])
      {
        assert KeysBy(xs, key)[j] != KeysBy(xs, key)[i];
      }
    }
    KeepFirstAllFirst(xs, key);
  }

  /** Keeping the first of each key twice keeps what doing it once keeps. */
  lemma KeepFirstIdempotent<T, K>(xs: seq<T>, key: T -> K)
    ensures KeepFirstBy(KeepFirstBy(xs, key), key) == KeepFirstBy(xs, key)
  {
    KeepFirstKeys(xs, key);
    KeepFirstDistinct(KeepFirstBy(xs, key), key);
  }

  /** Keeping the first of each key never lengthens a sequence. */
  lemma {:induction false} KeepFirstShorter<T, K>(xs: seq<T>, key: T -> K)
    ensures |KeepFirstBy(xs, key)| <= |xs|
  {
    if xs != [] {
      KeepFirstShorter(xs[..|xs| - 1], key);
    }
  }
}
