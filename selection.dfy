/**
 * Python's list-selection built-ins as the colour classifier uses them.
 *
 * `max(xs, key=k)` and `min(xs, key=k)` scan left to right and replace the
 * current best only on a strict improvement, so they return the FIRST element
 * with an extremal key. `sorted(xs, key=k)` is stable, so its first element is
 * the first minimum and its last element is the LAST maximum. A list
 * comprehension with a condition is `Filter`.
 */
module Selection {
  import opened Wrappers

  /** `x` is the first element of `s` whose key is the largest. */
  predicate IsFirstMax<T(==)>(s: seq<T>, key: T -> real, x: T) {
    exists i :: 0 <= i < |s| && s[i] == x && IsFirstMaxAt(s, key, i)
  }

  predicate IsFirstMaxAt<T>(s: seq<T>, key: T -> real, i: int)
    requires 0 <= i < |s|
  {
    (forall j :: 0 <= j < |s| ==> key(s[j]) <= key(s[i])) &&
    (forall j :: 0 <= j < i ==> key(s[j]) < key(s[i]))
  }

  /** `x` is the first element of `s` whose key is the smallest. */
  predicate IsFirstMin<T(==)>(s: seq<T>, key: T -> real, x: T) {
    exists i :: 0 <= i < |s| && s[i] == x && IsFirstMinAt(s, key, i)
  }

  predicate IsFirstMinAt<T>(s: seq<T>, key: T -> real, i: int)
    requires 0 <= i < |s|
  {
    (forall j :: 0 <= j < |s| ==> key(s[i]) <= key(s[j])) &&
    (forall j :: 0 <= j < i ==> key(s[i]) < key(s[j]))
  }

  /** Index of the first element with the largest key (`max(xs, key=k)`). */
  function FirstMaxIndex<T>(s: seq<T>, key: T -> real): (i: nat)
    requires |s| > 0
    ensures i < |s| && IsFirstMaxAt(s, key, i)
  {
    if |s| == 1 then 0
    else
      var k := FirstMaxIndex(s[..|s| - 1], key);
      assert forall j :: 0 <= j < |s| - 1 ==> s[..|s| - 1][j] == s[j];
      if key(s[|s| - 1]) > key(s[k]) then |s| - 1 else k
  }

  /** Index of the first element with the smallest key (`min(xs, key=k)`,
      and the head of `sorted(xs, key=k)`). */
  function FirstMinIndex<T>(s: seq<T>, key: T -> real): (i: nat)
    requires |s| > 0
    ensures i < |s| && IsFirstMinAt(s, key, i)
  {
    if |s| == 1 then 0
    else
      var k := FirstMinIndex(s[..|s| - 1], key);
      assert forall j :: 0 <= j < |s| - 1 ==> s[..|s| - 1][j] == s[j];
      if key(s[|s| - 1]) < key(s[k]) then |s| - 1 else k
  }

  /** Index of the last element with the largest key (the tail of the stable
      `sorted(xs, key=k)`). */
  function LastMaxIndex<T>(s: seq<T>, key: T -> real): (i: nat)
    requires |s| > 0
    ensures i < |s|
    ensures forall j :: 0 <= j < |s| ==> key(s[j]) <= key(s[i])
    ensures forall j :: i < j < |s| ==> key(s[j]) < key(s[i])
  {
    if |s| == 1 then 0
    else
      var k := LastMaxIndex(s[..|s| - 1], key);
      assert forall j :: 0 <= j < |s| - 1 ==> s[..|s| - 1][j] == s[j];
      if key(s[|s| - 1]) >= key(s[k]) then |s| - 1 else k
  }

  /** `[x for x in s if p(x)]`. */
  function Filter<T(==,!new)>(s: seq<T>, p: T -> bool): (r: seq<T>)
    ensures |r| <= |s|
    ensures forall x :: x in r <==> x in s && p(x)
  {
    if s == [] then []
    else
      var rest := Filter(s[..|s| - 1], p);
      assert forall x :: x in s <==> x in s[..|s| - 1] || x == s[|s| - 1];
      if p(s[|s| - 1]) then rest + [s[|s| - 1]] else rest
  }

  /** Filtering keeps the order of what it keeps: the kept elements of a
      concatenation are the kept elements of each part. */
  lemma {:induction false} FilterAppend<T(!new)>(a: seq<T>, b: seq<T>, p: T -> bool)
    ensures Filter(a + b, p) == Filter(a, p) + Filter(b, p)
    decreases |b|
  {
    if b == [] {
      assert a + b == a;
    } else {
      var b' := b[..|b| - 1];
      assert (a + b)[..|a + b| - 1] == a + b';
      FilterAppend(a, b', p);
    }
  }

  /** Filtering twice with the same condition changes nothing more. */
  lemma {:induction false} FilterIdempotent<T(!new)>(s: seq<T>, p: T -> bool)
    ensures Filter(Filter(s, p), p) == Filter(s, p)
    decreases |s|
  {
    if s != [] {
      var rest := Filter(s[..|s| - 1], p);
      FilterIdempotent(s[..|s| - 1], p);
      if p(s[|s| - 1]) {
        FilterAppend(rest, [s[|s| - 1]], p);
        assert Filter([s[|s| - 1]], p) == [s[|s| - 1]] by {
          assert [s[|s| - 1]][..0] == [];
        }
      }
    }
  }

  /** The present results of `f` over `s`, in order: a loop that appends
      `f(x)` for each `x` unless it is None. */
  function KeepSome<T, U>(s: seq<T>, f: T -> Option<U>): (r: seq<U>)
    ensures |r| <= |s|
  {
    if s == [] then [] else KeepSome(s[..|s| - 1], f) + OptList(f(s[|s| - 1]))
  }

  /** The value of an option as a list of at most one element. */
  function OptList<U>(o: Option<U>): seq<U> {
    if o.Some? then [o.value] else []
  }

  /** One step of such a loop: appending the next present result keeps the
      accumulator equal to what preceded it plus the results so far. */
  lemma KeepSomeStep<T, U>(before: seq<U>, s: seq<T>, f: T -> Option<U>, i: nat, acc: seq<U>)
    requires i < |s| && acc == before + KeepSome(s[..i], f)
    ensures f(s[i]).Some? ==> acc + [f(s[i]).value] == before + KeepSome(s[..i + 1], f)
    ensures f(s[i]).None? ==> acc == before + KeepSome(s[..i + 1], f)
  {
    assert s[..i + 1][..i] == s[..i];
  }

  /** An element is kept iff `f` produces it for some element of `s`. */
  lemma KeepSomeMembers<T, U>(s: seq<T>, f: T -> Option<U>, x: U)
    ensures x in KeepSome(s, f) <==> exists i :: 0 <= i < |s| && f(s[i]) == Some(x)
  {
    if x in KeepSome(s, f) {
      var i := KeepSomeSource(s, f, x);
    }
    if exists i :: 0 <= i < |s| && f(s[i]) == Some(x) {
      var i :| 0 <= i < |s| && f(s[i]) == Some(x);
      KeepSomeKeeps(s, f, i);
    }
  }

  lemma {:induction false} KeepSomeSource<T, U>(s: seq<T>, f: T -> Option<U>, x: U) returns (i: nat)
    requires x in KeepSome(s, f)
    ensures i < |s| && f(s[i]) == Some(x)
    decreases |s|
  {
    var init := s[..|s| - 1];
    if x in KeepSome(init, f) {
      i := KeepSomeSource(init, f, x);
      assert s[i] == init[i];
    } else {
      i := |s| - 1;
    }
  }

  lemma {:induction false} KeepSomeKeeps<T, U>(s: seq<T>, f: T -> Option<U>, i: nat)
    requires i < |s| && f(s[i]).Some?
    ensures f(s[i]).value in KeepSome(s, f)
    decreases |s|
  {
    var init := s[..|s| - 1];
    if i < |init| {
      assert s[i] == init[i];
      KeepSomeKeeps(init, f, i);
    } else {
      assert KeepSome(s, f)[|KeepSome(init, f)|] == f(s[i]).value;
    }
  }

  /** `{k: f(m[k]) for k in keys if k in m and f(m[k]) is not None}`, built
      key by key in the order of `keys`. */
  function SomeValues<K, V, U>(m: map<K, V>, keys: seq<K>, f: V -> Option<U>): map<K, U> {
    if keys == [] then map[]
    else
      var acc := SomeValues(m, keys[..|keys| - 1], f);
      var k := keys[|keys| - 1];
      if k in m && f(m[k]).Some? then acc[k := f(m[k]).value] else acc
  }

  /** One step of the loop that builds `SomeValues`. */
  lemma SomeValuesStep<K, V, U>(m: map<K, V>, keys: seq<K>, f: V -> Option<U>, i: nat, acc: map<K, U>)
    requires i < |keys| && acc == SomeValues(m, keys[..i], f)
    ensures keys[i] in m && f(m[keys[i]]).Some? ==>
      acc[keys[i] := f(m[keys[i]]).value] == SomeValues(m, keys[..i + 1], f)
    ensures !(keys[i] in m && f(m[keys[i]]).Some?) ==> acc == SomeValues(m, keys[..i + 1], f)
  {
    assert keys[..i + 1][..i] == keys[..i];
  }

  /** A key is present iff it is listed, in `m`, and `f` gives a value for it,
      and then it holds that value. */
  lemma {:induction false} SomeValuesIff<K, V, U>(m: map<K, V>, keys: seq<K>, f: V -> Option<U>, k: K)
    ensures k in SomeValues(m, keys, f) <==> k in keys && k in m && f(m[k]).Some?
    ensures k in SomeValues(m, keys, f) ==> SomeValues(m, keys, f)[k] == f(m[k]).value
    decreases |keys|
  {
    if keys != [] {
      var init := keys[..|keys| - 1];
      SomeValuesIff(m, init, f, k);
      assert k in keys <==> k in init || k == keys[|keys| - 1];
    }
  }
}
