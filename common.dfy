/** Values shared by every module: optional values, results of backend calls,
    JavaScript truthiness on nullable numbers, and the row filter that a
    query `.eq(column, value)` performs. */
module Common {

  datatype Option<+T> = None | Some(value: T)

  /** The outcome of a backend call: a value, or the error message it threw. */
  datatype Result<+T> = Success(value: T) | Failure(error: string)

  /** `x || 0` on a nullable number: null and 0 both give 0. */
  function OrZero(x: Option<int>): int
  {
    if x.Some? then x.value else 0
  }

  /** `if (x)` on a nullable number: neither null nor 0. */
  predicate Truthy(x: Option<int>)
  {
    x.Some? && x.value != 0
  }

  /** The rows of `s`, in table order, whose `key` equals `k`. */
  function Where<T, K(==)>(s: seq<T>, key: T -> K, k: K): (r: seq<T>)
    ensures |r| <= |s|
    ensures forall x :: x in r ==> x in s && key(x) == k
    ensures forall i :: 0 <= i < |s| && key(s[i]) == k ==> s[i] in r
  {
    if |s| == 0 then []
    else (if key(s[0]) == k then [s[0]] else []) + Where(s[1..], key, k)
  }

  /** Filtering distributes over appending rows. */
  lemma {:induction false} WhereConcat<T, K>(a: seq<T>, b: seq<T>, key: T -> K, k: K)
    ensures Where(a + b, key, k) == Where(a, key, k) + Where(b, key, k)
  {
    if |a| == 0 {
      assert a + b == b;
    } else {
      assert (a + b)[1..] == a[1..] + b;
      WhereConcat(a[1..], b, key, k);
    }
  }

  /** Appending one row adds it to the filter exactly when its key matches. */
  lemma WhereAppend<T, K>(a: seq<T>, x: T, key: T -> K, k: K)
    ensures Where(a + [x], key, k) == Where(a, key, k) + (if key(x) == k then [x] else [])
  {
    WhereConcat(a, [x], key, k);
    assert Where([x], key, k) == (if key(x) == k then [x] else []) + Where([x][1..], key, k);
  }

  /** A row whose key does not occur is not in the filter: the filter is empty. */
  lemma WhereEmpty<T, K>(s: seq<T>, key: T -> K, k: K)
    requires forall i :: 0 <= i < |s| ==> key(s[i]) != k
    ensures Where(s, key, k) == []
  {
    if |s| > 0 {
      WhereEmpty(s[1..], key, k);
    }
  }

  /** No two rows of `s` share a `key`: the uniqueness a table constraint or
      an id sequence gives. */
  predicate Distinct<T, K(==)>(s: seq<T>, key: T -> K)
  {
    forall i, j :: 0 <= i < j < |s| ==> key(s[i]) != key(s[j])
  }

  /** A row whose key no other row carries is the whole filter on that key. */
  lemma {:induction false} WhereOnly<T, K>(s: seq<T>, key: T -> K, i: int)
    requires 0 <= i < |s|
    requires forall j :: 0 <= j < |s| && j != i ==> key(s[j]) != key(s[i])
    ensures Where(s, key, key(s[i])) == [s[i]]
  {
    var rest := s[1..];
    if i == 0 {
      forall j | 0 <= j < |rest| ensures key(rest[j]) != key(s[0]) {
        assert rest[j] == s[j + 1];
      }
      WhereEmpty(rest, key, key(s[0]));
    } else {
      assert rest[i - 1] == s[i];
      forall j | 0 <= j < |rest| && j != i - 1 ensures key(rest[j]) != key(rest[i - 1]) {
        assert rest[j] == s[j + 1];
      }
      WhereOnly(rest, key, i - 1);
    }
  }

  /** Under uniqueness, a filter on the key finds at most one row. */
  lemma {:induction false} WhereAtMostOne<T, K>(s: seq<T>, key: T -> K, k: K)
    requires Distinct(s, key)
    ensures |Where(s, key, k)| <= 1
  {
    if |s| > 0 {
      assert Distinct(s[1..], key) by {
        forall i, j | 0 <= i < j < |s[1..]| ensures key(s[1..][i]) != key(s[1..][j]) {
          assert s[1..][i] == s[i + 1] && s[1..][j] == s[j + 1];
        }
      }
      WhereAtMostOne(s[1..], key, k);
      if key(s[0]) == k {
        forall i | 0 <= i < |s[1..]| ensures key(s[1..][i]) != k {
          assert s[1..][i] == s[i + 1];
        }
        WhereEmpty(s[1..], key, k);
      }
    }
  }

  /** A row whose key is new keeps the table unique. */
  lemma DistinctAppend<T, K>(s: seq<T>, x: T, key: T -> K)
    requires Distinct(s, key)
    requires forall i :: 0 <= i < |s| ==> key(s[i]) != key(x)
    ensures Distinct(s + [x], key)
  {
  }

  /** `f` applied to every row, in place. */
  function MapSeq<T>(s: seq<T>, f: T -> T): (r: seq<T>)
    ensures |r| == |s|
    ensures forall i :: 0 <= i < |s| ==> r[i] == f(s[i])
  {
    if |s| == 0 then [] else [f(s[0])] + MapSeq(s[1..], f)
  }

  /** An update that keeps each row's key commutes with filtering on that key. */
  lemma {:induction false} WhereMap<T, K>(s: seq<T>, f: T -> T, key: T -> K, k: K)
    requires forall x :: key(f(x)) == key(x)
    ensures Where(MapSeq(s, f), key, k) == MapSeq(Where(s, key, k), f)
  {
    if |s| > 0 {
      assert MapSeq(s, f)[1..] == MapSeq(s[1..], f);
      WhereMap(s[1..], f, key, k);
      if key(s[0]) == k {
        assert MapSeq([s[0]] + Where(s[1..], key, k), f) == [f(s[0])] + MapSeq(Where(s[1..], key, k), f);
      }
    }
  }

  /** An update that keeps each row's key keeps the table unique. */
  lemma DistinctMap<T, K>(s: seq<T>, f: T -> T, key: T -> K)
    requires forall x :: key(f(x)) == key(x)
    requires Distinct(s, key)
    ensures Distinct(MapSeq(s, f), key)
  {
  }

  /** A query ending in `.single()`: the row when exactly one row matches,
      and nothing (the call's error) when none or several do. */
  function Single<T, K(==)>(s: seq<T>, key: T -> K, k: K): (r: Option<T>)
    ensures r.Some? <==> |Where(s, key, k)| == 1
    ensures r.Some? ==> r.value in s && key(r.value) == k
  {
    var m := Where(s, key, k);
    if |m| == 1 then Some(m[0]) else None
  }

  /** Under uniqueness, `.single()` finds the row whenever there is one. */
  lemma SingleFinds<T, K>(s: seq<T>, key: T -> K, i: int)
    requires Distinct(s, key)
    requires 0 <= i < |s|
    ensures Single(s, key, key(s[i])) == Some(s[i])
  {
    WhereAtMostOne(s, key, key(s[i]));
  }

  /** Under uniqueness, `.single()` finds nothing exactly when no row has the key. */
  lemma SingleMisses<T, K>(s: seq<T>, key: T -> K, k: K)
    requires Distinct(s, key)
    ensures Single(s, key, k).None? <==> forall i :: 0 <= i < |s| ==> key(s[i]) != k
  {
    WhereAtMostOne(s, key, k);
    if forall i :: 0 <= i < |s| ==> key(s[i]) != k {
      WhereEmpty(s, key, k);
    }
  }

  /** An update that keeps each row's key commutes with `.single()` on that key. */
  lemma SingleMap<T, K>(s: seq<T>, f: T -> T, key: T -> K, k: K)
    requires forall x :: key(f(x)) == key(x)
    ensures Single(MapSeq(s, f), key, k) ==
      (if Single(s, key, k).Some? then Some(f(Single(s, key, k).value)) else None)
  {
    WhereMap(s, f, key, k);
  }

  /** The first row of the filter is the first row, in table order, with the key. */
  lemma {:induction false} WhereFirst<T, K>(s: seq<T>, key: T -> K, k: K, i: int)
    requires 0 <= i < |s| && key(s[i]) == k
    requires forall j :: 0 <= j < i ==> key(s[j]) != k
    ensures |Where(s, key, k)| > 0 && Where(s, key, k)[0] == s[i]
  {
    if i > 0 {
      forall j | 0 <= j < i - 1 ensures key(s[1..][j]) != k {
        assert s[1..][j] == s[j + 1];
      }
      WhereFirst(s[1..], key, k, i - 1);
    }
  }

  /** Rows that keep their keys, position by position, keep the table unique. */
  lemma DistinctSameKeys<T, K>(s: seq<T>, s': seq<T>, key: T -> K)
    requires Distinct(s, key) && |s'| == |s|
    requires forall i :: 0 <= i < |s| ==> key(s'[i]) == key(s[i])
    ensures Distinct(s', key)
  {
  }
}
