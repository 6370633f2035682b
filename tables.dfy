/** Keyed tables as the database context holds them.

    A table is a sequence of rows in table order; a key projection picks each
    row's primary key. `Find` is the context's key lookup (`DbSet.Find`),
    `Where` is a LINQ filter followed by `ToList`, `Replace` is an update of the
    row with the same key, `Remove` deletes by key and `t + [x]` is an insert.
    The lemmas show that, on a table whose keys are unique, these operations
    behave as the corresponding updates of a map from keys to rows. */
module Tables {

  datatype Option<+T> = None | Some(value: T)

  /** The primary-key constraint: no two rows share a key. */
  ghost predicate UniqueKeys<K, T>(t: seq<T>, key: T -> K) {
    forall i, j :: 0 <= i < j < |t| ==> key(t[i]) != key(t[j])
  }

  /** Some row of `t` has key `k`. */
  predicate HasKey<K(==), T>(t: seq<T>, key: T -> K, k: K) {
    exists i :: 0 <= i < |t| && key(t[i]) == k
  }

  /** `a` is `b` with some rows left out, the others kept in order. */
  ghost predicate SubsequenceOf<T>(a: seq<T>, b: seq<T>)
    decreases |b|
  {
    if |a| == 0 then true
    else if |b| == 0 then false
    else (a[0] == b[0] && SubsequenceOf(a[1..], b[1..])) || SubsequenceOf(a, b[1..])
  }

  lemma HasKeyTail<K, T>(t: seq<T>, key: T -> K, k: K)
    requires |t| > 0
    ensures HasKey(t, key, k) <==> key(t[0]) == k || HasKey(t[1..], key, k)
  {
  }

  /** Key lookup: the first row whose key is `k`, if any. */
  function Find<K(==), T>(t: seq<T>, key: T -> K, k: K): (r: Option<T>)
    ensures r.Some? <==> HasKey(t, key, k)
    ensures r.Some? ==> r.value in t && key(r.value) == k
  {
    if |t| == 0 then None
    else
      HasKeyTail(t, key, k);
      if key(t[0]) == k then Some(t[0]) else Find(t[1..], key, k)
  }

  /** `Where(p).ToList()`: the rows satisfying `p`, in table order. */
  function Where<T>(t: seq<T>, p: T -> bool): (r: seq<T>)
    ensures |r| <= |t|
    ensures forall i :: 0 <= i < |r| ==> r[i] in t && p(r[i])
    ensures forall i :: 0 <= i < |t| && p(t[i]) ==> t[i] in r
    ensures SubsequenceOf(r, t)
  {
    if |t| == 0 then []
    else if p(t[0]) then [t[0]] + Where(t[1..], p)
    else Where(t[1..], p)
  }

  /** Overwrites every field of the row whose key is `key(x)` with `x`;
      a table without such a row is left as it is. */
  function Replace<K(==), T>(t: seq<T>, key: T -> K, x: T): (r: seq<T>)
    ensures |r| == |t|
    ensures forall i :: 0 <= i < |t| ==> key(r[i]) == key(t[i])
    ensures forall i :: 0 <= i < |t| ==> r[i] == t[i] || r[i] == x
    ensures forall i :: 0 <= i < |t| ==> r[i] == (if key(t[i]) == key(x) then x else t[i])
  {
    if |t| == 0 then []
    else [if key(t[0]) == key(x) then x else t[0]] + Replace(t[1..], key, x)
  }

  /** Deletes the row whose key is `k`. */
  function Remove<K(==), T>(t: seq<T>, key: T -> K, k: K): (r: seq<T>)
    ensures !HasKey(r, key, k)
    ensures forall i :: 0 <= i < |r| ==> r[i] in t
    ensures forall i :: 0 <= i < |t| && key(t[i]) != k ==> t[i] in r
    ensures SubsequenceOf(r, t)
  {
    Where(t, x => key(x) != k)
  }

  /** On a table with unique keys, looking up the key of any row finds that row. */
  lemma FindUnique<K, T>(t: seq<T>, key: T -> K, i: int)
    requires UniqueKeys(t, key)
    requires 0 <= i < |t|
    ensures Find(t, key, key(t[i])) == Some(t[i])
  {
  }

  /** After `Replace`, the replaced key finds exactly the new row and every
      other key finds what it found before. */
  lemma {:induction false} FindReplace<K, T>(t: seq<T>, key: T -> K, x: T, k: K)
    ensures Find(Replace(t, key, x), key, k) ==
            if k != key(x) then Find(t, key, k)
            else if HasKey(t, key, k) then Some(x)
            else None
  {
    if |t| > 0 {
      HasKeyTail(t, key, k);
      assert Replace(t, key, x)[1..] == Replace(t[1..], key, x);
      FindReplace(t[1..], key, x, k);
    }
  }

  /** A table without key `k` is left as it is by `Remove`. */
  lemma {:induction false} RemoveAbsent<K, T>(t: seq<T>, key: T -> K, k: K)
    requires !HasKey(t, key, k)
    ensures Remove(t, key, k) == t
  {
    if |t| > 0 {
      HasKeyTail(t, key, k);
      RemoveAbsent(t[1..], key, k);
      assert t == [t[0]] + t[1..];
    }
  }

  /** After `Remove`, the removed key finds nothing and every other key finds
      what it found before. */
  lemma {:induction false} FindRemove<K, T>(t: seq<T>, key: T -> K, k: K, k': K)
    ensures Find(Remove(t, key, k), key, k') == if k' == k then None else Find(t, key, k')
  {
    if |t| > 0 && k' != k {
      FindRemove(t[1..], key, k, k');
    }
  }

  /** Deleting a key that is present shrinks a table with unique keys by one row. */
  lemma {:induction false} RemoveSize<K, T>(t: seq<T>, key: T -> K, k: K)
    requires UniqueKeys(t, key)
    requires HasKey(t, key, k)
    ensures |Remove(t, key, k)| == |t| - 1
  {
    HasKeyTail(t, key, k);
    if key(t[0]) == k {
      RemoveAbsent(t[1..], key, k);
    } else {
      RemoveSize(t[1..], key, k);
    }
  }

  /** Every row of a subsequence is a row of the whole. */
  lemma {:induction false} SubsequenceMembers<T>(a: seq<T>, b: seq<T>)
    requires SubsequenceOf(a, b)
    ensures forall i :: 0 <= i < |a| ==> a[i] in b
    decreases |b|
  {
    if |a| > 0 {
      if a[0] == b[0] && SubsequenceOf(a[1..], b[1..]) {
        SubsequenceMembers(a[1..], b[1..]);
        forall i | 0 < i < |a| ensures a[i] in b {
          assert a[i] == a[1..][i - 1];
        }
      } else {
        SubsequenceMembers(a, b[1..]);
      }
    }
  }

  /** A subsequence is no longer than the whole. */
  lemma {:induction false} SubsequenceLength<T>(a: seq<T>, b: seq<T>)
    requires SubsequenceOf(a, b)
    ensures |a| <= |b|
    decreases |b|
  {
    if |a| > 0 {
      if a[0] == b[0] && SubsequenceOf(a[1..], b[1..]) {
        SubsequenceLength(a[1..], b[1..]);
      } else {
        SubsequenceLength(a, b[1..]);
      }
    }
  }

  /** Leaving rows out keeps the primary-key constraint: this covers every
      filter, and so `Remove` and the cascade. */
  lemma {:induction false} SubsequenceKeepsUnique<K, T>(a: seq<T>, b: seq<T>, key: T -> K)
    requires SubsequenceOf(a, b)
    requires UniqueKeys(b, key)
    ensures UniqueKeys(a, key)
    decreases |b|
  {
    if |a| > 0 {
      if a[0] == b[0] && SubsequenceOf(a[1..], b[1..]) {
        SubsequenceKeepsUnique(a[1..], b[1..], key);
        SubsequenceMembers(a[1..], b[1..]);
        forall j | 0 < j < |a| ensures key(a[0]) != key(a[j]) {
          assert a[j] == a[1..][j - 1];
          var m :| 0 <= m < |b[1..]| && b[1..][m] == a[j];
          assert b[m + 1] == a[j];
        }
        forall i, j | 0 <= i < j < |a| ensures key(a[i]) != key(a[j]) {
          if i > 0 {
            assert a[i] == a[1..][i - 1] && a[j] == a[1..][j - 1];
          }
        }
      } else {
        SubsequenceKeepsUnique(a, b[1..], key);
      }
    }
  }

  /** Inserting a row whose key is new keeps the primary-key constraint. */
  lemma AppendKeepsUnique<K, T>(t: seq<T>, key: T -> K, x: T)
    requires UniqueKeys(t, key)
    requires !HasKey(t, key, key(x))
    ensures UniqueKeys(t + [x], key)
  {
  }

  /** After inserting `x` under a new key, that key finds `x` and every other
      key finds what it found before. */
  lemma {:induction false} FindAppend<K, T>(t: seq<T>, key: T -> K, x: T, k: K)
    requires !HasKey(t, key, key(x))
    ensures Find(t + [x], key, k) == if k == key(x) then Some(x) else Find(t, key, k)
  {
    if |t| > 0 {
      HasKeyTail(t, key, key(x));
      assert (t + [x])[1..] == t[1..] + [x];
      FindAppend(t[1..], key, x, k);
    }
  }
}
