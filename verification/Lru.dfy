/** What the deduplication cache is for: the most recently presented distinct keys. */
module Lru {
  import opened Types

  type Key = IdempotencyKey

  function Remove(keys: seq<Key>, k: Key): (r: seq<Key>)
    ensures forall x :: x in r <==> x in keys && x != k
    ensures |r| <= |keys|
  {
    if keys == [] then []
    else if keys[0] == k then Remove(keys[1..], k)
    else [keys[0]] + Remove(keys[1..], k)
  }

  function Take(keys: seq<Key>, n: nat): seq<Key> {
    if |keys| <= n then keys else keys[..n]
  }

  /** Presenting a key puts it in front and keeps the first `capacity` keys. */
  function Touch(capacity: nat, keys: seq<Key>, k: Key): seq<Key> {
    Take([k] + Remove(keys, k), capacity)
  }

  /** The cache contents after a history of presented keys. */
  function Cached(capacity: nat, history: seq<Key>): seq<Key> {
    if history == [] then []
    else Touch(capacity, Cached(capacity, history[..|history| - 1]), history[|history| - 1])
  }

  // ---------- Stack distance ----------

  /** All presented keys, latest first. */
  function Recent(history: seq<Key>): seq<Key> {
    if history == [] then []
    else
      var k := history[|history| - 1];
      [k] + Remove(Recent(history[..|history| - 1]), k)
  }

  /** The keys presented after the last presentation of `k`. */
  function Since(history: seq<Key>, k: Key): seq<Key> {
    if history == [] || history[|history| - 1] == k then []
    else Since(history[..|history| - 1], k) + [history[|history| - 1]]
  }

  function KeySet(keys: seq<Key>): set<Key> {
    set k | k in keys
  }

  /** The keys in front of the first `k`. */
  function Ahead(keys: seq<Key>, k: Key): set<Key> {
    if keys == [] || keys[0] == k then {} else {keys[0]} + Ahead(keys[1..], k)
  }

  lemma {:induction false} RemoveUnique(keys: seq<Key>, k: Key)
    requires Distinct(keys)
    ensures Distinct(Remove(keys, k))
  {
    if keys != [] {
      RemoveUnique(keys[1..], k);
      if keys[0] != k {
        forall j | 0 <= j < |Remove(keys[1..], k)| ensures Remove(keys[1..], k)[j] != keys[0] {
          assert Remove(keys[1..], k)[j] in keys[1..];
        }
      }
    }
  }

  lemma {:induction false} RecentUnique(history: seq<Key>)
    ensures Distinct(Recent(history))
    ensures forall k :: k in Recent(history) <==> k in history
  {
    if history != [] {
      var n := |history| - 1;
      RecentUnique(history[..n]);
      RemoveUnique(Recent(history[..n]), history[n]);
      assert history == history[..n] + [history[n]];
      var rest := Remove(Recent(history[..n]), history[n]);
      forall j | 0 <= j < |rest| ensures rest[j] != history[n] {
        assert rest[j] in rest;
      }
    }
  }

  /** Only the first `n` keys matter for the first `n` keys after a removal in front. */
  lemma {:induction false} RemoveTake(keys: seq<Key>, k: Key, n: nat)
    requires Distinct(keys) && n >= 1
    ensures Take(Remove(Take(keys, n), k), n - 1) == Take(Remove(keys, k), n - 1)
    decreases |keys|
  {
    if |keys| > n {
      if keys[0] == k {
        assert keys[..n][1..] == keys[1..n];
        NothingToRemove(keys[1..], k);
        NothingToRemove(keys[1..n], k);
      } else if n == 1 {
        assert Take(Remove(Take(keys, n), k), 0) == [] == Take(Remove(keys, k), 0);
      } else {
        assert Take(keys, n)[1..] == Take(keys[1..], n - 1);
        RemoveTake(keys[1..], k, n - 1);
        TakeCons(keys[0], Remove(Take(keys[1..], n - 1), k), n - 1);
        TakeCons(keys[0], Remove(keys[1..], k), n - 1);
      }
    }
  }

  lemma TakeCons(x: Key, s: seq<Key>, n: nat)
    requires n >= 1
    ensures Take([x] + s, n) == [x] + Take(s, n - 1)
  {
  }

  lemma {:induction false} NothingToRemove(keys: seq<Key>, k: Key)
    requires k !in keys
    ensures Remove(keys, k) == keys
  {
    if keys != [] {
      NothingToRemove(keys[1..], k);
    }
  }

  lemma {:induction false} RemoveAt(keys: seq<Key>, p: nat)
    requires Distinct(keys) && p < |keys|
    ensures Remove(keys, keys[p]) == keys[..p] + keys[p + 1..]
    decreases |keys|
  {
    if p == 0 {
      NothingToRemove(keys[1..], keys[0]);
    } else {
      RemoveAt(keys[1..], p - 1);
      assert keys[1..][..p - 1] == keys[1..p] && keys[1..][p..] == keys[p + 1..];
      assert keys[..p] == [keys[0]] + keys[1..p];
    }
  }

  /** The bounded cache always holds the front of the unbounded recency list. */
  lemma {:induction false} CachedIsRecent(capacity: nat, history: seq<Key>)
    requires capacity >= 1
    ensures Cached(capacity, history) == Take(Recent(history), capacity)
  {
    if history != [] {
      var n := |history| - 1;
      var k := history[n];
      CachedIsRecent(capacity, history[..n]);
      RecentUnique(history[..n]);
      RemoveTake(Recent(history[..n]), k, capacity);
      TakeCons(k, Remove(Cached(capacity, history[..n]), k), capacity);
      TakeCons(k, Remove(Recent(history[..n]), k), capacity);
    }
  }

  lemma {:induction false} AheadAfterRemove(keys: seq<Key>, x: Key, k: Key)
    requires x != k
    ensures Ahead(Remove(keys, x), k) == Ahead(keys, k) - {x}
  {
    if keys != [] {
      AheadAfterRemove(keys[1..], x, k);
    }
  }

  /** The keys in front of `k` are exactly the keys presented since `k`. */
  lemma {:induction false} AheadIsSince(history: seq<Key>, k: Key)
    requires k in history
    ensures Ahead(Recent(history), k) == KeySet(Since(history, k))
  {
    var n := |history| - 1;
    var x := history[n];
    if x != k {
      assert history == history[..n] + [x];
      AheadIsSince(history[..n], k);
      AheadAfterRemove(Recent(history[..n]), x, k);
      assert KeySet(Since(history, k)) == KeySet(Since(history[..n], k)) + {x};
    }
  }

  lemma {:induction false} TakenIfFewAhead(keys: seq<Key>, k: Key, n: nat)
    requires Distinct(keys) && k in keys
    ensures k in Take(keys, n) <==> |Ahead(keys, k)| < n
    decreases |keys|
  {
    if keys[0] == k {
      assert n >= 1 ==> Take(keys, n)[0] == k;
    } else if n == 0 {
      assert Take(keys, 0) == [];
    } else {
      assert Take(keys, n) == [keys[0]] + Take(keys[1..], n - 1);
      TakenIfFewAhead(keys[1..], k, n - 1);
      AheadWithin(keys[1..], k);
      assert keys[0] !in Ahead(keys[1..], k);
    }
  }

  lemma {:induction false} AheadWithin(keys: seq<Key>, k: Key)
    ensures Ahead(keys, k) <= KeySet(keys)
  {
    if keys != [] {
      AheadWithin(keys[1..], k);
    }
  }

  /** Stack distance: a key is a duplicate exactly if it was presented before and fewer than
      `capacity` distinct other keys were presented since. */
  lemma StackDistance(capacity: nat, history: seq<Key>, k: Key)
    requires capacity >= 1
    ensures k in Cached(capacity, history) <==> k in history && |KeySet(Since(history, k))| < capacity
  {
    CachedIsRecent(capacity, history);
    RecentUnique(history);
    if k in history {
      AheadIsSince(history, k);
      TakenIfFewAhead(Recent(history), k, capacity);
    }
  }

  lemma {:induction false} SinceExcludes(history: seq<Key>, k: Key)
    ensures k !in Since(history, k)
  {
    if history != [] && history[|history| - 1] != k {
      SinceExcludes(history[..|history| - 1], k);
    }
  }

  /** Two presentations of one key that are both taken as new have at least `capacity` distinct
      other keys between them. */
  lemma NewTwiceFarApart(capacity: nat, history: seq<Key>, i: nat, j: nat)
    requires capacity >= 1 && i < j < |history| && history[i] == history[j]
    requires history[j] !in Cached(capacity, history[..j])
    ensures |KeySet(history[i + 1..j])| >= capacity
    ensures |KeySet(history[i + 1..j]) - {history[i]}| >= capacity
  {
    var k, past := history[j], history[..j];
    assert past[i] == k;
    StackDistance(capacity, past, k);
    SinceWithin(past, i);
    SinceExcludes(past, k);
    assert past[i + 1..] == history[i + 1..j];
    SubsetSmaller(KeySet(Since(past, k)), KeySet(history[i + 1..j]) - {k});
    SubsetSmaller(KeySet(history[i + 1..j]) - {k}, KeySet(history[i + 1..j]));
  }

  lemma {:induction false} SinceWithin(history: seq<Key>, i: nat)
    requires i < |history|
    ensures forall x :: x in Since(history, history[i]) ==> x in history[i + 1..]
  {
    var n := |history| - 1;
    if history[n] != history[i] {
      SinceWithin(history[..n], i);
      assert history[i + 1..] == history[..n][i + 1..] + [history[n]];
    }
  }

  lemma SubsetSmaller<T>(a: set<T>, b: set<T>)
    requires a <= b
    ensures |a| <= |b|
  {
    assert b == a + (b - a);
  }
}
