/**
 * A table whose rows carry a unique key, as the join tables with a unique
 * composite index do (team_players, scoreboard_teams, scorer_users). `Index`
 * is the abstract view of such a table: the map from each key to its row.
 * The lemmas say how inserting, updating and deleting one row change it.
 */
module Keyed {
  import opened Common
  import opened Seqs

  /** No two rows share a key. */
  predicate Unique<T, K(==)>(s: seq<T>, key: T -> K)
  {
    forall i, j :: 0 <= i < j < |s| ==> key(s[i]) != key(s[j])
  }

  /** The row position a `findOne` on the key yields, if any. */
  function Find<T, K(==)>(s: seq<T>, key: T -> K, k: K): (r: Option<nat>)
    ensures r.Some? ==> r.value < |s| && key(s[r.value]) == k
    ensures r.None? <==> forall i :: 0 <= i < |s| ==> key(s[i]) != k
  {
    if s == [] then None
    else if key(s[0]) == k then Some(0)
    else match Find(s[1..], key, k)
      case None => None
      case Some(i) => Some(i + 1)
  }

  /** The abstract table: each key present maps to the row that holds it. */
  function Index<T, K(==,!new)>(s: seq<T>, key: T -> K): (m: map<K, T>)
    ensures forall k :: k in m <==> exists i :: 0 <= i < |s| && key(s[i]) == k
  {
    if s == [] then map[]
    else
      var m := Index(s[..|s| - 1], key);
      assert forall i :: 0 <= i < |s| - 1 ==> s[..|s| - 1][i] == s[i];
      m[key(s[|s| - 1]) := s[|s| - 1]]
  }

  /** With a unique key, the abstract table holds exactly the stored rows. */
  lemma {:induction false} IndexAt<T, K(!new)>(s: seq<T>, key: T -> K, i: nat)
    requires Unique(s, key) && i < |s|
    ensures key(s[i]) in Index(s, key) && Index(s, key)[key(s[i])] == s[i]
  {
    if i < |s| - 1 {
      IndexAt(s[..|s| - 1], key, i);
    }
  }

  lemma {:induction false} FindIndex<T, K(!new)>(s: seq<T>, key: T -> K, k: K)
    requires Unique(s, key)
    ensures Find(s, key, k).Some? <==> k in Index(s, key)
    ensures Find(s, key, k).Some? ==> Index(s, key)[k] == s[Find(s, key, k).value]
  {
    var r := Find(s, key, k);
    if r.Some? {
      IndexAt(s, key, r.value);
    }
  }

  /** Appending a row with a new key adds exactly that key. */
  lemma {:induction false} AppendNew<T, K(!new)>(s: seq<T>, key: T -> K, v: T)
    requires Unique(s, key) && key(v) !in Index(s, key)
    ensures Unique(s + [v], key)
    ensures Index(s + [v], key) == Index(s, key)[key(v) := v]
  {
    assert (s + [v])[..|s|] == s;
  }

  /** Updating a row in place without touching its key replaces that key's row only. */
  lemma {:induction false} UpdateAt<T, K(!new)>(s: seq<T>, key: T -> K, i: nat, v: T)
    requires Unique(s, key) && i < |s| && key(v) == key(s[i])
    ensures Unique(s[i := v], key)
    ensures Index(s[i := v], key) == Index(s, key)[key(v) := v]
  {
    var t := s[i := v];
    assert forall j :: 0 <= j < |t| ==> key(t[j]) == key(s[j]);
    forall k {
      UpdateAtKey(s, key, i, v, k);
    }
    MapExt(Index(t, key), Index(s, key)[key(v) := v]);
  }

  lemma {:induction false} UpdateAtKey<T, K(!new)>(s: seq<T>, key: T -> K, i: nat, v: T, k: K)
    requires Unique(s, key) && i < |s| && key(v) == key(s[i]) && Unique(s[i := v], key)
    ensures k in Index(s[i := v], key) <==> k in Index(s, key)
    ensures k in Index(s[i := v], key) ==> Index(s[i := v], key)[k] == if k == key(v) then v else Index(s, key)[k]
  {
    var t := s[i := v];
    if k in Index(t, key) {
      var j :| 0 <= j < |t| && key(t[j]) == k;
      IndexAt(t, key, j);
      if j != i {
        IndexAt(s, key, j);
      }
    }
    if k in Index(s, key) {
      var j :| 0 <= j < |s| && key(s[j]) == k;
      assert key(t[j]) == k;
    }
  }

  /** Deleting one row removes exactly its key. */
  lemma {:induction false} RemoveAt<T, K(!new)>(s: seq<T>, key: T -> K, i: nat)
    requires Unique(s, key) && i < |s|
    ensures Unique(s[..i] + s[i + 1..], key)
    ensures Index(s[..i] + s[i + 1..], key) == Index(s, key) - {key(s[i])}
  {
    RemoveAtUnique(s, key, i);
    forall k {
      RemoveAtKey(s, key, i, k);
    }
    MapExt(Index(s[..i] + s[i + 1..], key), Index(s, key) - {key(s[i])});
  }

  lemma {:induction false} RemoveAtKey<T, K(!new)>(s: seq<T>, key: T -> K, i: nat, k: K)
    requires Unique(s, key) && i < |s|
    ensures k in Index(s[..i] + s[i + 1..], key) <==> k in Index(s, key) && k != key(s[i])
    ensures k in Index(s[..i] + s[i + 1..], key) ==> Index(s[..i] + s[i + 1..], key)[k] == Index(s, key)[k]
  {
    RemoveAtUnique(s, key, i);
    RemoveAtKeyKept(s, key, i, k);
    RemoveAtKeyFound(s, key, i, k);
  }

  lemma {:induction false} RemoveAtKeyKept<T, K(!new)>(s: seq<T>, key: T -> K, i: nat, k: K)
    requires Unique(s, key) && i < |s| && Unique(s[..i] + s[i + 1..], key)
    ensures k in Index(s[..i] + s[i + 1..], key) ==>
      k in Index(s, key) && k != key(s[i]) && Index(s[..i] + s[i + 1..], key)[k] == Index(s, key)[k]
  {
    var t := s[..i] + s[i + 1..];
    if k in Index(t, key) {
      var j :| 0 <= j < |t| && key(t[j]) == k;
      var j' := RemovedAt(s, i, j);
      IndexAt(t, key, j);
      IndexAt(s, key, j');
    }
  }

  lemma {:induction false} RemoveAtKeyFound<T, K(!new)>(s: seq<T>, key: T -> K, i: nat, k: K)
    requires i < |s|
    ensures k in Index(s, key) && k != key(s[i]) ==> k in Index(s[..i] + s[i + 1..], key)
  {
    if k in Index(s, key) && k != key(s[i]) {
      var j' :| 0 <= j' < |s| && key(s[j']) == k;
      var j := if j' < i then j' else j' - 1;
      var j2 := RemovedAt(s, i, j);
      assert j2 == j';
    }
  }

  /** Position `j` of `s` with row `i` deleted is position `j'` of `s`. */
  lemma {:induction false} RemovedAt<T>(s: seq<T>, i: nat, j: nat) returns (j': nat)
    requires i < |s| && j < |s| - 1
    ensures j' == (if j < i then j else j + 1) && j' < |s|
    ensures (s[..i] + s[i + 1..])[j] == s[j']
  {
    j' := if j < i then j else j + 1;
  }

  lemma MapExt<K, V>(a: map<K, V>, b: map<K, V>)
    requires forall k :: k in a ==> k in b && a[k] == b[k]
    requires forall k :: k in b ==> k in a
    ensures a == b
  {
  }

  lemma {:induction false} RemoveAtUnique<T, K>(s: seq<T>, key: T -> K, i: nat)
    requires Unique(s, key) && i < |s|
    ensures Unique(s[..i] + s[i + 1..], key)
  {
    var t := s[..i] + s[i + 1..];
    assert forall j :: 0 <= j < |t| ==> t[j] == (if j < i then s[j] else s[j + 1]);
  }

  /** Deleting every row that fails `keep` (a cascade) keeps the key unique. */
  lemma {:induction false} FilterUnique<T(!new), K(!new)>(s: seq<T>, key: T -> K, keep: T -> bool)
    requires Unique(s, key)
    ensures Unique(Filter(s, keep), key)
    ensures forall k :: k in Index(Filter(s, keep), key) <==> k in Index(s, key) && keep(Index(s, key)[k])
  {
    var f := Filter(s, keep);
    FilterPairwise(s, keep, Distinguished(key));
    assert Unique(f, key) by {
      assert forall i, j :: 0 <= i < j < |f| ==> Distinguished(key)(f[i], f[j]);
    }
    forall k ensures k in Index(f, key) <==> k in Index(s, key) && keep(Index(s, key)[k]) {
      if k in Index(f, key) {
        var i :| 0 <= i < |f| && key(f[i]) == k;
        assert f[i] in s;
        var j :| 0 <= j < |s| && s[j] == f[i];
        IndexAt(s, key, j);
      }
      if k in Index(s, key) {
        var i :| 0 <= i < |s| && key(s[i]) == k;
        IndexAt(s, key, i);
        if keep(s[i]) {
          assert s[i] in f;
          var j :| 0 <= j < |f| && f[j] == s[i];
          assert key(f[j]) == k;
        }
      }
    }
  }

  function Distinguished<T, K(==)>(key: T -> K): (T, T) -> bool
  {
    (a: T, b: T) => key(a) != key(b)
  }
}
