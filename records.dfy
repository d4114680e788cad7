/** Collections of records keyed by their `id` (the key path of both object stores),
    and the operations the store and the reconciliation perform on them. */
module Records {

  /** The keys that occur in a list of records. */
  function KeysOf<T>(xs: seq<T>, key: T -> string): set<string> {
    set i | 0 <= i < |xs| :: key(xs[i])
  }

  /** Appending a record adds its key. */
  lemma KeysOfSnoc<T>(xs: seq<T>, x: T, key: T -> string)
    ensures KeysOf(xs + [x], key) == KeysOf(xs, key) + {key(x)}
  {
    var ys := xs + [x];
    forall k | k in KeysOf(xs, key) ensures k in KeysOf(ys, key) {
      var i :| 0 <= i < |xs| && key(xs[i]) == k;
      assert ys[i] == xs[i];
    }
    assert ys[|xs|] == x;
  }

  /** Every record of the map sits under its own key. */
  predicate KeyedBy<T>(m: map<string, T>, key: T -> string) {
    forall k :: k in m ==> key(m[k]) == k
  }

  /** No two records of the list share a key. */
  predicate DistinctKeys<T>(xs: seq<T>, key: T -> string) {
    forall i, j :: 0 <= i < j < |xs| ==> key(xs[i]) != key(xs[j])
  }

  /** No element occurs twice. */
  predicate Distinct<T(==)>(xs: seq<T>) {
    forall i, j :: 0 <= i < j < |xs| ==> xs[i] != xs[j]
  }

  /** Records with distinct keys are distinct records. */
  lemma DistinctKeysDistinct<T>(xs: seq<T>, key: T -> string)
    requires DistinctKeys(xs, key)
    ensures Distinct(xs)
  {
  }

  /** In a list without repeats, every element occurs exactly once. */
  lemma {:induction false} DistinctCount<T>(xs: seq<T>, x: T)
    requires Distinct(xs)
    ensures multiset(xs)[x] == if x in xs then 1 else 0
  {
    if xs != [] {
      var tail := xs[1..];
      assert xs == [xs[0]] + tail;
      assert Distinct(tail) by {
        forall i, j | 0 <= i < j < |tail| ensures tail[i] != tail[j] {
          assert tail[i] == xs[i + 1] && tail[j] == xs[j + 1];
        }
      }
      DistinctCount(tail, x);
      if x == xs[0] {
        assert x !in tail by {
          forall j | 0 <= j < |tail| ensures tail[j] != x {
            assert tail[j] == xs[j + 1];
          }
        }
      }
    }
  }

  /** Two lists without repeats that hold the same elements are permutations of each other. */
  lemma SameElementsPermute<T>(a: seq<T>, b: seq<T>)
    requires Distinct(a) && Distinct(b)
    requires forall x :: x in a <==> x in b
    ensures multiset(a) == multiset(b)
  {
    forall x ensures multiset(a)[x] == multiset(b)[x] {
      DistinctCount(a, x);
      DistinctCount(b, x);
    }
  }

  /** Lists mapped element by element from two reorderings of each other are reorderings of
      each other, when the images are distinct. */
  lemma ImagesPermute<T, U>(a: seq<T>, b: seq<T>, fa: seq<U>, fb: seq<U>)
    requires |fa| == |a| && |fb| == |b| && Distinct(fa) && Distinct(fb)
    requires multiset(a) == multiset(b)
    requires forall i, j :: 0 <= i < |a| && 0 <= j < |b| && a[i] == b[j] ==> fa[i] == fb[j]
    ensures multiset(fa) == multiset(fb)
  {
    forall y | y in fa ensures y in fb {
      var i :| 0 <= i < |fa| && fa[i] == y;
      assert a[i] in multiset(b);
      var j :| 0 <= j < |b| && b[j] == a[i];
      assert fb[j] == y;
    }
    forall y | y in fb ensures y in fa {
      var j :| 0 <= j < |fb| && fb[j] == y;
      assert b[j] in multiset(a);
      var i :| 0 <= i < |a| && a[i] == b[j];
      assert fa[i] == y;
    }
    SameElementsPermute(fa, fb);
  }

  /** `l` lists the records of `m`, each exactly once, in some order. */
  ghost predicate IsListing<T>(l: seq<T>, m: map<string, T>, key: T -> string) {
    && (forall i :: 0 <= i < |l| ==> key(l[i]) in m && m[key(l[i])] == l[i])
    && DistinctKeys(l, key)
    && (forall k :: k in m ==> k in KeysOf(l, key))
  }

  /** Upserts the records one after the other, so a later record replaces an earlier one
      with the same key. */
  function PutAll<T>(m: map<string, T>, recs: seq<T>, key: T -> string): (r: map<string, T>)
    ensures r.Keys == m.Keys + KeysOf(recs, key)
    ensures forall k :: k in m && k !in KeysOf(recs, key) ==> r[k] == m[k]
    ensures KeyedBy(m, key) ==> KeyedBy(r, key)
  {
    if recs == [] then m
    else
      var init, last := recs[..|recs| - 1], recs[|recs| - 1];
      var r := PutAll(m, init, key)[key(last) := last];
      assert KeysOf(recs, key) == KeysOf(init, key) + {key(last)} by {
        forall k | k in KeysOf(recs, key) ensures k in KeysOf(init, key) + {key(last)} {
          var i :| 0 <= i < |recs| && key(recs[i]) == k;
          if i < |recs| - 1 { assert init[i] == recs[i]; }
        }
      }
      r
  }

  /** The record stored under a key is the last record of the batch with that key. */
  lemma {:induction false} PutAllLastWins<T>(m: map<string, T>, recs: seq<T>, key: T -> string, i: nat)
    requires i < |recs|
    requires forall j :: i < j < |recs| ==> key(recs[j]) != key(recs[i])
    ensures PutAll(m, recs, key)[key(recs[i])] == recs[i]
  {
    if i < |recs| - 1 {
      var init := recs[..|recs| - 1];
      assert init[i] == recs[i];
      PutAllLastWins(m, init, key, i);
    }
  }

  /** Upserting nothing changes nothing. */
  lemma PutAllEmpty<T>(m: map<string, T>, key: T -> string)
    ensures PutAll(m, [], key) == m
  {
  }

  /** Upserting records that are already stored, each under its key, changes nothing. */
  lemma {:induction false} PutAllOfStored<T>(m: map<string, T>, recs: seq<T>, key: T -> string)
    requires forall i :: 0 <= i < |recs| ==> key(recs[i]) in m && m[key(recs[i])] == recs[i]
    ensures PutAll(m, recs, key) == m
  {
    if recs != [] {
      var init := recs[..|recs| - 1];
      PutAllOfStored(m, init, key);
    }
  }

  /** The records of `defaults` whose key is not among the keys of `stored`, in their order
      (`defaults.filter((d) => !stored.some((s) => s.id === d.id))`). */
  function MissingByKey<T(==)>(stored: seq<T>, defaults: seq<T>, key: T -> string): (r: seq<T>)
    ensures |r| <= |defaults|
    ensures forall i :: 0 <= i < |r| ==> key(r[i]) !in KeysOf(stored, key)
    ensures forall i :: 0 <= i < |r| ==> r[i] in defaults
    ensures forall j :: 0 <= j < |defaults| && key(defaults[j]) !in KeysOf(stored, key) ==> defaults[j] in r
    ensures DistinctKeys(defaults, key) ==> DistinctKeys(r, key)
  {
    if defaults == [] then []
    else
      var tail := MissingByKey(stored, defaults[1..], key);
      var r := if key(defaults[0]) in KeysOf(stored, key) then tail else [defaults[0]] + tail;
      assert forall j :: 1 <= j < |defaults| ==> defaults[j] == defaults[1..][j - 1];
      r
  }

  /** The records a top-up leaves: `defaults` when nothing is stored, else the stored records,
      in their order, followed by the missing defaults. */
  function TopUp<T(==)>(stored: seq<T>, defaults: seq<T>, key: T -> string): (r: seq<T>)
    ensures |r| == |stored| + |MissingByKey(stored, defaults, key)|
    ensures r[..|stored|] == stored
    ensures r[|stored|..] == MissingByKey(stored, defaults, key)
    ensures KeysOf(defaults, key) <= KeysOf(r, key)
  {
    var missing := MissingByKey(stored, defaults, key);
    var r := if stored == [] then defaults else stored + missing;
    MissingFromNothing(defaults, key);
    assert r == stored + missing;
    forall k | k in KeysOf(defaults, key) ensures k in KeysOf(r, key) {
      var j :| 0 <= j < |defaults| && key(defaults[j]) == k;
      if k in KeysOf(stored, key) {
        var i :| 0 <= i < |stored| && key(stored[i]) == k;
        assert r[i] == stored[i];
      } else {
        assert defaults[j] in missing;
        var i :| 0 <= i < |missing| && missing[i] == defaults[j];
        assert r[|stored| + i] == missing[i];
      }
    }
    r
  }

  /** A top-up of a list with distinct keys by defaults with distinct keys has distinct keys. */
  lemma TopUpDistinct<T>(stored: seq<T>, defaults: seq<T>, key: T -> string)
    requires DistinctKeys(stored, key) && DistinctKeys(defaults, key)
    ensures DistinctKeys(TopUp(stored, defaults, key), key)
  {
    var r := TopUp(stored, defaults, key);
    var missing := MissingByKey(stored, defaults, key);
    forall i, j | 0 <= i < j < |r| ensures key(r[i]) != key(r[j]) {
      if j < |stored| {
        assert r[i] == stored[i] && r[j] == stored[j];
      } else if i < |stored| {
        assert r[i] == stored[i] && r[j] == missing[j - |stored|];
        assert key(r[i]) in KeysOf(stored, key);
      } else {
        assert r[i] == missing[i - |stored|] && r[j] == missing[j - |stored|];
      }
    }
  }

  /** A top-up of a listing of `m` lists `m` with the missing defaults put in: a record
      stored before keeps its value, and each missing default is stored as added. */
  lemma TopUpListsPut<T>(stored: seq<T>, m: map<string, T>, defaults: seq<T>, key: T -> string)
    requires IsListing(stored, m, key) && DistinctKeys(defaults, key)
    ensures IsListing(TopUp(stored, defaults, key), PutAll(m, MissingByKey(stored, defaults, key), key), key)
  {
    var t := TopUp(stored, defaults, key);
    var w := MissingByKey(stored, defaults, key);
    var after := PutAll(m, w, key);
    ListingKeys(stored, m, key);
    TopUpDistinct(stored, defaults, key);
    forall i | 0 <= i < |t| ensures key(t[i]) in after && after[key(t[i])] == t[i] {
      if i < |stored| {
        assert t[i] == t[..|stored|][i] == stored[i];
      } else {
        assert t[i] == t[|stored|..][i - |stored|] == w[i - |stored|];
        PutAllDistinct(m, w, key, i - |stored|);
      }
    }
    forall k | k in after ensures k in KeysOf(t, key) {
      if k in m {
        var i :| 0 <= i < |stored| && key(stored[i]) == k;
        assert t[i] == t[..|stored|][i];
      } else {
        var j :| 0 <= j < |w| && key(w[j]) == k;
        assert t[|stored| + j] == t[|stored|..][j];
      }
    }
  }

  /** A top-up of a listing of `m`, upserted whole into `m`, lists the result. */
  lemma TopUpListsItselfPut<T>(stored: seq<T>, m: map<string, T>, defaults: seq<T>, key: T -> string)
    requires IsListing(stored, m, key) && DistinctKeys(defaults, key)
    ensures IsListing(TopUp(stored, defaults, key), PutAll(m, TopUp(stored, defaults, key), key), key)
  {
    var t := TopUp(stored, defaults, key);
    var after := PutAll(m, t, key);
    TopUpDistinct(stored, defaults, key);
    forall i | 0 <= i < |t| ensures key(t[i]) in after && after[key(t[i])] == t[i] {
      PutAllDistinct(m, t, key, i);
    }
  }

  /** When no default is missing from a non-empty listing, the top-up is the listing itself. */
  lemma TopUpNothingMissing<T>(stored: seq<T>, m: map<string, T>, defaults: seq<T>, key: T -> string)
    requires IsListing(stored, m, key) && stored != []
    requires MissingByKey(stored, defaults, key) == []
    ensures IsListing(TopUp(stored, defaults, key), PutAll(m, [], key), key)
  {
    var t := TopUp(stored, defaults, key);
    assert t == t[..|stored|] == stored;
    PutAllEmpty(m, key);
  }

  /** Upserting records with distinct keys leaves each record under its key. */
  lemma PutAllDistinct<T>(m: map<string, T>, recs: seq<T>, key: T -> string, i: nat)
    requires DistinctKeys(recs, key) && i < |recs|
    ensures PutAll(m, recs, key)[key(recs[i])] == recs[i]
  {
    PutAllLastWins(m, recs, key, i);
  }

  /** Nothing is missing exactly when every default key is already stored. */
  lemma MissingEmptyIffAllStored<T>(stored: seq<T>, defaults: seq<T>, key: T -> string)
    ensures MissingByKey(stored, defaults, key) == [] <==> KeysOf(defaults, key) <= KeysOf(stored, key)
  {
    var r := MissingByKey(stored, defaults, key);
    if r != [] {
      assert key(r[0]) !in KeysOf(stored, key);
      assert r[0] in defaults;
      var j :| 0 <= j < |defaults| && defaults[j] == r[0];
      assert key(r[0]) in KeysOf(defaults, key);
    } else {
      forall k | k in KeysOf(defaults, key) ensures k in KeysOf(stored, key) {
        var j :| 0 <= j < |defaults| && key(defaults[j]) == k;
      }
    }
  }

  /** Against an empty list every default is missing. */
  lemma {:induction false} MissingFromNothing<T>(defaults: seq<T>, key: T -> string)
    ensures MissingByKey([], defaults, key) == defaults
  {
    if defaults != [] {
      MissingFromNothing(defaults[1..], key);
    }
  }

  /** Two listings of the same store hold the same records; they differ at most in order. */
  lemma ListingsPermute<T>(a: seq<T>, b: seq<T>, m: map<string, T>, key: T -> string)
    requires IsListing(a, m, key) && IsListing(b, m, key)
    ensures multiset(a) == multiset(b)
  {
    forall x | x in a ensures x in b {
      var i :| 0 <= i < |a| && a[i] == x;
      assert key(x) in KeysOf(b, key);
    }
    forall x | x in b ensures x in a {
      var j :| 0 <= j < |b| && b[j] == x;
      assert key(x) in KeysOf(a, key);
    }
    DistinctKeysDistinct(a, key);
    DistinctKeysDistinct(b, key);
    SameElementsPermute(a, b);
  }

  /** The missing defaults of a list of defaults are those of its two parts, in order; with
      `MissingOfOne` this fixes the result as `defaults.filter(...)` would give it. */
  lemma {:induction false} MissingByKeyAppend<T>(stored: seq<T>, a: seq<T>, b: seq<T>, key: T -> string)
    ensures MissingByKey(stored, a + b, key) == MissingByKey(stored, a, key) + MissingByKey(stored, b, key)
  {
    if a == [] {
      assert a + b == b;
    } else {
      assert (a + b)[0] == a[0];
      assert (a + b)[1..] == a[1..] + b;
      MissingByKeyAppend(stored, a[1..], b, key);
    }
  }

  /** A single default is missing exactly when its key is not stored. */
  lemma MissingOfOne<T>(stored: seq<T>, d: T, key: T -> string)
    ensures MissingByKey(stored, [d], key) == if key(d) in KeysOf(stored, key) then [] else [d]
  {
    assert [d][1..] == [];
  }

  /** A listing holds the map's keys and nothing else. */
  lemma ListingKeys<T>(l: seq<T>, m: map<string, T>, key: T -> string)
    requires IsListing(l, m, key)
    ensures KeysOf(l, key) == m.Keys
    ensures |l| == 0 <==> |m| == 0
  {
    if |m| != 0 {
      var k :| k in m;
      assert k in KeysOf(l, key);
    }
    if |l| != 0 {
      assert key(l[0]) in m.Keys;
    }
  }

  /** Round trip: a record just upserted is part of every later listing, with all its fields. */
  lemma ListingAfterPut<T>(l: seq<T>, m: map<string, T>, x: T, key: T -> string)
    requires IsListing(l, m[key(x) := x], key)
    ensures exists i :: 0 <= i < |l| && l[i] == x
  {
    assert key(x) in KeysOf(l, key);
  }
}
