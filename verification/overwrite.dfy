/**
 * Last-write-wins accumulation into a map, as done by a loop of `put`s
 * (header parsing on both sides) and by repeated map updates (the client's
 * summary aggregation).
 */
module Overwrite {

  /** The map built by inserting the pairs of `ps` in order. */
  function Collect<K, V>(ps: seq<(K, V)>): map<K, V> {
    if ps == [] then map[] else Collect(ps[..|ps| - 1])[ps[|ps| - 1].0 := ps[|ps| - 1].1]
  }

  /** `j` is the last position of `ps` whose key is `k`. */
  predicate LastWith<K(==), V>(ps: seq<(K, V)>, k: K, j: int) {
    0 <= j < |ps| && ps[j].0 == k && forall l :: j < l < |ps| ==> ps[l].0 != k
  }

  /** A key is present iff some pair carries it, and then its value is that of
      the last such pair. */
  lemma {:induction false} CollectLastWins<K, V>(ps: seq<(K, V)>, k: K)
    ensures k in Collect(ps) <==> exists j :: 0 <= j < |ps| && ps[j].0 == k
    ensures forall j :: LastWith(ps, k, j) ==> k in Collect(ps) && Collect(ps)[k] == ps[j].1
  {
    CollectHas(ps, k);
    forall j | LastWith(ps, k, j) ensures k in Collect(ps) && Collect(ps)[k] == ps[j].1 {
      CollectLast(ps, k, j);
    }
  }

  lemma {:induction false} CollectHas<K, V>(ps: seq<(K, V)>, k: K)
    ensures k in Collect(ps) <==> exists j :: 0 <= j < |ps| && ps[j].0 == k
  {
    if ps != [] {
      var n := |ps| - 1;
      var init := ps[..n];
      CollectHas(init, k);
      if ps[n].0 == k {
        assert 0 <= n < |ps| && ps[n].0 == k;
      } else {
        if k in Collect(ps) {
          var j :| 0 <= j < |init| && init[j].0 == k;
          assert ps[j].0 == k;
        }
        if exists j :: 0 <= j < |ps| && ps[j].0 == k {
          var j :| 0 <= j < |ps| && ps[j].0 == k;
          assert j < n && init[j].0 == k;
        }
      }
    }
  }

  lemma {:induction false} CollectLast<K, V>(ps: seq<(K, V)>, k: K, j: int)
    requires LastWith(ps, k, j)
    ensures k in Collect(ps) && Collect(ps)[k] == ps[j].1
  {
    var n := |ps| - 1;
    if j < n {
      var init := ps[..n];
      assert ps[n].0 != k;
      assert LastWith(init, k, j) by {
        forall l | j < l < |init| ensures init[l].0 != k {
          assert init[l] == ps[l];
        }
      }
      CollectLast(init, k, j);
    }
  }

  /** Collecting a concatenation: the later part overrides the earlier. */
  lemma {:induction false} CollectAppend<K, V>(a: seq<(K, V)>, b: seq<(K, V)>)
    ensures Collect(a + b) == Collect(a) + Collect(b)
    decreases |b|
  {
    if b == [] {
      assert a + b == a;
    } else {
      var b' := b[..|b| - 1];
      assert (a + b)[..|a + b| - 1] == a + b';
      CollectAppend(a, b');
    }
  }

  /** The map obtained by applying the updates of `ms` in order, each one
      overriding the keys it sets. */
  function Overlay<K, V>(ms: seq<map<K, V>>): map<K, V> {
    if ms == [] then map[] else Overlay(ms[..|ms| - 1]) + ms[|ms| - 1]
  }

  /** `j` is the last update of `ms` that sets `k`. */
  predicate LastSetting<K, V>(ms: seq<map<K, V>>, k: K, j: int) {
    0 <= j < |ms| && k in ms[j] && forall l :: j < l < |ms| ==> k !in ms[l]
  }

  /** A key is present iff some update sets it, and then its value is the one
      set by the latest such update. */
  lemma {:induction false} OverlayLastWins<K, V>(ms: seq<map<K, V>>, k: K)
    ensures k in Overlay(ms) <==> exists j :: 0 <= j < |ms| && k in ms[j]
    ensures forall j :: LastSetting(ms, k, j) ==> k in Overlay(ms) && Overlay(ms)[k] == ms[j][k]
  {
    OverlayHas(ms, k);
    forall j | LastSetting(ms, k, j) ensures k in Overlay(ms) && Overlay(ms)[k] == ms[j][k] {
      OverlayLast(ms, k, j);
    }
  }

  lemma {:induction false} OverlayHas<K, V>(ms: seq<map<K, V>>, k: K)
    ensures k in Overlay(ms) <==> exists j :: 0 <= j < |ms| && k in ms[j]
  {
    if ms != [] {
      var n := |ms| - 1;
      var init := ms[..n];
      OverlayHas(init, k);
      if k in ms[n] {
        assert 0 <= n < |ms| && k in ms[n];
      } else {
        if k in Overlay(ms) {
          var j :| 0 <= j < |init| && k in init[j];
          assert k in ms[j];
        }
        if exists j :: 0 <= j < |ms| && k in ms[j] {
          var j :| 0 <= j < |ms| && k in ms[j];
          assert j < n && k in init[j];
        }
      }
    }
  }

  lemma {:induction false} OverlayLast<K, V>(ms: seq<map<K, V>>, k: K, j: int)
    requires LastSetting(ms, k, j)
    ensures k in Overlay(ms) && Overlay(ms)[k] == ms[j][k]
  {
    var n := |ms| - 1;
    if j < n {
      var init := ms[..n];
      assert k !in ms[n];
      assert LastSetting(init, k, j) by {
        forall l | j < l < |init| ensures k !in init[l] {
          assert init[l] == ms[l];
        }
      }
      OverlayLast(init, k, j);
    }
  }
}
