/**
 Layering of dictionaries with underscore's `_.extend({}, a, b)`: the keys of
 both, and b's value wherever b has the key. On Dafny maps that is `a + b`;
 a run of such merges is a left fold over a sequence of layers.
 */
module Layering {

  /** `_.extend({}, a, b)`. */
  function Extend<K, V>(a: map<K, V>, b: map<K, V>): (r: map<K, V>)
  {
    a + b
  }

  /** Merging a, then b, then c is merging a with the merge of b and c. */
  lemma ExtendAssociative<K, V>(a: map<K, V>, b: map<K, V>, c: map<K, V>)
    ensures Extend(Extend(a, b), c) == Extend(a, Extend(b, c))
  {
  }

  /** Merging nothing changes nothing. */
  lemma ExtendEmpty<K, V>(a: map<K, V>)
    ensures Extend(a, map[]) == a
  {
  }

  /** Merging a one-entry map is setting that entry. */
  lemma ExtendOne<K, V>(a: map<K, V>, k: K, v: V)
    ensures Extend(a, map[k := v]) == a[k := v]
  {
  }

  /** base, then layers[0], then layers[1], … merged in that order. */
  function Layer<K, V>(base: map<K, V>, layers: seq<map<K, V>>): map<K, V>
    decreases |layers|
  {
    if layers == [] then base
    else Extend(Layer(base, layers[..|layers| - 1]), layers[|layers| - 1])
  }

  lemma LayerSnoc<K, V>(base: map<K, V>, layers: seq<map<K, V>>, i: nat)
    requires i < |layers|
    ensures Layer(base, layers[..i + 1]) == Extend(Layer(base, layers[..i]), layers[i])
  {
    assert layers[..i + 1][..i] == layers[..i];
  }

  /** A key is in the layered map exactly when the base or some layer has it. */
  lemma {:induction false} LayerKeys<K, V>(base: map<K, V>, layers: seq<map<K, V>>, k: K)
    ensures k in Layer(base, layers) <==> k in base || exists i :: 0 <= i < |layers| && k in layers[i]
    decreases |layers|
  {
    if layers != [] {
      var init := layers[..|layers| - 1];
      LayerKeys(base, init, k);
      if exists i :: 0 <= i < |layers| && k in layers[i] {
        var i :| 0 <= i < |layers| && k in layers[i];
        if i < |layers| - 1 {
          assert k in init[i];
        }
      }
      if exists i :: 0 <= i < |init| && k in init[i] {
        var i :| 0 <= i < |init| && k in init[i];
        assert k in layers[i];
      }
    }
  }

  /** The last layer that has a key decides its value. */
  lemma {:induction false} LayerLastWins<K, V>(base: map<K, V>, layers: seq<map<K, V>>, k: K, j: nat)
    requires j < |layers| && k in layers[j]
    requires forall i :: j < i < |layers| ==> k !in layers[i]
    ensures k in Layer(base, layers) && Layer(base, layers)[k] == layers[j][k]
    decreases |layers|
  {
    if j < |layers| - 1 {
      var init := layers[..|layers| - 1];
      LayerLastWins(base, init, k, j);
    }
  }

  /** A key no layer has keeps the base's value, or stays absent. */
  lemma {:induction false} LayerKeepsBase<K, V>(base: map<K, V>, layers: seq<map<K, V>>, k: K)
    requires forall i :: 0 <= i < |layers| ==> k !in layers[i]
    ensures k in Layer(base, layers) <==> k in base
    ensures k in base ==> Layer(base, layers)[k] == base[k]
    decreases |layers|
  {
    if layers != [] {
      LayerKeepsBase(base, layers[..|layers| - 1], k);
    }
  }

  /** Every value in the layered map is the base's value or that of some layer with the key. */
  lemma {:induction false} LayerProvenance<K, V>(base: map<K, V>, layers: seq<map<K, V>>, k: K)
    requires k in Layer(base, layers)
    ensures || (k in base && Layer(base, layers)[k] == base[k])
            || exists i :: 0 <= i < |layers| && k in layers[i] && Layer(base, layers)[k] == layers[i][k]
    decreases |layers|
  {
    if layers != [] {
      var n := |layers| - 1;
      if k !in layers[n] {
        var init := layers[..n];
        LayerProvenance(base, init, k);
        if !(k in base && Layer(base, init)[k] == base[k]) {
          var i :| 0 <= i < |init| && k in init[i] && Layer(base, init)[k] == init[i][k];
          assert layers[i] == init[i];
        }
      }
    }
  }
}
