/**
  A string map built by inserting key/value pairs in order, as a `HashMap` filled
  by repeated `insert`: a later pair for the same key overwrites the earlier one.
*/
module Assoc {

  /** The map after inserting `ps[0]`, `ps[1]`, ... in that order. */
  function PairsToMap(ps: seq<(string, string)>): (m: map<string, string>)
  {
    if |ps| == 0 then map[]
    else PairsToMap(ps[..|ps| - 1])[ps[|ps| - 1].0 := ps[|ps| - 1].1]
  }

  /** The keys of the map are exactly the keys of the pairs. */
  lemma {:induction false} PairsToMapKeys(ps: seq<(string, string)>)
    ensures forall k :: k in PairsToMap(ps) <==> exists i :: 0 <= i < |ps| && ps[i].0 == k
    decreases |ps|
  {
    if |ps| > 0 {
      var front := ps[..|ps| - 1];
      PairsToMapKeys(front);
      assert forall i :: 0 <= i < |front| ==> front[i] == ps[i];
    }
  }

  /** Laying a map over another and then updating one key is updating the upper map first. */
  lemma MergeUpdate(a: map<string, string>, b: map<string, string>, k: string, v: string)
    ensures a + b[k := v] == (a + b)[k := v]
  {
  }

  /** One more pair is one more insertion. */
  lemma PairsToMapSnoc(ps: seq<(string, string)>, p: (string, string))
    ensures PairsToMap(ps + [p]) == PairsToMap(ps)[p.0 := p.1]
  {
    assert (ps + [p])[..|ps|] == ps;
  }

  /** The value stored under a key comes from the last pair with that key. */
  lemma {:induction false} LastWins(ps: seq<(string, string)>, i: nat)
    requires i < |ps|
    requires forall j :: i < j < |ps| ==> ps[j].0 != ps[i].0
    ensures ps[i].0 in PairsToMap(ps) && PairsToMap(ps)[ps[i].0] == ps[i].1
    decreases |ps|
  {
    if i < |ps| - 1 {
      var front := ps[..|ps| - 1];
      assert front[i] == ps[i];
      assert forall j :: i < j < |front| ==> front[j] == ps[j];
      LastWins(front, i);
    }
  }

  /** Inserting the pairs of `a` and then those of `b` is `b`'s map laid over `a`'s. */
  lemma {:induction false} PairsToMapConcat(a: seq<(string, string)>, b: seq<(string, string)>)
    ensures PairsToMap(a + b) == PairsToMap(a) + PairsToMap(b)
    decreases |b|
  {
    if |b| == 0 {
      assert a + b == a;
    } else {
      assert (a + b)[..|a + b| - 1] == a + b[..|b| - 1];
      PairsToMapConcat(a, b[..|b| - 1]);
    }
  }
}
