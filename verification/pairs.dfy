/** Lists of named values: the shape a Python dictionary's items and a JSON object's
    fields both take here. */
module Pairs {

  /** The names of a list of pairs, in order. */
  function Keys<V>(pairs: seq<(string, V)>): (keys: seq<string>)
    ensures |keys| == |pairs|
    ensures forall i :: 0 <= i < |pairs| ==> keys[i] == pairs[i].0
  {
    if |pairs| == 0 then [] else [pairs[0].0] + Keys(pairs[1..])
  }
}
