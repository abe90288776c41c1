/** Building a map from an ordered list of key/value writes, as a loop of
    `dict[key] = value` assignments does: a later write to the same key
    overwrites an earlier one. */
module Assoc {

  /** The keys written by `ps`. */
  ghost function KeysOf<K, V>(ps: seq<(K, V)>): set<K>
  {
    set i | 0 <= i < |ps| :: ps[i].0
  }

  /** `ps[i]` is the last write in `ps` to its key. */
  ghost predicate IsLastFor<K, V>(ps: seq<(K, V)>, i: int)
  {
    && 0 <= i < |ps|
    && forall j :: i < j < |ps| ==> ps[j].0 != ps[i].0
  }

  /** The map left behind after performing the writes of `ps` in order,
      starting from an empty map. */
  function FromPairs<K(==), V>(ps: seq<(K, V)>): (m: map<K, V>)
    ensures m.Keys == KeysOf(ps)
    ensures forall i :: IsLastFor(ps, i) ==> ps[i].0 in m && m[ps[i].0] == ps[i].1
  {
    if |ps| == 0 then map[]
    else
      var init := ps[..|ps| - 1];
      var last := ps[|ps| - 1];
      assert KeysOf(ps) == KeysOf(init) + {last.0} by {
        assert forall i :: 0 <= i < |init| ==> init[i] == ps[i];
      }
      var m := FromPairs(init)[last.0 := last.1];
      assert forall i :: IsLastFor(ps, i) ==> ps[i].0 in m && m[ps[i].0] == ps[i].1 by {
        forall i | IsLastFor(ps, i)
          ensures ps[i].0 in m && m[ps[i].0] == ps[i].1
        {
          if i < |ps| - 1 {
            assert ps[i] == init[i] && ps[i].0 != last.0;
            assert IsLastFor(init, i);
          }
        }
      }
      m
  }
}
