// Counting what happened in a stretch of a history.
module Counting {

  function CountTrue(bs: seq<bool>, from: nat, until: nat): (r: nat)
    requires from <= until <= |bs|
    ensures r <= until - from
  {
    if from == until then 0 else CountTrue(bs, from, until - 1) + if bs[until - 1] then 1 else 0
  }

  lemma {:induction false} CountFirst(bs: seq<bool>, from: nat, until: nat)
    requires from < until <= |bs|
    ensures CountTrue(bs, from, until) == CountTrue(bs, from + 1, until) + if bs[from] then 1 else 0
    decreases until
  {
    if from + 1 < until {
      CountFirst(bs, from, until - 1);
    } else {
      assert CountTrue(bs, from, from) == 0;
    }
  }
}
