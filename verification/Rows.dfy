/** The maximum of a row, as both softmaxes take it. */
module Rows {

  function MaxOf(xs: seq<int>): int
    requires xs != []
  {
    var n := |xs| - 1;
    if n == 0 then xs[0] else if MaxOf(xs[..n]) >= xs[n] then MaxOf(xs[..n]) else xs[n]
  }

  lemma {:induction false} MaxIsMax(xs: seq<int>)
    requires xs != []
    ensures MaxOf(xs) in xs && forall i :: 0 <= i < |xs| ==> xs[i] <= MaxOf(xs)
    decreases |xs|
  {
    var n := |xs| - 1;
    if n > 0 {
      MaxIsMax(xs[..n]);
      forall i | 0 <= i < |xs|
        ensures xs[i] <= MaxOf(xs)
      {
        if i < n { assert xs[..n][i] == xs[i]; }
      }
    }
  }

  method RowMax(xs: seq<int>) returns (max: int)
    requires xs != []
    ensures max == MaxOf(xs) && max in xs && forall i :: 0 <= i < |xs| ==> xs[i] <= max
  {
    max := xs[0];
    assert xs[..1] == [xs[0]];
    for i := 1 to |xs|
      invariant max == MaxOf(xs[..i])
    {
      assert xs[..i + 1][..i] == xs[..i];
      if xs[i] > max {
        max := xs[i];
      }
    }
    assert xs[..|xs|] == xs;
    MaxIsMax(xs);
  }
}
