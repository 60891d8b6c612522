/** What a flag says after a run of events that raise and lower it. */
module History {

  /** It was raised at some time before `j`, and not lowered since. */
  ghost predicate RaisedBefore(up: seq<bool>, down: seq<bool>, j: nat)
    requires |up| == |down| && j <= |up|
  {
    exists i :: 0 <= i < j && RaisedAt(up, down, i, j)
  }

  ghost predicate RaisedAt(up: seq<bool>, down: seq<bool>, i: nat, j: nat)
    requires |up| == |down| && i < j <= |up|
  {
    up[i] && forall l :: i < l < j ==> !down[l]
  }

  /** A flag that starts lowered, and that each event raises, lowers or leaves alone, is up exactly in between. */
  lemma {:induction false} LastWins(up: seq<bool>, down: seq<bool>, flag: seq<bool>, j: nat)
    requires |up| == |down| == |flag| - 1 && j <= |up| && !flag[0]
    requires forall i :: 0 <= i < |up| ==> Follows(up, down, flag, i)
    ensures flag[j] <==> RaisedBefore(up, down, j)
  {
    if j > 0 {
      var k := j - 1;
      LastWins(up, down, flag, k);
      assert Follows(up, down, flag, k);
      if up[k] { assert RaisedAt(up, down, k, j); }
      if RaisedBefore(up, down, k) && !down[k] {
        var i :| 0 <= i < k && RaisedAt(up, down, i, k);
        assert RaisedAt(up, down, i, j);
      }
      if i :| 0 <= i < j && RaisedAt(up, down, i, j) {
        if i < k { assert RaisedAt(up, down, i, k); }
      }
    }
  }

  predicate Follows(up: seq<bool>, down: seq<bool>, flag: seq<bool>, i: nat)
    requires |up| == |down| == |flag| - 1 && i < |up|
  {
    flag[i + 1] == (up[i] || (flag[i] && !down[i]))
  }
}
