/** Lists reduced to the first occurrence of every value. */
module DistinctValues {

  ghost predicate NoRepeats(values: seq<string>) {
    forall i, j :: 0 <= i < j < |values| ==> values[i] != values[j]
  }

  /** The first occurrence of every value, in order. */
  function Distinct(values: seq<string>): (kept: seq<string>)
    ensures NoRepeats(kept)
    ensures forall x :: x in kept <==> x in values
  {
    if values == [] then []
    else
      var kept, last := Distinct(values[..|values| - 1]), values[|values| - 1];
      assert values == values[..|values| - 1] + [last];
      if last in kept then kept else kept + [last]
  }

  lemma DistinctAppend(values: seq<string>, x: string)
    ensures Distinct(values + [x]) == if x in Distinct(values) then Distinct(values) else Distinct(values) + [x]
  {
    assert (values + [x])[..|values|] == values;
  }

  lemma {:induction false} DistinctKeeps(kept: seq<string>)
    requires NoRepeats(kept)
    ensures Distinct(kept) == kept
  {
    if kept != [] {
      var n := |kept| - 1;
      DistinctKeeps(kept[..n]);
      assert kept[n] !in kept[..n];
    }
  }

  /** More values come after those that were there. */
  lemma {:induction false} DistinctIsPrefix(values: seq<string>, more: seq<string>)
    ensures Distinct(values) <= Distinct(values + more)
    decreases |more|
  {
    hide Distinct;
    if more == [] {
      assert values + more == values;
    } else {
      var last, rest := more[|more| - 1], more[..|more| - 1];
      DistinctIsPrefix(values, rest);
      DistinctAppend(values + rest, last);
      assert values + more == values + rest + [last];
    }
  }

  /** The values stand in the order in which they are first met. */
  lemma {:induction false} DistinctKeepsOrder(values: seq<string>, i: nat, j: nat) returns (p: nat)
    requires i < j < |Distinct(values)|
    ensures p < |values| && values[p] == Distinct(values)[i] && Distinct(values)[j] !in values[..p + 1]
    decreases |values|
  {
    var n := |values| - 1;
    var before := values[..n];
    if j < |Distinct(before)| {
      p := DistinctKeepsOrder(before, i, j);
      assert values[..p + 1] == before[..p + 1];
    } else {
      assert Distinct(before)[i] in before;
      p :| 0 <= p < n && before[p] == Distinct(before)[i];
      assert forall x :: x in values[..p + 1] ==> x in before;
    }
  }

  /** Values a list already holds add nothing to it. */
  lemma {:induction false} DistinctIsSettled(kept: seq<string>, more: seq<string>)
    requires Distinct(kept) == kept
    requires forall x :: x in more ==> x in kept
    ensures Distinct(kept + more) == kept
    decreases |more|
  {
    hide Distinct;
    if more == [] {
      assert kept + more == kept;
    } else {
      var last, rest := more[|more| - 1], more[..|more| - 1];
      DistinctIsSettled(kept, rest);
      DistinctAppend(kept + rest, last);
      assert kept + more == kept + rest + [last];
    }
  }

  /** A list without repetitions is as long as the set of its values. */
  lemma {:induction false} CountOfDistinct(values: seq<string>, all: set<string>)
    requires NoRepeats(values) && forall x :: x in values <==> x in all
    ensures |values| == |all|
    decreases |values|
  {
    if values != [] {
      var n := |values| - 1;
      assert values == values[..n] + [values[n]];
      assert values[n] in values && values[n] !in values[..n];
      CountOfDistinct(values[..n], all - {values[n]});
    } else {
      assert all == {};
    }
  }
}
