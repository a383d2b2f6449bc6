/** getChecklistProgress: the percentage of checklist items marked done. */
module Progress {
  import opened TaskTypes
  import Seqs

  predicate IsDone(item: ChecklistItem) {
    item.done
  }

  /** `checklist.filter((item) => item.done).length`. */
  function DoneCount(checklist: seq<ChecklistItem>): (n: nat)
    ensures n <= |checklist|
  {
    |Seqs.Filter(checklist, IsDone)|
  }

  /** `Math.round(x)` for the non-negative rational `num / den`: the nearest
      integer, halves rounded up. */
  function RoundHalfUp(num: nat, den: nat): (r: nat)
    requires den > 0
    ensures 2 * den * r <= 2 * num + den < 2 * den * (r + 1)
  {
    (2 * num + den) / (2 * den)
  }

  /** Multiplying by a non-negative factor keeps the order. */
  lemma MulLe(c: nat, x: nat, y: nat)
    requires x <= y
    ensures c * x <= c * y
  {
    assert c * y == c * x + c * (y - x);
  }

  /** At most all items are done, so the rounded percentage is at most 100. */
  lemma PercentAtMost100(d: nat, n: nat)
    requires 0 < n && d <= n
    ensures RoundHalfUp(100 * d, n) <= 100
  {
    var r := RoundHalfUp(100 * d, n);
    if r > 100 {
      MulLe(2 * n, 101, r);
      assert false;
    }
  }

  /** `getChecklistProgress(checklist)`: 0 for an empty checklist, otherwise
      100 * done / length rounded to the nearest integer, never above 100. */
  function ChecklistProgress(checklist: seq<ChecklistItem>): (r: nat)
    ensures checklist == [] ==> r == 0
    ensures r <= 100
    ensures checklist != [] ==>
      2 * |checklist| * r <= 200 * DoneCount(checklist) + |checklist| < 2 * |checklist| * (r + 1)
  {
    if |checklist| == 0 then 0
    else
      PercentAtMost100(DoneCount(checklist), |checklist|);
      RoundHalfUp(100 * DoneCount(checklist), |checklist|)
  }

  /** A fully checked list is at 100 percent. */
  lemma AllDone(checklist: seq<ChecklistItem>)
    requires checklist != []
    requires forall k :: 0 <= k < |checklist| ==> checklist[k].done
    ensures ChecklistProgress(checklist) == 100
  {
    Seqs.FilterAll(checklist, IsDone);
    var n := |checklist|;
    var r := ChecklistProgress(checklist);
    if r < 100 {
      MulLe(2 * n, r + 1, 100);
      assert false;
    }
  }

  /** A list with nothing checked is at 0 percent. */
  lemma NoneDone(checklist: seq<ChecklistItem>)
    requires forall k :: 0 <= k < |checklist| ==> !checklist[k].done
    ensures ChecklistProgress(checklist) == 0
  {
    if checklist != [] {
      NothingKept(checklist);
      var n := |checklist|;
      var r := ChecklistProgress(checklist);
      if r > 0 {
        MulLe(2 * n, 1, r);
        assert false;
      }
    }
  }

  lemma {:induction false} NothingKept(checklist: seq<ChecklistItem>)
    requires forall k :: 0 <= k < |checklist| ==> !checklist[k].done
    ensures DoneCount(checklist) == 0
  {
    if checklist != [] {
      NothingKept(checklist[1..]);
    }
  }

  /** Rounding takes 199 done items out of 200 to 100 percent although one
      item is still open. */
  lemma AlmostDoneRoundsUp(checklist: seq<ChecklistItem>)
    requires |checklist| == 200 && DoneCount(checklist) == 199
    ensures ChecklistProgress(checklist) == 100
  {
  }

  /** The boundary cases: `[done]` is 100 percent, `[done, open]` is 50. */
  lemma Examples(a: ChecklistItem, b: ChecklistItem)
    requires a.done && !b.done
    ensures ChecklistProgress([]) == 0
    ensures ChecklistProgress([a]) == 100
    ensures ChecklistProgress([a, b]) == 50
  {
    AllDone([a]);
    assert DoneCount([a, b]) == 1 by {
      assert [a, b][1..] == [b];
      assert [b][1..] == [];
      assert Seqs.Filter([b], IsDone) == [];
      assert Seqs.Filter([a, b], IsDone) == [a] + Seqs.Filter([b], IsDone);
    }
  }
}
