/** Keyboard navigation over the highlighted index of the suggestion list.

    The index is -1 when nothing is highlighted and otherwise names a row
    0 .. count - 1. The two moves are deliberately asymmetric: "previous"
    from -1 jumps to the last row, "next" from the last row falls back to
    -1 (and not to row 0). Together they walk one cycle of count + 1
    states, in opposite directions.
 */
module Navigation {

  /** The range navigation keeps: -1 (nothing highlighted) or an existing row. */
  predicate InRange(index: int, count: nat)
  {
    -1 <= index < count
  }

  /** moveHighlightIndexPrevious: step back one row, or from "nothing
      highlighted" jump to the last row. Never leaves the range. */
  function Previous(index: int, count: nat): (r: int)
    ensures InRange(index, count) ==> InRange(r, count)
    ensures index >= 0 ==> r == index - 1
  {
    if index >= 0 then index - 1 else count - 1
  }

  /** moveHighlightIndexNext: step forward one row, or from the last row
      (and from anything at or beyond it) clear the highlight. */
  function Next(index: int, count: nat): (r: int)
    ensures InRange(index, count) ==> InRange(r, count)
    ensures r == -1 || r == index + 1
    ensures r == index + 1 <==> index < count - 1
  {
    if index < count - 1 then index + 1 else -1
  }

  /** The two moves undo each other on the navigation range. */
  lemma NextPreviousInverse(index: int, count: nat)
    requires InRange(index, count)
    ensures Previous(Next(index, count), count) == index
    ensures Next(Previous(index, count), count) == index
  {
  }

  /** n presses of "next". */
  function NextN(index: int, count: nat, n: nat): (r: int)
    ensures InRange(index, count) ==> InRange(r, count)
  {
    if n == 0 then index else Next(NextN(index, count, n - 1), count)
  }

  /** n presses of "previous". */
  function PreviousN(index: int, count: nat, n: nat): (r: int)
    ensures InRange(index, count) ==> InRange(r, count)
  {
    if n == 0 then index else Previous(PreviousN(index, count, n - 1), count)
  }

  lemma {:induction false} NextNAdd(index: int, count: nat, a: nat, b: nat)
    ensures NextN(index, count, a + b) == NextN(NextN(index, count, a), count, b)
  {
    if b > 0 {
      NextNAdd(index, count, a, b - 1);
    }
  }

  lemma {:induction false} PreviousNAdd(index: int, count: nat, a: nat, b: nat)
    ensures PreviousN(index, count, a + b) == PreviousN(PreviousN(index, count, a), count, b)
  {
    if b > 0 {
      PreviousNAdd(index, count, a, b - 1);
    }
  }

  /** Before reaching the last row, each "next" moves exactly one row down. */
  lemma {:induction false} NextWalk(index: int, count: nat, k: nat)
    requires InRange(index, count)
    requires k <= count - 1 - index
    ensures NextN(index, count, k) == index + k
  {
    if k > 0 {
      NextWalk(index, count, k - 1);
    }
  }

  /** Down to -1, each "previous" moves exactly one row up. */
  lemma {:induction false} PreviousWalk(index: int, count: nat, k: nat)
    requires InRange(index, count)
    requires k <= index + 1
    ensures PreviousN(index, count, k) == index - k
  {
    if k > 0 {
      PreviousWalk(index, count, k - 1);
    }
  }

  /** From "nothing highlighted", "next" visits rows 0, 1, ..., count - 1 in
      order and the (count + 1)-th press clears the highlight again. */
  lemma {:induction false} NextFromNoneVisitsAll(count: nat)
    ensures forall k :: 1 <= k <= count ==> NextN(-1, count, k) == k - 1
    ensures NextN(-1, count, count + 1) == -1
  {
    forall k | 1 <= k <= count
      ensures NextN(-1, count, k) == k - 1
    {
      NextWalk(-1, count, k);
    }
    NextWalk(-1, count, count);
  }

  /** From "nothing highlighted", "previous" lands on the last row, then
      walks up to row 0, and the (count + 1)-th press reaches -1 (never
      below it). */
  lemma {:induction false} PreviousFromNoneVisitsAll(count: nat)
    ensures forall k :: 1 <= k <= count + 1 ==> PreviousN(-1, count, k) == count - k
  {
    forall k | 1 <= k <= count + 1
      ensures PreviousN(-1, count, k) == count - k
    {
      PreviousNAdd(-1, count, 1, k - 1);
      PreviousWalk(count - 1, count, k - 1);
    }
  }

  /** "next" is periodic: count + 1 presses return to any starting state. */
  lemma {:induction false} NextCycle(index: int, count: nat)
    requires InRange(index, count)
    ensures NextN(index, count, count + 1) == index
  {
    NextWalk(index, count, count - 1 - index);
    assert NextN(index, count, count - index) == -1;
    NextWalk(-1, count, index + 1);
    NextNAdd(index, count, count - index, index + 1);
  }

  /** "previous" is periodic: count + 1 presses return to any starting state. */
  lemma {:induction false} PreviousCycle(index: int, count: nat)
    requires InRange(index, count)
    ensures PreviousN(index, count, count + 1) == index
  {
    PreviousWalk(index, count, index + 1);
    assert PreviousN(index, count, index + 2) == count - 1;
    PreviousWalk(count - 1, count, count - 1 - index);
    PreviousNAdd(index, count, index + 2, count - 1 - index);
  }
}
