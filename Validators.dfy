/** `validate_number_in_board` (yumljira/apps/projects/validators.py) and the
    insertion renumbering its docstring describes. */
module Validators {
  import opened Common

  /** The `(success, message)` pair the validator returns. */
  datatype Verdict = Verdict(ok: bool, message: string)

  const NotPositive := "You have to specify number greater than 0."
  const TooBig := "Number is too big."

  /** Python truthiness of `old_value`: `None` and `0` are falsy. */
  predicate Given(oldValue: Option<int>) {
    oldValue.Some? && oldValue.value != 0
  }

  /** `validate_number_in_board(number, project, old_value)`. `numbers` are the
      project's column numbers as the query at validators.py:38-40 returns
      them (ordered by number, so the last one is the largest). The query is
      made only for a non-zero number, and the project then has at least one
      column. `old_value` is `None` when a column is being created and the
      column's current number when it is being moved. The `is not`
      comparisons of small integers are integer inequality. */
  function ValidateNumberInBoard(number: nat, numbers: seq<int>, oldValue: Option<int>): (r: Verdict)
    requires number != 0 ==> |numbers| > 0
    ensures r.ok <==> r.message == ""
    ensures number == 0 ==> r == Verdict(false, NotPositive)
    ensures !r.ok && number != 0 ==> r.message == TooBig
    // Creating (or an `old_value` of 0): any position up to one past the last.
    ensures number != 0 && !Given(oldValue) && oldValue != Some(numbers[|numbers| - 1]) ==>
      (r.ok <==> number <= numbers[|numbers| - 1] + 1)
    // Moving the last column: only to where it already is.
    ensures number != 0 && oldValue == Some(numbers[|numbers| - 1]) ==>
      (r.ok <==> number == numbers[|numbers| - 1])
    // Moving any other column: to a number the board already has.
    ensures number != 0 && Given(oldValue) && oldValue != Some(numbers[|numbers| - 1]) ==>
      (r.ok <==> number <= numbers[|numbers| - 1] + 1 && number in numbers)
  {
    if number == 0 then Verdict(false, NotPositive)
    else
      var last := numbers[|numbers| - 1];
      if number > last && number - last != 1 then Verdict(false, TooBig)
      else if oldValue == Some(last) && number - last != 0 then Verdict(false, TooBig)
      else if Given(oldValue) && number !in numbers then Verdict(false, TooBig)
      else Verdict(true, "")
  }

  /** An accepted number is positive and at most one above the last column;
      when moving the last column it is that column's own number, and when
      moving any column it is already on the board. */
  lemma AcceptedNumber(number: nat, numbers: seq<int>, oldValue: Option<int>)
    requires |numbers| > 0 && ValidateNumberInBoard(number, numbers, oldValue).ok
    ensures 0 < number <= numbers[|numbers| - 1] + 1
    ensures oldValue == Some(numbers[|numbers| - 1]) ==> number == oldValue.value
    ensures Given(oldValue) ==> number in numbers
  {
  }

  /** The numbers of a board whose columns are numbered 1..n in order. */
  function Iota(n: nat): (s: seq<int>)
    ensures |s| == n
    ensures forall i :: 0 <= i < n ==> s[i] == i + 1
  {
    if n == 0 then [] else Iota(n - 1) + [n]
  }

  lemma IotaMembership(n: nat, x: int)
    ensures x in Iota(n) <==> 1 <= x <= n
  {
    if 1 <= x <= n {
      assert Iota(n)[x - 1] == x;
    }
  }

  /** Creating a column on a board numbered 1..n: exactly the positions
      1..n+1 are accepted (n+1 appends at the end). */
  lemma CreateOnBoard(n: nat, number: nat)
    requires n > 0
    ensures ValidateNumberInBoard(number, Iota(n), None).ok <==> 1 <= number <= n + 1
  {
  }

  /** Moving column number `current` of a board numbered 1..n: the target must be an
      existing position, and the last column cannot be moved at all. */
  lemma MoveOnBoard(n: nat, number: nat, current: int)
    requires 1 <= current <= n
    ensures ValidateNumberInBoard(number, Iota(n), Some(current)).ok <==>
      1 <= number <= n && (current == n ==> number == n)
  {
    IotaMembership(n, number);
  }

  // ---------------------------------------------------------------------------
  // The insertion shift
  // ---------------------------------------------------------------------------

  /** Every number at or above `p` moves up by one; the others stay. */
  function ShiftUp(s: seq<int>, p: int): (r: seq<int>)
    ensures |r| == |s|
  {
    seq(|s|, i requires 0 <= i < |s| => if s[i] >= p then s[i] + 1 else s[i])
  }

  /** `n` distinct numbers, all in 1..n: a board numbered 1..n, in any order. */
  predicate Contiguous(s: seq<int>) {
    && (forall i, j :: 0 <= i < j < |s| ==> s[i] != s[j])
    && (forall i :: 0 <= i < |s| ==> 1 <= s[i] <= |s|)
  }

  /** The shift is strictly increasing, so it keeps the columns' relative order. */
  lemma ShiftKeepsOrder(s: seq<int>, p: int, i: nat, j: nat)
    requires i < |s| && j < |s|
    ensures s[i] < s[j] <==> ShiftUp(s, p)[i] < ShiftUp(s, p)[j]
    ensures s[i] == s[j] <==> ShiftUp(s, p)[i] == ShiftUp(s, p)[j]
  {
  }

  /** Inserting a new column at position p (1 <= p <= n+1) into a board
      numbered 1..n gives a board numbered 1..n+1 with the new column at p:
      the docstring's [1, 2, 3, 4] with 3 becoming [1, 2, 4, 5] plus 3. */
  lemma {:induction false} InsertionKeepsContiguous(s: seq<int>, p: int)
    requires Contiguous(s) && 1 <= p <= |s| + 1
    ensures Contiguous(ShiftUp(s, p) + [p])
  {
    var r := ShiftUp(s, p);
    var t := r + [p];
    forall i, j | 0 <= i < j < |t| ensures t[i] != t[j] {
      if j < |s| {
        ShiftKeepsOrder(s, p, i, j);
      } else {
        assert t[i] == r[i] && t[j] == p;
      }
    }
    forall i | 0 <= i < |t| ensures 1 <= t[i] <= |t| {
      if i < |s| { assert t[i] == r[i]; }
    }
  }

  /** A creation the validator accepts on a board numbered 1..n leaves, after
      the shift and the insert, a board numbered 1..n+1. */
  lemma AcceptedInsertion(n: nat, number: nat)
    requires n > 0 && ValidateNumberInBoard(number, Iota(n), None).ok
    ensures Contiguous(ShiftUp(Iota(n), number) + [number])
  {
    InsertionKeepsContiguous(Iota(n), number);
  }

  /** The shift applied in place to the numbers of a board's columns. */
  method ShiftNumbers(a: array<int>, p: int)
    modifies a
    ensures a[..] == ShiftUp(old(a[..]), p)
  {
    var i := 0;
    while i < a.Length
      invariant 0 <= i <= a.Length
      invariant forall k :: 0 <= k < i ==> a[k] == ShiftUp(old(a[..]), p)[k]
      invariant forall k :: i <= k < a.Length ==> a[k] == old(a[k])
    {
      if a[i] >= p {
        a[i] := a[i] + 1;
      }
      i := i + 1;
    }
  }
}
