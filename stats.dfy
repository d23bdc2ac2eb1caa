/**
 * The solver's statistics: ten integer counters, each bumped by exactly one
 * recording event. `Counters` is the value of all ten at one moment, with the
 * success and failure counts of each kind of validation paired in a `Tally`;
 * the class `SolverStats` holds them as fields that the recording methods
 * update.
 */
module Stats {

  /** How many validations of one kind succeeded and how many failed. */
  datatype Tally = Tally(successes: int, failures: int) {
    function Total(): int { successes + failures }
  }

  datatype Counters = Counters(
    placementAttempts: int,
    placementRejections: int,
    placementValidations: Tally,
    rowValidations: Tally,
    colValidations: Tally,
    boxValidations: Tally)

  /** Names of the ten counters. */
  datatype Counter =
    | PlacementAttempts | PlacementRejections
    | PlacementValidationSuccesses | PlacementValidationFailures
    | RowValidationSuccesses | RowValidationFailures
    | ColValidationSuccesses | ColValidationFailures
    | BoxValidationSuccesses | BoxValidationFailures

  /** The value of counter k. */
  function Count(c: Counters, k: Counter): int {
    match k
    case PlacementAttempts => c.placementAttempts
    case PlacementRejections => c.placementRejections
    case PlacementValidationSuccesses => c.placementValidations.successes
    case PlacementValidationFailures => c.placementValidations.failures
    case RowValidationSuccesses => c.rowValidations.successes
    case RowValidationFailures => c.rowValidations.failures
    case ColValidationSuccesses => c.colValidations.successes
    case ColValidationFailures => c.colValidations.failures
    case BoxValidationSuccesses => c.boxValidations.successes
    case BoxValidationFailures => c.boxValidations.failures
  }

  function Zero(): Counters {
    Counters(0, 0, Tally(0, 0), Tally(0, 0), Tally(0, 0), Tally(0, 0))
  }

  /** No counter of c exceeds the same counter of d. */
  ghost predicate AtMost(c: Counters, d: Counters) {
    forall k :: Count(c, k) <= Count(d, k)
  }

  /** The six recording operations; the flag of the last four is the outcome. */
  datatype Event =
    | PlacementAttempted
    | PlacementRejected
    | PlacementValidationPerformed(ok: bool)
    | RowValidationPerformed(ok: bool)
    | ColumnValidationPerformed(ok: bool)
    | BoxValidationPerformed(ok: bool)

  /** The counter an event bumps: success or failure as its flag says. */
  function Target(e: Event): Counter {
    match e
    case PlacementAttempted => PlacementAttempts
    case PlacementRejected => PlacementRejections
    case PlacementValidationPerformed(ok) =>
      if ok then PlacementValidationSuccesses else PlacementValidationFailures
    case RowValidationPerformed(ok) =>
      if ok then RowValidationSuccesses else RowValidationFailures
    case ColumnValidationPerformed(ok) =>
      if ok then ColValidationSuccesses else ColValidationFailures
    case BoxValidationPerformed(ok) =>
      if ok then BoxValidationSuccesses else BoxValidationFailures
  }

  /** The tally after one more validation with outcome ok. */
  function Bump(t: Tally, ok: bool): Tally {
    if ok then t.(successes := t.successes + 1) else t.(failures := t.failures + 1)
  }

  /** The counters after recording e: its target rises by one, nothing else moves. */
  function Record(c: Counters, e: Event): (r: Counters)
    ensures Count(r, Target(e)) == Count(c, Target(e)) + 1
    ensures forall k :: k != Target(e) ==> Count(r, k) == Count(c, k)
    ensures AtMost(c, r)
  {
    match e
    case PlacementAttempted =>
      c.(placementAttempts := c.placementAttempts + 1)
    case PlacementRejected =>
      c.(placementRejections := c.placementRejections + 1)
    case PlacementValidationPerformed(ok) =>
      c.(placementValidations := Bump(c.placementValidations, ok))
    case RowValidationPerformed(ok) =>
      c.(rowValidations := Bump(c.rowValidations, ok))
    case ColumnValidationPerformed(ok) =>
      c.(colValidations := Bump(c.colValidations, ok))
    case BoxValidationPerformed(ok) =>
      c.(boxValidations := Bump(c.boxValidations, ok))
  }

  /**
   * What one placement validation records when the row, column and box checks
   * would answer rowOk, colOk and boxOk: the checks run in that order and stop
   * at the first failure, and the combined outcome is recorded once at the end.
   */
  function RecordValidation(c: Counters, rowOk: bool, colOk: bool, boxOk: bool): (r: Counters)
    ensures AtMost(c, r)
    // the combined outcome: one success exactly when all three checks pass
    ensures r.placementValidations.successes == c.placementValidations.successes + (if rowOk && colOk && boxOk then 1 else 0)
    ensures r.placementValidations.failures == c.placementValidations.failures + (if rowOk && colOk && boxOk then 0 else 1)
    // the row check always runs
    ensures r.rowValidations.Total() == c.rowValidations.Total() + 1
    // a failing row check stops the others
    ensures !rowOk ==> r == c.(rowValidations := c.rowValidations.(failures := c.rowValidations.failures + 1),
                               placementValidations := c.placementValidations.(failures := c.placementValidations.failures + 1))
    // the column check runs exactly when the row check passed
    ensures r.colValidations.Total() == c.colValidations.Total() + (if rowOk then 1 else 0)
    // the box check runs exactly when the row and column checks passed
    ensures r.boxValidations.Total() == c.boxValidations.Total() + (if rowOk && colOk then 1 else 0)
    ensures r.placementAttempts == c.placementAttempts && r.placementRejections == c.placementRejections
    ensures Bookkeeping(c) ==> Bookkeeping(r)
  {
    var afterRow := Record(c, RowValidationPerformed(rowOk));
    if !rowOk then Record(afterRow, PlacementValidationPerformed(false))
    else
      var afterCol := Record(afterRow, ColumnValidationPerformed(colOk));
      if !colOk then Record(afterCol, PlacementValidationPerformed(false))
      else
        var afterBox := Record(afterCol, BoxValidationPerformed(boxOk));
        Record(afterBox, PlacementValidationPerformed(boxOk))
  }

  /**
   * The balance that validations keep: every placement validation runs the
   * row check, a passed row check leads to the column check, a passed column
   * check to the box check, and a placement validation succeeds exactly when
   * its box check passes. Each failed placement validation therefore has
   * exactly one failed row, column or box check behind it.
   */
  predicate Bookkeeping(c: Counters) {
    && c.placementValidations.Total() == c.rowValidations.Total()
    && c.rowValidations.successes == c.colValidations.Total()
    && c.colValidations.successes == c.boxValidations.Total()
    && c.boxValidations.successes == c.placementValidations.successes
  }

  /**
   * How the counters move over a stretch of search that leaves `placed`
   * digits on the board: no counter falls, the validation balance is kept,
   * every successful placement validation is followed by one attempt, and
   * every attempt except those still placed is rejected.
   */
  ghost predicate Balanced(c: Counters, d: Counters, placed: int) {
    && AtMost(c, d)
    && (Bookkeeping(c) ==> Bookkeeping(d))
    && d.placementAttempts - c.placementAttempts
       == d.placementValidations.successes - c.placementValidations.successes
    && d.placementAttempts - c.placementAttempts
       == d.placementRejections - c.placementRejections + placed
  }

  /** Under the balance, failed checks account for every failed placement validation. */
  lemma FailuresAccounted(c: Counters)
    requires Bookkeeping(c)
    ensures c.placementValidations.failures
            == c.rowValidations.failures + c.colValidations.failures + c.boxValidations.failures
  {
  }

  /** Counters that started from zero and moved as the balance allows keep the balance. */
  lemma BookkeptFromZero(d: Counters, placed: int)
    requires Balanced(Zero(), d, placed)
    ensures Bookkeeping(d)
  {
    assert Bookkeeping(Zero());
  }

  lemma BalancedRefl(c: Counters)
    ensures Balanced(c, c, 0)
  {
  }

  lemma BalancedTrans(c: Counters, d: Counters, e: Counters, p: int, q: int)
    requires Balanced(c, d, p) && Balanced(d, e, q)
    ensures Balanced(c, e, p + q)
  {
  }

  /** A placement validation that fails places nothing and attempts nothing. */
  lemma FailedValidationBalanced(c: Counters, rowOk: bool, colOk: bool, boxOk: bool)
    requires !(rowOk && colOk && boxOk)
    ensures Balanced(c, RecordValidation(c, rowOk, colOk, boxOk), 0)
  {
  }

  /** A placement validation that passes, followed by the attempt it allows. */
  lemma AttemptBalanced(c: Counters)
    ensures Balanced(c, Record(RecordValidation(c, true, true, true), PlacementAttempted), 1)
  {
  }

  /** A rejection takes one placement back. */
  lemma RejectionBalanced(c: Counters)
    ensures Balanced(c, Record(c, PlacementRejected), -1)
  {
  }

  class SolverStats {
    var placementAttempts: int
    var placementRejections: int
    var placementValidationSuccesses: int
    var placementValidationFailures: int
    var rowValidationSuccesses: int
    var rowValidationFailures: int
    var colValidationSuccesses: int
    var colValidationFailures: int
    var boxValidationSuccesses: int
    var boxValidationFailures: int

    /** The ten counters as one value. */
    function Snapshot(): Counters
      reads this
    {
      Counters(placementAttempts, placementRejections,
               Tally(placementValidationSuccesses, placementValidationFailures),
               Tally(rowValidationSuccesses, rowValidationFailures),
               Tally(colValidationSuccesses, colValidationFailures),
               Tally(boxValidationSuccesses, boxValidationFailures))
    }

    constructor ()
      ensures Snapshot() == Zero()
    {
      placementAttempts := 0;
      placementRejections := 0;
      placementValidationSuccesses := 0;
      placementValidationFailures := 0;
      rowValidationSuccesses := 0;
      rowValidationFailures := 0;
      colValidationSuccesses := 0;
      colValidationFailures := 0;
      boxValidationSuccesses := 0;
      boxValidationFailures := 0;
    }

    method PlacementAttempted()
      modifies this
      ensures Snapshot() == Record(old(Snapshot()), Event.PlacementAttempted)
    {
      placementAttempts := placementAttempts + 1;
    }

    method PlacementRejected()
      modifies this
      ensures Snapshot() == Record(old(Snapshot()), Event.PlacementRejected)
    {
      placementRejections := placementRejections + 1;
    }

    method PlacementValidationPerformed(validationResult: bool)
      modifies this
      ensures Snapshot() == Record(old(Snapshot()), Event.PlacementValidationPerformed(validationResult))
    {
      if validationResult {
        placementValidationSuccesses := placementValidationSuccesses + 1;
        return;
      }
      placementValidationFailures := placementValidationFailures + 1;
    }

    method RowValidationPerformed(validationResult: bool)
      modifies this
      ensures Snapshot() == Record(old(Snapshot()), Event.RowValidationPerformed(validationResult))
    {
      if validationResult {
        rowValidationSuccesses := rowValidationSuccesses + 1;
        return;
      }
      rowValidationFailures := rowValidationFailures + 1;
    }

    method ColumnValidationPerformed(validationResult: bool)
      modifies this
      ensures Snapshot() == Record(old(Snapshot()), Event.ColumnValidationPerformed(validationResult))
    {
      if validationResult {
        colValidationSuccesses := colValidationSuccesses + 1;
        return;
      }
      colValidationFailures := colValidationFailures + 1;
    }

    method BoxValidationPerformed(validationResult: bool)
      modifies this
      ensures Snapshot() == Record(old(Snapshot()), Event.BoxValidationPerformed(validationResult))
    {
      if validationResult {
        boxValidationSuccesses := boxValidationSuccesses + 1;
        return;
      }
      boxValidationFailures := boxValidationFailures + 1;
    }
  }
}
