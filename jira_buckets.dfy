/** The severity colour of one Jira bucket (`checkThreshold` in JiraBucketsWidget.js). */
module JiraBucketsWidget {
  import opened Wrappers

  /** The two colours `checkThreshold` can pick; "no colour" (`undefined`) is `None`. */
  datatype Color = Red | Yellow

  /** `t !== 0` after `parseInt`; `None` stands for `NaN`, which is not `0`. */
  predicate NotZero(t: Option<int>) {
    match t
    case None => true
    case Some(n) => n != 0
  }

  /** `count >= t` after `parseInt`; every comparison with `NaN` is false. */
  predicate AtLeast(count: int, t: Option<int>) {
    match t
    case None => false
    case Some(n) => count >= n
  }

  /** Whether a threshold level is triggered by `count`: enabled (non-zero, numeric) and reached. */
  predicate Fires(count: int, t: Option<int>) {
    t.Some? && t.value != 0 && count >= t.value
  }

  /**
   * The colour of a bucket with `issueCounts` issues. Each threshold is the result
   * of `parseInt`: `Some(n)` for a number, `None` for `NaN`.
   */
  function CheckThreshold(issueCounts: int, errorThreshold: Option<int>, warningThreshold: Option<int>): (r: Option<Color>)
    ensures r == Some(Red) <==> Fires(issueCounts, errorThreshold)
    ensures r == Some(Yellow) <==> !Fires(issueCounts, errorThreshold) && Fires(issueCounts, warningThreshold)
    ensures r == None <==> !Fires(issueCounts, errorThreshold) && !Fires(issueCounts, warningThreshold)
  {
    if NotZero(errorThreshold) && AtLeast(issueCounts, errorThreshold) then Some(Red)
    else if NotZero(warningThreshold) && AtLeast(issueCounts, warningThreshold) then Some(Yellow)
    else None
  }

  /** Red is decided by the error threshold alone: the warning threshold cannot change it. */
  lemma RedIgnoresWarning(issueCounts: int, errorThreshold: Option<int>, w1: Option<int>, w2: Option<int>)
    requires Fires(issueCounts, errorThreshold)
    ensures CheckThreshold(issueCounts, errorThreshold, w1) == Some(Red)
    ensures CheckThreshold(issueCounts, errorThreshold, w1) == CheckThreshold(issueCounts, errorThreshold, w2)
  {
  }

  /** A threshold of 0 switches its level off; with both at 0 there is never a colour. */
  lemma ZeroDisables(issueCounts: int, errorThreshold: Option<int>, warningThreshold: Option<int>)
    ensures errorThreshold == Some(0) ==> CheckThreshold(issueCounts, errorThreshold, warningThreshold) != Some(Red)
    ensures warningThreshold == Some(0) ==> CheckThreshold(issueCounts, errorThreshold, warningThreshold) != Some(Yellow)
    ensures CheckThreshold(issueCounts, Some(0), Some(0)) == None
  {
  }

  /** An unparseable threshold (`NaN`) never triggers its level, although `NaN !== 0`. */
  lemma NaNNeverFires(issueCounts: int, errorThreshold: Option<int>, warningThreshold: Option<int>)
    ensures NotZero(None) && !AtLeast(issueCounts, None)
    ensures errorThreshold == None ==> CheckThreshold(issueCounts, errorThreshold, warningThreshold) != Some(Red)
    ensures warningThreshold == None ==> CheckThreshold(issueCounts, errorThreshold, warningThreshold) != Some(Yellow)
    ensures CheckThreshold(issueCounts, None, None) == None
  {
  }

  /** Order of severity: no colour, then yellow, then red. */
  function Rank(c: Option<Color>): (n: nat)
    ensures n <= 2
    ensures n == 0 <==> c == None
    ensures n == 2 <==> c == Some(Red)
  {
    match c
    case None => 0
    case Some(Yellow) => 1
    case Some(Red) => 2
  }

  /** More issues never make a bucket less severe, for any thresholds. */
  lemma MoreIssuesNoLessSevere(c1: int, c2: int, errorThreshold: Option<int>, warningThreshold: Option<int>)
    requires c1 <= c2
    ensures Rank(CheckThreshold(c1, errorThreshold, warningThreshold)) <= Rank(CheckThreshold(c2, errorThreshold, warningThreshold))
  {
  }
}
