/** Course progress as EnrollmentService computes it: the share of completed
    lessons, rounded half-up to two decimal places and scaled to a percentage,
    and the completion status derived from it. */
module Progress {

  const InProgress := "IN_PROGRESS"
  const Completed := "COMPLETED"

  /** `BigDecimal.valueOf(completed).divide(BigDecimal.valueOf(total), 2,
      HALF_UP).multiply(100)`: the quotient is kept in hundredths, rounded up
      when the dropped remainder is at least half the divisor. Multiplying the
      hundredths by 100 gives the percentage with two decimal places. Its
      numeric value, which is all that `compareTo` looks at, is this integer. */
  function Percentage(completed: nat, total: nat): (p: nat)
    requires total > 0
    ensures 2 * total * p <= 200 * completed + total < 2 * total * (p + 1)
  {
    var q := (100 * completed) / total;
    var rem := (100 * completed) % total;
    DivisionParts(100 * completed, total, q, rem);
    if 2 * rem >= total then q + 1 else q
  }

  lemma DivisionParts(n: nat, d: nat, q: nat, rem: nat)
    requires d > 0 && q == n / d && rem == n % d
    ensures n == q * d + rem && rem < d
    ensures 2 * d * q + 2 * rem == 2 * n
  {
  }

  /** The only value within a divisor's reach below a number is its quotient. */
  lemma {:induction false} QuotientByBounds(n: nat, d: nat, p: nat)
    requires d > 0 && d * p <= n < d * (p + 1)
    ensures n / d == p
  {
    var q, r := n / d, n % d;
    assert n == d * q + r && 0 <= r < d;
    if q < p {
      MultiplyMonotone(d, q + 1, p);
    }
  }

  lemma MultiplyMonotone(d: nat, a: nat, b: nat)
    requires a <= b
    ensures d * a <= d * b
  {
  }

  /** The percentage is the ratio 100·c/t rounded half-up to a whole number:
      the integer `(200·c + t) div 2·t`. */
  lemma PercentageIsRoundedRatio(completed: nat, total: nat)
    requires total > 0
    ensures Percentage(completed, total) == (200 * completed + total) / (2 * total)
  {
    var p := Percentage(completed, total);
    assert (2 * total) * p <= 200 * completed + total < (2 * total) * (p + 1);
    QuotientByBounds(200 * completed + total, 2 * total, p);
  }

  /** Against a percentage bound `b`, the percentage is at least `b` exactly
      when 200·c + t reaches 2·t·b. */
  lemma AtLeastIff(completed: nat, total: nat, b: nat)
    requires total > 0
    ensures Percentage(completed, total) >= b <==> 200 * completed + total >= 2 * total * b
  {
    var p := Percentage(completed, total);
    if p >= b {
      MultiplyMonotone(2 * total, b, p);
    } else {
      MultiplyMonotone(2 * total, p + 1, b);
    }
  }

  /** The status becomes COMPLETED exactly when 199·t <= 200·c < 201·t: from
      99.5% of the lessons up to, but excluding, 100.5%. */
  lemma CompleteIff(completed: nat, total: nat)
    requires total > 0
    ensures Percentage(completed, total) == 100 <==> 199 * total <= 200 * completed < 201 * total
  {
    AtLeastIff(completed, total, 100);
    AtLeastIff(completed, total, 101);
  }

  /** Completing every lesson of a course gives exactly 100. */
  lemma AllLessonsComplete(total: nat)
    requires total > 0
    ensures Percentage(total, total) == 100
  {
    CompleteIff(total, total);
  }

  /** One lesson short still counts as complete once the course has 200
      lessons or more: 199 of 200 rounds up to 100. */
  lemma OneShortIff(total: nat)
    requires total > 0
    ensures Percentage(total - 1, total) == 100 <==> total >= 200
  {
    CompleteIff(total - 1, total);
  }

  /** More completed ids than lessons overshoots 100 exactly when
      200·c >= 201·t; a single extra id does so only in courses of at most
      200 lessons, and otherwise still reads as complete. */
  lemma AboveHundredIff(completed: nat, total: nat)
    requires total > 0
    ensures Percentage(completed, total) > 100 <==> 200 * completed >= 201 * total
  {
    AtLeastIff(completed, total, 101);
  }

  lemma OneExtraIff(total: nat)
    requires total > 0
    ensures Percentage(total + 1, total) > 100 <==> total <= 200
    ensures total > 200 ==> Percentage(total + 1, total) == 100
  {
    AboveHundredIff(total + 1, total);
    CompleteIff(total + 1, total);
  }

  /** Completing more lessons never lowers the percentage. */
  lemma PercentageMonotone(c1: nat, c2: nat, total: nat)
    requires total > 0 && c1 <= c2
    ensures Percentage(c1, total) <= Percentage(c2, total)
  {
    var p1 := Percentage(c1, total);
    AtLeastIff(c2, total, p1);
  }

  /** While no more ids than lessons are completed, the percentage stays
      within 0..100. */
  lemma PercentageBounded(completed: nat, total: nat)
    requires total > 0 && completed <= total
    ensures Percentage(completed, total) <= 100
  {
    PercentageMonotone(completed, total, total);
    AllLessonsComplete(total);
  }

  /** The status written next to a percentage. */
  function StatusFor(p: int): (s: string)
    ensures s == Completed <==> p == 100
    ensures s == InProgress <==> p != 100
  {
    if p == 100 then Completed else InProgress
  }
}
