/**
  The records of `projects/models.py` and the funding rules attached to a
  project: the donation total, the progress percentage, the days left before
  the deadline and the cancellation eligibility; plus the rating and report
  tables with their `(project, user)` uniqueness.

  Money is kept in integer cents (the amount fields have two decimal places),
  instants are integer microseconds, and the current time is a parameter.
 */
module Models {

  type UserId = nat
  type ProjectId = nat
  type CategoryId = nat
  type TagId = nat

  /** An amount of money in cents. */
  type Cents = int

  /** An instant, in microseconds since some fixed epoch. */
  type Instant = int

  const MICROS_PER_DAY: int := 86_400_000_000

  /** The target's `MinValueValidator(1)`: one unit, i.e. 100 cents. */
  const MIN_TARGET: Cents := 100

  /** `max_digits=12, decimal_places=2`: fewer than 10^10 units, i.e. 10^12 cents. */
  const TARGET_BOUND: Cents := 1_000_000_000_000

  datatype Option<T> = None | Some(value: T)

  datatype Error =
    | ZeroTarget         // the Decimal division in `progress` by a zero target raises
    | InvalidChoice      // a rating outside the field's choices
    | DuplicatePair      // a second row for the same (project, user)

  datatype Result<T> = Ok(value: T) | Err(error: Error)

  datatype Tag = Tag(id: TagId, name: string)

  /** A target the form validators accept. */
  predicate ValidTarget(target: Cents) {
    MIN_TARGET <= target < TARGET_BOUND
  }

  /** The database's `Sum` aggregate over donation amounts. */
  function Sum(amounts: seq<nat>): nat {
    if amounts == [] then 0 else amounts[0] + Sum(amounts[1..])
  }

  lemma {:induction false} SumAppend(a: seq<nat>, b: seq<nat>)
    ensures Sum(a + b) == Sum(a) + Sum(b)
  {
    if a == [] {
      assert a + b == b;
    } else {
      assert (a + b)[1..] == a[1..] + b;
      SumAppend(a[1..], b);
    }
  }

  lemma {:induction false} SumBoundsEach(amounts: seq<nat>, k: nat)
    requires k < |amounts|
    ensures amounts[k] <= Sum(amounts)
  {
    if k > 0 {
      SumBoundsEach(amounts[1..], k - 1);
    }
  }

  /**
    A project row.  `donations` holds the amounts (in cents) of the donations
    that refer to the project; the donation model itself is not part of this
    model, and its amounts are taken to be non-negative.
   */
  datatype Project = Project(
    id: ProjectId,
    creator: UserId,
    title: string,
    details: string,
    category: Option<CategoryId>,
    tags: seq<Tag>,
    totalTarget: Cents,
    startTime: Instant,
    endTime: Instant,
    createdAt: Instant,
    isCancelled: bool,
    isFeatured: bool,
    donations: seq<nat>)
  {
    /**
      The whole days (the `days` of the time difference, which rounds down)
      until the end, or 0 once the end is not after `now`.
     */
    function DaysLeft(now: Instant): (days: nat)
      ensures endTime <= now ==> days == 0
      ensures now < endTime ==>
                days * MICROS_PER_DAY <= endTime - now < (days + 1) * MICROS_PER_DAY
    {
      if endTime > now then (endTime - now) / MICROS_PER_DAY else 0
    }

    /** The sum of the donation amounts, 0 when there are none. */
    function TotalDonations(): (total: nat)
      ensures donations == [] ==> total == 0
      ensures forall k :: 0 <= k < |donations| ==> donations[k] <= total
    {
      forall k | 0 <= k < |donations| ensures donations[k] <= Sum(donations) {
        SumBoundsEach(donations, k);
      }
      Sum(donations)
    }

    /**
      `min(100, total / target * 100)`, computed exactly.  A zero target makes
      the division fail.
     */
    function Progress(): (percent: Result<real>)
      ensures percent.Err? <==> totalTarget == 0
      ensures percent.Ok? ==> percent.value <= 100.0
      ensures percent.Ok? && 0 < totalTarget ==> 0.0 <= percent.value
    {
      if totalTarget == 0 then Err(ZeroTarget)
      else
        var ratio := (TotalDonations() as real / totalTarget as real) * 100.0;
        Ok(if ratio < 100.0 then ratio else 100.0)
    }

    /**
      Progress below 25 and not cancelled yet.  The progress is computed
      first, so its failure is not masked by the cancelled flag.
     */
    function CanBeCancelled(): (eligible: Result<bool>)
      ensures eligible.Err? <==> totalTarget == 0
      ensures isCancelled ==> eligible != Ok(true)
      ensures eligible == Ok(true) ==> Progress().value < 25.0
    {
      match Progress()
      case Err(e) => Err(e)
      case Ok(percent) => Ok(percent < 25.0 && !isCancelled)
    }
  }

  /** A target accepted by the validators never makes the progress fail. */
  lemma ValidTargetIsSafe(p: Project)
    requires ValidTarget(p.totalTarget)
    ensures p.Progress().Ok? && p.CanBeCancelled().Ok?
    ensures 0.0 <= p.Progress().value <= 100.0
  {
  }

  /**
    Below the target the progress is exactly total/target*100; at or above the
    target it is exactly 100.
   */
  lemma ProgressIsClampedRatio(p: Project)
    requires 0 < p.totalTarget
    ensures p.TotalDonations() <= p.totalTarget ==>
              p.Progress() == Ok(p.TotalDonations() as real * 100.0 / p.totalTarget as real)
    ensures p.totalTarget <= p.TotalDonations() ==> p.Progress() == Ok(100.0)
  {
    var total, target := p.TotalDonations() as real, p.totalTarget as real;
    var ratio := (total / target) * 100.0;
    assert (total / target) * target == total;
    assert ratio == total * 100.0 / target;
    if total <= target {
      DivideKeepsOrder(total, target, target);
      assert target / target == 1.0;
    } else {
      DivideKeepsOrder(target, total, target);
      assert target / target == 1.0;
    }
  }

  /**
    For a positive target the 25% test is the integer comparison
    4 * total < target.
   */
  lemma QuarterThreshold(p: Project)
    requires 0 < p.totalTarget
    ensures p.Progress().value < 25.0 <==> 4 * p.TotalDonations() < p.totalTarget
  {
    var total, target := p.TotalDonations() as real, p.totalTarget as real;
    PercentBelowIff(total, target, 25.0);
    assert total * 100.0 < 25.0 * target <==> 4 * p.TotalDonations() < p.totalTarget;
  }

  /** Scaling by a positive divisor: x/g*100 < c exactly when x*100 < c*g. */
  lemma PercentBelowIff(x: real, g: real, c: real)
    requires 0.0 < g
    ensures (x / g) * 100.0 < c <==> x * 100.0 < c * g
  {
  }

  /** Dividing by a positive divisor keeps the order. */
  lemma DivideKeepsOrder(a: real, b: real, g: real)
    requires a <= b && 0.0 < g
    ensures a / g <= b / g
  {
  }

  /**
    With a positive target a project can be cancelled exactly when less than a
    quarter of the target has been donated and it is not cancelled yet.
   */
  lemma CanBeCancelledExactly(p: Project)
    requires 0 < p.totalTarget
    ensures p.CanBeCancelled() == Ok(4 * p.TotalDonations() < p.totalTarget && !p.isCancelled)
  {
    QuarterThreshold(p);
  }

  /** With no donations the total and the progress are 0. */
  lemma NoDonations(p: Project)
    requires p.donations == [] && p.totalTarget != 0
    ensures p.TotalDonations() == 0
    ensures p.Progress() == Ok(0.0)
    ensures p.CanBeCancelled() == Ok(!p.isCancelled)
  {
  }

  /**
    A further donation never lowers the progress, and never makes a project
    that could not be cancelled cancellable.
   */
  lemma DonationOnlyRaisesProgress(p: Project, amount: nat)
    requires 0 < p.totalTarget
    ensures p.(donations := p.donations + [amount]).Progress().value >= p.Progress().value
    ensures p.(donations := p.donations + [amount]).CanBeCancelled() == Ok(true) ==>
              p.CanBeCancelled() == Ok(true)
  {
    var q := p.(donations := p.donations + [amount]);
    SumAppend(p.donations, [amount]);
    assert q.TotalDonations() == p.TotalDonations() + amount;
    var target := p.totalTarget as real;
    DivideKeepsOrder(p.TotalDonations() as real, q.TotalDonations() as real, target);
    QuarterThreshold(p);
    QuarterThreshold(q);
  }

  /** Target 1000.00 with donations 100.00 and 150.00: exactly 25%, not cancellable. */
  lemma QuarterFundedScenario(p: Project)
    requires p.totalTarget == 100_000 && p.donations == [10_000, 15_000]
    ensures p.Progress() == Ok(25.0)
    ensures p.CanBeCancelled() == Ok(false)
  {
    assert p.donations[1..] == [15_000] && p.donations[1..][1..] == [];
    assert Sum(p.donations[1..]) == 15_000;
    assert p.TotalDonations() == 25_000;
  }

  /** Target 1000.00 with one donation of 100.00: 10%, cancellable unless cancelled. */
  lemma TenthFundedScenario(p: Project)
    requires p.totalTarget == 100_000 && p.donations == [10_000]
    ensures p.Progress() == Ok(10.0)
    ensures p.CanBeCancelled() == Ok(!p.isCancelled)
  {
    assert p.donations[1..] == [];
    assert Sum(p.donations) == 10_000 + Sum([]);
  }

  // ---------------------------------------------------------------------
  // Pictures

  /** An uploaded image file, kept opaque: only its name is modelled. */
  type Upload = string

  datatype ProjectPicture = ProjectPicture(project: ProjectId, image: Upload, isFeatured: bool)

  // ---------------------------------------------------------------------
  // Ratings and reports

  datatype ProjectRating = ProjectRating(project: ProjectId, user: UserId, rating: int)

  datatype ProjectReport = ProjectReport(project: ProjectId, user: UserId, reason: string, isResolved: bool)

  /** The rating field's choices, `range(1, 6)`. */
  predicate IsRatingChoice(value: int) {
    1 <= value <= 5
  }

  predicate HasRating(rows: seq<ProjectRating>, project: ProjectId, user: UserId) {
    exists r :: r in rows && r.project == project && r.user == user
  }

  predicate HasReport(rows: seq<ProjectReport>, project: ProjectId, user: UserId) {
    exists r :: r in rows && r.project == project && r.user == user
  }

  /** `unique_together = ('project', 'user')` and every value a valid choice. */
  predicate RatingsValid(rows: seq<ProjectRating>) {
    && (forall i, j :: 0 <= i < j < |rows| ==>
          rows[i].project != rows[j].project || rows[i].user != rows[j].user)
    && (forall r :: r in rows ==> IsRatingChoice(r.rating))
  }

  /** `unique_together = ('project', 'user')`. */
  predicate ReportsValid(rows: seq<ProjectReport>) {
    forall i, j :: 0 <= i < j < |rows| ==>
      rows[i].project != rows[j].project || rows[i].user != rows[j].user
  }

  /**
    A validated insert into the rating table: the value is checked against
    the choices first, then the pair against the rows already there.
   */
  function AddRating(rows: seq<ProjectRating>, project: ProjectId, user: UserId, value: int)
    : (r: Result<seq<ProjectRating>>)
    ensures !IsRatingChoice(value) ==> r == Err(InvalidChoice)
    ensures IsRatingChoice(value) && HasRating(rows, project, user) ==> r == Err(DuplicatePair)
    ensures r.Ok? <==> IsRatingChoice(value) && !HasRating(rows, project, user)
    ensures r.Ok? ==> r.value == rows + [ProjectRating(project, user, value)]
  {
    if !IsRatingChoice(value) then Err(InvalidChoice)
    else if HasRating(rows, project, user) then Err(DuplicatePair)
    else Ok(rows + [ProjectRating(project, user, value)])
  }

  /** An insert into the report table, refused for a pair already present. */
  function AddReport(rows: seq<ProjectReport>, project: ProjectId, user: UserId, reason: string)
    : (r: Result<seq<ProjectReport>>)
    ensures r.Ok? <==> !HasReport(rows, project, user)
    ensures r.Err? ==> r.error == DuplicatePair
    ensures r.Ok? ==> r.value == rows + [ProjectReport(project, user, reason, false)]
  {
    if HasReport(rows, project, user) then Err(DuplicatePair)
    else Ok(rows + [ProjectReport(project, user, reason, false)])
  }

  /** A successful rating insert keeps the table valid. */
  lemma AddRatingKeepsValid(rows: seq<ProjectRating>, project: ProjectId, user: UserId, value: int)
    requires RatingsValid(rows)
    requires AddRating(rows, project, user, value).Ok?
    ensures RatingsValid(AddRating(rows, project, user, value).value)
  {
  }

  /** A successful report insert keeps the table valid. */
  lemma AddReportKeepsValid(rows: seq<ProjectReport>, project: ProjectId, user: UserId, reason: string)
    requires ReportsValid(rows)
    requires AddReport(rows, project, user, reason).Ok?
    ensures ReportsValid(AddReport(rows, project, user, reason).value)
  {
  }
}
