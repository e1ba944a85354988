/**
 * The shift-staffing rule of the hospital command centre (app.py, optimize_roster).
 *
 * optimize_roster in app.py states an integer linear program with three
 * variables (morning, evening and night staff), a lower bound of 2 on each, one coverage
 * constraint per shift, and the objective "minimise the sum", and hands it to
 * an external solver. Because nothing couples the shifts, every variable can be
 * minimised on its own; this module gives that optimum in closed form and
 * proves that it is feasible, optimal and the unique optimum.
 *
 * Coverage shares are written in tenths (0.4 is 4, 0.2 is 2) so that the
 * constraint "x >= (load * share) / capacity" becomes the exact integer
 * inequality 10 * capacity * x >= share * load.
 */
module Staffing {

  /** The lower bound every shift variable is declared with. */
  const ShiftFloor: int := 2

  /** Share of the daily load covered by the morning and by the evening shift, in tenths (0.4). */
  const DayShareTenths: int := 4
  /** Share of the daily load covered by the night shift, in tenths (0.2). */
  const NightShareTenths: int := 2
  /** Patients per member of staff on a day shift. */
  const DayCapacity: int := 5
  /** Patients per member of staff on the night shift. */
  const NightCapacity: int := 8

  function Max(a: int, b: int): (m: int)
    ensures m >= a && m >= b
    ensures m == a || m == b
  {
    if a >= b then a else b
  }

  /** The least integer q with a <= b * q, i.e. the ceiling of a / b, for any sign of a. */
  function CeilDiv(a: int, b: int): (q: int)
    requires b > 0
    ensures b * (q - 1) < a <= b * q
  {
    var q := (a + b - 1) / b;
    var rem := (a + b - 1) % b;
    assert a + b - 1 == b * q + rem && 0 <= rem < b;
    assert b * (q - 1) == b * q - b;
    q
  }

  lemma MulMonotone(k: int, a: int, b: int)
    requires k >= 0 && a <= b
    ensures k * a <= k * b
  {
    assert k * b - k * a == k * (b - a);
  }

  /** The ceiling is determined by its two defining inequalities. */
  lemma CeilDivUnique(a: int, b: int, q: int)
    requires b > 0
    requires b * (q - 1) < a <= b * q
    ensures CeilDiv(a, b) == q
  {
    var c := CeilDiv(a, b);
    if c < q {
      MulMonotone(b, c, q - 1);
    } else if c > q {
      MulMonotone(b, q, c - 1);
    }
  }

  /**
   * The coverage constraint of one shift: x >= (load * shareTenths / 10) / capacity.
   * An integer count meets it exactly when it reaches the ceiling of the bound.
   */
  predicate Covers(x: int, load: int, shareTenths: int, capacity: int)
    requires capacity > 0
    ensures Covers(x, load, shareTenths, capacity) <==> x >= CeilDiv(shareTenths * load, 10 * capacity)
  {
    var need := CeilDiv(shareTenths * load, 10 * capacity);
    if x >= need then
      MulMonotone(10 * capacity, need, x);
      10 * capacity * x >= shareTenths * load
    else
      MulMonotone(10 * capacity, x, need - 1);
      10 * capacity * x >= shareTenths * load
  }

  /**
   * A staff count the solver may choose for one shift: the declared lower
   * bound and the coverage constraint, i.e. at least max(2, ceiling of the bound).
   */
  predicate Admissible(x: int, load: int, shareTenths: int, capacity: int)
    requires capacity > 0
    ensures Admissible(x, load, shareTenths, capacity) <==>
      x >= Max(ShiftFloor, CeilDiv(shareTenths * load, 10 * capacity))
  {
    x >= ShiftFloor && Covers(x, load, shareTenths, capacity)
  }

  /**
   * The smallest admissible staff count of one shift: either the floor, or a
   * count one less than which would not cover the load.
   */
  function MinStaff(load: int, shareTenths: int, capacity: int): (x: int)
    requires capacity > 0
    ensures Admissible(x, load, shareTenths, capacity)
    ensures x == ShiftFloor || !Covers(x - 1, load, shareTenths, capacity)
  {
    var need := CeilDiv(shareTenths * load, 10 * capacity);
    if need <= ShiftFloor then
      MulMonotone(10 * capacity, need, ShiftFloor);
      ShiftFloor
    else
      need
  }

  /** No admissible count is smaller than MinStaff. */
  lemma MinStaffIsLeast(load: int, shareTenths: int, capacity: int, x: int)
    requires capacity > 0
    requires Admissible(x, load, shareTenths, capacity)
    ensures MinStaff(load, shareTenths, capacity) <= x
  {
    var y := MinStaff(load, shareTenths, capacity);
    if y != ShiftFloor && x <= y - 1 {
      MulMonotone(10 * capacity, x, y - 1);
    }
  }

  /**
   * A reference definition of the solver's answer for one integer variable:
   * try the counts from x upwards and stop at the first that covers the load.
   */
  function FirstCovering(x: int, load: int, shareTenths: int, capacity: int): (y: int)
    requires capacity > 0
    decreases CeilDiv(shareTenths * load, 10 * capacity) - x
  {
    if Covers(x, load, shareTenths, capacity) then x
    else FirstCovering(x + 1, load, shareTenths, capacity)
  }

  /** Searching upwards from any count between the floor and MinStaff ends at MinStaff. */
  lemma {:induction false} FirstCoveringIsMinStaff(x: int, load: int, shareTenths: int, capacity: int)
    requires capacity > 0
    requires ShiftFloor <= x <= MinStaff(load, shareTenths, capacity)
    ensures FirstCovering(x, load, shareTenths, capacity) == MinStaff(load, shareTenths, capacity)
    decreases MinStaff(load, shareTenths, capacity) - x
  {
    if x < MinStaff(load, shareTenths, capacity) {
      FirstCoveringIsMinStaff(x + 1, load, shareTenths, capacity);
    }
  }

  /** A larger load never needs fewer staff on a shift (for a non-negative share). */
  lemma MinStaffMonotone(load1: int, load2: int, shareTenths: int, capacity: int)
    requires capacity > 0 && shareTenths >= 0
    requires load1 <= load2
    ensures MinStaff(load1, shareTenths, capacity) <= MinStaff(load2, shareTenths, capacity)
  {
    var y := MinStaff(load2, shareTenths, capacity);
    MulMonotone(shareTenths, load1, load2);
    assert Admissible(y, load1, shareTenths, capacity);
    MinStaffIsLeast(load1, shareTenths, capacity, y);
  }

  /**
   * More patients per member of staff never needs more staff on a shift, for a
   * non-negative load and share: the count for capacity c2 >= c1 is at most
   * the count for c1 (day shifts use 5, the night shift 8).
   */
  lemma MinStaffAntitoneInCapacity(load: int, shareTenths: int, c1: int, c2: int)
    requires 0 < c1 <= c2
    requires load >= 0 && shareTenths >= 0
    ensures MinStaff(load, shareTenths, c2) <= MinStaff(load, shareTenths, c1)
  {
    var y := MinStaff(load, shareTenths, c1);
    MulMonotone(y, 10 * c1, 10 * c2);
    assert 10 * c2 * y >= 10 * c1 * y >= shareTenths * load;
    assert Admissible(y, load, shareTenths, c2);
    MinStaffIsLeast(load, shareTenths, c2, y);
  }

  /** The roster optimize_roster returns: one count per shift and their total. */
  datatype Roster = Roster(morning: int, evening: int, night: int, total: int)

  /** All bounds and constraints of the staffing program for a given load, equivalent to their exact integer forms. */
  predicate Feasible(load: int, morning: int, evening: int, night: int)
    ensures Feasible(load, morning, evening, night) <==>
      && morning >= 2 && evening >= 2 && night >= 2
      && 25 * morning >= 2 * load && 25 * evening >= 2 * load && 40 * night >= load
  {
    && Admissible(morning, load, DayShareTenths, DayCapacity)
    && Admissible(evening, load, DayShareTenths, DayCapacity)
    && Admissible(night, load, NightShareTenths, NightCapacity)
  }

  /** A solution of the staffing program: feasible and with no feasible triple of smaller sum. */
  ghost predicate IsOptimal(load: int, morning: int, evening: int, night: int)
    ensures IsOptimal(load, morning, evening, night) ==>
      morning + evening + night <=
        2 * MinStaff(load, DayShareTenths, DayCapacity) + MinStaff(load, NightShareTenths, NightCapacity)
  {
    var day := MinStaff(load, DayShareTenths, DayCapacity);
    var nightMin := MinStaff(load, NightShareTenths, NightCapacity);
    assert Feasible(load, day, day, nightMin);
    && Feasible(load, morning, evening, night)
    && forall m, e, n :: Feasible(load, m, e, n) ==> morning + evening + night <= m + e + n
  }

  /**
   * The optimum of the staffing program: every shift at its own least
   * admissible count. The counts meet the floor and the coverage constraints
   * in their exact forms, and the total is their sum.
   */
  function OptimizeRoster(load: int): (r: Roster)
    ensures Feasible(load, r.morning, r.evening, r.night)
    ensures r.morning >= 2 && r.evening >= 2 && r.night >= 2
    ensures 25 * r.morning >= 2 * load && 25 * r.evening >= 2 * load && 40 * r.night >= load
    ensures r.total == r.morning + r.evening + r.night
  {
    var day := MinStaff(load, DayShareTenths, DayCapacity);
    var night := MinStaff(load, NightShareTenths, NightCapacity);
    Roster(day, day, night, day + day + night)
  }

  /** Optimality: every feasible triple costs at least the roster's total. */
  lemma RosterIsOptimal(load: int, m: int, e: int, n: int)
    requires Feasible(load, m, e, n)
    ensures m + e + n >= OptimizeRoster(load).total
  {
    MinStaffIsLeast(load, DayShareTenths, DayCapacity, m);
    MinStaffIsLeast(load, DayShareTenths, DayCapacity, e);
    MinStaffIsLeast(load, NightShareTenths, NightCapacity, n);
  }

  /** Uniqueness: a feasible triple that costs no more than the roster is the roster. */
  lemma RosterIsUniqueOptimum(load: int, m: int, e: int, n: int)
    requires Feasible(load, m, e, n)
    requires m + e + n <= OptimizeRoster(load).total
    ensures m == OptimizeRoster(load).morning
    ensures e == OptimizeRoster(load).evening
    ensures n == OptimizeRoster(load).night
  {
    MinStaffIsLeast(load, DayShareTenths, DayCapacity, m);
    MinStaffIsLeast(load, DayShareTenths, DayCapacity, e);
    MinStaffIsLeast(load, NightShareTenths, NightCapacity, n);
  }

  /** The roster is exactly the set of solutions of the program: both directions. */
  lemma OptimalIffRoster(load: int, m: int, e: int, n: int)
    ensures IsOptimal(load, m, e, n) <==>
      (var r := OptimizeRoster(load); m == r.morning && e == r.evening && n == r.night)
  {
    var r := OptimizeRoster(load);
    if IsOptimal(load, m, e, n) {
      assert Feasible(load, r.morning, r.evening, r.night);
      RosterIsUniqueOptimum(load, m, e, n);
    }
    if m == r.morning && e == r.evening && n == r.night {
      forall m', e', n' | Feasible(load, m', e', n')
        ensures m + e + n <= m' + e' + n'
      {
        RosterIsOptimal(load, m', e', n');
      }
    }
  }

  /** Any optimal solution staffs the morning and the evening shift equally. */
  lemma OptimalMorningEqualsEvening(load: int, m: int, e: int, n: int)
    requires IsOptimal(load, m, e, n)
    ensures m == e
  {
    OptimalIffRoster(load, m, e, n);
  }

  /** The closed form: morning = evening = max(2, ceil(2 * load / 25)), night = max(2, ceil(load / 40)). */
  lemma RosterClosedForm(load: int)
    ensures OptimizeRoster(load).morning == Max(2, CeilDiv(2 * load, 25))
    ensures OptimizeRoster(load).evening == Max(2, CeilDiv(2 * load, 25))
    ensures OptimizeRoster(load).night == Max(2, CeilDiv(load, 40))
  {
    var q := CeilDiv(DayShareTenths * load, 10 * DayCapacity);
    CeilDivUnique(2 * load, 25, q);
    var p := CeilDiv(NightShareTenths * load, 10 * NightCapacity);
    CeilDivUnique(load, 40, p);
  }

  /** Each shift count is what an upward search from the lower bound of 2 finds. */
  lemma RosterIsFirstCovering(load: int)
    ensures OptimizeRoster(load).morning == FirstCovering(2, load, DayShareTenths, DayCapacity)
    ensures OptimizeRoster(load).evening == FirstCovering(2, load, DayShareTenths, DayCapacity)
    ensures OptimizeRoster(load).night == FirstCovering(2, load, NightShareTenths, NightCapacity)
  {
    FirstCoveringIsMinStaff(2, load, DayShareTenths, DayCapacity);
    FirstCoveringIsMinStaff(2, load, NightShareTenths, NightCapacity);
  }

  /** Monotonicity: a larger load never lowers any shift count, nor the total. */
  lemma RosterMonotone(load1: int, load2: int)
    requires load1 <= load2
    ensures OptimizeRoster(load1).morning <= OptimizeRoster(load2).morning
    ensures OptimizeRoster(load1).evening <= OptimizeRoster(load2).evening
    ensures OptimizeRoster(load1).night <= OptimizeRoster(load2).night
    ensures OptimizeRoster(load1).total <= OptimizeRoster(load2).total
  {
    MinStaffMonotone(load1, load2, DayShareTenths, DayCapacity);
    MinStaffMonotone(load1, load2, NightShareTenths, NightCapacity);
  }

  /** The floor decides the day shifts exactly when the load is at most 25. */
  lemma DayFloorDominates(load: int)
    ensures load <= 25 <==> OptimizeRoster(load).morning == 2 && OptimizeRoster(load).evening == 2
  {
    RosterClosedForm(load);
  }

  /** The floor decides the night shift exactly when the load is at most 80. */
  lemma NightFloorDominates(load: int)
    ensures load <= 80 <==> OptimizeRoster(load).night == 2
  {
    RosterClosedForm(load);
  }

  /** With no predicted load the roster is the floor everywhere. */
  lemma ZeroLoadRoster()
    ensures OptimizeRoster(0) == Roster(2, 2, 2, 6)
  {
    DayFloorDominates(0);
    NightFloorDominates(0);
  }

  /** A load of 120 needs 10 staff on each day shift and 3 at night. */
  lemma Load120Roster()
    ensures OptimizeRoster(120) == Roster(10, 10, 3, 23)
  {
    RosterClosedForm(120);
    CeilDivUnique(240, 25, 10);
    CeilDivUnique(120, 40, 3);
  }
}
