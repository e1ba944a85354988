/**
 * The decision rules the command-centre report applies to a predicted
 * emergency-department influx (app.py): the weekend flag of the target date,
 * the "Normal"/"High Load" label, the ICU bed estimate and the alert tier.
 */
module Dashboard {
  import Staffing

  /** Days of the week, numbered as Python's date.weekday() numbers them (Monday is 0). */
  datatype Weekday = Monday | Tuesday | Wednesday | Thursday | Friday | Saturday | Sunday

  function WeekdayNumber(d: Weekday): (n: int)
    ensures 0 <= n < 7
  {
    match d
    case Monday => 0
    case Tuesday => 1
    case Wednesday => 2
    case Thursday => 3
    case Friday => 4
    case Saturday => 5
    case Sunday => 6
  }

  function WeekdayFromNumber(n: int): (d: Weekday)
    requires 0 <= n < 7
    ensures WeekdayNumber(d) == n
  {
    if n == 0 then Monday
    else if n == 1 then Tuesday
    else if n == 2 then Wednesday
    else if n == 3 then Thursday
    else if n == 4 then Friday
    else if n == 5 then Saturday
    else Sunday
  }

  /** The numbering is a bijection between the seven days and 0..6. */
  lemma WeekdayNumberRoundTrip(d: Weekday)
    ensures WeekdayFromNumber(WeekdayNumber(d)) == d
  {
  }

  /** The weekend flag: weekday() >= 5, which holds on Saturday and Sunday and no other day. */
  function IsWeekend(d: Weekday): (w: bool)
    ensures w <==> d == Saturday || d == Sunday
  {
    WeekdayNumber(d) >= 5
  }

  /** The label shown beside the predicted influx. */
  function LoadLabel(admissions: int): (s: string)
    ensures s == "High Load" <==> admissions >= 95
    ensures s == "Normal" <==> admissions < 95
  {
    if admissions < 95 then "Normal" else "High Load"
  }

  /**
   * ICU beds needed: 12% of the predicted admissions, truncated toward zero
   * as Python's int() truncates. The factor is taken as the exact rational
   * 12/100.
   */
  function IcuDemand(admissions: int): (beds: int)
    ensures admissions >= 0 ==> 0 <= beds && 100 * beds <= 12 * admissions < 100 * (beds + 1)
    ensures admissions < 0 ==> beds <= 0 && 100 * (beds - 1) < 12 * admissions <= 100 * beds
  {
    if admissions >= 0 then (12 * admissions) / 100 else -((-12 * admissions) / 100)
  }

  /** More admissions never mean fewer ICU beds. */
  lemma IcuDemandMonotone(a1: int, a2: int)
    requires a1 <= a2
    ensures IcuDemand(a1) <= IcuDemand(a2)
  {
  }

  /** The three alerts of the report, from the most to the least severe. */
  datatype AlertTier = CriticalSurge | HighLoad | Stable

  /** The alert chosen for a predicted influx: above 100 critical, above 90 high, otherwise stable. */
  function Alert(admissions: int): (t: AlertTier)
    ensures t == CriticalSurge <==> admissions > 100
    ensures t == HighLoad <==> 90 < admissions <= 100
    ensures t == Stable <==> admissions <= 90
  {
    if admissions > 100 then CriticalSurge
    else if admissions > 90 then HighLoad
    else Stable
  }

  function Severity(t: AlertTier): (level: int)
    ensures 0 <= level <= 2
  {
    match t
    case Stable => 0
    case HighLoad => 1
    case CriticalSurge => 2
  }

  /** A larger influx never lowers the alert. */
  lemma AlertMonotone(a1: int, a2: int)
    requires a1 <= a2
    ensures Severity(Alert(a1)) <= Severity(Alert(a2))
  {
  }

  /**
   * The label and the alert use different thresholds (95 and 90/100): a stable
   * report is always labelled "Normal" and a critical one "High Load", while a
   * high-load alert covers both labels.
   */
  lemma LabelAgreesWithAlert(admissions: int)
    ensures Alert(admissions) == Stable ==> LoadLabel(admissions) == "Normal"
    ensures Alert(admissions) == CriticalSurge ==> LoadLabel(admissions) == "High Load"
    ensures Alert(92) == HighLoad && LoadLabel(92) == "Normal"
    ensures Alert(97) == HighLoad && LoadLabel(97) == "High Load"
  {
  }

  /** A critical surge (at least 101 admissions) needs at least 9 + 9 + 3 staff. */
  lemma CriticalSurgeRoster(admissions: int)
    requires Alert(admissions) == CriticalSurge
    ensures Staffing.OptimizeRoster(admissions).morning >= 9
    ensures Staffing.OptimizeRoster(admissions).night >= 3
    ensures Staffing.OptimizeRoster(admissions).total >= 21
  {
    Staffing.RosterMonotone(101, admissions);
    Staffing.RosterClosedForm(101);
    Staffing.CeilDivUnique(202, 25, 9);
    Staffing.CeilDivUnique(101, 40, 3);
  }
}
