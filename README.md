# Shift staffing for the hospital command centre

A Dafny model of the decision core of the "Intelligent Hospital Command
Center" dashboard (`app.py`). For a predicted number of emergency-department
admissions, the dashboard works out a nurse roster. It also sets a load label,
an ICU bed estimate and an alert tier. The weekend flag of the target date
feeds the prediction.

The roster comes from `optimize_roster`. That function builds a three-variable
integer linear program and hands it to an external solver:

- morning, evening and night staff, each an integer of at least 2;
- morning ≥ load·0.4/5, evening ≥ load·0.4/5, night ≥ load·0.2/8;
- minimise morning + evening + night.

Nothing links the shifts, so each variable can be minimised on its own. The
model gives that optimum in closed form (`Staffing.OptimizeRoster`). It proves
the optimum feasible, optimal, unique, monotone in the load, and equal to
max(2, ⌈2·load/25⌉) for both day shifts and max(2, ⌈load/40⌉) at night. The
coverage shares are exact rationals: 0.4/5 = 2/25 and 0.2/8 = 1/40, so all
arithmetic is on integers.

Files:

- `staffing.dfy`, module `Staffing`: the staffing program, its closed-form
  optimum and the lemmas about it.
- `dashboard.dfy`, module `Dashboard`: the weekend flag, the load label, the
  ICU estimate and the alert tier, plus lemmas about each and one lemma
  linking the alert to the roster.

The predicted load is any integer. The code never checks its sign. For a
negative load every coverage constraint is slack, so the program still returns
the floor of 2 on every shift, and the model does the same; every lemma holds
for all integers. There is no rejection path.

## Model

| member | source | states |
|---|---|---|
| `Staffing.CeilDiv` | app.py:60-62 | the result q is the least integer with a ≤ b·q (b·(q−1) < a ≤ b·q), for either sign of a |
| `Staffing.Covers` | app.py:60-62 | x ≥ (load·share/10)/capacity, written 10·capacity·x ≥ share·load, holds if and only if x ≥ ⌈share·load/(10·capacity)⌉ |
| `Staffing.Admissible` | app.py:55-62 | a count meets its variable's lower bound of 2 and its coverage constraint if and only if it is ≥ max(2, ⌈share·load/(10·capacity)⌉) |
| `Staffing.MinStaff` | app.py:55-62 | the count meets the floor of 2 and the shift's coverage constraint, and is either 2 or one less would not cover the load |
| `Staffing.MinStaffIsLeast` | app.py:55-64 | every count that meets the floor and the coverage constraint is at least MinStaff |
| `Staffing.FirstCoveringIsMinStaff` | app.py:55-62 | searching upwards from any count between 2 and MinStaff for the first count that covers the load ends exactly at MinStaff |
| `Staffing.MinStaffMonotone` | app.py:60-62 | for a non-negative share, a larger load never gives a smaller minimal count |
| `Staffing.MinStaffAntitoneInCapacity` | app.py:60-62 | for a load and share ≥ 0, raising the patients-per-staff divisor (5 for day shifts, 8 at night) never raises the minimal count |
| `Staffing.Feasible` | app.py:55-62 | a triple meets all bounds and constraints of the program if and only if m, e, n ≥ 2, 25·m ≥ 2·load, 25·e ≥ 2·load and 40·n ≥ load |
| `Staffing.IsOptimal` | app.py:53-64 | a solution is feasible and no feasible triple has a smaller sum; hence its sum is at most that of the per-shift minimal counts |
| `Staffing.OptimizeRoster` | app.py:51-74 | the roster is feasible: every count ≥ 2, 25·morning ≥ 2·load, 25·evening ≥ 2·load, 40·night ≥ load; the total is the sum of the three counts |
| `Staffing.RosterIsOptimal` | app.py:55-64 | every integer triple meeting the bounds and constraints has a sum ≥ the roster's total |
| `Staffing.RosterIsUniqueOptimum` | app.py:55-64 | a feasible triple whose sum is ≤ the total equals the roster, shift by shift |
| `Staffing.OptimalIffRoster` | app.py:53-74 | a triple solves the program (feasible, with no feasible triple of smaller sum) if and only if it is the roster |
| `Staffing.OptimalMorningEqualsEvening` | app.py:60-61 | every optimal solution has as many morning staff as evening staff |
| `Staffing.RosterClosedForm` | app.py:55-64 | morning = evening = max(2, ⌈2·load/25⌉) and night = max(2, ⌈load/40⌉) |
| `Staffing.RosterIsFirstCovering` | app.py:55-64 | each shift count equals the first integer from the lower bound 2 upwards that meets its coverage constraint |
| `Staffing.RosterMonotone` | app.py:60-62 | if load₁ ≤ load₂, each shift count and the total for load₁ are ≤ those for load₂ |
| `Staffing.DayFloorDominates` | app.py:55-61 | both day shifts are at the floor of 2 if and only if the load is ≤ 25 |
| `Staffing.NightFloorDominates` | app.py:57-62 | the night shift is at the floor of 2 if and only if the load is ≤ 80 |
| `Staffing.ZeroLoadRoster` | app.py:55-73 | a load of 0 gives morning 2, evening 2, night 2 and total 6 |
| `Staffing.Load120Roster` | app.py:60-73 | a load of 120 gives 10, 10 and 3 staff, total 23 |
| `Dashboard.WeekdayNumber` | app.py:101 | the `date.weekday()` numbering, Monday = 0 … Sunday = 6; the number lies in 0..6 |
| `Dashboard.WeekdayNumberRoundTrip` | app.py:101 | a sanity lemma for the `Weekday` abstraction, not code of its own: numbering the days and mapping the number back (`WeekdayFromNumber`) is the identity |
| `Dashboard.IsWeekend` | app.py:101 | weekday() ≥ 5 holds exactly on Saturday and Sunday |
| `Dashboard.LoadLabel` | app.py:121 | the label is "High Load" if and only if admissions ≥ 95, and "Normal" if and only if admissions < 95 |
| `Dashboard.IcuDemand` | app.py:116 | the bed count is 12% of admissions truncated toward zero: 100·beds ≤ 12·admissions < 100·(beds+1) for admissions ≥ 0, mirrored for negative admissions |
| `Dashboard.IcuDemandMonotone` | app.py:116 | more admissions never give fewer ICU beds |
| `Dashboard.Alert` | app.py:137-142 | critical if and only if admissions > 100, high if and only if 90 < admissions ≤ 100, stable if and only if admissions ≤ 90; exactly one holds |
| `Dashboard.AlertMonotone` | app.py:137-142 | a larger influx never gives a less severe alert |
| `Dashboard.LabelAgreesWithAlert` | app.py:121-142 | a stable alert comes with "Normal" and a critical one with "High Load"; a high alert comes with either label (92 and 97 as witnesses) |
| `Dashboard.CriticalSurgeRoster` | app.py:115-138 | when the alert is critical the roster has at least 9 morning staff, 3 night staff and 21 in total |

## Left out

- The `pulp` model object and the CBC solver: the model replaces the solver call with the exact optimum and proves that optimum is the program's unique solution.
- Floating-point arithmetic of the coverage bounds (`load * 0.4 / 5`, `load * 0.2 / 8`) and the solver's integrality tolerances. Read back with `int(varValue)`, a value such as 2.9999999 would truncate to 2. The model uses exact rationals and exact integers.
- Dashboard.IcuDemand: models `int(load * 0.12)` with the exact rational 12/100. This is an idealisation of double arithmetic; the two could differ only for loads so large that doubles no longer hold the products exactly. The same holds for the coverage bounds `load * 0.4 / 5` and `load * 0.2 / 8`.
- `load_and_train_model`: reading the CSV file and fitting the random-forest regressor are file I/O and a foreign library. The predicted load is therefore an input to every function here.
- `get_live_weather`: it is an HTTP request with a fallback temperature of 25.0, i.e. network I/O.
- The calendar: `target_date.weekday()` is Python's date library. The model takes the day of the week as a `Weekday` value.
- All Streamlit layout, styling, metrics, tables and charts, including the text of the alert banners.
- `generate_data.py`: it produces random synthetic data and writes a CSV. Its spike rule uses weekday ≥ 4, Friday included, while its weekend column uses weekday ≥ 5. Nothing in it is modelled.
