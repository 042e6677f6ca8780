/**
 * The profile page's spending figures: the total of the fetched expense
 * report, the budget analysis over the chosen date range, and the per-meal
 * subtotal shown under each day.
 */
module ProfilePage {
  import opened Wrappers
  import opened JsNumber
  import opened Dates
  import opened Schema
  import opened ExpenseRoute

  /** `expenses.reduce((sum, e) => sum + e.amount, 0)` */
  function TotalExpense(expenses: seq<Expense>): real {
    if expenses == [] then 0.0 else TotalExpense(expenses[..|expenses| - 1]) + expenses[|expenses| - 1].amount
  }

  /** The sum of the day totals of a list of menus, in order. */
  function MenusTotal(menus: seq<Menu>): real {
    if menus == [] then 0.0 else MenusTotal(menus[..|menus| - 1]) + DailyTotal(menus[|menus| - 1])
  }

  /** The page's total is the sum of the server's day totals over the reported menus. */
  lemma {:induction false} TotalOfReport(menus: seq<Menu>)
    ensures TotalExpense(Report(menus)) == MenusTotal(menus)
    decreases |menus|
  {
    if menus != [] {
      var n := |menus|;
      assert Report(menus)[..n - 1] == Report(menus[..n - 1]);
      TotalOfReport(menus[..n - 1]);
    }
  }

  /** Milliseconds in a day: `1000 * 60 * 60 * 24`. */
  const MsPerDay: int := 86400000

  /** `Math.ceil(a / b)` for a positive `b`. */
  function CeilDiv(a: int, b: int): (r: int)
    requires b > 0
    ensures (r - 1) * b < a <= r * b
  {
    -((-a) / b)
  }

  /** `Math.ceil((to - from) / oneDay) + 1`, on the two instants in milliseconds. */
  function PeriodDays(fromMs: int, toMs: int): int {
    CeilDiv(toMs - fromMs, MsPerDay) + 1
  }

  /** Two instants k whole days apart span k + 1 days, counting both ends. */
  lemma PeriodDaysWholeDays(fromMs: int, k: int)
    ensures PeriodDays(fromMs, fromMs + k * MsPerDay) == k + 1
  {
    var r := CeilDiv(k * MsPerDay, MsPerDay);
    assert (r - 1) * MsPerDay < k * MsPerDay <= r * MsPerDay;
    assert r - 1 < k <= r;
  }

  /** Any part of a further day counts as a whole day. */
  lemma PeriodDaysPartialDay(fromMs: int, k: nat, extra: int)
    requires 0 < extra < MsPerDay
    ensures PeriodDays(fromMs, fromMs + k * MsPerDay + extra) == k + 2
  {
    var r := CeilDiv(k * MsPerDay + extra, MsPerDay);
    assert (r - 1) * MsPerDay < k * MsPerDay + extra <= r * MsPerDay;
    assert r - 1 < k + 1 && k < r;
  }

  /** The analysis before rounding. */
  datatype Figures = Figures(periodBudget: real, remainingBudget: real, dailyAverage: real, projectedMonthlyExpense: real)

  /**
   * `calculateBudgetAnalysis` before `Math.round`: the month's budget prorated
   * to the period, what is left of it, the average per day and that average
   * extended to the month. `None` when the period has no days (the division
   * by zero yields a non-finite number).
   */
  function ExactFigures(budget: real, total: real, days: int, dim: int): (r: Option<Figures>)
    requires dim > 0
    ensures r.Some? <==> days != 0
    ensures r.Some? ==> r.value.remainingBudget == r.value.periodBudget - total
    ensures r.Some? ==> r.value.projectedMonthlyExpense * days as real == total * dim as real
  {
    if days == 0 then None
    else
      var periodBudget := budget / dim as real * days as real;
      var dailyAverage := total / days as real;
      Some(Figures(periodBudget, periodBudget - total, dailyAverage, dailyAverage * dim as real))
  }

  /** What the page displays: the four figures rounded, the day count as it is. */
  datatype Analysis = Analysis(periodBudget: int, remainingBudget: int, dailyAverage: int, projectedMonthlyExpense: int, daysInPeriod: int)

  /** `calculateBudgetAnalysis()` for the range from `from` (at `fromMs`) to `toMs`. */
  function BudgetAnalysis(budget: real, total: real, from: Date, fromMs: int, toMs: int): (r: Option<Analysis>)
    requires Valid(from)
    ensures r.Some? <==> PeriodDays(fromMs, toMs) != 0
    ensures r.Some? ==> r.value.daysInPeriod == PeriodDays(fromMs, toMs)
    ensures r.Some? ==> var f := ExactFigures(budget, total, PeriodDays(fromMs, toMs), DaysInMonth(from.year, from.month)).value;
                        && f.periodBudget - 0.5 < r.value.periodBudget as real <= f.periodBudget + 0.5
                        && f.remainingBudget - 0.5 < r.value.remainingBudget as real <= f.remainingBudget + 0.5
                        && f.dailyAverage - 0.5 < r.value.dailyAverage as real <= f.dailyAverage + 0.5
                        && f.projectedMonthlyExpense - 0.5 < r.value.projectedMonthlyExpense as real <= f.projectedMonthlyExpense + 0.5
  {
    var days := PeriodDays(fromMs, toMs);
    match ExactFigures(budget, total, days, DaysInMonth(from.year, from.month))
    case None => None
    case Some(f) =>
      Some(Analysis(Round(f.periodBudget), Round(f.remainingBudget), Round(f.dailyAverage), Round(f.projectedMonthlyExpense), days))
  }

  /** A period of exactly the month's length is given exactly the monthly budget. */
  lemma FullMonthBudget(budget: real, total: real, dim: int)
    requires dim > 0
    ensures ExactFigures(budget, total, dim, dim).value.periodBudget == budget
  {
  }

  /** The page's two warnings: remaining budget below zero, projected spending above the budget. */
  datatype Indicators = Indicators(overBudget: bool, overProjected: bool)

  /** The warnings as the page computes them, from the rounded figures. */
  function IndicatorsAsWritten(budget: real, a: Analysis): Indicators {
    Indicators(a.remainingBudget < 0, a.projectedMonthlyExpense as real > budget)
  }

  /** The warnings from the figures before rounding. */
  function ExactIndicators(budget: real, f: Figures): Indicators {
    Indicators(f.remainingBudget < 0.0, f.projectedMonthlyExpense > budget)
  }

  /**
   * Before rounding the two warnings agree: each holds exactly when the total
   * spent exceeds the prorated budget.
   */
  lemma ExactIndicatorsAgree(budget: real, total: real, days: int, dim: int)
    requires dim > 0 && days > 0
    ensures var f := ExactFigures(budget, total, days, dim).value;
            && (ExactIndicators(budget, f).overBudget <==> total > f.periodBudget)
            && (ExactIndicators(budget, f).overProjected <==> total > f.periodBudget)
  {
    var f := ExactFigures(budget, total, days, dim).value;
    var d, m := days as real, dim as real;
    assert f.periodBudget == budget * d / m;
    assert f.projectedMonthlyExpense == total * m / d;
    if f.projectedMonthlyExpense > budget {
      assert total * m > budget * d by {
        assert f.projectedMonthlyExpense * d == total * m;
        assert f.projectedMonthlyExpense * d > budget * d;
      }
      assert total > budget * d / m;
    }
    if total > f.periodBudget {
      assert total * m > budget * d;
      assert total * m / d > budget;
    }
  }

  /** An April range of ten whole days, a budget of 3000 and 1000.30 spent. */
  lemma DisagreeingExample(budget: real, total: real, from: Date, fromMs: int, toMs: int)
    requires budget == 3000.0 && total == 1000.3 && from == Date(2024, 3, 1) && toMs == fromMs + 9 * MsPerDay
    ensures PeriodDays(fromMs, toMs) == 10 && DaysInMonth(from.year, from.month) == 30
    ensures ExactFigures(budget, total, 10, 30) == Some(Figures(1000.0, -0.3, 100.03, 3000.9))
    ensures BudgetAnalysis(budget, total, from, fromMs, toMs) == Some(Analysis(1000, 0, 100, 3001, 10))
  {
    PeriodDaysWholeDays(fromMs, 9);
  }

  /**
   * As written, the rounded figures can make the page warn about the
   * projection while showing the remaining budget in green: the overspend of
   * 0.30 rounds to 0 but the projection rounds above the budget.
   */
  lemma RoundedIndicatorsDisagree(budget: real, total: real, from: Date, fromMs: int, toMs: int)
    requires budget == 3000.0 && total == 1000.3 && from == Date(2024, 3, 1) && toMs == fromMs + 9 * MsPerDay
    ensures BudgetAnalysis(budget, total, from, fromMs, toMs).Some?
    ensures var w := IndicatorsAsWritten(budget, BudgetAnalysis(budget, total, from, fromMs, toMs).value);
            !w.overBudget && w.overProjected
    ensures var e := ExactIndicators(budget, ExactFigures(budget, total, 10, 30).value);
            e.overBudget && e.overProjected
  {
    DisagreeingExample(budget, total, from, fromMs, toMs);
  }

  /**
   * A day's subtotal for one meal: `items.reduce((sum, item) => sum + (item.price || 0), 0)`.
   * A number adds itself and an empty text price adds 0; any other text price
   * turns the sum into a string (`None`), on which the page's `toFixed` fails.
   */
  function MealSubtotal(items: seq<MealItem>): (r: Option<real>)
    ensures (forall i :: 0 <= i < |items| ==> items[i].price.Num?) ==> r.Some?
  {
    if items == [] then Some(0.0)
    else
      match MealSubtotal(items[..|items| - 1])
      case None => None
      case Some(sum) =>
        match items[|items| - 1].price
        case Num(n) => Some(sum + n)
        case Text(s) => if s == "" then Some(sum) else None
  }

  /** With numeric prices the page's subtotal is the server's slot total. */
  lemma {:induction false} MealSubtotalMatchesServer(items: seq<MealItem>)
    requires forall i :: 0 <= i < |items| ==> items[i].price.Num?
    ensures MealSubtotal(items) == Some(ItemsTotal(items))
    decreases |items|
  {
    if items != [] {
      MealSubtotalMatchesServer(items[..|items| - 1]);
    }
  }
}
