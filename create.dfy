/**
 * The menu-creation page: a form holding one plan per meal type (a daily list
 * of items, or seven weekday-tagged items), and the submit loop that expands
 * it into one menu request per day of the chosen period.
 */
module CreateMenu {
  import opened Wrappers
  import opened Text
  import opened JsNumber
  import opened Dates
  import opened Schema
  import opened CalendarDates
  import opened MenuClient

  /** The form's weekday tags, Monday first. */
  const DaysOfWeek: seq<string> := ["Monday", "Tuesday", "Wednesday", "Thursday", "Friday", "Saturday", "Sunday"]

  /** `{name: "", description: "", recipe: "", price: 0}` */
  const Blank := MealItem(None, "", "", "", Num(0.0))

  /** A blank item tagged with a weekday. */
  function Tagged(day: string): MealItem {
    MealItem(Some(day), "", "", "", Num(0.0))
  }

  /** `items.find(item => item.day === day)` */
  function FindByDay(items: seq<MealItem>, day: string): (r: Option<MealItem>)
    ensures r.Some? <==> exists i :: 0 <= i < |items| && items[i].day == Some(day)
    ensures r.Some? ==> exists i :: 0 <= i < |items| && items[i] == r.value && r.value.day == Some(day) &&
                                    forall j :: 0 <= j < i ==> items[j].day != Some(day)
  {
    if items == [] then None
    else if items[0].day == Some(day) then Some(items[0])
    else
      var r := FindByDay(items[1..], day);
      assert forall i :: 1 <= i < |items| ==> items[i] == items[1..][i - 1];
      r
  }

  /** One slot of a day's request: a daily plan's whole list, or the weekly item for the day (else a blank one). */
  function SlotFor(plan: Plan, dayName: string): Slot {
    if plan.kind == "daily" then Slot(Some(plan.items))
    else Slot(Some([FindByDay(plan.items, dayName).GetOr(Blank)]))
  }

  /** The request the submit loop sends for `date`. */
  function DayRequest(meals: Meals, date: Date): MenuRequest
    requires Valid(date)
  {
    var name := WeekdayName(date);
    MenuRequest(DateKey(date), Some(SlotFor(meals.breakfast, name)), Some(SlotFor(meals.lunch, name)), Some(SlotFor(meals.dinner, name)))
  }

  /** The number of passes of `for (i = 0; i < duration; i++)`; `None` is a NaN duration. */
  function Passes(duration: Option<int>): nat {
    if duration.Some? && duration.value > 0 then duration.value else 0
  }

  /** The request for day `start + i`, as a function of `i`. */
  function RequestOf(meals: Meals, start: Date): nat -> MenuRequest
    requires Valid(start)
  {
    (i: nat) => DayRequest(meals, AddDays(start, i))
  }

  /** `[f(0), .., f(n - 1)]`. */
  function Tabulate<T>(n: nat, f: nat -> T): (r: seq<T>)
    ensures |r| == n
  {
    if n == 0 then [] else Tabulate(n - 1, f) + [f(n - 1)]
  }

  lemma {:induction false} TabulateAt<T>(n: nat, f: nat -> T, i: nat)
    requires i < n
    ensures Tabulate(n, f)[i] == f(i)
  {
    if i < n - 1 {
      TabulateAt(n - 1, f, i);
    }
  }

  lemma {:induction false} TabulatePrefix<T>(k: nat, n: nat, f: nat -> T)
    requires k <= n
    ensures Tabulate(k, f) == Tabulate(n, f)[..k]
    decreases n
  {
    if k < n {
      TabulatePrefix(k, n - 1, f);
      var t := Tabulate(n - 1, f);
      assert (t + [f(n - 1)])[..k] == t[..k];
    } else {
      assert Tabulate(n, f)[..n] == Tabulate(n, f);
    }
  }

  /** The requests for `n` consecutive days from `start`, in the order they are sent. */
  function Expansion(meals: Meals, start: Date, n: nat): (r: seq<MenuRequest>)
    requires Valid(start)
    ensures |r| == n
  {
    Tabulate(n, RequestOf(meals, start))
  }

  /** Request `i` of the expansion is the request for day `start + i`. */
  lemma ExpansionAt(meals: Meals, start: Date, n: nat, i: nat)
    requires Valid(start) && i < n
    ensures Expansion(meals, start, n)[i] == DayRequest(meals, AddDays(start, i))
  {
    TabulateAt(n, RequestOf(meals, start), i);
  }

  /** The requests sent before a failure are the first ones of the whole expansion. */
  lemma ExpansionPrefix(meals: Meals, start: Date, k: nat, n: nat)
    requires Valid(start) && k <= n
    ensures Expansion(meals, start, k) == Expansion(meals, start, n)[..k]
  {
    TabulatePrefix(k, n, RequestOf(meals, start));
  }

  /**
   * `handleSubmit`: one `createMenu` per day, in order. `failAt` is the index of
   * the first call that throws, if any: the loop stops there (that request was
   * sent) and the page stays; otherwise it goes to the dashboard.
   */
  method Submit(meals: Meals, start: Date, duration: Option<int>, failAt: Option<nat>) returns (sent: seq<MenuRequest>, toDashboard: bool)
    requires Valid(start)
    ensures sent == Expansion(meals, start, SentCount(Passes(duration), failAt))
    ensures toDashboard <==> failAt.None? || failAt.value >= Passes(duration)
  {
    var n := Passes(duration);
    var request := RequestOf(meals, start);
    sent := [];
    var i := 0;
    while i < n
      invariant 0 <= i <= n
      invariant sent == Tabulate(i, request)
      invariant failAt.None? || failAt.value >= i
    {
      sent := sent + [request(i)];
      if failAt.Some? && failAt.value == i {
        return sent, false;
      }
      i := i + 1;
    }
    toDashboard := true;
  }

  /** How many requests go out in `n` passes when the call at index `failAt` throws. */
  function SentCount(n: nat, failAt: Option<nat>): (k: nat)
    ensures k <= n
    ensures failAt.Some? && failAt.value < n ==> k == failAt.value + 1
    ensures failAt.None? || failAt.value >= n ==> k == n
  {
    if failAt.Some? && failAt.value < n then failAt.value + 1 else n
  }

  /** The index of the first day whose `createMenu` rejects, if any. */
  function FirstFailure(results: seq<bool>): (r: Option<nat>)
    ensures r.None? <==> forall i :: 0 <= i < |results| ==> results[i]
    ensures r.Some? ==> r.value < |results| && !results[r.value] && forall i :: 0 <= i < r.value ==> results[i]
  {
    if results == [] then None
    else if !results[0] then Some(0)
    else
      var r := FirstFailure(results[1..]);
      assert forall i :: 1 <= i < |results| ==> results[i] == results[1..][i - 1];
      if r.None? then None else Some(r.value + 1)
  }

  /** Whether each day's `createMenu` resolves, given its menu POST's answer and the expense route's methods. */
  function Outcomes(menuOks: seq<bool>, methods: set<string>, handlerOk: bool): (r: seq<bool>)
    ensures |r| == |menuOks|
  {
    seq(|menuOks|, i requires 0 <= i < |menuOks| => CreateMenuSucceeds(menuOks[i], PostOk(methods, handlerOk)))
  }

  /**
   * As written the first day's `createMenu` already rejects: the loop sends
   * that one request, stops, and the page never reaches the dashboard.
   */
  lemma SubmitAsWrittenStopsAfterFirstDay(meals: Meals, start: Date, duration: Option<int>, menuOks: seq<bool>, handlerOk: bool)
    requires Valid(start) && |menuOks| == Passes(duration) > 0
    ensures var failAt := FirstFailure(Outcomes(menuOks, ExpenseRouteMethods, handlerOk));
            && failAt == Some(0)
            && Expansion(meals, start, SentCount(Passes(duration), failAt)) == [DayRequest(meals, start)]
            && !(failAt.None? || failAt.value >= Passes(duration))
  {
    var results := Outcomes(menuOks, ExpenseRouteMethods, handlerOk);
    CreateMenuAlwaysRejects(menuOks[0], handlerOk);
    assert !results[0];
    ExpansionAt(meals, start, 1, 0);
  }

  /**
   * With a route that accepts the expense POST, every day's menu accepted and
   * the handler succeeding, all `n` days are sent and the page reaches the
   * dashboard.
   */
  lemma SubmitCompletesWithExpensePost(meals: Meals, start: Date, duration: Option<int>, menuOks: seq<bool>)
    requires Valid(start) && |menuOks| == Passes(duration)
    requires forall i :: 0 <= i < |menuOks| ==> menuOks[i]
    ensures var failAt := FirstFailure(Outcomes(menuOks, ExpenseRouteMethods + {"POST"}, true));
            && failAt == None
            && Expansion(meals, start, SentCount(Passes(duration), failAt)) == Expansion(meals, start, Passes(duration))
            && (failAt.None? || failAt.value >= Passes(duration))
  {
    var results := Outcomes(menuOks, ExpenseRouteMethods + {"POST"}, true);
    assert forall i :: 0 <= i < |results| ==> results[i];
  }

  /** The submitted days are consecutive and pairwise distinct, so no request overwrites another's menu. */
  lemma ExpansionDates(meals: Meals, start: Date, n: nat)
    requires Valid(start)
    ensures forall i :: 0 <= i < n ==> Expansion(meals, start, n)[i].date == DateKey(AddDays(start, i))
    ensures forall i, j :: 0 <= i < j < n ==> Expansion(meals, start, n)[i].date != Expansion(meals, start, n)[j].date
  {
    forall i | 0 <= i < n
      ensures Expansion(meals, start, n)[i].date == DateKey(AddDays(start, i))
    {
      ExpansionAt(meals, start, n, i);
    }
    forall i, j | 0 <= i < j < n
      ensures Expansion(meals, start, n)[i].date != Expansion(meals, start, n)[j].date
    {
      AddDaysIncreasing(start, i, j);
      DateKeySameDay(AddDays(start, i), AddDays(start, j));
    }
  }

  /**
   * A daily slot copies the plan's list verbatim; any other slot holds exactly
   * one item: the first one tagged with the day's name, or the blank item.
   */
  lemma SlotRule(plan: Plan, dayName: string)
    ensures plan.kind == "daily" ==> SlotFor(plan, dayName).items == Some(plan.items)
    ensures plan.kind != "daily" ==> SlotFor(plan, dayName).items.Some? && |SlotFor(plan, dayName).items.value| == 1
    ensures plan.kind != "daily" && (exists i :: 0 <= i < |plan.items| && plan.items[i].day == Some(dayName)) ==>
      SlotFor(plan, dayName).items.value[0].day == Some(dayName) && SlotFor(plan, dayName).items.value[0] in plan.items
    ensures plan.kind != "daily" && (forall i :: 0 <= i < |plan.items| ==> plan.items[i].day != Some(dayName)) ==>
      SlotFor(plan, dayName).items.value == [Blank]
    ensures plan.kind != "daily" ==>
      forall i :: 0 <= i < |plan.items| && plan.items[i].day == Some(dayName) &&
                  (forall j :: 0 <= j < i ==> plan.items[j].day != Some(dayName)) ==>
        SlotFor(plan, dayName).items == Some([plan.items[i]])
  {
  }

  /** `handleMealTypeChange`: the chosen type with one blank item (daily) or seven tagged blanks. */
  function ChangeType(meals: Meals, t: MealType, value: string): (r: Meals)
    ensures r.Get(t).kind == value
    ensures forall u :: u != t ==> r.Get(u) == meals.Get(u)
    ensures value == "daily" ==> r.Get(t).items == [Blank]
    ensures value != "daily" ==> |r.Get(t).items| == 7 && forall i :: 0 <= i < 7 ==> r.Get(t).items[i] == Tagged(DaysOfWeek[i])
  {
    var items := if value == "daily" then [Blank] else seq(7, i requires 0 <= i < 7 => Tagged(DaysOfWeek[i]));
    meals.Set(t, Plan(value, items))
  }

  /** An edit of one form field; the price field receives an already parsed number. */
  datatype Edit = SetName(name: string) | SetDescription(description: string) | SetRecipe(recipe: string) | SetPrice(price: real)

  /** `{...item, [field]: value}` */
  function ApplyEdit(item: MealItem, e: Edit): (r: MealItem)
    ensures r.day == item.day
    ensures r.name == (if e.SetName? then e.name else item.name)
    ensures r.description == (if e.SetDescription? then e.description else item.description)
    ensures r.recipe == (if e.SetRecipe? then e.recipe else item.recipe)
    ensures r.price == (if e.SetPrice? then Num(e.price) else item.price)
  {
    match e
    case SetName(v) => item.(name := v)
    case SetDescription(v) => item.(description := v)
    case SetRecipe(v) => item.(recipe := v)
    case SetPrice(v) => item.(price := Num(v))
  }

  /** `handleMealItemChange`: the item at `index` of slot `t` takes the edit; an index outside the list matches no item. */
  function ChangeItem(meals: Meals, t: MealType, index: int, e: Edit): (r: Meals)
    ensures r.Get(t).kind == meals.Get(t).kind && |r.Get(t).items| == |meals.Get(t).items|
    ensures forall i :: 0 <= i < |meals.Get(t).items| && i != index ==> r.Get(t).items[i] == meals.Get(t).items[i]
    ensures 0 <= index < |meals.Get(t).items| ==> r.Get(t).items[index] == ApplyEdit(meals.Get(t).items[index], e)
    ensures !(0 <= index < |meals.Get(t).items|) ==> r == meals
    ensures forall u :: u != t ==> r.Get(u) == meals.Get(u)
  {
    var plan := meals.Get(t);
    var items := seq(|plan.items|, i requires 0 <= i < |plan.items| => if i == index then ApplyEdit(plan.items[i], e) else plan.items[i]);
    assert !(0 <= index < |plan.items|) ==> items == plan.items;
    SetUnchanged(meals, t);
    meals.Set(t, Plan(plan.kind, items))
  }

  /** Writing back a slot's own plan is no change. */
  lemma SetUnchanged(meals: Meals, t: MealType)
    ensures meals.Set(t, meals.Get(t)) == meals
  {
  }

  /** The price input: `parseFloat(text) || 0`. */
  function EnteredPrice(text: string): (r: real)
    ensures ParseFloat(text).None? ==> r == 0.0
    ensures ParseFloat(text).Some? ==> r == ParseFloat(text).value
  {
    ParseFloat(text).GetOr(0.0)
  }

  /** Typing a whole number of rupees enters that number. */
  lemma EnteredPriceOfNumber(n: nat)
    ensures EnteredPrice(NatToString(n)) == n as real
  {
    ParseFloatOfNatToString(n);
  }

  /** Typing a word (text starting with no space, sign, dot or digit) enters 0. */
  lemma EnteredPriceOfWord(w: string)
    requires StartsWord(w)
    ensures EnteredPrice(w) == 0.0
  {
    ParseFloatOfWord(w);
  }

  /** A weekly plan as the form builds it: seven items tagged Monday to Sunday in order. */
  predicate WeekTagged(plan: Plan) {
    |plan.items| == 7 && forall i :: 0 <= i < 7 ==> plan.items[i].day == Some(DaysOfWeek[i])
  }

  /** Name edits, price edits and the like never move a weekday tag. */
  lemma EditsKeepTags(meals: Meals, t: MealType, index: int, e: Edit)
    requires WeekTagged(meals.Get(t))
    ensures WeekTagged(ChangeItem(meals, t, index, e).Get(t))
  {
  }

  /** The Monday-first tag of the day with weekday `wd` (Sunday = 0). */
  lemma TagOfWeekday(wd: int)
    requires 0 <= wd < 7
    ensures DaysOfWeek[(wd + 6) % 7] == WeekdayNames[wd]
    ensures forall j :: 0 <= j < 7 && j != (wd + 6) % 7 ==> DaysOfWeek[j] != WeekdayNames[wd]
  {
    forall j | 0 <= j < 7 && j != (wd + 6) % 7 ensures DaysOfWeek[j] != WeekdayNames[wd] {
      assert DaysOfWeek[j][0] != WeekdayNames[wd][0] || DaysOfWeek[j][1] != WeekdayNames[wd][1];
    }
  }

  /**
   * For a weekly plan the form built, every submitted day gets the item the
   * user entered under that day's name: item (weekday + 6) mod 7.
   */
  lemma WeeklySlotIsDayItem(plan: Plan, date: Date)
    requires Valid(date) && plan.kind != "daily" && WeekTagged(plan)
    ensures SlotFor(plan, WeekdayName(date)) == Slot(Some([plan.items[(Weekday(date) + 6) % 7]]))
  {
    var wd := Weekday(date);
    TagOfWeekday(wd);
    var r := FindByDay(plan.items, WeekdayNames[wd]);
    assert plan.items[(wd + 6) % 7].day == Some(WeekdayNames[wd]);
  }
}
