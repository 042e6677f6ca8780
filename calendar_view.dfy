/**
 * The calendar component's state and its effective-menu resolution: the
 * date-keyed menus it was given, the user's recurring template (if one was
 * fetched), the displayed month and the selected day. `getMenuForDay` fills
 * the empty slots of a day from the template and writes the result back into
 * the day's entry in place.
 */
module CalendarView {
  import opened Wrappers
  import opened Dates
  import opened Schema
  import opened CalendarDates

  /**
   * An item as the calendar holds it: a stored item, or the fallback
   * `{name: x}` whose `name` is a whole template item, or `undefined` when the
   * template list has no item at that index.
   */
  datatype ShownItem = Listed(item: MealItem) | Fallback(name: Option<MealItem>)

  /** A slot object; its `items` may be missing. */
  datatype DaySlot = DaySlot(items: Option<seq<ShownItem>>)

  /** A day's menu as the calendar holds it; a slot object may be missing. */
  datatype DayMenu = DayMenu(breakfast: Option<DaySlot>, lunch: Option<DaySlot>, dinner: Option<DaySlot>)
  {
    function SlotOf(t: MealType): Option<DaySlot> {
      match t
      case Breakfast => breakfast
      case Lunch => lunch
      case Dinner => dinner
    }

    /** `menu[t] = s` */
    function Set(t: MealType, s: Option<DaySlot>): (r: DayMenu)
      ensures r.SlotOf(t) == s
      ensures forall u :: u != t ==> r.SlotOf(u) == SlotOf(u)
    {
      match t
      case Breakfast => this.(breakfast := s)
      case Lunch => this.(lunch := s)
      case Dinner => this.(dinner := s)
    }
  }

  /** `{breakfast: {}, lunch: {}, dinner: {}}`: three slot objects without items. */
  const DefaultMenu := DayMenu(Some(DaySlot(None)), Some(DaySlot(None)), Some(DaySlot(None)))

  /** A stored menu as the calendar receives it from the menu listing. */
  function FromStored(m: Menu): DayMenu {
    DayMenu(ShownSlot(m.breakfast), ShownSlot(m.lunch), ShownSlot(m.dinner))
  }

  function ShownSlot(s: Option<Slot>): Option<DaySlot> {
    match s
    case None => None
    case Some(Slot(None)) => Some(DaySlot(None))
    case Some(Slot(Some(items))) => Some(DaySlot(Some(seq(|items|, i requires 0 <= i < |items| => Listed(items[i])))))
  }

  /** A slot counts as filled when it has a non-empty item list. */
  predicate Filled(s: DaySlot) {
    s.items.Some? && |s.items.value| > 0
  }

  /** The lower-case weekday names in `getDay()` order, Sunday first. */
  const SundayFirst: seq<string> := ["sunday", "monday", "tuesday", "wednesday", "thursday", "friday", "saturday"]

  /** The lower-case weekday names in template order, Monday first. */
  const MondayFirst: seq<string> := ["monday", "tuesday", "wednesday", "thursday", "friday", "saturday", "sunday"]

  /** `xs.indexOf(x)`: the first index holding `x`, or -1. */
  function IndexOf(xs: seq<string>, x: string): (r: int)
    ensures -1 <= r < |xs|
    ensures r == -1 <==> x !in xs
    ensures r >= 0 ==> xs[r] == x && forall j :: 0 <= j < r ==> xs[j] != x
  {
    if xs == [] then -1
    else if xs[0] == x then 0
    else
      var i := IndexOf(xs[1..], x);
      if i == -1 then -1 else i + 1
  }

  /** The template position of the day with `getDay()` = `wd`: Monday 0 .. Sunday 6. */
  lemma WeeklyIndex(wd: int)
    requires 0 <= wd < 7
    ensures IndexOf(MondayFirst, SundayFirst[wd]) == (wd + 6) % 7
  {
    var k := if wd == 0 then 6 else wd - 1;
    assert SundayFirst[wd] == MondayFirst[k];
    MondayFirstDistinct(k);
    IndexOfAt(MondayFirst, k);
  }

  /** A value with no copy before position k is found at k. */
  lemma IndexOfAt(xs: seq<string>, k: int)
    requires 0 <= k < |xs|
    requires forall j :: 0 <= j < k ==> xs[j] != xs[k]
    ensures IndexOf(xs, xs[k]) == k
  {
  }

  /** The weekday names differ in their first two letters. */
  lemma MondayFirstDistinct(k: int)
    requires 0 <= k < 7
    ensures forall j :: 0 <= j < k ==> MondayFirst[j] != MondayFirst[k]
  {
    forall j | 0 <= j < k ensures MondayFirst[j] != MondayFirst[k] {
      assert MondayFirst[j][1] != MondayFirst[k][1] || MondayFirst[j][0] != MondayFirst[k][0];
    }
  }

  /** `items[i]`: `undefined` outside the list. */
  function At(items: seq<MealItem>, i: int): (r: Option<MealItem>)
    ensures r.Some? <==> 0 <= i < |items|
    ensures r.Some? ==> r.value == items[i]
  {
    if 0 <= i < |items| then Some(items[i]) else None
  }

  /**
   * One slot of `getMenuForDay`: a filled slot is kept; an empty one takes the
   * template's first item for a daily plan or the day's item for a weekly plan,
   * each wrapped as `{name: item}`; any other plan type leaves it as it is.
   */
  function FillSlot(s: DaySlot, plan: Plan, wd: int): DaySlot
    requires 0 <= wd < 7
  {
    if Filled(s) then s
    else if plan.kind == "daily" then DaySlot(Some([Fallback(At(plan.items, 0))]))
    else if plan.kind == "weekly" then DaySlot(Some([Fallback(At(plan.items, IndexOf(MondayFirst, SundayFirst[wd])))]))
    else s
  }

  /** The day's menu so far, and whether reading a missing slot object has thrown. */
  datatype Outcome = Outcome(menu: DayMenu, crashed: bool)

  /** The `forEach` after the first `k` meal types. */
  function ResolveUpTo(menu: DayMenu, meals: Meals, wd: int, k: nat): Outcome
    requires 0 <= wd < 7 && k <= |MealTypes|
  {
    if k == 0 then Outcome(menu, false)
    else
      var o := ResolveUpTo(menu, meals, wd, k - 1);
      var t := MealTypes[k - 1];
      if o.crashed then o
      else match o.menu.SlotOf(t)
        case None => Outcome(o.menu, true)
        case Some(s) => Outcome(o.menu.Set(t, Some(FillSlot(s, meals.Get(t), wd))), false)
  }

  function Resolve(menu: DayMenu, meals: Meals, wd: int): Outcome
    requires 0 <= wd < 7
  {
    ResolveUpTo(menu, meals, wd, |MealTypes|)
  }

  /** `menus[key] || DefaultMenu` */
  function Base(menus: map<string, DayMenu>, key: string): DayMenu {
    if key in menus then menus[key] else DefaultMenu
  }

  /** The effective menu for the entry `key` of a day with `getDay()` = `wd`; `None` when the `forEach` throws. */
  function MenuForKey(menus: map<string, DayMenu>, recurring: Option<Template>, key: string, wd: int): Option<DayMenu>
    requires 0 <= wd < 7
  {
    var base := Base(menus, key);
    match recurring
    case None => Some(base)
    case Some(t) =>
      var o := Resolve(base, t.meals, wd);
      if o.crashed then None else Some(o.menu)
  }

  /** The menus map after resolving entry `key`: the writes land in that entry, if it exists. */
  function StoreAfterKey(menus: map<string, DayMenu>, recurring: Option<Template>, key: string, wd: int): map<string, DayMenu>
    requires 0 <= wd < 7
  {
    if key in menus && recurring.Some? then menus[key := Resolve(menus[key], recurring.value.meals, wd).menu]
    else menus
  }

  /** What `getMenuForDay(date)` returns; `None` when it throws. */
  function MenuForDay(menus: map<string, DayMenu>, recurring: Option<Template>, date: Date): Option<DayMenu>
    requires Valid(date)
  {
    MenuForKey(menus, recurring, DateKey(date), Weekday(date))
  }

  /** The menus map after `getMenuForDay(date)`. */
  function StoreAfter(menus: map<string, DayMenu>, recurring: Option<Template>, date: Date): map<string, DayMenu>
    requires Valid(date)
  {
    StoreAfterKey(menus, recurring, DateKey(date), Weekday(date))
  }

  class Calendar {
    /** The date-keyed menus the component was given; `getMenuForDay` writes into them. */
    var menus: map<string, DayMenu>
    /** The fetched recurring template; `None` until it arrives or when the fetch fails. */
    var recurring: Option<Template>
    var currentMonth: Date
    var selectedDate: Date

    constructor (stored: map<string, Menu>, recurring: Option<Template>, currentMonth: Date, selectedDate: Date)
      ensures menus == map k | k in stored :: FromStored(stored[k])
      ensures this.recurring == recurring && this.currentMonth == currentMonth && this.selectedDate == selectedDate
    {
      menus := map k | k in stored :: FromStored(stored[k]);
      this.recurring := recurring;
      this.currentMonth := currentMonth;
      this.selectedDate := selectedDate;
    }

    /** `hasMenu(day)`: the displayed month's key for `day` is among the menus. */
    predicate HasMenu(day: int)
      reads this
      requires 0 <= currentMonth.month < 12 && 0 <= day
    {
      GridKey(currentMonth.year, currentMonth.month, day) in menus
    }

    /**
     * `getMenuForDay(date)`: without a template the day's menu (or the default
     * one) as it is; with a template each empty slot filled in the order
     * breakfast, lunch, dinner, written into the day's entry as it goes. A
     * missing slot object throws (`None`), leaving the writes already made.
     */
    method GetMenuForDay(date: Date) returns (r: Option<DayMenu>)
      requires Valid(date)
      modifies this
      ensures r == MenuForDay(old(menus), recurring, date)
      ensures menus == StoreAfter(old(menus), recurring, date)
      ensures recurring == old(recurring) && currentMonth == old(currentMonth) && selectedDate == old(selectedDate)
    {
      r := ResolveEntry(FormatDate(date, "yyyy-MM-dd"), Weekday(date));
    }

    /** The body of `getMenuForDay` once the date's key and weekday are known. */
    method ResolveEntry(key: string, wd: int) returns (r: Option<DayMenu>)
      requires 0 <= wd < 7
      modifies this
      ensures r == MenuForKey(old(menus), recurring, key, wd)
      ensures menus == StoreAfterKey(old(menus), recurring, key, wd)
      ensures recurring == old(recurring) && currentMonth == old(currentMonth) && selectedDate == old(selectedDate)
    {
      var stored := key in menus;
      var base := if stored then menus[key] else DefaultMenu;
      var menu := base;
      if recurring.None? {
        return Some(menu);
      }
      var meals := recurring.value.meals;
      if stored {
        assert menus == menus[key := menu];
      }
      var k := 0;
      while k < |MealTypes|
        invariant 0 <= k <= |MealTypes|
        invariant ResolveUpTo(base, meals, wd, k) == Outcome(menu, false)
        invariant menus == if stored then old(menus)[key := menu] else old(menus)
        invariant recurring == old(recurring) && currentMonth == old(currentMonth) && selectedDate == old(selectedDate)
      {
        var t := MealTypes[k];
        var slot := menu.SlotOf(t);
        if slot.None? {
          CrashPersists(base, meals, wd, k + 1);
          return None;
        }
        menu := menu.Set(t, Some(FillSlot(slot.value, meals.Get(t), wd)));
        if stored {
          menus := menus[key := menu];
        }
        k := k + 1;
      }
      r := Some(menu);
    }

    /** Selecting a day: it becomes the selected date, and the route goes to its menu page. */
    method HandleDateSelect(date: Date) returns (path: string)
      requires Valid(date)
      modifies this
      ensures selectedDate == date && path == "/menu/" + DateKey(date)
      ensures menus == old(menus) && recurring == old(recurring) && currentMonth == old(currentMonth)
    {
      selectedDate := date;
      path := "/menu/" + FormatDate(date, "yyyy-MM-dd");
    }

    /**
     * A quick-navigation button: select the day the button names, counted from
     * `today`; the displayed month switches to it when its month number differs
     * (the year is not compared).
     */
    method HandleQuickNav(today: Date, button: string) returns (path: string)
      requires Valid(today)
      modifies this
      ensures selectedDate == AddDays(today, QuickNavOffset(button))
      ensures path == "/menu/" + DateKey(selectedDate)
      ensures currentMonth == if selectedDate.month != old(currentMonth).month then selectedDate else old(currentMonth)
      ensures menus == old(menus) && recurring == old(recurring)
    {
      var target := AddDays(today, QuickNavOffset(button));
      path := HandleDateSelect(target);
      if target.month != currentMonth.month {
        currentMonth := target;
      }
    }
  }

  /** Once the `forEach` has thrown, later meal types change nothing. */
  lemma {:induction false} CrashPersists(menu: DayMenu, meals: Meals, wd: int, k: nat)
    requires 0 <= wd < 7 && k <= |MealTypes|
    requires ResolveUpTo(menu, meals, wd, k).crashed
    ensures Resolve(menu, meals, wd) == ResolveUpTo(menu, meals, wd, k)
    decreases |MealTypes| - k
  {
    if k < |MealTypes| {
      CrashPersists(menu, meals, wd, k + 1);
    }
  }

  /** A slot's fate after `k` steps: filled in if it and every earlier slot object exist, otherwise as it was. */
  lemma {:induction false} ResolveUpToSlots(menu: DayMenu, meals: Meals, wd: int, k: nat)
    requires 0 <= wd < 7 && k <= |MealTypes|
    ensures ResolveUpTo(menu, meals, wd, k).crashed <==> exists i :: 0 <= i < k && menu.SlotOf(MealTypes[i]).None?
    ensures forall i :: 0 <= i < |MealTypes| ==>
      ResolveUpTo(menu, meals, wd, k).menu.SlotOf(MealTypes[i]) ==
        if i < k && forall j :: 0 <= j <= i ==> menu.SlotOf(MealTypes[j]).Some?
        then Some(FillSlot(menu.SlotOf(MealTypes[i]).value, meals.Get(MealTypes[i]), wd))
        else menu.SlotOf(MealTypes[i])
  {
    if k > 0 {
      ResolveUpToSlots(menu, meals, wd, k - 1);
    }
  }

  /** Every meal type sits at its own position of `MealTypes`. */
  lemma MealTypeIndex(t: MealType) returns (i: nat)
    ensures i < |MealTypes| && MealTypes[i] == t
  {
    i := match t case Breakfast => 0 case Lunch => 1 case Dinner => 2;
  }

  /** The `forEach` throws exactly when one of the day's slot objects is missing. */
  lemma ResolveCrashes(menu: DayMenu, meals: Meals, wd: int)
    requires 0 <= wd < 7
    ensures Resolve(menu, meals, wd).crashed <==> exists t :: menu.SlotOf(t).None?
  {
    ResolveUpToSlots(menu, meals, wd, |MealTypes|);
    if t :| menu.SlotOf(t).None? {
      var i := MealTypeIndex(t);
      assert menu.SlotOf(MealTypes[i]).None?;
    }
  }

  /** When it does not throw, every slot is the filled-in version of the original. */
  lemma ResolveFillsEverySlot(menu: DayMenu, meals: Meals, wd: int)
    requires 0 <= wd < 7
    requires !Resolve(menu, meals, wd).crashed
    ensures forall t :: menu.SlotOf(t).Some? &&
                        Resolve(menu, meals, wd).menu.SlotOf(t) == Some(FillSlot(menu.SlotOf(t).value, meals.Get(t), wd))
  {
    ResolveUpToSlots(menu, meals, wd, |MealTypes|);
    forall t ensures menu.SlotOf(t).Some? &&
      Resolve(menu, meals, wd).menu.SlotOf(t) == Some(FillSlot(menu.SlotOf(t).value, meals.Get(t), wd))
    {
      var i := MealTypeIndex(t);
    }
  }

  /** A slot that already has items is never replaced, whether or not the `forEach` throws later. */
  lemma ResolveKeepsFilled(menu: DayMenu, meals: Meals, wd: int, t: MealType)
    requires 0 <= wd < 7
    requires menu.SlotOf(t).Some? && Filled(menu.SlotOf(t).value)
    ensures Resolve(menu, meals, wd).menu.SlotOf(t) == menu.SlotOf(t)
  {
    ResolveUpToSlots(menu, meals, wd, |MealTypes|);
    var i := MealTypeIndex(t);
  }

  /**
   * The fallback for an empty slot: a daily plan shows its first item, a
   * weekly plan the item at the day's Monday-first position, each as the
   * single entry `{name: item}`; any other plan type leaves the slot empty.
   */
  lemma FallbackForEmptySlot(s: DaySlot, plan: Plan, date: Date)
    requires Valid(date) && !Filled(s)
    ensures plan.kind == "daily" ==> FillSlot(s, plan, Weekday(date)) == DaySlot(Some([Fallback(At(plan.items, 0))]))
    ensures plan.kind == "weekly" ==>
      FillSlot(s, plan, Weekday(date)) == DaySlot(Some([Fallback(At(plan.items, (Weekday(date) + 6) % 7))]))
    ensures plan.kind != "daily" && plan.kind != "weekly" ==> FillSlot(s, plan, Weekday(date)) == s
  {
    WeeklyIndex(Weekday(date));
  }

  /** Filling a slot twice is filling it once. */
  lemma FillSlotIdempotent(s: DaySlot, plan: Plan, wd: int)
    requires 0 <= wd < 7
    ensures FillSlot(FillSlot(s, plan, wd), plan, wd) == FillSlot(s, plan, wd)
  {
  }

  /** Resolving an already resolved menu changes nothing. */
  lemma ResolveIdempotent(menu: DayMenu, meals: Meals, wd: int)
    requires 0 <= wd < 7
    requires !Resolve(menu, meals, wd).crashed
    ensures !Resolve(Resolve(menu, meals, wd).menu, meals, wd).crashed
    ensures Resolve(Resolve(menu, meals, wd).menu, meals, wd).menu == Resolve(menu, meals, wd).menu
  {
    var once := Resolve(menu, meals, wd).menu;
    ResolveFillsEverySlot(menu, meals, wd);
    ResolveCrashes(once, meals, wd);
    ResolveFillsEverySlot(once, meals, wd);
    forall t ensures Resolve(once, meals, wd).menu.SlotOf(t) == once.SlotOf(t) {
      FillSlotIdempotent(menu.SlotOf(t).value, meals.Get(t), wd);
    }
    var twice := Resolve(once, meals, wd).menu;
    assert twice.SlotOf(Breakfast) == once.SlotOf(Breakfast);
    assert twice.SlotOf(Lunch) == once.SlotOf(Lunch);
    assert twice.SlotOf(Dinner) == once.SlotOf(Dinner);
  }

  /**
   * `getMenuForDay` writes only into the day's own entry: the keys stay the
   * same, every other entry is untouched, and a day without an entry (whose
   * default menu never throws) leaves the map as it was.
   */
  lemma GetMenuForDayTouchesOnlyItsDay(menus: map<string, DayMenu>, recurring: Option<Template>, date: Date)
    requires Valid(date)
    ensures StoreAfter(menus, recurring, date).Keys == menus.Keys
    ensures forall k :: k in menus && k != DateKey(date) ==> StoreAfter(menus, recurring, date)[k] == menus[k]
    ensures DateKey(date) !in menus ==> StoreAfter(menus, recurring, date) == menus && MenuForDay(menus, recurring, date).Some?
    ensures recurring.None? ==> StoreAfter(menus, recurring, date) == menus && MenuForDay(menus, recurring, date) == Some(Base(menus, DateKey(date)))
  {
    if DateKey(date) !in menus && recurring.Some? {
      ResolveCrashes(DefaultMenu, recurring.value.meals, Weekday(date));
    }
  }

  /**
   * Asking for a day again, after a call that did not throw, gives the same
   * menu and writes nothing new: the in-place writes are stable.
   */
  lemma GetMenuForDayStable(menus: map<string, DayMenu>, recurring: Option<Template>, date: Date)
    requires Valid(date)
    requires MenuForDay(menus, recurring, date).Some?
    ensures MenuForDay(StoreAfter(menus, recurring, date), recurring, date) == MenuForDay(menus, recurring, date)
    ensures StoreAfter(StoreAfter(menus, recurring, date), recurring, date) == StoreAfter(menus, recurring, date)
  {
    if recurring.Some? {
      var key, wd := DateKey(date), Weekday(date);
      ResolveIdempotent(Base(menus, key), recurring.value.meals, wd);
      if key !in menus {
        ResolveCrashes(DefaultMenu, recurring.value.meals, wd);
      }
    }
  }

  /** A grid cell shows a dot exactly when the menus have an entry under that day's key. */
  lemma HasMenuIsStoredKey(c: Calendar, day: int)
    requires Valid(Date(c.currentMonth.year, c.currentMonth.month, day))
    ensures c.HasMenu(day) <==> DateKey(Date(c.currentMonth.year, c.currentMonth.month, day)) in c.menus
  {
    GridKeyIsFormatKey(Date(c.currentMonth.year, c.currentMonth.month, day));
  }
}
