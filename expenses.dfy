/**
 * The expense report route (GET /api/user/expenses): the authenticated user's
 * menus whose date lies in [startDate, endDate], compared as strings, sorted
 * by date, each turned into an expense whose amount is the day's total price.
 */
module ExpenseRoute {
  import opened Wrappers
  import opened Text
  import opened Schema

  /** One row of the report: the menu's date, its total and its three slots as stored. */
  datatype Expense = Expense(date: string, amount: real, breakfast: Option<Slot>, lunch: Option<Slot>, dinner: Option<Slot>)

  /** `items.reduce((total, item) => total + coerce(item.price), 0)` */
  function ItemsTotal(items: seq<MealItem>): real {
    if items == [] then 0.0 else ItemsTotal(items[..|items| - 1]) + PriceValue(items[|items| - 1].price)
  }

  /** `menu[mealType]?.items?.reduce(...) || 0`: an absent slot or item list adds nothing. */
  function SlotTotal(s: Option<Slot>): real {
    match s
    case None => 0.0
    case Some(Slot(None)) => 0.0
    case Some(Slot(Some(items))) => ItemsTotal(items)
  }

  /** The per-menu `dailyTotal`: the three slot totals, breakfast first. */
  function DailyTotal(m: Menu): real {
    SlotTotal(m.breakfast) + SlotTotal(m.lunch) + SlotTotal(m.dinner)
  }

  lemma {:induction false} ItemsTotalAppend(a: seq<MealItem>, b: seq<MealItem>)
    ensures ItemsTotal(a + b) == ItemsTotal(a) + ItemsTotal(b)
    decreases |b|
  {
    if b == [] {
      assert a + b == a;
    } else {
      var c := a + b;
      assert c[..|c| - 1] == a + b[..|b| - 1];
      assert c[|c| - 1] == b[|b| - 1];
      ItemsTotalAppend(a, b[..|b| - 1]);
    }
  }

  /** The order of the items does not matter for the total. */
  lemma {:induction false} ItemsTotalPermutation(a: seq<MealItem>, b: seq<MealItem>)
    requires multiset(a) == multiset(b)
    ensures ItemsTotal(a) == ItemsTotal(b)
    decreases |a|
  {
    if a != [] {
      var x := a[|a| - 1];
      assert x in multiset(b);
      var k :| 0 <= k < |b| && b[k] == x;
      var rest := b[..k] + b[k + 1..];
      assert b == b[..k] + [x] + b[k + 1..];
      assert a == a[..|a| - 1] + [x];
      assert multiset(a) == multiset(a[..|a| - 1]) + multiset{x};
      assert multiset(b) == multiset(b[..k]) + multiset{x} + multiset(b[k + 1..]);
      assert multiset(rest) == multiset(b[..k]) + multiset(b[k + 1..]);
      assert multiset(a[..|a| - 1]) == multiset(a) - multiset{x};
      assert multiset(rest) == multiset(b) - multiset{x};
      ItemsTotalPermutation(a[..|a| - 1], rest);
      ItemsTotalInsert(b[..k], x, b[k + 1..]);
    }
  }

  /**
   * An item whose text price `parseFloat` reads as NaN adds 0 wherever it sits
   * in the list, and the total is still defined.
   */
  lemma UnparseablePriceAddsZero(items: seq<MealItem>, k: int, x: MealItem)
    requires 0 <= k <= |items|
    requires x.price.Text? && JsNumber.ParseFloat(x.price.s).None?
    ensures ItemsTotal(items[..k] + [x] + items[k..]) == ItemsTotal(items)
  {
    ItemsTotalInsert(items[..k], x, items[k..]);
    assert items[..k] + items[k..] == items;
  }

  /** An item inserted anywhere adds its own price to the total. */
  lemma ItemsTotalInsert(a: seq<MealItem>, x: MealItem, b: seq<MealItem>)
    ensures ItemsTotal(a + [x] + b) == ItemsTotal(a + b) + PriceValue(x.price)
  {
    assert ItemsTotal(a + [x]) == ItemsTotal(a) + PriceValue(x.price) by { assert (a + [x])[..|a|] == a; }
    ItemsTotalAppend(a + [x], b);
    ItemsTotalAppend(a, b);
  }

  /** The query condition: the user's menu with startDate <= date <= endDate as strings. */
  predicate Selected(m: Menu, u: UserId, startDate: string, endDate: string) {
    m.userId == u && LexLe(startDate, m.date) && LexLe(m.date, endDate)
  }

  /** `Menu.find({userId, date: {$gte: startDate, $lte: endDate}})`, in collection order. */
  function Query(docs: seq<Menu>, u: UserId, startDate: string, endDate: string): seq<Menu> {
    if docs == [] then []
    else
      var last := docs[|docs| - 1];
      Query(docs[..|docs| - 1], u, startDate, endDate) + (if Selected(last, u, startDate, endDate) then [last] else [])
  }

  /** Each selected document is returned as often as it is stored; no other document is returned. */
  lemma {:induction false} QueryCount(docs: seq<Menu>, u: UserId, startDate: string, endDate: string)
    ensures forall m :: Selected(m, u, startDate, endDate) ==>
      multiset(Query(docs, u, startDate, endDate))[m] == multiset(docs)[m]
    ensures forall m :: !Selected(m, u, startDate, endDate) ==> multiset(Query(docs, u, startDate, endDate))[m] == 0
  {
    if docs != [] {
      var init, last := docs[..|docs| - 1], docs[|docs| - 1];
      QueryCount(init, u, startDate, endDate);
      var q0, q := Query(init, u, startDate, endDate), Query(docs, u, startDate, endDate);
      var tail := if Selected(last, u, startDate, endDate) then [last] else [];
      assert multiset(q) == multiset(q0) + multiset(tail);
      assert multiset(docs) == multiset(init) + multiset{last} by { assert docs == init + [last]; }
      forall m
        ensures Selected(m, u, startDate, endDate) ==> multiset(q)[m] == multiset(docs)[m]
        ensures !Selected(m, u, startDate, endDate) ==> multiset(q)[m] == 0
      {
        assert multiset(q)[m] == multiset(q0)[m] + multiset(tail)[m];
        assert multiset(docs)[m] == multiset(init)[m] + multiset{last}[m];
      }
    }
  }

  /** The query returns exactly the selected documents, each as often as stored. */
  lemma QueryExact(docs: seq<Menu>, u: UserId, startDate: string, endDate: string)
    ensures forall m :: m in Query(docs, u, startDate, endDate) <==> m in docs && Selected(m, u, startDate, endDate)
    ensures forall m :: Selected(m, u, startDate, endDate) ==>
      multiset(Query(docs, u, startDate, endDate))[m] == multiset(docs)[m]
    ensures forall m :: !Selected(m, u, startDate, endDate) ==> multiset(Query(docs, u, startDate, endDate))[m] == 0
  {
    QueryCount(docs, u, startDate, endDate);
    var q := Query(docs, u, startDate, endDate);
    forall m
      ensures m in q <==> m in docs && Selected(m, u, startDate, endDate)
    {
      assert m in q <==> multiset(q)[m] > 0;
      assert m in docs <==> multiset(docs)[m] > 0;
    }
  }

  predicate SortedByDate(xs: seq<Menu>) {
    forall i, j :: 0 <= i < j < |xs| ==> LexLe(xs[i].date, xs[j].date)
  }

  /** Insertion of one menu into a date-sorted sequence. */
  function Insert(m: Menu, xs: seq<Menu>): (r: seq<Menu>)
    ensures multiset(r) == multiset(xs) + multiset{m}
  {
    if xs == [] then [m]
    else if LexLe(m.date, xs[0].date) then [m] + xs
    else
      var r := [xs[0]] + Insert(m, xs[1..]);
      assert xs == [xs[0]] + xs[1..];
      r
  }

  /** `.sort({date: 1})`: ascending by date. */
  function SortByDate(xs: seq<Menu>): (r: seq<Menu>)
    ensures multiset(r) == multiset(xs)
  {
    if xs == [] then []
    else
      assert xs == [xs[0]] + xs[1..];
      Insert(xs[0], SortByDate(xs[1..]))
  }

  lemma {:induction false} InsertSorted(m: Menu, xs: seq<Menu>)
    requires SortedByDate(xs)
    ensures SortedByDate(Insert(m, xs))
    decreases |xs|
  {
    if xs == [] {
    } else if LexLe(m.date, xs[0].date) {
      var r := [m] + xs;
      forall i, j | 0 <= i < j < |r| ensures LexLe(r[i].date, r[j].date) {
        if i == 0 && j > 1 { LexLeTransitive(m.date, xs[0].date, xs[j - 1].date); }
      }
    } else {
      LexLeTotal(m.date, xs[0].date);
      InsertSorted(m, xs[1..]);
      var tail := Insert(m, xs[1..]);
      var r := [xs[0]] + tail;
      InsertAbove(m, xs[1..], xs[0]);
      forall i, j | 0 <= i < j < |r| ensures LexLe(r[i].date, r[j].date) {
        if i > 0 { assert r[i] == tail[i - 1] && r[j] == tail[j - 1]; }
        else { assert r[j] == tail[j - 1]; }
      }
    }
  }

  /** What lies at or above a date before an insertion still does after it. */
  lemma InsertAbove(m: Menu, xs: seq<Menu>, x: Menu)
    requires LexLe(x.date, m.date)
    requires forall k :: 0 <= k < |xs| ==> LexLe(x.date, xs[k].date)
    ensures forall k :: 0 <= k < |Insert(m, xs)| ==> LexLe(x.date, Insert(m, xs)[k].date)
  {
    var r := Insert(m, xs);
    forall k | 0 <= k < |r| ensures LexLe(x.date, r[k].date) {
      assert r[k] in multiset(r);
      if r[k] != m {
        assert r[k] in multiset(xs);
        var p :| 0 <= p < |xs| && xs[p] == r[k];
      }
    }
  }

  lemma {:induction false} SortByDateSorted(xs: seq<Menu>)
    ensures SortedByDate(SortByDate(xs))
  {
    if xs != [] {
      SortByDateSorted(xs[1..]);
      InsertSorted(xs[0], SortByDate(xs[1..]));
    }
  }

  /** The menus the report covers: the query result sorted by date. */
  function Selection(docs: seq<Menu>, u: UserId, startDate: string, endDate: string): seq<Menu> {
    SortByDate(Query(docs, u, startDate, endDate))
  }

  function ToExpense(m: Menu): Expense {
    Expense(m.date, DailyTotal(m), m.breakfast, m.lunch, m.dinner)
  }

  /** `menus.map(menu => ({date, amount: dailyTotal, breakfast, lunch, dinner}))` */
  function Report(menus: seq<Menu>): (r: seq<Expense>)
    ensures |r| == |menus|
  {
    seq(|menus|, i requires 0 <= i < |menus| => ToExpense(menus[i]))
  }

  /** GET: 401 without a token, otherwise the report over the selected menus. */
  function Get(docs: seq<Menu>, user: Option<UserId>, startDate: string, endDate: string): (r: Response<seq<Expense>>)
    ensures user.None? ==> r == Response(Unauthorized, None)
  {
    match user
    case None => Response(Unauthorized, None)
    case Some(u) => Response(200, Some(Report(Selection(docs, u, startDate, endDate))))
  }

  /**
   * The report has one expense per selected menu, in ascending date order; every
   * selected menu of the user in the inclusive range appears, and nothing else.
   */
  lemma ReportContents(docs: seq<Menu>, u: UserId, startDate: string, endDate: string)
    ensures var s := Selection(docs, u, startDate, endDate);
      var r := Get(docs, Some(u), startDate, endDate);
      && r.status == 200 && r.body.Some?
      && |r.body.value| == |s|
      && (forall m :: m in s <==> m in docs && Selected(m, u, startDate, endDate))
      && (forall i :: 0 <= i < |s| ==>
            r.body.value[i] == Expense(s[i].date, DailyTotal(s[i]), s[i].breakfast, s[i].lunch, s[i].dinner))
      && (forall i, j :: 0 <= i < j < |s| ==> LexLe(r.body.value[i].date, r.body.value[j].date))
  {
    var s := Selection(docs, u, startDate, endDate);
    QueryExact(docs, u, startDate, endDate);
    SortByDateSorted(Query(docs, u, startDate, endDate));
    forall m ensures m in s <==> m in Query(docs, u, startDate, endDate) {
      assert m in s <==> m in multiset(s);
    }
  }

  /** A reversed range (startDate after endDate) is not an error: it selects nothing. */
  lemma ReversedRangeIsEmpty(docs: seq<Menu>, u: UserId, startDate: string, endDate: string)
    requires !LexLe(startDate, endDate)
    ensures Get(docs, Some(u), startDate, endDate) == Response(200, Some([]))
  {
    QueryExact(docs, u, startDate, endDate);
    var q := Query(docs, u, startDate, endDate);
    if q != [] {
      var m := q[0];
      assert m in q;
      LexLeTransitive(startDate, m.date, endDate);
    }
  }
}
