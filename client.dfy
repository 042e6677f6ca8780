/**
 * The client's `createMenu`: post the day's menu, and once the server has
 * accepted it, post the day's expense twice: the full record, then a
 * `{date, amount}` record. The amount is the client's own total of the prices.
 */
module MenuClient {
  import opened Wrappers
  import opened Schema
  import opened ExpenseRoute
  import MenuRoute

  /**
   * `items.reduce((t, item) => t + item.price, 0)`. A text price turns the
   * running sum into a string (`None`), which stays a string from then on.
   */
  function ClientItemsTotal(items: seq<MealItem>): Option<real> {
    if items == [] then Some(0.0)
    else
      match (ClientItemsTotal(items[..|items| - 1]), items[|items| - 1].price)
      case (Some(t), Num(n)) => Some(t + n)
      case _ => None
  }

  /** `menuData[t]?.items?.reduce(...) || 0`: an absent slot or list counts 0, as does a zero sum. */
  function ClientSlotTotal(s: Option<Slot>): Option<real> {
    match s
    case None => Some(0.0)
    case Some(Slot(None)) => Some(0.0)
    case Some(Slot(Some(items))) => ClientItemsTotal(items)
  }

  /** `totalPrice`: the three slot totals added breakfast first; `None` once a string has entered the sum. */
  function TotalPrice(req: MenuRequest): Option<real> {
    match (ClientSlotTotal(req.breakfast), ClientSlotTotal(req.lunch), ClientSlotTotal(req.dinner))
    case (Some(b), Some(l), Some(d)) => Some(b + l + d)
    case _ => None
  }

  /** The two expense posts: the whole record, then the bare date and amount. */
  datatype ExpenseWrite =
    | FullRecord(date: string, amount: Option<real>, breakfast: Option<Slot>, lunch: Option<Slot>, dinner: Option<Slot>)
    | AmountRecord(date: string, amount: Option<real>)

  /**
   * The expense posts `createMenu` makes for `req`, given whether the menu
   * POST answered ok: none when it did not (it throws first), both otherwise.
   */
  function ExpenseWrites(req: MenuRequest, menuOk: bool): (r: seq<ExpenseWrite>)
    ensures !menuOk ==> r == []
    ensures menuOk ==> |r| == 2 && r[0].date == req.date && r[1].date == req.date && r[0].amount == r[1].amount == TotalPrice(req)
    ensures menuOk ==> r[0].FullRecord? && r[0].breakfast == req.breakfast && r[0].lunch == req.lunch && r[0].dinner == req.dinner
  {
    if !menuOk then []
    else
      var total := TotalPrice(req);
      [FullRecord(req.date, total, req.breakfast, req.lunch, req.dinner), AmountRecord(req.date, total)]
  }

  /**
   * Whether `createMenu` resolves: the menu POST and the follow-up
   * `{date, amount}` POST must both answer ok (the first expense post's
   * answer is not checked).
   */
  function CreateMenuSucceeds(menuOk: bool, followUpOk: bool): (ok: bool)
    ensures ok ==> menuOk
  {
    menuOk && followUpOk
  }

  /** The HTTP methods `app/api/user/expenses/route.ts` exports: only `GET`. */
  const ExpenseRouteMethods: set<string> := {"GET"}

  /**
   * Whether a POST to a route answers ok: a route that exports no `POST`
   * handler answers 405, otherwise the handler's own outcome decides.
   */
  function PostOk(methods: set<string>, handlerOk: bool): bool {
    "POST" in methods && handlerOk
  }

  /**
   * As written, the follow-up `{date, amount}` POST goes to a route without a
   * `POST` handler, so `createMenu` rejects on every call, even after the
   * menu itself was stored.
   */
  lemma CreateMenuAlwaysRejects(menuOk: bool, handlerOk: bool)
    ensures !CreateMenuSucceeds(menuOk, PostOk(ExpenseRouteMethods, handlerOk))
  {
    assert "POST" != "GET";
  }

  /** Every price numeric. */
  predicate NumericSlot(s: Option<Slot>) {
    s.Some? && s.value.items.Some? ==> forall i :: 0 <= i < |s.value.items.value| ==> s.value.items.value[i].price.Num?
  }

  lemma {:induction false} ClientItemsTotalMatches(items: seq<MealItem>)
    requires forall i :: 0 <= i < |items| ==> items[i].price.Num?
    ensures ClientItemsTotal(items) == Some(ItemsTotal(items))
    decreases |items|
  {
    if items != [] {
      ClientItemsTotalMatches(items[..|items| - 1]);
    }
  }

  /** A text price anywhere makes the client's total a non-number. */
  lemma {:induction false} TextPriceSpoilsTotal(items: seq<MealItem>, i: nat)
    requires i < |items| && items[i].price.Text?
    ensures ClientItemsTotal(items) == None
    decreases |items|
  {
    if i < |items| - 1 {
      TextPriceSpoilsTotal(items[..|items| - 1], i);
    }
  }

  /**
   * With numeric prices the amount the client posts equals the server's
   * `dailyTotal` of the menu the POST stored for that user and date.
   */
  lemma TotalPriceMatchesServer(docs: seq<Menu>, u: UserId, req: MenuRequest, now: Timestamp)
    requires NumericSlot(req.breakfast) && NumericSlot(req.lunch) && NumericSlot(req.dinner)
    ensures var r := MenuRoute.Upsert(docs, u, req, now);
            && MenuRoute.FindFirst(r, u, req.date).Some?
            && TotalPrice(req) == Some(DailyTotal(r[MenuRoute.FindFirst(r, u, req.date).value]))
  {
    MenuRoute.ReadYourWrite(docs, u, req, now);
    if req.breakfast.Some? && req.breakfast.value.items.Some? { ClientItemsTotalMatches(req.breakfast.value.items.value); }
    if req.lunch.Some? && req.lunch.value.items.Some? { ClientItemsTotalMatches(req.lunch.value.items.value); }
    if req.dinner.Some? && req.dinner.value.items.Some? { ClientItemsTotalMatches(req.dinner.value.items.value); }
  }
}
