/**
 * The records the routes and pages exchange: meal items, the three meal
 * slots of a day, stored menus and recurring templates. One definition of
 * each, shared by every module.
 */
module Schema {
  import opened Wrappers
  import opened JsNumber

  /** The authenticated user's id, as decoded from the session token. */
  type UserId = string

  /** Milliseconds since the epoch, read from the caller's clock. */
  type Timestamp = int

  /**
   * A price as it may sit in a stored document: the forms send numbers, but the
   * menu documents are schemaless, so a price can also be text. (Other JSON
   * values reach `parseFloat` as their string form, so `Text` covers them.)
   */
  datatype Price = Num(n: real) | Text(s: string)

  /**
   * The defensive coercion `typeof p === "number" ? p : parseFloat(p) || 0`:
   * a number is used as is, text is parsed, and NaN becomes 0.
   */
  function PriceValue(p: Price): real {
    match p
    case Num(n) => n
    case Text(s) => ParseFloat(s).GetOr(0.0)
  }

  /** A meal item; `day` is the weekday tag the create form gives weekly items. */
  datatype MealItem = MealItem(day: Option<string>, name: string, description: string, recipe: string, price: Price)

  datatype MealType = Breakfast | Lunch | Dinner

  /** `["breakfast", "lunch", "dinner"]`, the order every loop over the slots uses. */
  const MealTypes: seq<MealType> := [Breakfast, Lunch, Dinner]

  /** A stored slot object; its `items` may be missing. */
  datatype Slot = Slot(items: Option<seq<MealItem>>)

  /** A menu document: one per user and date by intent, each slot optional. */
  datatype Menu = Menu(
    userId: UserId, date: string,
    breakfast: Option<Slot>, lunch: Option<Slot>, dinner: Option<Slot>,
    createdAt: Timestamp, updatedAt: Timestamp)
  {
    function SlotOf(t: MealType): Option<Slot> {
      match t
      case Breakfast => breakfast
      case Lunch => lunch
      case Dinner => dinner
    }
  }

  /** The body of a menu POST: `{date, breakfast, lunch, dinner}`. */
  datatype MenuRequest = MenuRequest(date: string, breakfast: Option<Slot>, lunch: Option<Slot>, dinner: Option<Slot>)
  {
    function SlotOf(t: MealType): Option<Slot> {
      match t
      case Breakfast => breakfast
      case Lunch => lunch
      case Dinner => dinner
    }
  }

  /** One meal type of a recurring template or of the create form: `{type, items}`. */
  datatype Plan = Plan(kind: string, items: seq<MealItem>)

  datatype Meals = Meals(breakfast: Plan, lunch: Plan, dinner: Plan)
  {
    function Get(t: MealType): Plan {
      match t
      case Breakfast => breakfast
      case Lunch => lunch
      case Dinner => dinner
    }

    /** `{...meals, [t]: p}` */
    function Set(t: MealType, p: Plan): (r: Meals)
      ensures r.Get(t) == p
      ensures forall u :: u != t ==> r.Get(u) == Get(u)
    {
      match t
      case Breakfast => this.(breakfast := p)
      case Lunch => this.(lunch := p)
      case Dinner => this.(dinner := p)
    }
  }

  /** A recurring-meal document: one per user by intent. */
  datatype Template = Template(userId: UserId, meals: Meals, duration: string, createdAt: Timestamp, updatedAt: Timestamp)

  /** A route's JSON reply: the HTTP status and the body, absent on an error reply. */
  datatype Response<T> = Response(status: int, body: Option<T>)

  const Unauthorized := 401
}
