/**
 * The recurring-meal route (GET and POST /api/recurring-meals): one template
 * per user, holding a plan for each meal type; POST coerces every price to a
 * number and then updates the user's template or creates it.
 */
module RecurringRoute {
  import opened Wrappers
  import opened Schema

  /** `{...item, price: typeof price === "number" ? price : parseFloat(price) || 0}` */
  function NormalizeItem(item: MealItem): (r: MealItem)
    ensures r.price.Num?
    ensures r.(price := item.price) == item
    ensures item.price.Num? ==> r == item
  {
    item.(price := Num(PriceValue(item.price)))
  }

  /** `items.map(NormalizeItem)` */
  function NormalizeItems(items: seq<MealItem>): (r: seq<MealItem>)
    ensures |r| == |items|
    ensures forall i :: 0 <= i < |items| ==> r[i] == NormalizeItem(items[i])
  {
    if items == [] then [] else [NormalizeItem(items[0])] + NormalizeItems(items[1..])
  }

  /** The template after the first `k` meal types of `MealTypes` have been normalised. */
  function NormalizedUpTo(meals: Meals, k: nat): Meals
    requires k <= |MealTypes|
  {
    if k == 0 then meals
    else
      var before := NormalizedUpTo(meals, k - 1);
      var t := MealTypes[k - 1];
      var plan := before.Get(t);
      before.Set(t, Plan(plan.kind, NormalizeItems(plan.items)))
  }

  function Normalized(meals: Meals): Meals {
    NormalizedUpTo(meals, |MealTypes|)
  }

  /**
   * The `forEach` over the meal types that replaces each plan's item list by its
   * normalised copy.
   */
  method NormalizePrices(meals: Meals) returns (r: Meals)
    ensures r == Normalized(meals)
  {
    r := meals;
    var k := 0;
    while k < |MealTypes|
      invariant 0 <= k <= |MealTypes|
      invariant r == NormalizedUpTo(meals, k)
    {
      var t := MealTypes[k];
      var plan := r.Get(t);
      var next := r.Set(t, Plan(plan.kind, NormalizeItems(plan.items)));
      assert next == NormalizedUpTo(meals, k + 1);
      r := next;
      k := k + 1;
    }
  }

  /** Every item of every meal type has a numeric price. */
  predicate AllNumeric(meals: Meals) {
    forall t, i :: 0 <= i < |meals.Get(t).items| ==> meals.Get(t).items[i].price.Num?
  }

  /** `b` is `a` with each item normalised: same kinds, same lengths and order, same other fields. */
  predicate NormalizedFrom(a: Meals, b: Meals) {
    forall t ::
      && b.Get(t).kind == a.Get(t).kind
      && |b.Get(t).items| == |a.Get(t).items|
      && forall i :: 0 <= i < |a.Get(t).items| ==> b.Get(t).items[i] == NormalizeItem(a.Get(t).items[i])
  }

  lemma {:induction false} NormalizedUpToSpec(meals: Meals, k: nat)
    requires k <= |MealTypes|
    ensures forall t :: t in MealTypes[..k] ==> NormalizedUpTo(meals, k).Get(t) == meals.Get(t).(items := NormalizeItems(meals.Get(t).items))
    ensures forall t :: t !in MealTypes[..k] ==> NormalizedUpTo(meals, k).Get(t) == meals.Get(t)
  {
    if k > 0 {
      NormalizedUpToSpec(meals, k - 1);
      assert MealTypes[..k] == MealTypes[..k - 1] + [MealTypes[k - 1]];
    }
  }

  /**
   * After normalisation every price is a number; each plan keeps its kind, its
   * item count and order, and each item keeps every field but the price.
   */
  lemma NormalizedPrices(meals: Meals)
    ensures AllNumeric(Normalized(meals))
    ensures NormalizedFrom(meals, Normalized(meals))
  {
    NormalizedUpToSpec(meals, |MealTypes|);
    assert MealTypes[..|MealTypes|] == MealTypes;
    forall t ensures t in MealTypes {
      match t
      case Breakfast => assert MealTypes[0] == t;
      case Lunch => assert MealTypes[1] == t;
      case Dinner => assert MealTypes[2] == t;
    }
  }

  /** A template whose prices are all numbers is left as it is. */
  lemma NormalizeNumericUnchanged(meals: Meals)
    requires AllNumeric(meals)
    ensures Normalized(meals) == meals
  {
    NormalizedPrices(meals);
    var n := Normalized(meals);
    forall t ensures n.Get(t) == meals.Get(t) {
      assert n.Get(t).items == meals.Get(t).items;
    }
    assert n.breakfast == meals.breakfast && n.lunch == meals.lunch && n.dinner == meals.dinner by {
      assert n.Get(Breakfast) == meals.Get(Breakfast);
      assert n.Get(Lunch) == meals.Get(Lunch);
      assert n.Get(Dinner) == meals.Get(Dinner);
    }
  }

  /** `RecurringMeal.findOne({userId})`: the first template of the user at or after `from`. */
  function FindFrom(docs: seq<Template>, u: UserId, from: nat): (r: Option<nat>)
    decreases |docs| - from
    ensures r.Some? ==> from <= r.value < |docs| && docs[r.value].userId == u
    ensures r.Some? ==> forall j :: from <= j < r.value ==> docs[j].userId != u
    ensures r.None? ==> forall j :: from <= j < |docs| ==> docs[j].userId != u
  {
    if from >= |docs| then None
    else if docs[from].userId == u then Some(from)
    else FindFrom(docs, u, from + 1)
  }

  function FindTemplate(docs: seq<Template>, u: UserId): Option<nat> {
    FindFrom(docs, u, 0)
  }

  /** The collection after user `u` saves `meals` (already normalised) for `duration` at `now`. */
  function Upsert(docs: seq<Template>, u: UserId, meals: Meals, duration: string, now: Timestamp): seq<Template> {
    match FindTemplate(docs, u)
    case Some(i) => docs[i := docs[i].(meals := meals, duration := duration, updatedAt := now)]
    case None => docs + [Template(u, meals, duration, now, now)]
  }

  /** At most one template per user. */
  predicate OnePerUser(docs: seq<Template>) {
    forall i, j :: 0 <= i < j < |docs| ==> docs[j].userId != docs[i].userId
  }

  class TemplateStore {
    /** The recurring-meal collection in natural order. */
    var docs: seq<Template>

    constructor ()
      ensures docs == []
    {
      docs := [];
    }

    /**
     * POST: 401 without a token and nothing changes; otherwise the prices are
     * normalised and the user's template is updated or created. The reply is the
     * saved template with the default status 200 either way.
     */
    method Post(user: Option<UserId>, meals: Meals, duration: string, now: Timestamp) returns (r: Response<Template>)
      modifies this
      ensures user.None? ==> r == Response(Unauthorized, None) && docs == old(docs)
      ensures user.Some? ==> docs == Upsert(old(docs), user.value, Normalized(meals), duration, now)
      ensures user.Some? ==>
        FindTemplate(docs, user.value).Some? && r == Response(200, Some(docs[FindTemplate(docs, user.value).value]))
    {
      if user.None? {
        return Response(Unauthorized, None);
      }
      var u := user.value;
      var normalized := NormalizePrices(meals);
      var found := FindTemplate(docs, u);
      var saved;
      if found.Some? {
        var i := found.value;
        saved := docs[i].(meals := normalized, duration := duration, updatedAt := now);
        docs := docs[i := saved];
      } else {
        saved := Template(u, normalized, duration, now, now);
        docs := docs + [saved];
      }
      ReadYourWrite(old(docs), u, normalized, duration, now);
      r := Response(200, Some(saved));
    }

    /** GET: 401 without a token, 404 when the user has no template, the template otherwise. */
    method Get(user: Option<UserId>) returns (r: Response<Template>)
      ensures user.None? ==> r == Response(Unauthorized, None)
      ensures user.Some? && FindTemplate(docs, user.value).None? ==> r == Response(404, None)
      ensures user.Some? && FindTemplate(docs, user.value).Some? ==>
        r == Response(200, Some(docs[FindTemplate(docs, user.value).value]))
      ensures r.body.Some? ==> r.body.value in docs && r.body.value.userId == user.value
    {
      if user.None? {
        return Response(Unauthorized, None);
      }
      var found := FindTemplate(docs, user.value);
      if found.None? {
        return Response(404, None);
      }
      r := Response(200, Some(docs[found.value]));
    }
  }

  lemma {:induction false} FindFromAt(docs: seq<Template>, u: UserId, from: nat, i: nat)
    requires from <= i < |docs| && docs[i].userId == u
    requires forall j :: from <= j < i ==> docs[j].userId != u
    ensures FindFrom(docs, u, from) == Some(i)
    decreases i - from
  {
    if from < i { FindFromAt(docs, u, from + 1, i); }
  }

  /**
   * Saving for a user that has a template replaces its meals, duration and
   * update time and keeps its owner and creation time; no other template changes.
   */
  lemma UpsertExisting(docs: seq<Template>, u: UserId, meals: Meals, duration: string, now: Timestamp)
    requires FindTemplate(docs, u).Some?
    ensures var i := FindTemplate(docs, u).value;
      var r := Upsert(docs, u, meals, duration, now);
      && |r| == |docs|
      && r[i] == Template(u, meals, duration, docs[i].createdAt, now)
      && forall j :: 0 <= j < |docs| && j != i ==> r[j] == docs[j]
  {
  }

  /** Saving for a user without a template appends one created and updated at `now`. */
  lemma UpsertAbsent(docs: seq<Template>, u: UserId, meals: Meals, duration: string, now: Timestamp)
    requires forall j :: 0 <= j < |docs| ==> docs[j].userId != u
    ensures Upsert(docs, u, meals, duration, now) == docs + [Template(u, meals, duration, now, now)]
  {
    assert FindTemplate(docs, u).None?;
  }

  /** Other users' templates are unchanged by a save. */
  lemma UpsertOtherUsers(docs: seq<Template>, u: UserId, meals: Meals, duration: string, now: Timestamp)
    ensures var r := Upsert(docs, u, meals, duration, now);
      && |docs| <= |r| <= |docs| + 1
      && (forall j :: 0 <= j < |docs| && docs[j].userId != u ==> r[j] == docs[j])
      && (forall j :: |docs| <= j < |r| ==> r[j].userId == u)
  {
  }

  /** One template per user before a save means one template per user after it. */
  lemma UpsertKeepsOnePerUser(docs: seq<Template>, u: UserId, meals: Meals, duration: string, now: Timestamp)
    requires OnePerUser(docs)
    ensures OnePerUser(Upsert(docs, u, meals, duration, now))
  {
    var r := Upsert(docs, u, meals, duration, now);
    match FindTemplate(docs, u)
    case Some(i) =>
      forall a, b | 0 <= a < b < |r| ensures r[b].userId != r[a].userId {
        assert r[a].userId == docs[a].userId && r[b].userId == docs[b].userId;
      }
    case None =>
  }

  /** A GET after a save finds the saved template. */
  lemma ReadYourWrite(docs: seq<Template>, u: UserId, meals: Meals, duration: string, now: Timestamp)
    ensures var r := Upsert(docs, u, meals, duration, now);
      && FindTemplate(r, u) == Some(if FindTemplate(docs, u).Some? then FindTemplate(docs, u).value else |docs|)
      && var t := r[FindTemplate(r, u).value];
      t.userId == u && t.meals == meals && t.duration == duration && t.updatedAt == now
  {
    var r := Upsert(docs, u, meals, duration, now);
    match FindTemplate(docs, u)
    case Some(i) =>
      assert forall j :: 0 <= j < i ==> r[j] == docs[j];
      FindFromAt(r, u, 0, i);
    case None =>
      assert forall j :: 0 <= j < |docs| ==> r[j] == docs[j];
      FindFromAt(r, u, 0, |docs|);
  }
}
