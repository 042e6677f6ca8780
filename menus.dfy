/**
 * The menu collection route (GET and POST /api/menus). The collection is the
 * sequence of menu documents in natural order; POST upserts by (user, date),
 * GET turns the user's menus into an object keyed by date.
 */
module MenuRoute {
  import opened Wrappers
  import opened Schema

  predicate Matches(m: Menu, u: UserId, date: string) {
    m.userId == u && m.date == date
  }

  /** `Menu.findOne({userId, date})`: the first matching document at or after `from`. */
  function FindFrom(docs: seq<Menu>, u: UserId, date: string, from: nat): (r: Option<nat>)
    decreases |docs| - from
    ensures r.Some? ==> from <= r.value < |docs| && Matches(docs[r.value], u, date)
    ensures r.Some? ==> forall j :: from <= j < r.value ==> !Matches(docs[j], u, date)
    ensures r.None? ==> forall j :: from <= j < |docs| ==> !Matches(docs[j], u, date)
  {
    if from >= |docs| then None
    else if Matches(docs[from], u, date) then Some(from)
    else FindFrom(docs, u, date, from + 1)
  }

  function FindFirst(docs: seq<Menu>, u: UserId, date: string): Option<nat> {
    FindFrom(docs, u, date, 0)
  }

  /** `Object.assign(existing, {breakfast, lunch, dinner, updatedAt: now})` */
  function Overwrite(m: Menu, req: MenuRequest, now: Timestamp): Menu {
    m.(breakfast := req.breakfast, lunch := req.lunch, dinner := req.dinner, updatedAt := now)
  }

  /** `new Menu({userId, date, breakfast, lunch, dinner, createdAt: now, updatedAt: now})` */
  function Created(u: UserId, req: MenuRequest, now: Timestamp): Menu {
    Menu(u, req.date, req.breakfast, req.lunch, req.dinner, now, now)
  }

  /** The collection after a POST by user `u` at time `now`. */
  function Upsert(docs: seq<Menu>, u: UserId, req: MenuRequest, now: Timestamp): seq<Menu> {
    match FindFirst(docs, u, req.date)
    case Some(i) => docs[i := Overwrite(docs[i], req, now)]
    case None => docs + [Created(u, req, now)]
  }

  /** At most one menu per (user, date). */
  predicate Unique(docs: seq<Menu>) {
    forall i, j :: 0 <= i < j < |docs| ==> !Matches(docs[j], docs[i].userId, docs[i].date)
  }

  /** `Menu.find({userId})`, in collection order. */
  function UserMenus(docs: seq<Menu>, u: UserId): seq<Menu> {
    if docs == [] then []
    else
      var last := docs[|docs| - 1];
      UserMenus(docs[..|docs| - 1], u) + (if last.userId == u then [last] else [])
  }

  /** `menus.reduce((acc, menu) => { acc[menu.date] = menu; return acc }, {})` */
  function DateIndex(menus: seq<Menu>): map<string, Menu> {
    if menus == [] then map[]
    else
      var last := menus[|menus| - 1];
      DateIndex(menus[..|menus| - 1])[last.date := last]
  }

  class MenuStore {
    /** The menu collection in natural order. */
    var docs: seq<Menu>

    constructor ()
      ensures docs == []
    {
      docs := [];
    }

    /** GET: 401 without a token, otherwise the user's menus keyed by date. */
    method Get(user: Option<UserId>) returns (r: Response<map<string, Menu>>)
      ensures user.None? ==> r == Response(Unauthorized, None)
      ensures user.Some? ==> r == Response(200, Some(DateIndex(UserMenus(docs, user.value))))
    {
      if user.None? {
        return Response(Unauthorized, None);
      }
      var menus := UserMenus(docs, user.value);
      var acc: map<string, Menu> := map[];
      var i := 0;
      while i < |menus|
        invariant 0 <= i <= |menus|
        invariant acc == DateIndex(menus[..i])
      {
        assert menus[..i + 1][..i] == menus[..i];
        acc := acc[menus[i].date := menus[i]];
        i := i + 1;
      }
      assert menus[..i] == menus;
      r := Response(200, Some(acc));
    }

    /**
     * POST: 401 without a token and nothing changes; otherwise the first menu of
     * the user for the request's date gets the request's slots and a new
     * `updatedAt` (status 200), or a new menu is appended (status 201).
     */
    method Post(user: Option<UserId>, req: MenuRequest, now: Timestamp) returns (r: Response<Menu>)
      modifies this
      ensures user.None? ==> r == Response(Unauthorized, None) && docs == old(docs)
      ensures user.Some? ==> docs == Upsert(old(docs), user.value, req, now)
      ensures user.Some? ==> match FindFirst(old(docs), user.value, req.date)
        case Some(i) => r == Response(200, Some(docs[i]))
        case None => r == Response(201, Some(docs[|docs| - 1]))
    {
      if user.None? {
        return Response(Unauthorized, None);
      }
      var u := user.value;
      var found := FindFirst(docs, u, req.date);
      if found.Some? {
        var i := found.value;
        var updated := Overwrite(docs[i], req, now);
        docs := docs[i := updated];
        r := Response(200, Some(updated));
      } else {
        var created := Created(u, req, now);
        docs := docs + [created];
        r := Response(201, Some(created));
      }
    }
  }

  /** The date-keyed object has exactly the dates of the menus as keys. */
  lemma {:induction false} DateIndexKeys(menus: seq<Menu>)
    ensures forall k :: k in DateIndex(menus) <==> exists i :: 0 <= i < |menus| && menus[i].date == k
  {
    if menus != [] {
      var init := menus[..|menus| - 1];
      DateIndexKeys(init);
      forall k ensures k in DateIndex(menus) <==> exists i :: 0 <= i < |menus| && menus[i].date == k {
        if k in DateIndex(init) {
          var i :| 0 <= i < |init| && init[i].date == k;
          assert menus[i].date == k;
        }
        if exists i :: 0 <= i < |menus| && menus[i].date == k {
          var i :| 0 <= i < |menus| && menus[i].date == k;
          if i < |init| { assert init[i].date == k; }
        }
      }
    }
  }

  /** Each value of the date-keyed object is one of the menus, filed under its own date. */
  lemma {:induction false} DateIndexValues(menus: seq<Menu>)
    ensures forall k :: k in DateIndex(menus) ==> DateIndex(menus)[k].date == k && DateIndex(menus)[k] in menus
  {
    if menus != [] {
      var init := menus[..|menus| - 1];
      DateIndexValues(init);
      forall k | k in DateIndex(menus)
        ensures DateIndex(menus)[k].date == k && DateIndex(menus)[k] in menus
      {
        if k != menus[|menus| - 1].date {
          assert DateIndex(menus)[k] == DateIndex(init)[k];
          assert DateIndex(init)[k] in init;
        }
      }
    }
  }

  /** When a date repeats, the later menu in the sequence is the one kept. */
  lemma {:induction false} DateIndexLaterWins(menus: seq<Menu>, i: nat)
    requires i < |menus|
    requires forall j :: i < j < |menus| ==> menus[j].date != menus[i].date
    ensures menus[i].date in DateIndex(menus) && DateIndex(menus)[menus[i].date] == menus[i]
  {
    var init := menus[..|menus| - 1];
    if i < |menus| - 1 {
      DateIndexLaterWins(init, i);
    }
  }

  /** The GET map holds only the user's own menus. */
  lemma {:induction false} UserMenusOwn(docs: seq<Menu>, u: UserId)
    ensures forall m :: m in UserMenus(docs, u) <==> m in docs && m.userId == u
  {
    if docs != [] {
      UserMenusOwn(docs[..|docs| - 1], u);
      assert docs == docs[..|docs| - 1] + [docs[|docs| - 1]];
    }
  }

  /**
   * A POST for an existing (user, date) overwrites that one document's slots and
   * `updatedAt`; its user, date and `createdAt` stay, and no other document changes.
   */
  lemma UpsertExisting(docs: seq<Menu>, u: UserId, req: MenuRequest, now: Timestamp)
    requires FindFirst(docs, u, req.date).Some?
    ensures var i := FindFirst(docs, u, req.date).value;
      var r := Upsert(docs, u, req, now);
      && |r| == |docs|
      && r[i].userId == u && r[i].date == req.date && r[i].createdAt == docs[i].createdAt
      && r[i].breakfast == req.breakfast && r[i].lunch == req.lunch && r[i].dinner == req.dinner
      && r[i].updatedAt == now
      && forall j :: 0 <= j < |docs| && j != i ==> r[j] == docs[j]
  {
  }

  /** A POST for a new (user, date) appends one menu with createdAt = updatedAt = now. */
  lemma UpsertAbsent(docs: seq<Menu>, u: UserId, req: MenuRequest, now: Timestamp)
    requires forall j :: 0 <= j < |docs| ==> !Matches(docs[j], u, req.date)
    ensures Upsert(docs, u, req, now) == docs + [Menu(u, req.date, req.breakfast, req.lunch, req.dinner, now, now)]
  {
    assert FindFirst(docs, u, req.date).None?;
  }

  /** POST writes only the (user, date) entry: every other user's and date's menu is unchanged. */
  lemma UpsertTouchesOnlyItsKey(docs: seq<Menu>, u: UserId, req: MenuRequest, now: Timestamp)
    ensures var r := Upsert(docs, u, req, now);
      && |docs| <= |r| <= |docs| + 1
      && (forall j :: 0 <= j < |docs| && !Matches(docs[j], u, req.date) ==> r[j] == docs[j])
      && (forall j :: |docs| <= j < |r| ==> Matches(r[j], u, req.date))
  {
  }

  /** At most one menu per (user, date) before a POST means the same after it. */
  lemma UpsertKeepsUnique(docs: seq<Menu>, u: UserId, req: MenuRequest, now: Timestamp)
    requires Unique(docs)
    ensures Unique(Upsert(docs, u, req, now))
  {
    var r := Upsert(docs, u, req, now);
    match FindFirst(docs, u, req.date)
    case Some(i) =>
      forall a, b | 0 <= a < b < |r| ensures !Matches(r[b], r[a].userId, r[a].date) {
        assert r[a].userId == docs[a].userId && r[a].date == docs[a].date;
        assert r[b].userId == docs[b].userId && r[b].date == docs[b].date;
      }
    case None =>
  }

  /** After a POST the user's menu for that date is found, and it holds the request's slots. */
  lemma ReadYourWrite(docs: seq<Menu>, u: UserId, req: MenuRequest, now: Timestamp)
    ensures var r := Upsert(docs, u, req, now);
      && FindFirst(r, u, req.date).Some?
      && var m := r[FindFirst(r, u, req.date).value];
      m.breakfast == req.breakfast && m.lunch == req.lunch && m.dinner == req.dinner && m.updatedAt == now
  {
    var r := Upsert(docs, u, req, now);
    match FindFirst(docs, u, req.date)
    case Some(i) =>
      assert forall j :: 0 <= j < i ==> r[j] == docs[j];
      assert FindFirst(r, u, req.date) == Some(i) by { FindFromAt(r, u, req.date, 0, i); }
    case None =>
      assert forall j :: 0 <= j < |docs| ==> r[j] == docs[j];
      assert FindFirst(r, u, req.date) == Some(|docs|) by { FindFromAt(r, u, req.date, 0, |docs|); }
  }

  lemma {:induction false} FindFromAt(docs: seq<Menu>, u: UserId, date: string, from: nat, i: nat)
    requires from <= i < |docs| && Matches(docs[i], u, date)
    requires forall j :: from <= j < i ==> !Matches(docs[j], u, date)
    ensures FindFrom(docs, u, date, from) == Some(i)
    decreases i - from
  {
    if from < i { FindFromAt(docs, u, date, from + 1, i); }
  }

  /** What a client can see of a menu: everything but the update time. */
  function Content(m: Menu): Menu {
    m.(updatedAt := 0)
  }

  /**
   * Repeating a POST leaves the same documents with the same slots, and keeps
   * the `createdAt` of the first one; only `updatedAt` moves.
   */
  lemma UpsertIdempotent(docs: seq<Menu>, u: UserId, req: MenuRequest, t1: Timestamp, t2: Timestamp)
    ensures var once := Upsert(docs, u, req, t1);
      var twice := Upsert(once, u, req, t2);
      |twice| == |once| && forall j :: 0 <= j < |once| ==> Content(twice[j]) == Content(once[j])
  {
    var once := Upsert(docs, u, req, t1);
    ReadYourWrite(docs, u, req, t1);
    var k := FindFirst(once, u, req.date).value;
    assert Upsert(once, u, req, t2) == once[k := Overwrite(once[k], req, t2)];
  }
}
