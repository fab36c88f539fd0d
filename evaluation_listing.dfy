/**
 * The two read-only evaluation routes: GET `/evaluations/check` (has this
 * user rated this dish today?) and GET `/evaluations/user` (the user's
 * evaluations filtered by an inclusive date range, newest first, one page
 * at a time). The queries are modelled as functions of the tables; the
 * `/user` handler, which builds its WHERE clause by pushing conditions,
 * is a method.
 */
module EvaluationListing {
  import opened Wrappers
  import opened EvaluationTables
  import Evaluations

  /** The rows a WHERE clause keeps, in table order. */
  function Filter(rows: seq<Evaluation>, keep: Evaluation -> bool): (r: seq<Evaluation>)
    ensures forall e :: e in r <==> e in rows && keep(e)
    ensures forall e :: multiset(r)[e] == if keep(e) then multiset(rows)[e] else 0
  {
    if rows == [] then []
    else
      var last := rows[|rows| - 1];
      assert rows == rows[..|rows| - 1] + [last];
      var kept := Filter(rows[..|rows| - 1], keep);
      if keep(last) then kept + [last] else kept
  }

  lemma {:induction false} FilterSamePredicate(rows: seq<Evaluation>, p: Evaluation -> bool, q: Evaluation -> bool)
    requires forall e :: p(e) == q(e)
    ensures Filter(rows, p) == Filter(rows, q)
  {
    if rows != [] {
      FilterSamePredicate(rows[..|rows| - 1], p, q);
    }
  }

  // GET /evaluations/check

  datatype CheckResponse =
    | CheckMissingParams     // 400, "参数不完整"
    | CheckFailed            // 500
    | Checked(hasEvaluated: bool)

  /**
   * `SELECT id FROM dish_evaluations WHERE dish_id = ? AND user_id = ? AND evaluation_date = ?`
   * with today's date, answered by whether it returns a row. A dish id
   * or a user id that is absent or empty is refused.
   */
  function Check(db: Db, dishId: Option<int>, userId: Option<string>, today: Date, fails: bool): (r: CheckResponse)
    ensures r == CheckMissingParams <==> dishId.None? || userId.None? || userId.value == ""
    ensures r == CheckFailed <==> dishId.Some? && userId.Some? && userId.value != "" && fails
    ensures r.Checked? ==>
      (r.hasEvaluated <==>
         exists i :: 0 <= i < |db.rows| && db.rows[i].dishId == dishId.value && db.rows[i].userId == userId.value && db.rows[i].date == today)
  {
    if dishId.None? || userId.None? || userId.value == "" then CheckMissingParams
    else if fails then CheckFailed
    else
      assert forall i :: 0 <= i < |db.rows| ==> db.rows[i] in db.rows;
      var found := Filter(db.rows, e => KeyOf(e) == Key(dishId.value, userId.value, today));
      if |found| > 0 then
        assert found[0] in found;
        Checked(true)
      else
        Checked(false)
  }

  /**
   * `/check` answers true exactly when submitting the same dish for the same
   * user on the same day would be reported as a duplicate.
   */
  lemma CheckPredictsDuplicate(db: Db, item: Item, today: Date)
    requires item.userId != ""
    ensures var single := Evaluations.SubmitOne(db, item, today);
      && single.response.Submitted?
      && (Check(db, Some(item.dishId), Some(item.userId), today, false).hasEvaluated <==>
          single.response.results.duplicates == [item.dishId])
  {
    Evaluations.SubmitOneOutcome(db, item, today);
    CheckFindsKey(db, item.dishId, item.userId, today);
  }

  /** A successful `/check` reports whether the (dish, user, today) key is stored. */
  lemma CheckFindsKey(db: Db, dishId: int, userId: string, today: Date)
    requires userId != ""
    ensures Check(db, Some(dishId), Some(userId), today, false) == Checked(HasKey(db.rows, Key(dishId, userId, today)))
  {
    var r := Check(db, Some(dishId), Some(userId), today, false);
    assert r.Checked?;
    if HasKey(db.rows, Key(dishId, userId, today)) {
      var i :| 0 <= i < |db.rows| && KeyOf(db.rows[i]) == Key(dishId, userId, today);
      assert db.rows[i].dishId == dishId && db.rows[i].userId == userId && db.rows[i].date == today;
    }
    if r.hasEvaluated {
      var i :| 0 <= i < |db.rows| && db.rows[i].dishId == dishId && db.rows[i].userId == userId && db.rows[i].date == today;
      assert KeyOf(db.rows[i]) == Key(dishId, userId, today);
    }
  }

  // GET /evaluations/user

  /** One entry of the `conditions` array together with its pushed parameter. */
  datatype Condition = UserIs(userId: string) | OnOrAfter(day: Date) | OnOrBefore(day: Date)

  predicate Holds(c: Condition, e: Evaluation) {
    match c
    case UserIs(u) => e.userId == u
    case OnOrAfter(d) => e.date >= d
    case OnOrBefore(d) => e.date <= d
  }

  /** `conditions.join(' AND ')` with its parameters bound. */
  predicate HoldsAll(conds: seq<Condition>, e: Evaluation) {
    forall i :: 0 <= i < |conds| ==> Holds(conds[i], e)
  }

  /** The intended filter: this user, and inside the inclusive range, each bound only when given. */
  predicate InRange(e: Evaluation, userId: string, startDate: Option<Date>, endDate: Option<Date>) {
    && e.userId == userId
    && (startDate.Some? ==> startDate.value <= e.date)
    && (endDate.Some? ==> e.date <= endDate.value)
  }

  /** The handler's construction of the WHERE clause; an absent or empty date adds no condition. */
  method BuildConditions(userId: string, startDate: Option<Date>, endDate: Option<Date>) returns (conds: seq<Condition>)
    ensures 1 <= |conds| <= 3 && conds[0] == UserIs(userId)
    ensures |conds| == 1 + (if startDate.Some? then 1 else 0) + (if endDate.Some? then 1 else 0)
    ensures forall e :: HoldsAll(conds, e) <==> InRange(e, userId, startDate, endDate)
  {
    conds := [UserIs(userId)];
    if startDate.Some? {
      conds := conds + [OnOrAfter(startDate.value)];
    }
    if endDate.Some? {
      conds := conds + [OnOrBefore(endDate.value)];
    }
    forall e
      ensures HoldsAll(conds, e) <==> InRange(e, userId, startDate, endDate)
    {
      if HoldsAll(conds, e) {
        assert Holds(conds[0], e);
        if startDate.Some? { assert Holds(conds[1], e); }
        if endDate.Some? { assert Holds(conds[|conds| - 1], e); }
      }
    }
  }

  /** The rows the COUNT query counts. */
  function Matching(rows: seq<Evaluation>, userId: string, startDate: Option<Date>, endDate: Option<Date>): seq<Evaluation> {
    Filter(rows, e => InRange(e, userId, startDate, endDate))
  }

  /** The inner JOIN with `dishes` of the page query: rows whose dish is missing drop out. */
  function Joined(rows: seq<Evaluation>, dishes: map<int, Dish>): seq<Evaluation> {
    Filter(rows, (e: Evaluation) => e.dishId in dishes)
  }

  /** `a` may be listed before `b` under ORDER BY evaluation_date DESC, id DESC. */
  predicate NotOlder(a: Evaluation, b: Evaluation) {
    a.date > b.date || (a.date == b.date && a.id >= b.id)
  }

  predicate ByRecency(s: seq<Evaluation>) {
    forall i, j :: 0 <= i < j < |s| ==> NotOlder(s[i], s[j])
  }

  function InsertByRecency(e: Evaluation, s: seq<Evaluation>): (r: seq<Evaluation>)
    requires ByRecency(s)
    ensures |r| == |s| + 1
    ensures forall x :: x in r ==> x in s || x == e
    ensures ByRecency(r)
    ensures multiset(r) == multiset(s) + multiset{e}
  {
    if s == [] then [e]
    else if NotOlder(e, s[0]) then
      ConsByRecency(e, s);
      [e] + s
    else
      var rest := InsertByRecency(e, s[1..]);
      assert s == [s[0]] + s[1..];
      ConsByRecency(s[0], rest);
      [s[0]] + rest
  }

  /** Putting in front a row at least as recent as every row of a newest-first list keeps it newest-first. */
  lemma ConsByRecency(h: Evaluation, t: seq<Evaluation>)
    requires ByRecency(t)
    requires t == [] || NotOlder(h, t[0])
    requires forall x :: x in t ==> NotOlder(h, x) || NotOlder(t[0], x)
    ensures ByRecency([h] + t)
  {
    var r := [h] + t;
    forall i, j | 0 <= i < j < |r| ensures NotOlder(r[i], r[j]) {
      if i == 0 {
        assert r[j] == t[j - 1] && r[j] in t;
        if j > 1 { assert NotOlder(t[0], t[j - 1]); }
      } else {
        assert r[i] == t[i - 1] && r[j] == t[j - 1];
      }
    }
  }

  /** The order the page query returns rows in. */
  function SortByRecency(s: seq<Evaluation>): (r: seq<Evaluation>)
    ensures ByRecency(r)
    ensures multiset(r) == multiset(s)
  {
    if s == [] then []
    else
      assert s == s[..|s| - 1] + [s[|s| - 1]];
      InsertByRecency(s[|s| - 1], SortByRecency(s[..|s| - 1]))
  }

  /**
   * With unique ids the order is total: any two newest-first arrangements of
   * the same rows are the same sequence, so the page a client sees does not
   * depend on how the store breaks ties.
   */
  lemma {:induction false} RecencyOrderIsUnique(a: seq<Evaluation>, b: seq<Evaluation>)
    requires ByRecency(a) && ByRecency(b) && multiset(a) == multiset(b) && IdsUnique(a)
    ensures a == b
  {
    if a != [] {
      HeadsAgree(a, b);
      TailsAgree(a, b);
      RecencyOrderIsUnique(a[1..], b[1..]);
      assert a == [a[0]] + a[1..] && b == [b[0]] + b[1..];
    }
  }

  /** Both newest-first arrangements start with the same, newest, row. */
  lemma HeadsAgree(a: seq<Evaluation>, b: seq<Evaluation>)
    requires ByRecency(a) && ByRecency(b) && multiset(a) == multiset(b) && IdsUnique(a) && a != []
    ensures b != [] && a[0] == b[0]
  {
    assert a[0] in multiset(b);
    assert b[0] in multiset(a);
    var i :| 0 <= i < |b| && b[i] == a[0];
    var j :| 0 <= j < |a| && a[j] == b[0];
    assert NotOlder(b[0], a[0]);
    assert NotOlder(a[0], b[0]);
  }

  lemma TailsAgree(a: seq<Evaluation>, b: seq<Evaluation>)
    requires ByRecency(a) && ByRecency(b) && multiset(a) == multiset(b) && IdsUnique(a) && a != [] && b != [] && a[0] == b[0]
    ensures ByRecency(a[1..]) && ByRecency(b[1..]) && multiset(a[1..]) == multiset(b[1..]) && IdsUnique(a[1..])
  {
    assert a == [a[0]] + a[1..];
    assert b == [b[0]] + b[1..];
    assert multiset(a) == multiset{a[0]} + multiset(a[1..]);
    assert multiset(b) == multiset{b[0]} + multiset(b[1..]);
    assert multiset(a[1..]) == multiset(a) - multiset{a[0]};
    assert multiset(b[1..]) == multiset(b) - multiset{b[0]};
    forall x, y | 0 <= x < y < |a| - 1 ensures a[1..][x].id != a[1..][y].id && NotOlder(a[1..][x], a[1..][y]) {
      assert a[1..][x] == a[x + 1] && a[1..][y] == a[y + 1];
    }
    forall x, y | 0 <= x < y < |b| - 1 ensures NotOlder(b[1..][x], b[1..][y]) {
      assert b[1..][x] == b[x + 1] && b[1..][y] == b[y + 1];
    }
  }

  function Min(a: int, b: int): int { if a <= b then a else b }

  /** `LIMIT size OFFSET offset` over the ordered rows. */
  function PageOf(s: seq<Evaluation>, offset: nat, size: nat): (r: seq<Evaluation>)
    ensures |r| <= size
    ensures |r| == if offset >= |s| then 0 else Min(size, |s| - offset)
    ensures forall k :: 0 <= k < |r| ==> offset + k < |s| && r[k] == s[offset + k]
  {
    if offset >= |s| then [] else s[offset..Min(offset + size, |s|)]
  }

  /** `Math.ceil(total / pageSize)`. */
  function TotalPages(total: nat, pageSize: nat): (r: nat)
    requires pageSize > 0
    ensures (r - 1) * pageSize < total <= r * pageSize
  {
    var q := (total + pageSize - 1) / pageSize;
    var m := (total + pageSize - 1) % pageSize;
    assert total + pageSize - 1 == q * pageSize + m;
    assert (q - 1) * pageSize == q * pageSize - pageSize;
    q
  }

  /**
   * Row j of the ordered list is on page j / pageSize + 1, which is one of
   * the totalPages pages, at position j % pageSize of that page.
   */
  lemma RowOnPage(s: seq<Evaluation>, pageSize: nat, j: nat)
    requires pageSize > 0 && j < |s|
    ensures var page := j / pageSize + 1;
      && 1 <= page <= TotalPages(|s|, pageSize)
      && j % pageSize < |PageOf(s, (page - 1) * pageSize, pageSize)|
      && PageOf(s, (page - 1) * pageSize, pageSize)[j % pageSize] == s[j]
  {
    var q, m := j / pageSize, j % pageSize;
    var offset := q * pageSize;
    assert j == offset + m;
    assert (j / pageSize + 1 - 1) * pageSize == offset;
    var tp := TotalPages(|s|, pageSize);
    if q >= tp {
      MulMonotone(q, tp, pageSize);
      assert false;
    }
  }

  lemma MulMonotone(a: int, b: int, c: nat)
    requires a >= b
    ensures a * c >= b * c
  {
    assert a * c - b * c == (a - b) * c;
  }

  /** The OFFSET `(page - 1) * pageSize` is negative exactly when the page number is below 1. */
  lemma OffsetSign(page: int, pageSize: int)
    requires pageSize > 0
    ensures (page - 1) * pageSize >= 0 <==> page >= 1
  {
    if page >= 1 {
      MulMonotone(page - 1, 0, pageSize);
    } else {
      MulMonotone(0, page, pageSize);
      assert (page - 1) * pageSize == page * pageSize - pageSize;
    }
  }

  /** Sorting neither adds nor drops a row. */
  lemma SortKeepsMembers(s: seq<Evaluation>)
    ensures forall e :: e in SortByRecency(s) <==> e in s
  {
    var r := SortByRecency(s);
    forall e ensures e in r <==> e in s {
      assert e in r <==> e in multiset(r);
      assert e in s <==> e in multiset(s);
    }
  }

  /** Ordering keeps exactly the rows that passed the filter and the join. */
  lemma OrderedQualifies(rows: seq<Evaluation>, dishes: map<int, Dish>, userId: string, startDate: Option<Date>, endDate: Option<Date>)
    ensures forall e :: e in SortByRecency(Joined(Matching(rows, userId, startDate, endDate), dishes)) <==>
      e in rows && InRange(e, userId, startDate, endDate) && e.dishId in dishes
  {
    var selected := Matching(rows, userId, startDate, endDate);
    assert forall e :: e in selected <==> e in rows && InRange(e, userId, startDate, endDate);
    var joined := Joined(selected, dishes);
    assert forall e :: e in joined <==> e in selected && e.dishId in dishes;
    SortKeepsMembers(joined);
  }

  /** A page of a newest-first list is newest-first and holds only rows of that list. */
  lemma PageOfSorted(s: seq<Evaluation>, offset: nat, size: nat)
    requires ByRecency(s)
    ensures ByRecency(PageOf(s, offset, size))
    ensures forall e :: e in PageOf(s, offset, size) ==> e in s
  {
    var data := PageOf(s, offset, size);
    forall i, j | 0 <= i < j < |data| ensures NotOlder(data[i], data[j]) {
      assert data[i] == s[offset + i] && data[j] == s[offset + j];
    }
    forall e | e in data ensures e in s {
      var k :| 0 <= k < |data| && data[k] == e;
      assert s[offset + k] == e;
    }
  }

  /** A page of the ordered, joined, filtered rows is itself newest-first, and each of its rows passes the filter and the join. */
  lemma PageQualifies(rows: seq<Evaluation>, dishes: map<int, Dish>, userId: string, startDate: Option<Date>, endDate: Option<Date>,
                      offset: nat, size: nat)
    ensures var data := PageOf(SortByRecency(Joined(Matching(rows, userId, startDate, endDate), dishes)), offset, size);
      && ByRecency(data)
      && forall e :: e in data ==> InRange(e, userId, startDate, endDate) && e.dishId in dishes
  {
    var ordered := SortByRecency(Joined(Matching(rows, userId, startDate, endDate), dishes));
    PageOfSorted(ordered, offset, size);
    OrderedQualifies(rows, dishes, userId, startDate, endDate);
  }

  datatype Pagination = Pagination(total: nat, page: int, pageSize: int, totalPages: nat)

  datatype ListResponse =
    | UserMissing            // 400, "用户ID不能为空"
    | ListFailed             // 500
    | Listed(data: seq<Evaluation>, pagination: Pagination)

  /** `page = 1` and `pageSize = 10` when the query omits them. */
  function PageNumber(page: Option<int>): int { if page.None? then 1 else page.value }
  function PageLength(pageSize: Option<int>): int { if pageSize.None? then 10 else pageSize.value }

  /**
   * GET `/evaluations/user`. The COUNT query and the page query share the
   * WHERE clause; only the page query joins `dishes`. A page below 1 makes
   * the OFFSET negative and a negative page size makes the LIMIT negative;
   * the store refuses either.
   */
  function ListUser(db: Db, userId: Option<string>, startDate: Option<Date>, endDate: Option<Date>,
                    page: Option<int>, pageSize: Option<int>, fails: bool): (r: ListResponse)
    requires PageLength(pageSize) != 0
    ensures userId.None? || userId.value == "" <==> r == UserMissing
    ensures r == ListFailed <==>
      userId.Some? && userId.value != "" && (fails || PageNumber(page) < 1 || PageLength(pageSize) < 0)
    ensures r.Listed? ==>
      var u, p, size := userId.value, PageNumber(page), PageLength(pageSize);
      var ordered := SortByRecency(Joined(Matching(db.rows, u, startDate, endDate), db.dishes));
      var offset := (p - 1) * size;
      && p >= 1 && size > 0 && offset >= 0
      && r.pagination == Pagination(|Matching(db.rows, u, startDate, endDate)|, p, size, r.pagination.totalPages)
      && (r.pagination.totalPages - 1) * size < r.pagination.total <= r.pagination.totalPages * size
      && r.data == PageOf(ordered, offset, size)
  {
    if userId.None? || userId.value == "" then UserMissing
    else if fails then ListFailed
    else
      var u, size, p := userId.value, PageLength(pageSize), PageNumber(page);
      if size < 0 then ListFailed
      else
        var offset := (p - 1) * size;
        OffsetSign(p, size);
        if offset < 0 then ListFailed
        else
          var selected := Matching(db.rows, u, startDate, endDate);
          Listed(PageOf(SortByRecency(Joined(selected, db.dishes)), offset, size),
                 Pagination(|selected|, p, size, TotalPages(|selected|, size)))
  }

  /**
   * A listed page holds at most pageSize rows, newest first, each of them
   * one of this user's evaluations inside the date bounds whose dish exists.
   */
  lemma ListedPageQualifies(db: Db, userId: Option<string>, startDate: Option<Date>, endDate: Option<Date>,
                            page: Option<int>, pageSize: Option<int>, fails: bool)
    requires PageLength(pageSize) != 0
    requires ListUser(db, userId, startDate, endDate, page, pageSize, fails).Listed?
    ensures var data := ListUser(db, userId, startDate, endDate, page, pageSize, fails).data;
      && |data| <= PageLength(pageSize)
      && ByRecency(data)
      && (forall e :: e in data ==> InRange(e, userId.value, startDate, endDate) && e.dishId in db.dishes)
  {
    var r := ListUser(db, userId, startDate, endDate, page, pageSize, fails);
    var u, p, size := userId.value, PageNumber(page), PageLength(pageSize);
    var ordered := SortByRecency(Joined(Matching(db.rows, u, startDate, endDate), db.dishes));
    var offset := (p - 1) * size;
    assert offset >= 0 && size > 0 && r.data == PageOf(ordered, offset, size);
    PageQualifies(db.rows, db.dishes, u, startDate, endDate, offset, size);
  }

  /** The WHERE clause the handler joins together selects the rows `Matching` describes. */
  lemma ConditionsSelectMatching(rows: seq<Evaluation>, conds: seq<Condition>, u: string, startDate: Option<Date>, endDate: Option<Date>)
    requires forall e :: HoldsAll(conds, e) <==> InRange(e, u, startDate, endDate)
    ensures Filter(rows, e => HoldsAll(conds, e)) == Matching(rows, u, startDate, endDate)
  {
    FilterSamePredicate(rows, e => HoldsAll(conds, e), e => InRange(e, u, startDate, endDate));
  }

  /** When the store does not fail and page and page size are acceptable, the response is this page. */
  lemma ListUserListed(db: Db, u: string, startDate: Option<Date>, endDate: Option<Date>,
                       page: Option<int>, pageSize: Option<int>, fails: bool)
    requires u != "" && !fails && PageLength(pageSize) > 0 && (PageNumber(page) - 1) * PageLength(pageSize) >= 0
    ensures var p, size := PageNumber(page), PageLength(pageSize);
      var selected := Matching(db.rows, u, startDate, endDate);
      ListUser(db, Some(u), startDate, endDate, page, pageSize, fails) ==
        Listed(PageOf(SortByRecency(Joined(selected, db.dishes)), (p - 1) * size, size),
               Pagination(|selected|, p, size, TotalPages(|selected|, size)))
  {
  }

  /** The handler of GET `/evaluations/user`, building its WHERE clause condition by condition. */
  method ListUserEvaluations(db: Db, userId: Option<string>, startDate: Option<Date>, endDate: Option<Date>,
                             page: Option<int>, pageSize: Option<int>, fails: bool) returns (response: ListResponse)
    requires PageLength(pageSize) != 0
    ensures response == ListUser(db, userId, startDate, endDate, page, pageSize, fails)
  {
    if userId.None? || userId.value == "" {
      return UserMissing;
    }
    var u := userId.value;
    var conds := BuildConditions(u, startDate, endDate);
    if fails {
      return ListFailed;
    }
    var selected := Filter(db.rows, e => HoldsAll(conds, e));
    ConditionsSelectMatching(db.rows, conds, u, startDate, endDate);
    var total := |selected|;
    var size := PageLength(pageSize);
    var p := PageNumber(page);
    if size < 0 {
      return ListFailed;
    }
    var totalPages := TotalPages(total, size);
    var offset := (p - 1) * size;
    if offset < 0 {
      return ListFailed;
    }
    ListUserListed(db, u, startDate, endDate, page, pageSize, fails);
    var ordered := SortByRecency(Joined(selected, db.dishes));
    var data := PageOf(ordered, offset, size);
    response := Listed(data, Pagination(total, p, size, totalPages));
  }
}
