/**
 * The two tables the evaluation routes work on, held in memory:
 * `dish_evaluations` (a sequence of rows with a uniqueness constraint on
 * dish, user and day) and the aggregate columns of `dishes`
 * (`rating`, `rating_count`), together with the store operations the
 * routes issue: insert, recompute one dish's aggregate, delete by id and
 * roll back.
 */
module EvaluationTables {
  import opened Wrappers

  /** A calendar day (the `evaluation_date` column); days are only compared. */
  type Date = nat

  /** One row of `dish_evaluations`. */
  datatype Evaluation = Evaluation(
    id: nat, dishId: int, companyId: int, userId: string,
    rating: int, comment: string, date: Date)

  /** One element of the `evaluations` array of a submission. */
  datatype Item = Item(dishId: int, companyId: int, rating: int, comment: string, userId: string)

  /** The columns of the uniqueness constraint of `dish_evaluations`. */
  datatype Key = Key(dishId: int, userId: string, date: Date)

  /** The aggregate columns of a `dishes` row; `rating` is NULL (None) when AVG runs over no rows. */
  datatype Dish = Dish(rating: Option<real>, ratingCount: nat)

  /** The store: evaluation rows in insertion order, dish aggregates by dish id, and the next auto-increment id. */
  datatype Db = Db(rows: seq<Evaluation>, dishes: map<int, Dish>, nextId: nat)

  function KeyOf(e: Evaluation): Key {
    Key(e.dishId, e.userId, e.date)
  }

  /** Some row already holds this key, so an INSERT with it violates the constraint. */
  predicate HasKey(rows: seq<Evaluation>, k: Key) {
    exists i :: 0 <= i < |rows| && KeyOf(rows[i]) == k
  }

  ghost predicate KeysUnique(rows: seq<Evaluation>) {
    forall i, j :: 0 <= i < j < |rows| ==> KeyOf(rows[i]) != KeyOf(rows[j])
  }

  ghost predicate IdsUnique(rows: seq<Evaluation>) {
    forall i, j :: 0 <= i < j < |rows| ==> rows[i].id != rows[j].id
  }

  ghost predicate IdsBelow(rows: seq<Evaluation>, bound: nat) {
    forall i :: 0 <= i < |rows| ==> rows[i].id < bound
  }

  /** The table constraints: unique (dish, user, day), unique ids, ids below the auto-increment counter. */
  ghost predicate Valid(db: Db) {
    KeysUnique(db.rows) && IdsUnique(db.rows) && IdsBelow(db.rows, db.nextId)
  }

  /** COUNT(*) of the rows for a dish. */
  function CountFor(rows: seq<Evaluation>, dishId: int): nat {
    if rows == [] then 0
    else CountFor(rows[..|rows| - 1], dishId) + (if rows[|rows| - 1].dishId == dishId then 1 else 0)
  }

  /** SUM(rating) of the rows for a dish. */
  function SumFor(rows: seq<Evaluation>, dishId: int): int {
    if rows == [] then 0
    else SumFor(rows[..|rows| - 1], dishId) + (if rows[|rows| - 1].dishId == dishId then rows[|rows| - 1].rating else 0)
  }

  /** What `UPDATE dishes SET rating = AVG(..), rating_count = COUNT(*)` writes for a dish. */
  function Recomputed(rows: seq<Evaluation>, dishId: int): Dish {
    var n := CountFor(rows, dishId);
    Dish(if n == 0 then None else Some(SumFor(rows, dishId) as real / n as real), n)
  }

  /** Every dish's aggregate agrees with the rows that name it. */
  ghost predicate Consistent(db: Db) {
    forall d :: d in db.dishes ==> db.dishes[d] == Recomputed(db.rows, d)
  }

  /** The row an INSERT of `item` creates. */
  function NewRow(item: Item, date: Date, id: nat): Evaluation {
    Evaluation(id, item.dishId, item.companyId, item.userId, item.rating, item.comment, date)
  }

  function AddRow(db: Db, item: Item, date: Date): Db {
    db.(rows := db.rows + [NewRow(item, date, db.nextId)], nextId := db.nextId + 1)
  }

  /** The aggregate UPDATE: it changes the dish row when one exists and nothing otherwise. */
  function Refresh(db: Db, dishId: int): (r: Db)
    ensures r.rows == db.rows && r.nextId == db.nextId && r.dishes.Keys == db.dishes.Keys
    ensures dishId in r.dishes ==> r.dishes[dishId] == Recomputed(r.rows, dishId)
    ensures forall d :: d in db.dishes && d != dishId ==> r.dishes[d] == db.dishes[d]
  {
    if dishId in db.dishes then db.(dishes := db.dishes[dishId := Recomputed(db.rows, dishId)]) else db
  }

  /** `DELETE FROM dish_evaluations WHERE id = ?` on the rows. */
  function RemoveId(rows: seq<Evaluation>, id: nat): (r: seq<Evaluation>)
    ensures forall e :: e in r <==> e in rows && e.id != id
    ensures |r| <= |rows|
  {
    if rows == [] then []
    else
      var last := rows[|rows| - 1];
      assert rows == rows[..|rows| - 1] + [last];
      var kept := RemoveId(rows[..|rows| - 1], id);
      if last.id == id then kept else kept + [last]
  }

  function RemoveRow(db: Db, id: nat): Db {
    db.(rows := RemoveId(db.rows, id))
  }

  lemma TalliesSnoc(rows: seq<Evaluation>, e: Evaluation, dishId: int)
    ensures CountFor(rows + [e], dishId) == CountFor(rows, dishId) + (if e.dishId == dishId then 1 else 0)
    ensures SumFor(rows + [e], dishId) == SumFor(rows, dishId) + (if e.dishId == dishId then e.rating else 0)
  {
    assert (rows + [e])[..|rows|] == rows;
  }

  /** A row for another dish does not move this dish's aggregate. */
  lemma RecomputedIgnoresOtherDish(rows: seq<Evaluation>, e: Evaluation, dishId: int)
    requires e.dishId != dishId
    ensures Recomputed(rows + [e], dishId) == Recomputed(rows, dishId)
  {
    TalliesSnoc(rows, e, dishId);
  }

  /** Deleting rows of other dishes does not move this dish's aggregate. */
  lemma RecomputedAfterRemove(rows: seq<Evaluation>, id: nat, dishId: int)
    requires forall i :: 0 <= i < |rows| && rows[i].id == id ==> rows[i].dishId != dishId
    ensures Recomputed(RemoveId(rows, id), dishId) == Recomputed(rows, dishId)
  {
    TalliesAfterRemove(rows, id, dishId);
  }

  lemma {:induction false} TalliesAfterRemove(rows: seq<Evaluation>, id: nat, dishId: int)
    requires forall i :: 0 <= i < |rows| && rows[i].id == id ==> rows[i].dishId != dishId
    ensures CountFor(RemoveId(rows, id), dishId) == CountFor(rows, dishId)
    ensures SumFor(RemoveId(rows, id), dishId) == SumFor(rows, dishId)
  {
    if rows != [] {
      var init, last := rows[..|rows| - 1], rows[|rows| - 1];
      TalliesAfterRemove(init, id, dishId);
      if last.id != id {
        TalliesSnoc(RemoveId(init, id), last, dishId);
      }
    }
  }

  /** Inserting a row and refreshing its dish keeps every aggregate exact. */
  lemma AddRowKeepsConsistent(db: Db, item: Item, date: Date)
    requires Consistent(db)
    ensures Consistent(Refresh(AddRow(db, item, date), item.dishId))
  {
    var added := AddRow(db, item, date);
    forall d | d in db.dishes && d != item.dishId
      ensures Recomputed(added.rows, d) == db.dishes[d]
    {
      RecomputedIgnoresOtherDish(db.rows, NewRow(item, date, db.nextId), d);
    }
  }

  /** Inserting a row whose key is new keeps the table constraints. */
  lemma AddRowKeepsValid(db: Db, item: Item, date: Date)
    requires Valid(db) && !HasKey(db.rows, Key(item.dishId, item.userId, date))
    ensures Valid(AddRow(db, item, date))
  {
    var rows := AddRow(db, item, date).rows;
    forall i, j | 0 <= i < j < |rows|
      ensures KeyOf(rows[i]) != KeyOf(rows[j]) && rows[i].id != rows[j].id
    {
      if j == |rows| - 1 {
        assert rows[i] == db.rows[i];
      }
    }
  }

  /** Deleting the rows with an id that belong to `dishId`, then refreshing `dishId`, keeps every aggregate exact. */
  lemma RemoveRowKeepsConsistent(db: Db, id: nat, dishId: int)
    requires Consistent(db)
    requires forall i :: 0 <= i < |db.rows| && db.rows[i].id == id ==> db.rows[i].dishId == dishId
    ensures Consistent(Refresh(RemoveRow(db, id), dishId))
  {
    forall d | d in db.dishes && d != dishId
      ensures Recomputed(RemoveId(db.rows, id), d) == db.dishes[d]
    {
      RecomputedAfterRemove(db.rows, id, d);
    }
  }

  lemma SnocKeepsUnique(rows: seq<Evaluation>, e: Evaluation)
    requires KeysUnique(rows) && IdsUnique(rows)
    requires forall x :: x in rows ==> KeyOf(x) != KeyOf(e) && x.id != e.id
    ensures KeysUnique(rows + [e]) && IdsUnique(rows + [e])
  {
    var r := rows + [e];
    forall i, j | 0 <= i < j < |r|
      ensures KeyOf(r[i]) != KeyOf(r[j]) && r[i].id != r[j].id
    {
      assert r[i] == rows[i];
      if j < |rows| { assert r[j] == rows[j]; }
    }
  }

  /** Deleting keeps the table constraints. */
  lemma {:induction false} RemoveIdKeepsUnique(rows: seq<Evaluation>, id: nat)
    requires KeysUnique(rows) && IdsUnique(rows)
    ensures KeysUnique(RemoveId(rows, id)) && IdsUnique(RemoveId(rows, id))
  {
    if rows != [] {
      var init, last := rows[..|rows| - 1], rows[|rows| - 1];
      RemoveIdKeepsUnique(init, id);
      if last.id != id {
        forall x | x in RemoveId(init, id)
          ensures KeyOf(x) != KeyOf(last) && x.id != last.id
        {
          var i :| 0 <= i < |init| && init[i] == x;
          assert rows[i] == x;
        }
        SnocKeepsUnique(RemoveId(init, id), last);
      }
    }
  }

  /** With unique ids, deleting by the id of row `k` removes exactly that row and keeps the others in order. */
  lemma {:induction false} RemoveIdExactlyOne(rows: seq<Evaluation>, k: nat)
    requires IdsUnique(rows) && k < |rows|
    ensures RemoveId(rows, rows[k].id) == rows[..k] + rows[k + 1..]
  {
    var init, last := rows[..|rows| - 1], rows[|rows| - 1];
    var id := rows[k].id;
    RemoveIdSnoc(init, last, id);
    if k == |rows| - 1 {
      forall i | 0 <= i < |init| ensures init[i].id != id {
        assert init[i] == rows[i];
      }
      RemoveIdAbsent(init, id);
    } else {
      forall i, j | 0 <= i < j < |init| ensures init[i].id != init[j].id {
        assert init[i] == rows[i] && init[j] == rows[j];
      }
      assert init[k] == rows[k];
      RemoveIdExactlyOne(init, k);
      SkipThenSnoc(rows, k);
    }
  }

  lemma RemoveIdSnoc(init: seq<Evaluation>, last: Evaluation, id: nat)
    ensures RemoveId(init + [last], id) == if last.id == id then RemoveId(init, id) else RemoveId(init, id) + [last]
  {
    assert (init + [last])[..|init|] == init;
  }

  /** Dropping row k of `rows` where k is not the last index is dropping it from the prefix, then re-appending the last row. */
  lemma SkipThenSnoc(rows: seq<Evaluation>, k: nat)
    requires k < |rows| - 1
    ensures rows[..k] + rows[k + 1..] == (rows[..|rows| - 1][..k] + rows[..|rows| - 1][k + 1..]) + [rows[|rows| - 1]]
  {
  }

  lemma {:induction false} RemoveIdAbsent(rows: seq<Evaluation>, id: nat)
    requires forall i :: 0 <= i < |rows| ==> rows[i].id != id
    ensures RemoveId(rows, id) == rows
  {
    if rows != [] {
      RemoveIdAbsent(rows[..|rows| - 1], id);
      assert rows == rows[..|rows| - 1] + [rows[|rows| - 1]];
    }
  }

  /**
   * The store as a mutable object: the handlers send it statements one at a
   * time inside a transaction and roll it back to the snapshot taken at
   * BEGIN when a statement fails.
   */
  class Store {
    var rows: seq<Evaluation>
    var dishes: map<int, Dish>
    var nextId: nat

    function State(): Db
      reads this
    {
      Db(rows, dishes, nextId)
    }

    constructor (db: Db)
      ensures State() == db
    {
      rows, dishes, nextId := db.rows, db.dishes, db.nextId;
    }

    /** INSERT one evaluation; the uniqueness constraint refuses a key that is already present. */
    method Insert(item: Item, date: Date) returns (duplicate: bool)
      modifies this
      ensures duplicate == HasKey(old(rows), Key(item.dishId, item.userId, date))
      ensures State() == if duplicate then old(State()) else AddRow(old(State()), item, date)
    {
      duplicate := HasKey(rows, Key(item.dishId, item.userId, date));
      if !duplicate {
        rows := rows + [NewRow(item, date, nextId)];
        nextId := nextId + 1;
      }
    }

    /** UPDATE the dish's rating and rating_count from all of its rows. */
    method UpdateRating(dishId: int)
      modifies this
      ensures State() == Refresh(old(State()), dishId)
    {
      if dishId in dishes {
        dishes := dishes[dishId := Recomputed(rows, dishId)];
      }
    }

    /** DELETE the rows with this id. */
    method DeleteRow(id: nat)
      modifies this
      ensures State() == RemoveRow(old(State()), id)
    {
      rows := RemoveId(rows, id);
    }

    /** ROLLBACK to the state at BEGIN. */
    method Rollback(snapshot: Db)
      modifies this
      ensures State() == snapshot
    {
      rows, dishes, nextId := snapshot.rows, snapshot.dishes, snapshot.nextId;
    }
  }
}
