/**
 * The two state-changing evaluation routes: POST `/evaluations` (a batch
 * of evaluations inserted in one transaction, duplicates recovered inline)
 * and POST `/evaluations/delete` (ownership check, then delete and
 * recompute in one transaction).
 *
 * Each route is a pure specification function (`Submit`, `Delete`) and a
 * method that drives a `Store` statement by statement and is proved to
 * agree with it. Failures of the store other than the uniqueness
 * constraint cannot be predicted from the tables, so they arrive as a
 * `Faults` argument naming where they happen.
 */
module Evaluations {
  import opened Wrappers
  import opened EvaluationTables

  /** The `evaluations` field of the request body. */
  datatype Body = NoEvaluations | NotAnArray | Evaluations(items: seq<Item>)

  /** `results` of the response: dish ids in input order. */
  datatype Results = Results(success: seq<int>, duplicates: seq<int>)

  /** The three messages of a committed submission. */
  datatype Message = PartlyDuplicate | AllSubmitted | AllDuplicate

  datatype SubmitResponse =
    | InvalidFormat                  // 400, "评价数据格式不正确"
    | SubmitFailed                   // 500, after rollback
    | Submitted(success: bool, message: Message, results: Results)

  /** Where the store raises an error other than a duplicate key: at getConnection/BEGIN, at the statements of item i, at COMMIT. */
  datatype Faults = Faults(connection: bool, items: set<nat>, commit: bool)

  /** A route's response together with the store after it. */
  datatype Outcome<R> = Outcome(response: R, db: Db)

  /** The HTTP status of each response. */
  function SubmitStatus(r: SubmitResponse): int {
    match r
    case InvalidFormat => 400
    case SubmitFailed => 500
    case Submitted(_, _, _) => 200
  }

  predicate WellFormed(body: Body) {
    body.Evaluations? && |body.items| > 0
  }

  /** The state of the submission loop: still inside the transaction, or thrown out of it. */
  datatype Batch = Running(db: Db, results: Results) | Aborted

  /** One iteration of the loop: INSERT, then on success UPDATE the dish and record it; a duplicate is recorded and skipped. */
  function Step(b: Batch, index: nat, item: Item, date: Date, failing: set<nat>): (r: Batch)
    ensures r.Running? <==> b.Running? && index !in failing
    ensures r.Running? && HasKey(b.db.rows, Key(item.dishId, item.userId, date)) ==>
      r.db == b.db && r.results == Results(b.results.success, b.results.duplicates + [item.dishId])
    ensures r.Running? && !HasKey(b.db.rows, Key(item.dishId, item.userId, date)) ==>
      && r.results == Results(b.results.success + [item.dishId], b.results.duplicates)
      && r.db.rows == b.db.rows + [NewRow(item, date, b.db.nextId)]
      && r.db.nextId == b.db.nextId + 1
      && r.db.dishes.Keys == b.db.dishes.Keys
      && (item.dishId in r.db.dishes ==> r.db.dishes[item.dishId] == Recomputed(r.db.rows, item.dishId))
      && (forall d :: d in b.db.dishes && d != item.dishId ==> r.db.dishes[d] == b.db.dishes[d])
  {
    match b
    case Aborted => Aborted
    case Running(db, res) =>
      if index in failing then Aborted
      else if HasKey(db.rows, Key(item.dishId, item.userId, date)) then
        Running(db, Results(res.success, res.duplicates + [item.dishId]))
      else
        Running(Refresh(AddRow(db, item, date), item.dishId), Results(res.success + [item.dishId], res.duplicates))
  }

  /** The loop over the first |items| elements of the batch. */
  function RunBatch(db: Db, items: seq<Item>, date: Date, failing: set<nat>): Batch
    decreases |items|
  {
    if items == [] then Running(db, Results([], []))
    else Step(RunBatch(db, items[..|items| - 1], date, failing), |items| - 1, items[|items| - 1], date, failing)
  }

  /** The response chosen from the two lists after COMMIT. */
  function Respond(res: Results): (r: SubmitResponse)
    ensures r.Submitted? && r.results == res
    ensures r.success <==> |res.success| > 0
    ensures r.message == PartlyDuplicate <==> |res.success| > 0 && |res.duplicates| > 0
    ensures r.message == AllSubmitted <==> |res.success| > 0 && |res.duplicates| == 0
    ensures r.message == AllDuplicate <==> |res.success| == 0
  {
    if |res.success| > 0 && |res.duplicates| > 0 then Submitted(true, PartlyDuplicate, res)
    else if |res.success| > 0 then Submitted(true, AllSubmitted, res)
    else Submitted(false, AllDuplicate, res)
  }

  /** The uniqueness key an INSERT of `item` on day `date` would use. */
  function ItemKey(item: Item, date: Date): Key {
    Key(item.dishId, item.userId, date)
  }

  /** Some item of `items` has key `k`. */
  predicate InBatch(items: seq<Item>, date: Date, k: Key) {
    exists j :: 0 <= j < |items| && ItemKey(items[j], date) == k
  }

  /**
   * Item i of a batch is reported as a duplicate: its key is already
   * stored, or an earlier item of the same batch has it.
   */
  predicate Duplicate(db: Db, items: seq<Item>, date: Date, i: nat)
    requires i < |items|
  {
    HasKey(db.rows, ItemKey(items[i], date)) || InBatch(items[..i], date, ItemKey(items[i], date))
  }

  /** For each item, whether it is inserted (true) or reported as a duplicate (false). */
  function Tags(db: Db, items: seq<Item>, date: Date): (r: seq<bool>)
    ensures |r| == |items|
    ensures forall i :: 0 <= i < |items| ==> r[i] == !Duplicate(db, items, date, i)
    decreases |items|
  {
    if items == [] then []
    else
      var init := items[..|items| - 1];
      var t := Tags(db, init, date);
      assert forall i :: 0 <= i < |init| ==> init[i] == items[i] && init[..i] == items[..i];
      t + [!Duplicate(db, items, date, |items| - 1)]
  }

  /** The items whose tag equals `want`, in input order. */
  function Chosen(items: seq<Item>, tags: seq<bool>, want: bool): seq<Item>
    requires |tags| == |items|
  {
    if items == [] then []
    else Chosen(items[..|items| - 1], tags[..|tags| - 1], want) + (if tags[|tags| - 1] == want then [items[|items| - 1]] else [])
  }

  function DishIds(items: seq<Item>): (r: seq<int>)
    ensures |r| == |items| && forall j :: 0 <= j < |items| ==> r[j] == items[j].dishId
  {
    if items == [] then [] else DishIds(items[..|items| - 1]) + [items[|items| - 1].dishId]
  }

  /** The rows the INSERTs of `items` create, with consecutive ids from `start`. */
  function Inserted(items: seq<Item>, date: Date, start: nat): (r: seq<Evaluation>)
    ensures |r| == |items| && forall j :: 0 <= j < |items| ==> r[j] == NewRow(items[j], date, start + j)
  {
    if items == [] then [] else Inserted(items[..|items| - 1], date, start) + [NewRow(items[|items| - 1], date, start + |items| - 1)]
  }

  lemma HasKeySnoc(rows: seq<Evaluation>, e: Evaluation, k: Key)
    ensures HasKey(rows + [e], k) <==> HasKey(rows, k) || KeyOf(e) == k
  {
    if HasKey(rows, k) {
      var i :| 0 <= i < |rows| && KeyOf(rows[i]) == k;
      assert (rows + [e])[i] == rows[i];
    }
    if HasKey(rows + [e], k) && KeyOf(e) != k {
      var i :| 0 <= i < |rows + [e]| && KeyOf((rows + [e])[i]) == k;
      assert i < |rows| && rows[i] == (rows + [e])[i];
    }
    assert (rows + [e])[|rows|] == e;
  }

  lemma InBatchSnoc(items: seq<Item>, date: Date, k: Key)
    requires items != []
    ensures InBatch(items, date, k) <==> InBatch(items[..|items| - 1], date, k) || ItemKey(items[|items| - 1], date) == k
  {
    var init := items[..|items| - 1];
    if InBatch(init, date, k) {
      var j :| 0 <= j < |init| && ItemKey(init[j], date) == k;
      assert items[j] == init[j];
    }
    if InBatch(items, date, k) && ItemKey(items[|items| - 1], date) != k {
      var j :| 0 <= j < |items| && ItemKey(items[j], date) == k;
      assert j < |init| && init[j] == items[j];
    }
  }

  /** After the loop the stored keys are the old ones plus every key of the batch. */
  lemma {:induction false} RunBatchKeys(db: Db, items: seq<Item>, date: Date, failing: set<nat>)
    requires RunBatch(db, items, date, failing).Running?
    ensures forall k :: HasKey(RunBatch(db, items, date, failing).db.rows, k) <==> HasKey(db.rows, k) || InBatch(items, date, k)
  {
    if items == [] {
      assert forall k :: !InBatch(items, date, k);
    } else {
      var n := |items| - 1;
      var init, last := items[..n], items[n];
      var prev := RunBatch(db, init, date, failing);
      RunBatchKeys(db, init, date, failing);
      var after := RunBatch(db, items, date, failing).db.rows;
      var key := ItemKey(last, date);
      forall k ensures HasKey(after, k) <==> HasKey(db.rows, k) || InBatch(items, date, k) {
        InBatchSnoc(items, date, k);
        if !HasKey(prev.db.rows, key) {
          HasKeySnoc(prev.db.rows, NewRow(last, date, prev.db.nextId), k);
        }
      }
    }
  }

  /** The INSERT of the last item meets an existing key exactly when that item is a duplicate. */
  lemma LastItemTag(db: Db, items: seq<Item>, date: Date, failing: set<nat>)
    requires items != [] && RunBatch(db, items[..|items| - 1], date, failing).Running?
    ensures HasKey(RunBatch(db, items[..|items| - 1], date, failing).db.rows, ItemKey(items[|items| - 1], date))
            <==> Duplicate(db, items, date, |items| - 1)
  {
    RunBatchKeys(db, items[..|items| - 1], date, failing);
  }

  /** The last item's tag decides whether `Chosen` takes it. */
  lemma ChosenSnoc(items: seq<Item>, tags: seq<bool>, want: bool)
    requires |tags| == |items| && items != []
    ensures Chosen(items, tags, want) ==
      Chosen(items[..|items| - 1], tags[..|tags| - 1], want) + (if tags[|tags| - 1] == want then [items[|items| - 1]] else [])
  {
  }

  /** The two lists end up holding the dish ids of the inserted and of the duplicate items, in input order. */
  lemma {:induction false} RunBatchResults(db: Db, items: seq<Item>, date: Date, failing: set<nat>)
    requires RunBatch(db, items, date, failing).Running?
    ensures var tags := Tags(db, items, date);
      RunBatch(db, items, date, failing).results == Results(DishIds(Chosen(items, tags, true)), DishIds(Chosen(items, tags, false)))
  {
    if items != [] {
      var n := |items| - 1;
      var init, last := items[..n], items[n];
      RunBatchResults(db, init, date, failing);
      LastItemTag(db, items, date, failing);
      var t, tags := Tags(db, init, date), Tags(db, items, date);
      assert tags[..n] == t;
      ChosenSnoc(items, tags, true);
      ChosenSnoc(items, tags, false);
      var c := Chosen(init, t, !tags[n]);
      assert (c + [last])[..|c|] == c;
    }
  }

  /** The rows of the inserted items are appended in input order, with consecutive ids from the counter. */
  lemma {:induction false} RunBatchRows(db: Db, items: seq<Item>, date: Date, failing: set<nat>)
    requires RunBatch(db, items, date, failing).Running?
    ensures var b := RunBatch(db, items, date, failing);
      var chosen := Chosen(items, Tags(db, items, date), true);
      b.db.rows == db.rows + Inserted(chosen, date, db.nextId) && b.db.nextId == db.nextId + |chosen|
  {
    if items != [] {
      var n := |items| - 1;
      var init, last := items[..n], items[n];
      var prev := RunBatch(db, init, date, failing);
      var b := RunBatch(db, items, date, failing);
      RunBatchRows(db, init, date, failing);
      LastItemTag(db, items, date, failing);
      var t, tags := Tags(db, init, date), Tags(db, items, date);
      assert tags[..n] == t;
      ChosenSnoc(items, tags, true);
      var dup := Duplicate(db, items, date, n);
      RowsStep(db.rows, db.nextId, prev.db.rows, prev.db.nextId, Chosen(init, t, true), last, date, dup, b.db.rows, b.db.nextId);
    }
  }

  /** One iteration's effect on the appended rows and the counter. */
  lemma RowsStep(rows: seq<Evaluation>, next: nat, prevRows: seq<Evaluation>, prevNext: nat, chosen: seq<Item>,
                 last: Item, date: Date, dup: bool, newRows: seq<Evaluation>, newNext: nat)
    requires prevRows == rows + Inserted(chosen, date, next) && prevNext == next + |chosen|
    requires dup ==> newRows == prevRows && newNext == prevNext
    requires !dup ==> newRows == prevRows + [NewRow(last, date, prevNext)] && newNext == prevNext + 1
    ensures var c := chosen + (if dup then [] else [last]);
      newRows == rows + Inserted(c, date, next) && newNext == next + |c|
  {
    if dup {
      assert chosen + [] == chosen;
    } else {
      InsertedSnoc(chosen, last, date, next);
    }
  }

  lemma InsertedSnoc(items: seq<Item>, last: Item, date: Date, start: nat)
    ensures Inserted(items + [last], date, start) == Inserted(items, date, start) + [NewRow(last, date, start + |items|)]
  {
    assert (items + [last])[..|items|] == items;
  }

  lemma {:induction false} ChosenLengths(items: seq<Item>, tags: seq<bool>)
    requires |tags| == |items|
    ensures |Chosen(items, tags, true)| + |Chosen(items, tags, false)| == |items|
  {
    if items != [] {
      ChosenLengths(items[..|items| - 1], tags[..|tags| - 1]);
    }
  }

  /** The loop over a batch is thrown out of exactly when some item's statements raise an error other than a duplicate key. */
  lemma {:induction false} RunBatchAbortsIff(db: Db, items: seq<Item>, date: Date, failing: set<nat>)
    ensures RunBatch(db, items, date, failing).Aborted? <==> exists i :: 0 <= i < |items| && i in failing
  {
    if items != [] {
      RunBatchAbortsIff(db, items[..|items| - 1], date, failing);
      var n := |items| - 1;
      if exists i :: 0 <= i < n && i in failing {
        var i :| 0 <= i < n && i in failing;
        assert 0 <= i < |items| && i in failing;
      }
    }
  }

  /** The loop keeps the table constraints and exact aggregates; rows are only appended, one per recorded success. */
  lemma {:induction false} RunBatchPreserves(db: Db, items: seq<Item>, date: Date, failing: set<nat>)
    requires RunBatch(db, items, date, failing).Running?
    ensures var b := RunBatch(db, items, date, failing);
      && (Valid(db) ==> Valid(b.db))
      && (Consistent(db) ==> Consistent(b.db))
      && |b.db.rows| == |db.rows| + |b.results.success|
      && b.db.rows[..|db.rows|] == db.rows
      && b.db.nextId == db.nextId + |b.results.success|
      && b.db.dishes.Keys == db.dishes.Keys
  {
    if items != [] {
      var init := items[..|items| - 1];
      var prev := RunBatch(db, init, date, failing);
      var last := items[|items| - 1];
      RunBatchPreserves(db, init, date, failing);
      if !HasKey(prev.db.rows, Key(last.dishId, last.userId, date)) {
        if Valid(db) { AddRowKeepsValid(prev.db, last, date); }
        if Consistent(db) { AddRowKeepsConsistent(prev.db, last, date); }
        var b := RunBatch(db, items, date, failing);
        assert b.db.rows[..|db.rows|] == prev.db.rows[..|db.rows|];
      }
    }
  }

  /**
   * After the loop, every dish that received a row has rating_count equal
   * to its number of rows and rating equal to their mean; every other dish
   * keeps its aggregate.
   */
  lemma {:induction false} RunBatchAggregates(db: Db, items: seq<Item>, date: Date, failing: set<nat>)
    requires RunBatch(db, items, date, failing).Running?
    ensures var b := RunBatch(db, items, date, failing);
      && (forall d :: d in b.results.success && d in b.db.dishes ==> b.db.dishes[d] == Recomputed(b.db.rows, d))
      && (forall d :: d in db.dishes && d !in b.results.success ==> d in b.db.dishes && b.db.dishes[d] == db.dishes[d])
  {
    if items != [] {
      var init := items[..|items| - 1];
      var prev := RunBatch(db, init, date, failing);
      var last := items[|items| - 1];
      RunBatchAggregates(db, init, date, failing);
      RunBatchPreserves(db, init, date, failing);
      if !HasKey(prev.db.rows, Key(last.dishId, last.userId, date)) {
        var row := NewRow(last, date, prev.db.nextId);
        forall d | d in prev.results.success && d in prev.db.dishes && d != last.dishId
          ensures Recomputed(prev.db.rows + [row], d) == Recomputed(prev.db.rows, d)
        {
          RecomputedIgnoresOtherDish(prev.db.rows, row, d);
        }
      }
    }
  }

  /** A batch that records no success leaves the store exactly as it was. */
  lemma {:induction false} RunBatchAllDuplicates(db: Db, items: seq<Item>, date: Date, failing: set<nat>)
    requires RunBatch(db, items, date, failing).Running?
    ensures RunBatch(db, items, date, failing).results.success == [] ==> RunBatch(db, items, date, failing).db == db
  {
    if items != [] {
      var init := items[..|items| - 1];
      var prev := RunBatch(db, init, date, failing);
      var last := items[|items| - 1];
      if HasKey(prev.db.rows, Key(last.dishId, last.userId, date)) {
        RunBatchAllDuplicates(db, init, date, failing);
      }
    }
  }

  /** POST `/evaluations`: validation, one transaction over the batch, COMMIT or ROLLBACK, and the response. */
  function Submit(db: Db, body: Body, date: Date, faults: Faults): (r: Outcome<SubmitResponse>)
    ensures !WellFormed(body) ==> r == Outcome(InvalidFormat, db) && SubmitStatus(r.response) == 400
    ensures r.response == InvalidFormat <==> !WellFormed(body)
    ensures r.response.SubmitFailed? ==> r.db == db
    ensures WellFormed(body) ==>
      (r.response.SubmitFailed? <==> faults.connection || faults.commit || exists i :: 0 <= i < |body.items| && i in faults.items)
    ensures r.response.Submitted? ==>
      var res := r.response.results;
      var tags := Tags(db, body.items, date);
      var inserted := Chosen(body.items, tags, true);
      && res == Results(DishIds(inserted), DishIds(Chosen(body.items, tags, false)))
      && |res.success| + |res.duplicates| == |body.items|
      && r.response == Respond(res)
      && r.db.rows == db.rows + Inserted(inserted, date, db.nextId)
      && r.db.nextId == db.nextId + |inserted|
      && r.db.dishes.Keys == db.dishes.Keys
      && (forall d :: d in res.success && d in r.db.dishes ==> r.db.dishes[d] == Recomputed(r.db.rows, d))
      && (forall d :: d in db.dishes && d !in res.success ==> d in r.db.dishes && r.db.dishes[d] == db.dishes[d])
      && (res.success == [] ==> r.db == db)
    ensures Valid(db) ==> Valid(r.db)
    ensures Consistent(db) ==> Consistent(r.db)
  {
    if !WellFormed(body) then Outcome(InvalidFormat, db)
    else if faults.connection then Outcome(SubmitFailed, db)
    else
      var b := RunBatch(db, body.items, date, faults.items);
      RunBatchAbortsIff(db, body.items, date, faults.items);
      match b
      case Aborted => Outcome(SubmitFailed, db)
      case Running(db', res) =>
        RunBatchResults(db, body.items, date, faults.items);
        RunBatchRows(db, body.items, date, faults.items);
        ChosenLengths(body.items, Tags(db, body.items, date));
        RunBatchPreserves(db, body.items, date, faults.items);
        RunBatchAggregates(db, body.items, date, faults.items);
        RunBatchAllDuplicates(db, body.items, date, faults.items);
        if faults.commit then Outcome(SubmitFailed, db) else Outcome(Respond(res), db')
  }

  /** The single-item batch `[item]` with no store faults. */
  function SubmitOne(db: Db, item: Item, date: Date): Outcome<SubmitResponse> {
    Submit(db, Evaluations([item]), date, Faults(false, {}, false))
  }

  /** A single evaluation is committed, as a success when its key is new and as a duplicate when it is stored. */
  lemma SubmitOneOutcome(db: Db, item: Item, date: Date)
    ensures var r := SubmitOne(db, item, date);
      && r.response.Submitted?
      && r.response.results == if HasKey(db.rows, ItemKey(item, date)) then Results([], [item.dishId]) else Results([item.dishId], [])
  {
    var items := [item];
    var tags := Tags(db, items, date);
    assert !InBatch(items[..0], date, ItemKey(item, date));
    assert items[..0] == [] && tags[..0] == [];
  }

  /** Submitting the same evaluation again on the same day is reported as a duplicate and changes nothing. */
  lemma ResubmitIsDuplicate(db: Db, item: Item, date: Date)
    ensures var first := SubmitOne(db, item, date);
      var second := SubmitOne(first.db, item, date);
      && second.response == Submitted(false, AllDuplicate, Results([], [item.dishId]))
      && second.db == first.db
  {
    var items := [item];
    assert items[..0] == [];
    var key := Key(item.dishId, item.userId, date);
    var first := SubmitOne(db, item, date);
    if !HasKey(db.rows, key) {
      assert KeyOf(first.db.rows[|db.rows|]) == key;
    }
    assert HasKey(first.db.rows, key);
  }

  /** A dish without evaluations that receives its first one gets that rating as its average, counted once. */
  lemma FirstEvaluationSetsRating(db: Db, item: Item, date: Date)
    requires item.dishId in db.dishes && CountFor(db.rows, item.dishId) == 0
    ensures var r := SubmitOne(db, item, date);
      && r.response == Submitted(true, AllSubmitted, Results([item.dishId], []))
      && item.dishId in r.db.dishes
      && r.db.dishes[item.dishId] == Dish(Some(item.rating as real), 1)
  {
    NoRowsForDish(db.rows, item.dishId);
    assert !HasKey(db.rows, ItemKey(item, date));
    SubmitOneFresh(db, item, date);
    FirstTally(db.rows, NewRow(item, date, db.nextId));
  }

  /** A single evaluation whose key is new is inserted, recorded as a success and its dish recomputed. */
  lemma SubmitOneFresh(db: Db, item: Item, date: Date)
    requires !HasKey(db.rows, ItemKey(item, date))
    ensures var r := SubmitOne(db, item, date);
      && r.response == Submitted(true, AllSubmitted, Results([item.dishId], []))
      && r.db.rows == db.rows + [NewRow(item, date, db.nextId)]
      && r.db.dishes.Keys == db.dishes.Keys
      && (item.dishId in r.db.dishes ==> r.db.dishes[item.dishId] == Recomputed(r.db.rows, item.dishId))
  {
    var items := [item];
    assert items[..0] == [];
    assert RunBatch(db, items, date, {}) == Running(Refresh(AddRow(db, item, date), item.dishId), Results([item.dishId], []));
  }

  /** The first row of a dish makes its aggregate that row's rating, counted once. */
  lemma FirstTally(rows: seq<Evaluation>, row: Evaluation)
    requires CountFor(rows, row.dishId) == 0 && SumFor(rows, row.dishId) == 0
    ensures Recomputed(rows + [row], row.dishId) == Dish(Some(row.rating as real), 1)
  {
    TalliesSnoc(rows, row, row.dishId);
    assert row.rating as real / 1 as real == row.rating as real;
  }

  /**
   * A batch whose keys are all new and pairwise distinct is inserted in
   * full: every dish id is a success, and the rows are appended in input
   * order with consecutive ids.
   */
  lemma BatchOfNewKeys(db: Db, items: seq<Item>, date: Date)
    requires items != []
    requires forall i :: 0 <= i < |items| ==> !HasKey(db.rows, ItemKey(items[i], date))
    requires forall i, j :: 0 <= i < j < |items| ==> ItemKey(items[i], date) != ItemKey(items[j], date)
    ensures var r := Submit(db, Evaluations(items), date, Faults(false, {}, false));
      && r.response == Submitted(true, AllSubmitted, Results(DishIds(items), []))
      && r.db.rows == db.rows + Inserted(items, date, db.nextId)
  {
    var tags := Tags(db, items, date);
    assert forall i :: 0 <= i < |items| ==> tags[i];
    ChosenAll(items, tags, true);
  }

  lemma {:induction false} ChosenAll(items: seq<Item>, tags: seq<bool>, want: bool)
    requires |tags| == |items| && forall i :: 0 <= i < |tags| ==> tags[i] == want
    ensures Chosen(items, tags, want) == items && Chosen(items, tags, !want) == []
  {
    if items != [] {
      ChosenAll(items[..|items| - 1], tags[..|tags| - 1], want);
      assert items == items[..|items| - 1] + [items[|items| - 1]];
    }
  }

  /** A dish counted zero times has no row and a zero sum. */
  lemma {:induction false} NoRowsForDish(rows: seq<Evaluation>, dishId: int)
    requires CountFor(rows, dishId) == 0
    ensures SumFor(rows, dishId) == 0
    ensures forall i :: 0 <= i < |rows| ==> rows[i].dishId != dishId
  {
    if rows != [] {
      var init := rows[..|rows| - 1];
      NoRowsForDish(init, dishId);
      assert forall i :: 0 <= i < |init| ==> rows[i] == init[i];
    }
  }

  /** The handler of POST `/evaluations`, issuing one statement at a time against the store. */
  method SubmitEvaluations(store: Store, body: Body, date: Date, faults: Faults) returns (response: SubmitResponse)
    modifies store
    ensures Outcome(response, store.State()) == Submit(old(store.State()), body, date, faults)
  {
    if !body.Evaluations? || |body.items| == 0 {
      return InvalidFormat;
    }
    if faults.connection {
      return SubmitFailed;
    }
    var items := body.items;
    var snapshot := store.State();
    var success, duplicates := [], [];
    var i := 0;
    while i < |items|
      invariant 0 <= i <= |items|
      invariant RunBatch(snapshot, items[..i], date, faults.items) == Running(store.State(), Results(success, duplicates))
    {
      assert items[..i + 1][..i] == items[..i];
      var item := items[i];
      if i in faults.items {
        store.Rollback(snapshot);
        RunBatchAbortsIff(snapshot, items, date, faults.items);
        return SubmitFailed;
      }
      var duplicate := store.Insert(item, date);
      if duplicate {
        duplicates := duplicates + [item.dishId];
      } else {
        store.UpdateRating(item.dishId);
        success := success + [item.dishId];
      }
      i := i + 1;
    }
    assert items[..i] == items;
    if faults.commit {
      store.Rollback(snapshot);
      return SubmitFailed;
    }
    response := Respond(Results(success, duplicates));
  }

  // POST /evaluations/delete

  datatype DeleteResponse =
    | MissingParams   // 400, "参数不完整"
    | Forbidden       // 403, "无权删除此评价"
    | DeleteFailed    // 500
    | Deleted         // 200, "删除成功"

  /** Where the store raises an error: at the ownership SELECT, or inside the DELETE/UPDATE/COMMIT transaction. */
  datatype DeleteFaults = DeleteFaults(lookup: bool, transaction: bool)

  /** The HTTP status of each response. */
  function DeleteStatus(r: DeleteResponse): int {
    match r
    case MissingParams => 400
    case Forbidden => 403
    case DeleteFailed => 500
    case Deleted => 200
  }

  /** JavaScript truthiness of the body fields: absent, 0 and "" are falsy. */
  predicate IdGiven(id: Option<int>) { id.Some? && id.value != 0 }
  predicate UserGiven(userId: Option<string>) { userId.Some? && userId.value != "" }

  predicate Owns(e: Evaluation, id: int, userId: string) {
    e.id == id && e.userId == userId
  }

  /** `SELECT dish_id FROM dish_evaluations WHERE id = ? AND user_id = ?`, first row. */
  function OwnedDish(rows: seq<Evaluation>, id: int, userId: string): (r: Option<int>)
    ensures r.None? <==> forall i :: 0 <= i < |rows| ==> !Owns(rows[i], id, userId)
    ensures r.Some? ==> exists i :: 0 <= i < |rows| && Owns(rows[i], id, userId) && rows[i].dishId == r.value
  {
    if rows == [] then None
    else if Owns(rows[0], id, userId) then Some(rows[0].dishId)
    else
      var r := OwnedDish(rows[1..], id, userId);
      assert forall i :: 1 <= i < |rows| ==> rows[i] == rows[1..][i - 1];
      r
  }

  /** POST `/evaluations/delete`. */
  function Delete(db: Db, id: Option<int>, userId: Option<string>, faults: DeleteFaults): (r: Outcome<DeleteResponse>)
    ensures r.response != Deleted ==> r.db == db
    ensures r.response == MissingParams <==> !IdGiven(id) || !UserGiven(userId)
    ensures DeleteStatus(r.response) == 400 <==> !IdGiven(id) || !UserGiven(userId)
    ensures DeleteStatus(r.response) == 500 <==>
      IdGiven(id) && UserGiven(userId) &&
      (faults.lookup || (faults.transaction && exists i :: 0 <= i < |db.rows| && Owns(db.rows[i], id.value, userId.value)))
    ensures r.response == Forbidden <==>
      IdGiven(id) && UserGiven(userId) && !faults.lookup &&
      forall i :: 0 <= i < |db.rows| ==> !Owns(db.rows[i], id.value, userId.value)
    ensures r.response == Deleted <==>
      IdGiven(id) && UserGiven(userId) && !faults.lookup && !faults.transaction &&
      exists i :: 0 <= i < |db.rows| && Owns(db.rows[i], id.value, userId.value)
    ensures r.response == Deleted ==>
      && (forall e :: e in r.db.rows <==> e in db.rows && e.id != id.value)
      && r.db.nextId == db.nextId && r.db.dishes.Keys == db.dishes.Keys
    ensures r.response == Deleted && IdsUnique(db.rows) ==>
      exists k :: 0 <= k < |db.rows| && Owns(db.rows[k], id.value, userId.value) && r.db.rows == db.rows[..k] + db.rows[k + 1..]
    ensures r.response == Deleted ==>
      var d := OwnedDish(db.rows, id.value, userId.value).value;
      && (d in r.db.dishes ==> r.db.dishes[d] == Recomputed(r.db.rows, d))
      && (forall d' :: d' in db.dishes && d' != d ==> r.db.dishes[d'] == db.dishes[d'])
    ensures Valid(db) ==> Valid(r.db)
    ensures Consistent(db) && IdsUnique(db.rows) ==> Consistent(r.db)
  {
    if !IdGiven(id) || !UserGiven(userId) then Outcome(MissingParams, db)
    else if faults.lookup then Outcome(DeleteFailed, db)
    else
      match OwnedDish(db.rows, id.value, userId.value)
      case None => Outcome(Forbidden, db)
      case Some(dishId) =>
        if faults.transaction then Outcome(DeleteFailed, db)
        else
          var db' := Refresh(RemoveRow(db, id.value), dishId);
          var k :| 0 <= k < |db.rows| && Owns(db.rows[k], id.value, userId.value) && db.rows[k].dishId == dishId;
          DeleteKeepsInvariants(db, k);
          Outcome(Deleted, db')
  }

  /** Deleting the row at index k by its id, then refreshing its dish: what the table constraints make of it. */
  lemma DeleteKeepsInvariants(db: Db, k: nat)
    requires k < |db.rows|
    ensures IdsUnique(db.rows) ==> RemoveId(db.rows, db.rows[k].id) == db.rows[..k] + db.rows[k + 1..]
    ensures IdsUnique(db.rows) && Consistent(db) ==> Consistent(Refresh(RemoveRow(db, db.rows[k].id), db.rows[k].dishId))
    ensures Valid(db) ==> Valid(RemoveRow(db, db.rows[k].id))
  {
    if IdsUnique(db.rows) {
      RemoveIdExactlyOne(db.rows, k);
      if Consistent(db) {
        RemoveRowKeepsConsistent(db, db.rows[k].id, db.rows[k].dishId);
      }
      if KeysUnique(db.rows) {
        RemoveIdKeepsUnique(db.rows, db.rows[k].id);
      }
    }
  }

  /** The handler of POST `/evaluations/delete`: ownership check outside the transaction, then DELETE and UPDATE inside it. */
  method DeleteEvaluation(store: Store, id: Option<int>, userId: Option<string>, faults: DeleteFaults) returns (response: DeleteResponse)
    modifies store
    ensures Outcome(response, store.State()) == Delete(old(store.State()), id, userId, faults)
  {
    if !IdGiven(id) || !UserGiven(userId) {
      return MissingParams;
    }
    if faults.lookup {
      return DeleteFailed;
    }
    var owned := OwnedDish(store.rows, id.value, userId.value);
    if owned.None? {
      return Forbidden;
    }
    var dishId := owned.value;
    var snapshot := store.State();
    store.DeleteRow(id.value);
    store.UpdateRating(dishId);
    if faults.transaction {
      store.Rollback(snapshot);
      return DeleteFailed;
    }
    response := Deleted;
  }
}
