# Canteen evaluations and DingTalk sign-on, modelled in Dafny

This is the backend of a canteen menu application. Users rate the dishes they ate. Each rating is a row of
`dish_evaluations`, and the table allows one row per (dish, user, day). Every insert or delete recomputes
the dish's `rating` (the AVG of its rows) and `rating_count` (their COUNT) inside the same transaction.
Users sign in with a DingTalk login code. The server swaps that code for a user id and the user's profile
at the DingTalk gateway, using an access token it caches in the process. It then upserts the user into
`app_users`.

The project models two route files.

- `routes/evaluations.js`, the evaluation routes:
  - POST `/evaluations`: a batch insert in one transaction. Duplicates are recovered per item, any other
    error rolls back the whole batch, and one of three messages is returned.
  - GET `/evaluations/check`: has this user rated this dish today?
  - GET `/evaluations/user`: the user's evaluations, filtered by date, newest first, one page at a time.
  - POST `/evaluations/delete`: an ownership check, then a transactional delete and recompute.
- `routes/dingtalk.js`, the sign-on routes:
  - the one-slot access-token cache `getAccessToken`;
  - POST `/dingtalk/verifyUser`.

## Layout

- `wrappers.dfy`: `Option`.
- `evaluation_tables.dfy` (module `EvaluationTables`):
  - the tables as values (`Db`): `dish_evaluations` rows in insertion order, dish aggregates, and the
    auto-increment counter;
  - the table constraints (`Valid`) and the aggregate invariant (`Consistent`): each dish's aggregate
    equals `Recomputed` from its rows;
  - the class `Store`, whose methods are the SQL statements the routes issue.
- `evaluations.dfy` (module `Evaluations`):
  - POST `/evaluations` and POST `/evaluations/delete`, each as a pure specification function (`Submit`,
    `Delete`);
  - a handler method that drives a `Store` statement by statement and is proved equal to its function;
  - the lemmas about those functions.
- `evaluation_listing.dfy` (module `EvaluationListing`):
  - GET `/check` and GET `/user`;
  - the WHERE clause built by pushing conditions;
  - ORDER BY date DESC, id DESC as an insertion sort with a proof that the order is unique;
  - LIMIT/OFFSET and `Math.ceil`.
- `dingtalk.dfy` (module `DingTalk`):
  - the token cache as a class and as a pure function;
  - runs of successive calls;
  - the `app_users` upsert;
  - POST `/dingtalk/verifyUser`.

## Modelling choices

- **Store errors as arguments.** The store can fail for reasons the tables cannot predict: connection
  loss, a bind error, a failed COMMIT. These failures are arguments that say where they happen
  (`Faults`, `DeleteFaults`, `fails`, `storeFails`). The uniqueness violation is different: the model
  computes it from the rows.
- **Gateway replies as arguments.** The remote gateway's replies are arguments too (`TokenReply`,
  `Gateway`), and so are the clocks (`now`, `loginTime`, `date`, `today`).
- **Dates and ratings.** A date is a day number. `rating` is NULL (`None`) when AVG runs over no rows, and
  otherwise it is exactly SUM/COUNT as a real number.
- **JavaScript truthiness and defaults.**
  - The request fields are encoded one by one:
    - `userId` (of `/check`, `/user` and `/delete`): absent is `None`. Both `None` and `Some("")` are
      falsy and give the 400.
    - `code` (of `/verifyUser`): absent or empty is `""`, which gives the 400.
    - `dishId` (of `/check`, a query string): absent or empty (`dishId=`) is `None`, which gives the 400
      (routes/evaluations.js:120). Any other string is truthy, `dishId=0` included, and is `Some` of its
      number.
    - `id` (of `/delete`, a JSON body field): absent, `null`, `""` and `0` are falsy. The caller passes
      `None` or `Some(0)`, and both give the 400 (routes/evaluations.js:318).
    - `startDate` and `endDate`: absent or empty is `None`, so no condition is pushed
      (routes/evaluations.js:232-240).
    - `page` and `pageSize`: these are not truthiness tests. Each takes its default (1 and 10) only when it
      is absent, through `page = 1, pageSize = 10` in the destructuring at routes/evaluations.js:217, so
      absent is `None`. A present value is `Some` of its number. An empty `page=` is present, and the
      arithmetic turns `""` into 0, so it is `Some(0)`.
  - A missing `expires_in` makes the expiry time `NaN`. No comparison with `NaN` holds, so the next call
    fetches again.
- **Behaviour of the code worth noting.**
  - A gettoken answer without `access_token` is not an error (routes/dingtalk.js:42-52). `getAccessToken`
    returns the falsy value and caches it, so the next call fetches again. `GetToken` gives `Token("")`.
  - The ownership SELECT of `/delete` runs before `beginTransaction` (routes/evaluations.js:323-336), so it
    is outside the transaction. `DeleteFaults` has a separate `lookup` fault for it.
  - The doc comment of `/user` lists a `companyId` parameter (routes/evaluations.js:209), but the filter on
    it is commented out (routes/evaluations.js:227-230). The model ignores `companyId`.
- **`/user` counts and pages different rows.** The COUNT query of `/user` has no JOIN, but the page query
  joins `dishes`. So `total` counts evaluations whose dish is missing, while the pages leave them out.
  `ListUser` states both.

## Model

| member | source | states |
|---|---|---|
| EvaluationTables.HasKey | routes/evaluations.js:61-64 | a stored row has the (dish, user, day) key whose second INSERT raises ER_DUP_ENTRY |
| EvaluationTables.CountFor | routes/evaluations.js:53-55 | COUNT(*) of the dish's rows |
| EvaluationTables.SumFor | routes/evaluations.js:51-52 | the sum of the ratings of the dish's rows, from which AVG is taken |
| EvaluationTables.Recomputed | routes/evaluations.js:51-55 | the aggregate pair: AVG (NULL over no rows) and COUNT of the dish's rows |
| EvaluationTables.NewRow | routes/evaluations.js:44-47 | the INSERTed row: the item's columns, the day and the next id |
| EvaluationTables.AddRow | routes/evaluations.js:44-47 | the INSERT appends the new row and advances the counter |
| EvaluationTables.RemoveRow | routes/evaluations.js:340 | the DELETE by id on the tables |
| EvaluationTables.Refresh | routes/evaluations.js:50-57 | the aggregate UPDATE sets the dish's rating/count to AVG/COUNT of its rows when the dish exists; rows, counter and every other dish are untouched |
| EvaluationTables.RemoveId | routes/evaluations.js:340 | DELETE by id keeps exactly the rows whose id differs, and never adds rows |
| EvaluationTables.TalliesSnoc | routes/evaluations.js:51-55 | one more row changes COUNT by one and SUM by its rating for its own dish only |
| EvaluationTables.RecomputedIgnoresOtherDish | routes/evaluations.js:51-55 | a row for another dish leaves this dish's AVG/COUNT unchanged |
| EvaluationTables.TalliesAfterRemove | routes/evaluations.js:340-348 | deleting rows of other dishes leaves this dish's COUNT and SUM unchanged |
| EvaluationTables.RecomputedAfterRemove | routes/evaluations.js:340-348 | deleting rows of other dishes leaves this dish's AVG/COUNT unchanged |
| EvaluationTables.AddRowKeepsConsistent | routes/evaluations.js:44-57 | INSERT followed by the aggregate UPDATE keeps every dish's aggregate equal to AVG/COUNT of its rows |
| EvaluationTables.AddRowKeepsValid | routes/evaluations.js:44-47 | an INSERT with a new (dish, user, day) key keeps keys unique, ids unique and ids below the counter |
| EvaluationTables.RemoveRowKeepsConsistent | routes/evaluations.js:340-350 | DELETE of a row of dish d followed by recomputing d keeps every aggregate exact |
| EvaluationTables.SnocKeepsUnique | routes/evaluations.js:44-47 | appending a row with a fresh key and id keeps keys and ids unique |
| EvaluationTables.RemoveIdKeepsUnique | routes/evaluations.js:340 | DELETE keeps keys and ids unique |
| EvaluationTables.RemoveIdExactlyOne | routes/evaluations.js:340 | with unique ids, deleting by row k's id removes exactly row k and keeps the rest in order |
| EvaluationTables.RemoveIdSnoc | routes/evaluations.js:340 | deleting by id from rows plus one row is deleting from the rows and keeping that row unless it has the id |
| EvaluationTables.RemoveIdAbsent | routes/evaluations.js:340 | deleting an id no row has changes nothing |
| EvaluationTables.Store.constructor | routes/evaluations.js:8 | the store starts with the given tables |
| EvaluationTables.Store.Insert | routes/evaluations.js:44-47 | INSERT reports a duplicate exactly when the (dish, user, day) key is present, and then changes nothing; otherwise it appends the row with the next id |
| EvaluationTables.Store.UpdateRating | routes/evaluations.js:50-57 | the new state is the aggregate UPDATE of that dish |
| EvaluationTables.Store.DeleteRow | routes/evaluations.js:340 | the new state drops the rows with that id |
| EvaluationTables.Store.Rollback | routes/evaluations.js:96-99 | the state returns to the BEGIN snapshot |
| Evaluations.Step | routes/evaluations.js:39-71 | one iteration records an existing key as a duplicate and leaves the store alone; otherwise it appends the row, recomputes that dish and records a success; a non-duplicate error aborts |
| Evaluations.WellFormed | routes/evaluations.js:19 | the body passes the 400 test: `evaluations` is present, an array and not empty |
| Evaluations.SubmitStatus | routes/evaluations.js:20-106 | 400 for the format error, 500 after a rollback, 200 for a committed batch |
| Evaluations.Duplicate | routes/evaluations.js:44-64 | an item's INSERT raises ER_DUP_ENTRY: its key is stored already or taken by an earlier item of the same batch |
| Evaluations.Respond | routes/evaluations.js:77-95 | success flag iff some item succeeded; the partly-duplicate, all-submitted and all-duplicate messages under exactly their conditions |
| Evaluations.RunBatch | routes/evaluations.js:39-71 | the loop as one Step per item, in input order, starting from empty lists; its properties are the RunBatch lemmas below |
| Evaluations.RunBatchAbortsIff | routes/evaluations.js:61-69 | the loop aborts iff some item hits a non-duplicate error |
| Evaluations.Tags | routes/evaluations.js:39-65 | item i is inserted exactly when its (dish, user, day) key is neither stored nor taken by an earlier item of the batch; otherwise it is a duplicate |
| Evaluations.DishIds | routes/evaluations.js:60-64 | the pushed list holds the dish id of each chosen item, one per item, in order |
| Evaluations.Inserted | routes/evaluations.js:44-47 | the INSERTs of a list of items create one row per item, in order, with consecutive ids from the counter |
| Evaluations.HasKeySnoc | routes/evaluations.js:44-47 | a key is present after an INSERT iff it was present before or is the new row's key |
| Evaluations.InBatchSnoc | routes/evaluations.js:39-40 | a key occurs in a batch iff it occurs before the last item or is the last item's key |
| Evaluations.RunBatchKeys | routes/evaluations.js:39-71 | after the loop the stored keys are the old ones plus every key of the batch |
| Evaluations.LastItemTag | routes/evaluations.js:44-65 | an item's INSERT meets an existing key exactly when that item is a duplicate |
| Evaluations.ChosenSnoc | routes/evaluations.js:59-65 | the last item joins the list its tag selects and no other |
| Evaluations.RunBatchResults | routes/evaluations.js:59-65 | success holds the dish ids of the inserted items and duplicates those of the duplicate items, both in input order |
| Evaluations.RunBatchRows | routes/evaluations.js:44-47 | the loop appends exactly the rows of the inserted items, with consecutive ids, and advances the counter by their number |
| Evaluations.RowsStep | routes/evaluations.js:44-65 | one iteration extends the appended rows by the item's row, unless the item is a duplicate |
| Evaluations.InsertedSnoc | routes/evaluations.js:44-47 | one more INSERT appends one row carrying the next id |
| Evaluations.ChosenLengths | routes/evaluations.js:59-65 | the inserted and the duplicate items together are as many as the batch |
| Evaluations.ChosenAll | routes/evaluations.js:59-60 | when every item is selected, the selection is the whole batch and the other list is empty |
| Evaluations.RunBatchPreserves | routes/evaluations.js:39-71 | the loop keeps the table constraints and exact aggregates, only appends rows (one per success) and keeps the dish set |
| Evaluations.RunBatchAggregates | routes/evaluations.js:49-57 | every dish that got a row ends with AVG/COUNT of its rows; every other dish keeps its aggregate |
| Evaluations.RunBatchAllDuplicates | routes/evaluations.js:61-65 | a batch with no success leaves the store exactly as it was |
| Evaluations.Submit | routes/evaluations.js:15-108 | 400 iff the list is missing, not an array or empty; 500 with no change iff a connection, item or commit error; otherwise an item is a duplicate iff its key is stored or taken by an earlier item, success/duplicates hold the dish ids of the inserted/duplicate items in input order, the message follows, exactly the inserted items' rows are appended with consecutive ids, the touched dishes are recomputed, the others untouched, and the invariants kept |
| Evaluations.SubmitOneOutcome | routes/evaluations.js:39-95 | a single evaluation is committed: as a success when its key is new, as a duplicate when it is stored |
| Evaluations.ResubmitIsDuplicate | routes/evaluations.js:44-65 | submitting the same evaluation a second time on the same day reports it as a duplicate with success false and leaves the tables unchanged |
| Evaluations.SubmitOneFresh | routes/evaluations.js:15-95 | one evaluation whose key is not stored is inserted as the next row, reported as all submitted, and its dish recomputed |
| Evaluations.FirstTally | routes/evaluations.js:51-55 | the first row of a dish makes AVG its rating and COUNT 1 |
| Evaluations.BatchOfNewKeys | routes/evaluations.js:15-95 | a batch of new, pairwise distinct keys is inserted in full: all dish ids succeed, the message is all-submitted, and one row per item is appended in order |
| Evaluations.FirstEvaluationSetsRating | routes/evaluations.js:50-57 | the first evaluation of a dish with rating r leaves the dish with rating exactly r and count 1 |
| Evaluations.NoRowsForDish | routes/evaluations.js:51-55 | a dish with COUNT 0 has no rows and SUM 0 |
| Evaluations.SubmitEvaluations | routes/evaluations.js:15-108 | the statement-by-statement handler, with rollback on a fault, produces exactly Submit's response and tables |
| Evaluations.IdGiven | routes/evaluations.js:318 | the body id is truthy: present and not 0 |
| Evaluations.UserGiven | routes/evaluations.js:318 | the body userId is truthy: present and not empty |
| Evaluations.DeleteStatus | routes/evaluations.js:319-367 | 400, 403, 500 and 200 for the four responses of `/delete` |
| Evaluations.OwnedDish | routes/evaluations.js:323-332 | the ownership SELECT finds nothing iff no row has that id and user, and otherwise returns the dish of such a row |
| Evaluations.Delete | routes/evaluations.js:313-368 | 400 iff id or user is falsy; 403 iff no owned row; 500 iff the SELECT fails or, for an owned row, the transaction fails; success iff owned and no fault; on success, exactly that row goes, its dish is recomputed, every other dish is untouched and invariants are kept; otherwise nothing changes |
| Evaluations.DeleteKeepsInvariants | routes/evaluations.js:338-353 | deleting row k by id and recomputing its dish removes exactly row k under unique ids, and keeps the constraints and the exact aggregates |
| Evaluations.DeleteEvaluation | routes/evaluations.js:313-368 | the handler (check, DELETE, UPDATE, rollback on fault) produces exactly Delete's response and tables |
| EvaluationListing.Filter | routes/evaluations.js:129-132 | a WHERE clause keeps exactly the rows that satisfy it, each as often as in the table |
| EvaluationListing.FilterSamePredicate | routes/evaluations.js:242-248 | two equivalent WHERE clauses select the same rows in the same order |
| EvaluationListing.Check | routes/evaluations.js:116-142 | 400 iff dish or user is missing; 500 iff the query fails; otherwise hasEvaluated iff a row with that dish, user and today's date exists |
| EvaluationListing.CheckFindsKey | routes/evaluations.js:129-135 | a successful /check answers exactly whether the (dish, user, today) key is stored |
| EvaluationListing.CheckPredictsDuplicate | routes/evaluations.js:129-135 | /check says true exactly when submitting that dish for that user today would be reported as a duplicate |
| EvaluationListing.Holds | routes/evaluations.js:224-240 | one pushed condition with its parameter: the user, the lower or the upper date bound |
| EvaluationListing.HoldsAll | routes/evaluations.js:242 | the conditions joined with AND |
| EvaluationListing.BuildConditions | routes/evaluations.js:224-242 | the pushed conditions hold exactly for this user's rows with a date inside the given inclusive bounds, one condition per given bound |
| EvaluationListing.Matching | routes/evaluations.js:242-248 | the rows the COUNT query counts: this user's, within the date bounds |
| EvaluationListing.Joined | routes/evaluations.js:270-273 | the inner JOIN with dishes keeps the rows whose dish exists |
| EvaluationListing.PageNumber | routes/evaluations.js:217 | `page` defaults to 1 when absent |
| EvaluationListing.PageLength | routes/evaluations.js:217 | `pageSize` defaults to 10 when absent |
| EvaluationListing.ConditionsSelectMatching | routes/evaluations.js:242-248 | a joined condition list equivalent to the user and date bounds selects exactly the Matching rows, in table order |
| EvaluationListing.NotOlder | routes/evaluations.js:276-278 | a row may come before another under ORDER BY evaluation_date DESC, id DESC |
| EvaluationListing.ByRecency | routes/evaluations.js:276-278 | every row comes before every later one under that order |
| EvaluationListing.InsertByRecency | routes/evaluations.js:276-278 | inserting into a newest-first list keeps it newest-first and adds exactly that row |
| EvaluationListing.ConsByRecency | routes/evaluations.js:276-278 | a row at least as recent as the head can go in front |
| EvaluationListing.SortByRecency | routes/evaluations.js:276-278 | ORDER BY date DESC, id DESC yields a newest-first permutation of its input |
| EvaluationListing.RecencyOrderIsUnique | routes/evaluations.js:276-278 | with unique ids, two newest-first arrangements of the same rows are identical |
| EvaluationListing.HeadsAgree | routes/evaluations.js:276-278 | two newest-first arrangements of the same rows start with the same row |
| EvaluationListing.TailsAgree | routes/evaluations.js:276-278 | after it, their tails are again newest-first arrangements of the same rows |
| EvaluationListing.PageOf | routes/evaluations.js:279 | LIMIT/OFFSET returns min(size, rows left) rows, row k being row offset+k |
| EvaluationListing.TotalPages | routes/evaluations.js:252 | totalPages is the ceiling: (totalPages-1)*pageSize < total <= totalPages*pageSize |
| EvaluationListing.RowOnPage | routes/evaluations.js:252-253 | each ordered row j lies on page j/pageSize+1, within totalPages, at position j%pageSize |
| EvaluationListing.OffsetSign | routes/evaluations.js:253 | the offset (page-1)*pageSize is negative exactly when the page is below 1 |
| EvaluationListing.SortKeepsMembers | routes/evaluations.js:276-278 | ordering neither adds nor drops a row |
| EvaluationListing.OrderedQualifies | routes/evaluations.js:270-278 | the ordered rows are exactly this user's in-range rows whose dish exists |
| EvaluationListing.PageOfSorted | routes/evaluations.js:279 | a page of a newest-first list is newest-first and holds only rows of that list |
| EvaluationListing.PageQualifies | routes/evaluations.js:261-281 | every page of the query is newest-first and holds only this user's in-range rows whose dish exists |
| EvaluationListing.ListUser | routes/evaluations.js:215-305 | 400 iff no user; 500 iff the store fails, the page is below 1 or the page size is negative; otherwise total counts the unjoined matches, page/pageSize echo the defaults 1/10, totalPages is the ceiling and the data is the page at offset (page-1)*pageSize of the joined, newest-first matches |
| EvaluationListing.ListedPageQualifies | routes/evaluations.js:261-281 | a listed page has at most pageSize rows, is newest-first and holds only this user's in-range rows whose dish exists |
| EvaluationListing.ListUserEvaluations | routes/evaluations.js:215-305 | the handler, which pushes conditions one by one, produces exactly ListUser's response |
| DingTalk.Fresh | routes/dingtalk.js:29 | the cached token is non-empty and its expiry lies after now |
| DingTalk.ExpiryAfter | routes/dingtalk.js:49 | the expiry now + (expires_in - 300) s, NaN when expires_in is missing |
| DingTalk.GetToken | routes/dingtalk.js:25-57 | no fetch iff a non-empty cached token has not expired, and then the cached token is returned unchanged; a fetch failure is an error and leaves the cache alone; a reply is returned and cached with expiry now + (expires_in - 300) s |
| DingTalk.TokenCache.constructor | routes/dingtalk.js:15-18 | the cache starts with an empty token and expiry 0 |
| DingTalk.TokenCache.GetAccessToken | routes/dingtalk.js:25-57 | the result, the fetch and the new cache are exactly GetToken's |
| DingTalk.Replay | routes/dingtalk.js:25-57 | successive calls, each seeing the cache the last left: one result per call, at most one fetch per call, a run with no fetch leaves the cache and returns the cached token every time, and a first call on a stale cache fetches |
| DingTalk.NoFetchBeforeExpiry | routes/dingtalk.js:29-31 | while a non-empty token has not expired, every call returns it, none fetches and the cache stays the same |
| DingTalk.RefreshServesUntilExpiry | routes/dingtalk.js:29-50 | after a successful refresh, all calls before the new expiry return that token, with one fetch in all |
| DingTalk.Upsert | routes/dingtalk.js:164-189 | the user's row is updated in username, avatar and last_login and keeps its company, or is inserted with company 1; every other user is untouched |
| DingTalk.VerifyStatus | routes/dingtalk.js:128-204 | 400 without a code, 401 without a user id, 500 on a failure, 200 on success |
| DingTalk.Verify | routes/dingtalk.js:124-206 | 400 exactly when there is no code, with nothing touched; 401 iff the token works and the gateway gives no user id; success iff token, user id and detail all arrive, returning the detail and upserting unless the store fails; the users table is untouched otherwise |
| DingTalk.ReloginKeepsOneRow | routes/dingtalk.js:173-189 | two successful logins of one user, at any two instants, leave one row for that user, with the first company kept, the second profile and the second login time |
| DingTalk.UserTable.constructor | routes/dingtalk.js:163 | the table starts with the given users |
| DingTalk.UserTable.Exists | routes/dingtalk.js:166-173 | the SELECT finds a row iff the user id is a key |
| DingTalk.UserTable.Update | routes/dingtalk.js:175-178 | the UPDATE rewrites username, avatar and last_login of an existing row and changes nothing otherwise |
| DingTalk.UserTable.Insert | routes/dingtalk.js:184-187 | the INSERT adds the row under that user id |
| DingTalk.VerifyUser | routes/dingtalk.js:124-206 | the handler produces exactly Verify's response, cache and users table |

## Left out

- `server.js`, `routes/dishes.js` and `routes/statistics.js` are not part of this model. Neither are
  GET `/evaluations/recent` and the pass-through routes GET `/dingtalk/getUserId` and
  `/dingtalk/getUserDetail`: each is a single query or gateway call whose answer is forwarded.
- Date formatting is not modelled: `toISOString` in UTC for the evaluation date, and `toLocaleDateString`
  for the output. Dates are day numbers, and `today` is an argument.
- The HTTP transport, axios, the configuration, connection release to the pool and every log line are not
  modelled. Neither are the JSON message strings, except as named constructors.
- Concurrency is not modelled. Requests run one at a time, so there are no racing token refreshes and
  nothing interleaves between the ownership check and the delete transaction.
- AVG is exact rational division here. MySQL's DECIMAL rounding of `rating` is not modelled.
- EvaluationTables.Store.Insert: the model's ids are consecutive from `nextId`. InnoDB uses up an
  auto-increment value in two cases that the model does not reproduce:
  - a rolled-back INSERT. The model restores the counter.
  - an INSERT that fails with ER_DUP_ENTRY (routes/evaluations.js:44-47, 63). The model leaves the counter
    as it was for a duplicate.
  So source ids have gaps after duplicates and rollbacks. For the batch `[a, a, b]` with new keys, the
  source gives `b` the id `nextId + 2`, while `Submit`, `RunBatchRows` and `Inserted` give it `nextId + 1`.
  The model only relies on ids being unique and increasing, and both hold either way.
- Item ratings are whole numbers and never NULL. The INSERT does not validate `rating`. In the source, a
  fractional rating would be stored as the column's type dictates. A NULL rating would be skipped by
  `AVG(rating)` but counted by `COUNT(*)`, so `Recomputed`'s SUM/COUNT would not match it.
- EvaluationListing.ListUser: requires a non-zero page size. With `pageSize=0`, JavaScript
  computes `totalPages` as `Infinity` and the response serialises it as null, which an integer cannot
  hold. Non-numeric `page` or `pageSize` strings (NaN) are not modelled either.
- EvaluationListing.ListUser: page numbers are integers. A fractional `page` such as `1.5` makes the code
  compute the offset `(1.5 - 1) * 10 = 5` yet report `parseInt` of it, 1, as the page. The model has no
  such page.
- String comparison is exact. The MySQL collations the tables use compare case-insensitively and ignore
  trailing spaces, so the source may treat `u1` and `U1` as one user or one key where the model sees two.
- Only `rating`, `rating_count` and the evaluation columns are modelled. Dish names, categories and the
  other columns are not; for the same reason the join returns evaluation rows, without `dishName`.
- In POST `/evaluations`, an item with a missing field makes the store raise a bind error. That error is
  one of the item faults in `Faults.items`; the model does not derive it from the item. The `companyId` of
  an item is stored but never checked.
- DingTalk.Verify: only the `name` and `avatar` fields of the user-detail answer are modelled. The
  response's `data` is that pair rather than the whole answer. A missing field makes the upsert fail,
  which is the `storeFails` argument.
- DingTalk.UserTable.Exists: the `app_users` table is keyed by `userid`, so the model assumes at most one
  row per user. The code's SELECT/UPDATE can handle several rows, but the upsert never creates more than
  one.
- The access token sent to the gateway's getuserinfo and user-detail calls is not modelled. Their replies
  are arguments whatever token was sent.
