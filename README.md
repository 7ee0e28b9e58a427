# Cat charity fund: allocation, data access and request guards in Dafny

This project models the core of the cat charity fund service. In that service, donations are matched against open charity projects until one side runs out. Three parts are modelled:

- **Allocation** (`app/core/utils.py`, `execute_investment`). A newly created donation or project, the *target*, is matched in list order against the open entities of the other kind, the *sources*. At each step the smaller of the two remaining rooms is added to both. Whichever side becomes full is closed. The target and the source are appended to the result list.
- **Data access** (`app/crud/base.py`, `CRUDBase`):
  - lookup by id;
  - creation of the column data;
  - partial update;
  - the candidate selector `get_active_objects`;
  - the per-user filter `get_by_user`.
- **Request guards** (`app/api/validators.py`). These are the checks the project endpoints run before an update or a deletion, with their HTTP status codes 422, 404 and 400.

## Files

- `wrappers.dfy` (module `Wrappers`): `Option`, `Result` and `Outcome`.
- `ledger.dfy` (module `Ledger`):
  - `Funding` is the money-related columns of a project or donation, as a value: full amount, invested amount, closed flag and close date.
  - `Credit` is one pass of the inner loop on one entity.
  - `Entity` is a class for a stored row, whose `Invest` method updates the row in place. Projects and donations have the same shape and are handled interchangeably, so one class stands for both.
- `investment.dfy` (module `Investment`):
  - `Transfers` is the amounts the routine moves, as a pure function. It comes with lemmas on bounds, conservation, fairness and closing.
  - `ExecuteInvestment` is the routine itself, as a method over `Entity` objects. It is proved to move exactly the amounts of `Transfers` and to return the list the source builds.
  - The loop is split into `ResetUnsetInvested` (lines 15-16), `InvestInOrder` (the outer loop) and `InvestNext` (one pass). The ghost parameters of `InvestInOrder` and `InvestNext` record the starting state, the plan and the sources settled so far.
- `crud.dfy` (module `Crud`):
  - a store is a sequence of entities in storage order;
  - an object's column data is a `map<string, Value>`;
  - `Update` works in place on a `Record` object, one column per loop pass.
- `validators.dfy` (module `Validators`): the guards, each returning `Pass`, `Success` or an `HttpError`.

Where the behaviour described for the system differs from the code, the model follows the code:

- the allocation loop has no early exit, so every source is visited;
- a source met after the target is full still gets a zero transfer, and both are still appended to the list;
- a full target is closed again, with a new close date, at every later step;
- an empty source list gives an empty result list, not a list holding the target.

## Model

| member | source | states |
|---|---|---|
| Ledger.CreditKeepsValid | app/core/utils.py:21-24 | crediting at most the entity's room keeps `0 <= invested <= full`, closed ⇔ full and close date ⇔ closed; the invested amount grows by exactly the credit; a closed entity stays closed; it is closed exactly when the credit equals its room |
| Ledger.FullEntityIsClosedAgain | app/core/utils.py:22-24 | a full entity credited 0 is closed again and only its close date changes, to the current time |
| Ledger.Entity.constructor | app/models/donation.py:8-10 | a stored row carries the given id, creation date, owner and money columns |
| Ledger.Entity.Invest | app/core/utils.py:21-24 | the row's new money columns are `Credit` of the old ones: amount added, closed with date `now` exactly when it became full |
| Investment.TransferAt | app/core/utils.py:18-19 | step `i` moves the smaller of what the target still lacks after the earlier steps and what source `i` has left |
| Investment.TransfersWithinRooms | app/core/utils.py:18-19 | with non-negative rooms every step moves between 0 and the source's room, and the target receives between 0 and its room in total |
| Investment.TransferredTotal | app/core/utils.py:17-21 | conservation: the target receives exactly `min(its room, total room of the sources)` |
| Investment.StepFillsOneSide | app/core/utils.py:18-21 | after each step the source or the target is full |
| Investment.NothingMovesAfterTargetFull | app/core/utils.py:17-21 | once the target is full every later step moves 0 |
| Investment.FullTargetMovesNothing | app/core/utils.py:17-21 | a target that starts full moves 0 at every step |
| Investment.FirstComeFirstServed | app/core/utils.py:17-21 | a source receives something only if every earlier source was filled completely |
| Investment.ClosesOnlyWhenFilled | app/core/utils.py:22-24 | the target is closed during a run exactly when there is a source and it ends full |
| Investment.PairsShape | app/core/utils.py:14-25 | the returned list has `2·|sources|` entries: the target at even positions, source `k` at position `2k+1`; no sources gives `[]` |
| Investment.CreditEachTotals | app/core/utils.py:20-24 | crediting the target step by step keeps its full amount, adds up the steps and closes it at `now` exactly when some step filled it |
| Investment.AllocationKeepsLedgerInvariant | app/core/utils.py:15-24 | if the target and the sources satisfy the ledger invariant before a run, all of them satisfy it after; no invested amount decreases; the target gains exactly what the sources give |
| Investment.ResetUnsetInvested | app/core/utils.py:15-16 | a target whose invested amount is unset or 0 starts from 0; nothing else changes |
| Investment.InvestNext | app/core/utils.py:18-25 | one pass moves the planned amount into the target and source `i`, leaves the other sources alone and keeps the record of settled sources |
| Investment.InvestInOrder | app/core/utils.py:17-25 | the loop moves exactly the planned amounts into the target and each source and returns target, source pairs in order |
| Investment.ExecuteInvestment | app/core/utils.py:10-26 | the returned list is the target/source pairs; the target ends as its normalised start credited with every planned amount; source `i` ends credited with the `i`-th planned amount |
| Crud.Get | app/crud/base.py:22-27 | the result is a stored entity with the requested id; it is `None` exactly when no stored entity has that id |
| Crud.GetReturnsFirst | app/crud/base.py:22-27 | when several entities match, `get` returns the one stored first |
| Crud.GetByUser | app/crud/base.py:118-121 | the result holds exactly the stored entities owned by the user |
| Crud.GetByUserAppend | app/crud/base.py:118-121 | the selection keeps storage order: it distributes over concatenation of stores |
| Crud.OpenEntities | app/crud/base.py:91-92 | exactly the stored entities not fully invested, none added |
| Crud.SortByCreateDate | app/crud/base.py:93-94 | the result is ordered by creation date and is a permutation of the input |
| Crud.GetActiveObjects | app/crud/base.py:88-97 | the result holds exactly the open stored entities, oldest first, none more often than stored |
| Crud.OpenEntitiesKeepCounts | app/crud/base.py:91-92 | the filter keeps every open entity exactly as often as it is stored |
| Crud.GetActiveObjectsKeepsCounts | app/crud/base.py:88-97 | the selector returns every open stored entity exactly as often as it is stored |
| Crud.ActiveObjectsFitAllocation | app/api/endpoints/donation.py:65-66 | over a valid store not holding the target, the candidates are distinct, differ from the target, have their invested amount set and positive room, as the allocation requires |
| Crud.Create | app/crud/base.py:42-44 | the column data is the input's, with `user_id` set to the user's id exactly when a user is given |
| Crud.ProvidedFields | app/crud/base.py:64 | the update data is the explicitly set request fields minus those set to null |
| Crud.Merge | app/crud/base.py:66-68 | the object keeps its columns; a column takes the update's value when the update has one and keeps its own otherwise |
| Crud.MergeIdempotent | app/crud/base.py:66-68 | applying the same update twice equals applying it once |
| Crud.UpdateTouchesOnlyProvidedColumns | app/crud/base.py:63-68 | unset, null and unknown request fields change nothing; every column the request sets to a value takes that value |
| Crud.Record.constructor | app/crud/base.py:63 | a record holds the given column data |
| Crud.Update | app/crud/base.py:63-68 | the object's new columns are its old ones merged with the provided fields of the request |
| Validators.CheckFullAmountNotDecrease | app/api/validators.py:16-20 | rejects with 422 exactly when the new full amount is below the invested amount; equal is accepted |
| Validators.CheckProjectExists | app/api/validators.py:40-47 | returns the stored project with that id, exactly as the lookup gives it, when there is one; otherwise 404 |
| Validators.CheckProjectInvested | app/api/validators.py:53-57 | accepts exactly when the invested amount is 0; an unset amount is rejected as well; 400 |
| Validators.CheckProjectIsActive | app/api/validators.py:63-67 | accepts exactly when the project is not fully invested; 400 otherwise |
| Validators.ActiveCheckAgreesWithSelector | app/api/validators.py:63 | a stored project passes the active check exactly when the candidate selector returns it |
| Validators.AcceptedFullAmountKeepsBound | app/api/validators.py:16 | an accepted new full amount on an open project keeps `0 <= invested <= full`; the ledger invariant holds unless the amounts become equal, which leaves the project open with no room until the next allocation closes it |
| Validators.RemovingUninvestedProjectKeepsTotal | app/api/validators.py:53-57 | deleting a project that passes the check leaves the total invested over the store unchanged |

## Left out

- HTTP routing, authentication, the endpoints and the response schemas are not modelled. The endpoints appear only as context for the guards and the selector.
- The clock: `datetime.now()` is read at each close in the source, but the model takes one `now` per run, so entities closed in one run share a close date.
- The database session is not modelled: `session.add`, `commit`, `refresh`, `delete` and transactions. `create` is modelled up to the column data it builds; building the ORM object and adding it to the session (app/crud/base.py:45-46) is left out.
- Concurrency between allocation runs is not modelled.
- `get_multi`, `remove` and `commit_models` are not modelled. They are plain session calls with no logic of their own.
- `get_project_id_by_name` (app/crud/base.py:99-110) and the guard `check_name_duplicate` (app/api/validators.py:23-33) are not modelled. Both depend on the project's `name` column, which the model's entities do not carry. The guard also goes through the charity-project CRUD subclass; `app/crud/charity_project.py` is not part of this model. The guard calls the lookup with two arguments, while `app/crud/base.py:99-104` declares three.
- `jsonable_encoder` is not modelled: only the column names of the object matter to `update`, and values are copied unchanged. Pydantic field validation (positive amounts, name lengths, `Extra.forbid`) is not modelled either: a request is a map of its explicitly set fields, with `NoneValue` for an explicit null.
- Crud.GetActiveObjects: the SQL query does not fix an order for rows created at the same moment. The model's insertion sort fixes one, but no contract states which.
- Crud.Get: the model scans the store in storage order. The SQL query does not fix an order, but since ids are primary keys at most one row matches.
- Investment.ExecuteInvestment:
  - it requires every source's invested amount to be set, because the source raises on an unset one;
  - it requires the target not to be among the sources, which holds because the two come from different tables;
  - it requires the sources to be distinct objects, which holds because they come from one query on one table, which returns each row once, as one object.
- Two call-site errors in the endpoints are not modelled:
  - `app/api/endpoints/charity_project.py:55` passes the session where the source list is expected;
  - `app/api/endpoints/charity_project.py:100-102` passes the current full amount, under a keyword the guard does not accept, instead of the invested amount.
- `app/core/db.py` (the shared column declarations and their defaults) is not part of this model. The default invested amount 0 appears only as the normalisation of an unset amount.
