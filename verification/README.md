# Range planner backend: verified model of its decision logic

This project models the request-handling logic of a retail range-planning
web backend (a Flask/SQLAlchemy service for projects, branches, SKUs and
ranging decisions) and proves properties of that model in Dafny 4.11.

The model covers four parts of the backend:

- **JSON encoding of ORM models** (`JsonUtil`). An object's `__dict__` becomes
  a dict without private (`_`-prefixed) keys and without the keys its
  `__json_exclude__` list names. A `Decimal` becomes its string form.
  `jsonify` converts only top-level model arguments.
- **Response builders and partial updates** (`ApiUtil`). These are the 404,
  400 and 422 builders, the webargs 422 handler (including the path where it
  fails), and `update_from_args`. marshmallow's `missing` sentinel is its own
  constructor `Arg.Missing`, distinct from a JSON null.
- **Login gate** (`AccessUtil`). The `X-Forwarded-Email` header must match
  exactly one user, ignoring case. Otherwise the answer is 401 and the
  wrapped handler never runs.
- **Route logic of `main.py`**, over an in-memory database `Records.Db` (one
  sequence of records per table):
  - `TaskComplete`: the task-completion dispatch, with commit and rollback
    modelled as a `Session` of committed and working states.
  - `Decisions`: the partial update of a ranging decision.
  - `Listings`: the optional filters of the project list, the branch lookup
    and the top-level CDH node filter.

`Seqs` holds the sequence tools the routes share: order-preserving filter,
first match, insertion sort. `Wrappers` holds `Option` and `Result`.

Python exceptions that escape a handler (an `AttributeError` on a `None`
lookup result, a `KeyError`, an `UnboundLocalError`) are `Result.Failure`
values of type `ApiUtil.Fault`. Flask answers these with a 500.

The `Project` methods that are not part of this model are function-valued
fields of `TaskComplete.ProjectOps`, passed in by the caller. These are
`delete_branch_skus`, `map_skus_to_branches`, `has_mapped_all_cdh_items`,
`copy_branches_to_cann_boundaries`,
`assign_recommended_branch_quality_framework_classification_and_sales` and
`complete_task`.

Where the code and its documentation disagree, the model follows the code:
- `login_required` answers 401, although its doc comment says 403.
- The three body fields of `update_decision` are optional (webargs
  `use_kwargs` without `required`), although the docstring says they are
  required.

## Model

| member | source | states |
|---|---|---|
| `JsonUtil.FieldsExcluding` | pythonsrc/util/json_util.py:12-15 | With an exclusion list, an attribute is kept iff it is public and not listed. Every kept key keeps the object's value. The result's keys are a subset of the object's keys. |
| `JsonUtil.PublicFields` | pythonsrc/util/json_util.py:16-19 | Without an exclusion list, an attribute is kept iff it is public. Values are untouched. |
| `JsonUtil.PublicFieldsIsEmptyExclusion` | pythonsrc/util/json_util.py:10-19 | The "no `__json_exclude__`" shortcut gives the same dict as the general filter with an empty exclusion list. |
| `JsonUtil.FieldsExcludingIdempotent` | pythonsrc/util/json_util.py:13-15 | Filtering the filtered fields again changes nothing. |
| `JsonUtil.Default` | pythonsrc/util/json_util.py:8-23 | Models (and only models) become dicts; their keys are exactly the serialised attributes under the exclusion list in force, with unchanged values. Decimals (and only decimals) become their string form, so a model is never a string. Everything else goes to the base encoder unchanged. |
| `JsonUtil.DefaultIdempotent` | pythonsrc/util/json_util.py:9-19 | Encoding a model rebuilt from its own encoding, with the same exclusions, gives the same dict. |
| `JsonUtil.JsonifyArgs` | pythonsrc/util/json_util.py:29-36 | Same length and order as the arguments. Each top-level model becomes the dict `Default` gives it. Every other argument is passed on unchanged. |
| `ApiUtil.MessageResponse` | pythonsrc/api/main.py:157-163 | The hand-built `{'message': ...}` answer: the given status, a body whose only key is `message`, holding the given text. |
| `ApiUtil.NotFound` | pythonsrc/util/api_util.py:16-23 | Status 404. The body's only key is `message`, equal to "Not Found". |
| `ApiUtil.BadRequest` | pythonsrc/util/api_util.py:48-55 | Status 400. The body's only key is `message`, holding the argument, or "The request could not be processed." when called without one. |
| `ApiUtil.AlreadyExists` | pythonsrc/util/api_util.py:58-69 | Status 422. `message` is "Validation Failed" and `errors` is a list of exactly one error, with code `already_exists`. |
| `ApiUtil.NotFoundIsMessage` | pythonsrc/util/api_util.py:16-23 | The 404 handler answers like the hand-built message answers of `main.py`, with status 404 and "Not Found". |
| `ApiUtil.BadRequestOfText` | pythonsrc/util/api_util.py:48-55 | `bad_request` with a text is exactly the hand-built `{"message": text}` answer with status 400. Without a text, it carries the default sentence. |
| `ApiUtil.AlreadyExistsIsValidationAnswer` | pythonsrc/util/api_util.py:58-69 | The duplicate-resource answer is what the 422 handler builds for a validation exception named "Validation Failed" carrying the one `already_exists` error. So both 422 answers have the same shape. |
| `ApiUtil.HandleUnprocessableEntity` | pythonsrc/util/api_util.py:27-44 | It answers iff `data` is non-empty and holds `exc`. The answer is 422, with `message` the wrapped exception's class name and `errors` its messages. Without a `data` attribute it fails with an AttributeError, and on a missing `exc` entry with a KeyError. A falsy `data` gives an UnboundLocalError for `error_messages`. |
| `ApiUtil.EmptyDataBreaksHandler` | pythonsrc/util/api_util.py:36-44 | A concrete error with empty `data` makes the handler as written fail instead of answering. |
| `ApiUtil.HandleUnprocessableEntityCorrected` | pythonsrc/util/api_util.py:27-44 | A falsy `data` answers 422 with the error's name and an empty error list. Every answer of the original is unchanged. |
| `ApiUtil.LastAssignedIsLast` | pythonsrc/util/api_util.py:73-75 | The value recorded for a key is the value of the last pair that has a public key and is not `missing`. |
| `ApiUtil.LastAssignedNone` | pythonsrc/util/api_util.py:73-75 | A key with no such pair gets no value. |
| `ApiUtil.UpdateFromArgs` | pythonsrc/util/api_util.py:72-76 | Each key with an applicable pair ends with that pair's value, and the last applicable pair wins. Private keys and `missing` values change nothing. Attributes not assigned keep their values, and no other keys appear. |
| `ApiUtil.UpdateFromArgsIdempotent` | pythonsrc/util/api_util.py:72-76 | Applying the same arguments twice gives the same object state as applying them once. |
| `ApiUtil.UpdateFromArgsSequential` | pythonsrc/util/api_util.py:73-75 | Pairs apply one at a time: applying `a + b` is applying `a`, then `b`. |
| `AccessUtil.LowerChar` | pythonsrc/util/access_util.py:25-26 | Lower-casing maps `A`-`Z` to `a`-`z` and leaves every other character alone. The result is never a capital and is the same letter up to case. |
| `AccessUtil.LowerCharAlike` | pythonsrc/util/access_util.py:25-26 | Two characters lower-case alike iff they are equal, or one is a capital and the other its small letter. |
| `AccessUtil.Lower` | pythonsrc/util/access_util.py:25-26 | Lower-casing a string lower-cases each character and keeps the length. |
| `AccessUtil.LowerIgnoresCase` | pythonsrc/util/access_util.py:25-26 | Two addresses lower-case to the same string iff they have the same length and each pair of characters is the same letter up to case. So the email comparison ignores case and nothing else. |
| `AccessUtil.LowerAlikeIsCaseEquivalent` | pythonsrc/util/access_util.py:25-26 | Addresses that lower-case alike have the same length and agree character by character up to case. |
| `AccessUtil.LowerIdempotent` | pythonsrc/util/access_util.py:25-26 | Lower-casing an already lower-cased address changes nothing. |
| `AccessUtil.Unauthorised` | pythonsrc/util/access_util.py:28-31 | The refusal is status 401 (not 403), with the "Not logged in" text. |
| `AccessUtil.LoginRequired` | pythonsrc/util/access_util.py:23-32 | Without the header, or when the query fails, the answer is 401 and the handler is not run. The handler runs iff exactly one user's lowercased email equals the lowercased header. That user becomes the current user, and the handler's result is returned unchanged. |
| `AccessUtil.UniqueMatchAdmitted` | pythonsrc/util/access_util.py:25-32 | When exactly one stored user matches the header (ignoring case), that user is admitted and the handler runs for them. |
| `AccessUtil.AmbiguousMatchDenied` | pythonsrc/util/access_util.py:26-31 | Two matching users give 401, as `.one()` requires exactly one row. |
| `AccessUtil.NoMatchDenied` | pythonsrc/util/access_util.py:26-31 | No matching user gives 401. |
| `TaskComplete.NotCurrentTaskMessage` | pythonsrc/api/main.py:175-177 | The refusal message starts with "Cannot mark " followed by the task name. |
| `TaskComplete.DirectRowsExist` | pythonsrc/api/main.py:133-137 | The loop's own rows exist iff no member with an item SKU refers to a missing `CdhItemSku` row. Such a member makes `.first()` return None. |
| `TaskComplete.DirectRowsMatchMembers` | pythonsrc/api/main.py:133-141 | The reference rows correspond one to one, in member order, to the members with a `cdh_item_sku_id`. Each row has that member's branch id, the project's CDH id and that item's SKU id. |
| `TaskComplete.RebuildBranchSkus` | pythonsrc/api/main.py:129-141 | The member loop fails (with an AttributeError on `sku_id`) iff some item SKU row is missing. Otherwise the rows the loop adds itself are exactly the reference rows. When no member has a `cdh_item_id`, so `map_skus_to_branches` is never called, the resulting table is the starting table followed by those rows. |
| `TaskComplete.RebuildOneMember` | pythonsrc/api/main.py:129-141 | One member's step: `map_skus_to_branches` runs first, on the table as it stands, if the member has a `cdh_item_id`. Its output becomes the table. The member's own row, if it has a `cdh_item_sku_id`, is appended after it. A missing item SKU row is an AttributeError on `sku_id`. |
| `TaskComplete.RebuildCons` | pythonsrc/api/main.py:129-141 | The loop over a member followed by the rest is that member's step, then the rest of the loop on the table the step left. |
| `TaskComplete.RebuildAppend` | pythonsrc/api/main.py:129-141 | The loop over `a + b` is the loop over `a` followed by the loop over `b` on the table `a` left. The added rows are concatenated, and the first fault stops the loop. With `RebuildOneMember` this fixes the table for any member list. |
| `TaskComplete.RebuildKeepsTable` | pythonsrc/api/main.py:129-141 | If `map_skus_to_branches` only appends rows, the starting table stays a prefix of the resulting table. The resulting table then holds the starting rows plus every row the loop added, counted with multiplicity. |
| `TaskComplete.StageBranchSkus` | pythonsrc/api/main.py:126-143 | Deleting and rebuilding the branch SKUs fails iff one of the project's members refers to a missing item SKU. Otherwise only the BranchSku table of the working state changes, and it is exactly the table the member loop (`RebuildBranchSkus`) produces when started from what `delete_branch_skus` left. When no member has a `cdh_item_id`, that table is what `delete_branch_skus` left, followed by the reference rows. |
| `TaskComplete.StagedTableHoldsDirectRows` | pythonsrc/api/main.py:126-143 | If `map_skus_to_branches` only appends rows, the staged table starts with what `delete_branch_skus` left. Every reference row, one per member with a `cdh_item_sku_id`, is in it on top of those rows. |
| `TaskComplete.CopyViewstate` | pythonsrc/api/main.py:147 | Only that project's cann-boundary view state changes, and it becomes its branch-builder view state. |
| `TaskComplete.CompleteBuildBranches` | pythonsrc/api/main.py:125-163 | The answer is 200 iff `has_mapped_all_cdh_items` holds on the staged state, and a 200 answer has an empty body. Then the staged state is committed and the follow-up steps, ending in `complete_task('build_branches')`, run on it. Otherwise the rebuild is rolled back: the answer is 400 "Some CDH Items have not been mapped to a branch" and the database is unchanged. |
| `TaskComplete.SetTaskComplete` | pythonsrc/api/main.py:122-189 | An unknown task name gives 400 "Invalid task_name" with nothing changed. For `cann_boundaries` and `strategic_guidance`, the answer is 200 with the task completed iff the project's current task id equals that task's id; otherwise 400 naming the task, with nothing changed. `build_branches` is `CompleteBuildBranches`. A missing project is a fault: an AttributeError on `delete_branch_skus` or on `current_task_id`. For the two named tasks, a missing `Task` row is an AttributeError on `id`. Any non-200 answer leaves the database unchanged. |
| `TaskComplete.SetTaskCompleteRefusalIsBadRequest` | pythonsrc/api/main.py:157-189 | Every 400 answer the handler builds by hand equals `bad_request` called with the same message. |
| `Decisions.ApplyPatch` | pythonsrc/api/main.py:377-382 | Each of bay, comment and active flag is overwritten iff supplied. An explicit null bay is written. Omitted fields and all identifying fields keep their values. |
| `Decisions.UpdateDecision` | pythonsrc/api/main.py:371-385 | 404 with nothing changed iff no decision has both ids. Otherwise exactly that decision is replaced by its patched form. It is returned, and no other record or table changes. |
| `Decisions.EmptyPatchChangesNothing` | pythonsrc/api/main.py:377-383 | A patch that supplies nothing leaves the database as it was. |
| `Decisions.UpdateDecisionIdempotent` | pythonsrc/api/main.py:371-383 | Sending the same patch twice gives the same state and answer as sending it once. |
| `Listings.TaskStatesOf` | pythonsrc/api/main.py:45-55 | A project's task states are exactly its own, as a permutation, sorted by workflow order. |
| `Listings.View` | pythonsrc/api/main.py:43-55 | A project's view holds that project and the section of its CDH, if any. Its task states are exactly the project's own, as a permutation, in workflow order. |
| `Listings.Views` | pythonsrc/api/main.py:42-47 | The join gives one view per stored project, in storage order, each with its task states in workflow order. |
| `Listings.GetProjects` | pythonsrc/api/main.py:42-55 | A project is listed iff its owner exists and it passes each filter whose argument is truthy. The list is a permutation of the listed views, sorted by project id, and each project's tasks are in workflow order. |
| `Listings.UnfilteredListsAll` | pythonsrc/api/main.py:42-53 | With both arguments absent or 0, the list holds exactly the projects whose owner is a user, each once. |
| `Listings.GetBranches` | pythonsrc/api/main.py:267-314 | A branch is returned iff the project exists, the branch belongs to the project's CDH, a cluster with the requested id belongs to the project's clustering, and the branch has a BranchSku. When `branch_id` is truthy the branch must also have that id. |
| `Listings.BranchIdNarrows` | pythonsrc/api/main.py:313-314 | A truthy `branch_id` narrows the unfiltered result to the branches with that id, keeping order. |
| `Listings.GetCdhTree` | pythonsrc/api/main.py:504-508 | `items` holds exactly the nodes whose `parent_node_type` is None. |
| `Listings.GetCdhTreeKeepsOrder` | pythonsrc/api/main.py:506 | The root filter distributes over concatenation, so roots keep their original order. |
| `Listings.GetCdhTreeIdempotent` | pythonsrc/api/main.py:506 | Filtering the roots again changes nothing. |

## Left out

- SQL query construction, joins beyond their filtering effect, eager loading and `query.params`. Tables are sequences and queries are filters over them.
- `get_one`, `get_all`, the Marshmallow schemas, `CdhTreeSchema().dump` and `convert_result_set_to_dict_with_custom_key`. Their definitions are not part of this model. Routes return the records a schema would dump; `get_branches` returns a list, not the id-keyed dict.
- `get_project`, `update_project` and `clone_project`. They only delegate to the ORM or the service layer, neither of which is part of this model.
- `add_project`: it parses the two dates with `datetime.strptime` and calls the service layer, neither of which is part of this model. Its decision to turn any exception from these steps into `bad_request(e.args[0])` is also not modelled: a 400 carrying the exception's first argument, for example a badly formatted date.
- `project_owner_required` and its 403 owner check. `main.py` imports it, but its definition is not part of this model.
- The `Project` methods and `project_service`. They are parameters in `ProjectOps`. `delete_branch_skus` and `map_skus_to_branches` are assumed to change only the BranchSku table, as their names say. The remaining operations may change anything.
- `Listings.GetBranches`: the inner join with `SkuWithBands` and the eager-loaded SKU, metric and decision rows are not modelled. A branch needs only some BranchSku row to be returned.
- `Listings.GetBranches`: the row order is storage order, because the query has no ORDER BY.
- `AccessUtil.LoginRequired`: the header name is looked up exactly, not with werkzeug's case-insensitive lookup.
- `AccessUtil.Lower`: Python's Unicode `lower()` is reduced to ASCII letters.
- `AccessUtil.LowerChar`: Python's Unicode `lower()` is reduced to ASCII letters, so only `A`-`Z` change.
- `ApiUtil.BadRequest`: when Flask calls it as the 400 error handler, it passes the exception object as `error`, and `jsonify` would have to serialise that object. This path is not modelled. Only a call with a JSON value or with no argument is modelled.
- `TaskComplete.RebuildBranchSkus`: `map_skus_to_branches` is a parameter, since its definition is not part of this model. Its output is threaded through the loop step by step (`TaskComplete.RebuildOneMember`, `TaskComplete.RebuildAppend`). A closed form of the final table is stated only for loops without mapping calls. When mapping only appends (`TaskComplete.MapAppends`), only a prefix and a lower bound on the rows are stated.
- `AccessUtil.LoginRequired`: the error print to stdout is left out.
- `ApiUtil.HandleUnprocessableEntity`: `data` is either absent or a map of validation exceptions. A `data` explicitly set to None is modelled like an empty map, since both are falsy.
- `JsonUtil.Default`: Flask's base encoder is not modelled, only the hand-off to it.
- `JsonUtil.JsonifyArgs`: `flask.jsonify` itself is not modelled. `kwargs` are passed to it unchanged.
- `JsonUtil.Default`: `__json_exclude__` is modelled as a list of names. A string value, where `in` would test substrings, is left out.
- `ApiUtil.UpdateFromArgs`: object identity is not modelled. The function returns the updated attribute map, which stands for the same object.
- Exceptions raised after the first commit in `build_branches`, from the abstract follow-up steps. Those steps are total functions here.
- `disable_browser_cache`, `Location`, Swagger and app configuration, the health check, and Flask routing and response objects beyond status and body. These are framework plumbing.
- Transactions across requests and concurrency. These are handled per request by the database.

## Findings

| source | as written | input that shows it | evidently intended | confidence | as-written member | corrected member |
|---|---|---|---|---|---|---|
| pythonsrc/util/api_util.py:36-44 | When `data` is falsy, the `else` branch binds only `exception_name`. Building the body then reads the unbound `error_messages`. | An `UnprocessableEntity` whose `data` is an empty dict (lemma `ApiUtil.EmptyDataBreaksHandler`) | A 422 answer naming the error, with an empty error list | medium, not executed | `ApiUtil.HandleUnprocessableEntity` | `ApiUtil.HandleUnprocessableEntityCorrected` |
