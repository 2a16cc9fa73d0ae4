# Trivia API: a Dafny model of its handler layer

This project models the request handlers of a small trivia REST API
(`flaskr/__init__.py`) once the relational database behind them is replaced
by in-memory tables. There are two tables:

- the question table, a sequence of `Question` rows in ascending id order;
- the category table, a sequence of `Category` rows in ascending id order.

Ascending id order is the order of every `order_by(... .id)` query the
handlers run.

The model has these parts:

- `records.dfy` (module `Records`): the rows, the fields a create request
  supplies, and the id-order invariants.
- `decimal.dfy` (`Decimal`): Python's `str()` on integers and on `None`.
  The category filters compare the question's category column with this
  text. The model proves that each text is the numeral of its number, so
  distinct ids give distinct texts.
- `sequences.dfy` (`Sequences`): the two query shapes, filter and
  find-first, with their selection properties.
- `queries.dfy` (`Queries`): each query the handlers run, as a filter or
  lookup. This covers delete-by-id, exclusion of already-asked ids, the
  category filter, the substring search and the id-to-type category map.
- `pagination.dfy` (`Pagination`): `paginate_questions`, with Python's
  slice-bound rules written out. That includes negative bounds, clamping and
  empty windows.
- `responses.dfy` (`Responses`): response bodies and the error-handler
  table, which maps 400, 401, 403, 404, 405, 422 and 500 to
  `{success: false, error, message}`.
- `handlers.dfy` (`Handlers`): the handlers that only read, as functions
  of the tables. The quiz endpoint is a method that narrows its candidate
  list step by step, as the source does.
- `store.dfy` (`Store`): the database as a class. It holds the two tables
  and the question id sequence. The delete and create handlers are methods
  that change the question table in place.

Where the code and the API description disagree, the model follows the code:

- Creating a question answers 201 with an empty body `{}`. It does not
  return a success flag or the new id.
- The category filters compare the category column with the decimal text of
  the id.
- A quiz with no candidates faults (500) rather than answering 404; see
  Findings.

## Model

| member | source | states |
|---|---|---|
| Decimal.Str | flaskr/__init__.py:108 | `str(n)` is n's canonical decimal numeral: non-empty, digits only for n ≥ 0, a minus sign and then digits for n < 0, no leading zero ("0" alone for zero), and the numeral's value is n |
| Decimal.StrExamples | flaskr/__init__.py:108 | `str(1)` is "1", `str(12)` is "12", `str(-7)` is "-7" |
| Decimal.OptionStr | flaskr/__init__.py:128-131 | the text the quiz filter compares with is "None" exactly when the request's category has no id; otherwise it is a numeral whose value is the id |
| Decimal.StrInjective | flaskr/__init__.py:108 | distinct category ids give distinct filter texts, so filtering on `str(id)` selects that id's questions only (each text denotes its id) |
| Decimal.OptionStrInjective | flaskr/__init__.py:128-131 | the same for the quiz filter: a missing id (`"None"`) never matches a numeric category |
| Queries.FilterAscending | flaskr/__init__.py:107-108 | a filter applied to the id-ordered table keeps ascending id order |
| Queries.Lookup | flaskr/__init__.py:61-62 | `one_or_none()` by id: finds a row exactly when one has that id, and the row found has that id |
| Queries.WithoutId | flaskr/__init__.py:67 | after the delete, the table holds exactly the old rows whose id differs, and none with the deleted id |
| Queries.WithoutIdRemovesOne | flaskr/__init__.py:59-69 | deleting a present id removes exactly that one row: the result is the table with index k cut out, one shorter |
| Queries.WithoutAbsentId | flaskr/__init__.py:64-65 | an id no row has leaves the table unchanged |
| Queries.ExcludeIds | flaskr/__init__.py:129 | keeps exactly the rows whose id is not among the previous questions |
| Queries.InCategory | flaskr/__init__.py:107-108 | keeps exactly the rows whose category column equals the given text |
| Queries.InCategoryNonEmpty | flaskr/__init__.py:107-111 | the category query returns something exactly when some row has that category |
| Queries.Contains | flaskr/__init__.py:95-97 | `%term%` matches exactly when the term occurs in the text at some position |
| Queries.Matching | flaskr/__init__.py:96-97 | the search keeps exactly the questions whose text contains the term |
| Queries.EmptyTermMatchesAll | flaskr/__init__.py:94-97 | the default empty term (pattern `%%`) matches every question, in table order |
| Queries.CategoryById | flaskr/__init__.py:115 | `Category.query.get(id)`: a row exactly when one has that id, and it has that id |
| Queries.CategoryMap | flaskr/__init__.py:41 | the dict comprehension's keys are the category ids; the last row written sets its id's value |
| Queries.CategoryMapOfTable | flaskr/__init__.py:40-41 | over the id-ordered table the map has one entry per category, mapping its id to its type |
| Pagination.SliceBound | flaskr/__init__.py:18 | Python slice-bound normalisation: a bound of 0 or more is clamped to the length; a negative one counts from the end and stops at 0 |
| Pagination.PySlice | flaskr/__init__.py:18 | `s[i:j]` has `max(0, hi - lo)` items, the items of `s` from the normalised start on |
| Pagination.Paginate | flaskr/__init__.py:12-20 | at most 10 items; page ≥ 1 is `s[min((p-1)·10, n) .. min(p·10, n)]`; page 0 is empty; a negative page is a window counted from the end |
| Pagination.PageSize | flaskr/__init__.py:13-18 | page p ≥ 1 has `max(0, min(10, n - (p-1)·10))` items, item k being `s[(p-1)·10 + k]` |
| Pagination.PagePastEndIsEmpty | flaskr/__init__.py:14-18 | a page starting at or past the end is the empty list, not an error |
| Pagination.ItemOnItsPage | flaskr/__init__.py:14-18 | item i of the listing is item `i % 10` of page `i / 10 + 1` |
| Pagination.PagesArePrefix | flaskr/__init__.py:12-20 | pages 1..k laid end to end are the first `min(10k, n)` items: no gap, no overlap |
| Pagination.PagesCoverSelection | flaskr/__init__.py:12-20 | pages 1..ceil(n/10) laid end to end are the whole id-ordered listing |
| Responses.FromCode | flaskr/__init__.py:143-232 | the codes with a registered handler; each handler answers under its own code |
| Responses.CodeRoundTrip | flaskr/__init__.py:143-232 | every error has a handler under its code, so no two errors share a code |
| Responses.ErrorResponse | flaskr/__init__.py:143-232 | an error body has `success = false`; its `error` equals the status; its status selects that very handler; it carries that handler's message |
| Responses.ErrorTable | flaskr/__init__.py:143-232 | the fixed body of each of 400, 401, 403, 404, 405, 422 and 500, e.g. 405 → "Method Not Allowed" |
| Responses.MessagesDistinct | flaskr/__init__.py:143-232 | no two handlers share a message |
| Handlers.RetrieveCategories | flaskr/__init__.py:38-44 | 200; the map has exactly the category ids as keys, one entry per category, each mapping to its type |
| Handlers.RetrieveQuestions | flaskr/__init__.py:46-57 | 200; `totalQuestions` is the full count whatever the page; the questions are `paginate_questions` of the id-ordered table (so a negative page is a window counted from the end); for page ≥ 1 the contiguous window of at most 10; page 0 is empty; id order kept; categories as in `RetrieveCategories` |
| Handlers.SearchQuestions | flaskr/__init__.py:91-103 | 200; exactly the questions whose text contains the term, each once, in id order; the total is their number; the empty term returns every question |
| Handlers.RetrieveCategoryQuestions | flaskr/__init__.py:105-118 | 404 exactly when no question has category `str(id)`; 500 exactly when some do but no category row has the id; otherwise 200 with exactly those questions in ascending id order, their number (> 0) and the category's type |
| Handlers.Candidates | flaskr/__init__.py:128-131 | a question is a candidate exactly when it was not asked before and, unless the id is 0, its category is the id's text; id 0 restricts nothing; id order is kept |
| Handlers.Quiz | flaskr/__init__.py:120-141 | falsy category → 400; no candidates → 500; never 404; otherwise 200 with candidate number `pick`, which is in the table, was not asked before, and is in the requested category unless the id is 0 |
| Handlers.QuizAfterEveryQuestion | flaskr/__init__.py:133-137 | for any table, any truthy category and any index: once every question's id is among the previous questions, the quiz answers 500 instead of "no more questions" |
| Handlers.IntendedQuiz | flaskr/__init__.py:133-134 | the quiz as its guard intends it: never 500, and 404 when no candidate is left; otherwise as `Quiz`: 400 for a falsy category, and 200 with candidate number `pick`, which passes every filter |
| Store.DeleteUndoesAppend | flaskr/__init__.py:59-89 | deleting the id of a row just appended under a fresh id gives back the old table |
| Store.Database.DeleteQuestion | flaskr/__init__.py:59-69 | absent id → 404 and nothing changes; present id → 200 `{}`, and exactly that row is gone (one row fewer); the id is absent afterwards; ordering, categories and the id sequence are kept |
| Store.Database.CreateQuestion | flaskr/__init__.py:71-89 | storage failure → 422 and nothing changes; otherwise 201 `{}`, and the new row with the next id is at the end of the table, which stays in id order |
| Store.DeleteTwice | flaskr/__init__.py:59-69 | a second delete of the same id is always 404; the first is 200 exactly when the id was present |
| Store.CreateThenDelete | flaskr/__init__.py:59-89 | creating a question and then deleting its new id answers 201 and then 200, and leaves the question table as it was |

## Left out

- Flask application set-up, CORS and the `after_request` headers (lines 23-36) have no logic. Routing is left out too, and with it the 405 answers it produces; the 405 body is modelled in the error table.
- The ORM, `setup_db` and `models` are not part of this model. The tables are sequences, and queries are filters and lookups on them. `question.format()` is taken to be the row itself.
- Transactions and concurrent requests are left out. Each handler is one step on the tables.
- Request parsing (`request.args.get`, `request.get_json`, `jsonify`) is left out. Handlers take parsed values. `page` defaults to 1, `previous_questions` to `[]` and `searchTerm` to `""` before the model is called. A request without a JSON body is not modelled.
- Route converters: `<int:...>` matches only non-negative integers, so the path ids are `nat`.
- Store.Database.DeleteQuestion: a storage fault in `question.delete()` (line 67) is not caught by the source and reaches the generic 500 handler. The model does not include such faults, so a present id always gives 200. The same holds for the queries of the read handlers (Handlers.RetrieveCategories, Handlers.RetrieveQuestions, Handlers.SearchQuestions, Handlers.RetrieveCategoryQuestions, Handlers.Quiz): only the create handler catches storage faults (line 87), and that one is modelled.
- Handlers.Quiz: the candidate query (lines 129-136) has no `order_by`, so which row index `pick` selects depends on the database's row order. The model uses id order.
- Handlers.RetrieveCategories: the dict built at lines 40-41 is in id order in the JSON output. A Dafny `map` has no order, so the model does not show that order.
- Handlers.SearchQuestions: requires a term free of `%`, `_` and `\`. SQL `LIKE` wildcards, escapes and the database's collation and case rules belong to the database engine. Without an `order_by`, the database fixes the result order; the model returns table order.
- Store.Database.CreateQuestion: the exceptions behind the 422 depend on storage constraints that are not visible here. They are one caller-supplied flag. The model assumes a failed insert neither changes the table nor consumes an id. Whether the real id sequence advances on failure is up to the database.
- Store.Database.CreateQuestion: the draft's fields arrive already converted to the column types. A missing field is one of the storage failures.
- Handlers.Quiz: `random.randrange` becomes the parameter `pick`. Its precondition is that an index below the candidate count is supplied when the list is not empty. Uniformity of the choice is not modelled.
- Handlers.Quiz: a `quiz_category` that is truthy but not an object (a number, a string) faults on `.get` in the source. Such values are not modelled. Neither is an `id` that is not an integer.
- The printing of the caught exception (line 88) is output only and is not modelled.

## Findings

| source | as written | input that shows it | evidently intended | confidence | as-written member | corrected member |
|---|---|---|---|---|---|---|
| flaskr/__init__.py:133-137 | `if not questions:` tests the query object, which is always truthy, so the 404 never fires. An empty candidate list reaches `randrange(0, 0)`, which raises; the generic handler answers 500 | `previous_questions` lists every question id, `quiz_category = {id: 0}` | answer 404 when no candidate question is left | high; not executed | Handlers.QuizAfterEveryQuestion | Handlers.IntendedQuiz |
