/**
 * The request handlers that only read the tables, and the quiz endpoint.
 *
 * Each handler receives the tables as the database holds them at request
 * time: the question table and the category table, each in ascending id
 * order, which is the order of every `order_by(... .id)` query. Request
 * parsing is done: the handlers take the already-parsed values.
 */
module Handlers {
  import opened Records
  import opened Queries
  import opened Decimal
  import opened Pagination
  import opened Responses

  /** GET /categories: every category, as a map from id to type. */
  function RetrieveCategories(categories: seq<Category>): (r: Response)
    requires CategoriesAscending(categories)
    ensures r.status == 200 && r.body.CategoriesBody?
    ensures r.body.categories.Keys == set c | c in categories :: c.id
    ensures |r.body.categories| == |categories|
    ensures forall c :: c in categories ==> r.body.categories[c.id] == c.typeName
  {
    CategoryMapOfTable(categories);
    Response(200, CategoriesBody(CategoryMap(categories)))
  }

  /** GET /questions?page=page: one page of the id-ordered questions and the full count. */
  function RetrieveQuestions(questions: seq<Question>, categories: seq<Category>, page: int): (r: Response)
    requires Ascending(questions) && CategoriesAscending(categories)
    ensures r.status == 200 && r.body.QuestionsBody?
    ensures r.body.totalQuestions == |questions|
    ensures |r.body.questions| <= QuestionsPerPage
    ensures r.body.questions == Paginate(questions, page)
    ensures page >= 1 ==>
              r.body.questions == questions[Min(PageStart(page), |questions|)..Min(PageStart(page) + QuestionsPerPage, |questions|)]
    ensures page == 0 ==> r.body.questions == []
    ensures forall q :: q in r.body.questions ==> q in questions
    ensures Ascending(r.body.questions)
    ensures r.body.allCategories == RetrieveCategories(categories).body.categories
  {
    var current := Paginate(questions, page);
    assert Ascending(current) by {
      var lo := SliceBound(PageStart(page), |questions|);
      forall i, j | 0 <= i < j < |current| ensures current[i].id < current[j].id {
        assert current[i] == questions[lo + i] && current[j] == questions[lo + j];
      }
    }
    Response(200, QuestionsBody(current, |questions|, CategoryMap(categories)))
  }

  /**
   * POST /questions/search with a search term: the questions whose text
   * contains the term, with their number. The term must be free of the
   * characters SQL `LIKE` treats specially.
   */
  function SearchQuestions(questions: seq<Question>, term: string): (r: Response)
    requires Ascending(questions)
    requires NoLikeWildcards(term)
    ensures r.status == 200 && r.body.SearchBody?
    ensures forall q :: q in r.body.matches <==>
              q in questions && exists i :: OccursAt(q.question, term, i)
    ensures Ascending(r.body.matches)
    ensures r.body.totalMatches == |r.body.matches|
    ensures term == "" ==> r.body.matches == questions
  {
    assert term == "" ==> Matching(questions, term) == questions by {
      if term == "" { EmptyTermMatchesAll(questions); }
    }
    var found := Matching(questions, term);
    FilterAscending(questions, TextContains(term));
    Response(200, SearchBody(found, |found|))
  }

  /**
   * GET /categories/<categoryId>/questions: the questions whose category
   * column is `str(categoryId)`, in id order. None of them is 404; some of
   * them but no category row with that id faults (`.type` on `None`), which
   * the server answers with 500.
   */
  function RetrieveCategoryQuestions(questions: seq<Question>, categories: seq<Category>, categoryId: nat): (r: Response)
    requires Ascending(questions)
    ensures r.status == 200 || r.status == 404 || r.status == 500
    ensures r.status == 404 <==> forall q :: q in questions ==> q.category != Str(categoryId)
    ensures r.status != 200 ==> IsErrorResponse(r) && r.body.message == Message(FromCode(r.status).value)
    ensures r.status == 500 <==>
      (exists q :: q in questions && q.category == Str(categoryId)) &&
      (forall c :: c in categories ==> c.id != categoryId)
    ensures r.status == 200 ==>
      && r.body.CategoryQuestionsBody?
      && (forall q :: q in r.body.inCategory <==> q in questions && q.category == Str(categoryId))
      && Ascending(r.body.inCategory)
      && r.body.totalInCategory == |r.body.inCategory| > 0
      && exists c :: c in categories && c.id == categoryId && c.typeName == r.body.currentCategory
  {
    var key := Str(categoryId);
    var found := InCategory(questions, key);
    FilterAscending(questions, CategoryIs(key));
    InCategoryNonEmpty(questions, key);
    if |found| > 0 then
      match CategoryById(categories, categoryId)
      case Some(c) => Response(200, CategoryQuestionsBody(found, |found|, c.typeName))
      case None => ErrorResponse(InternalServerError)
    else
      ErrorResponse(NotFound)
  }

  // ---- POST /quizzes ------------------------------------------------------

  /**
   * The `quiz_category` field of a quiz request: absent or null, an empty
   * object (both falsy in Python), or an object whose `id` may be missing.
   */
  datatype QuizCategory = Missing | EmptyObject | Object(id: Option<int>)

  predicate Falsy(c: QuizCategory)
  {
    c.Missing? || c.EmptyObject?
  }

  /**
   * The questions a quiz may ask next: not asked before and, unless the
   * category id is the "any category" id 0, in the requested category.
   */
  function Candidates(questions: seq<Question>, previous: seq<int>, c: QuizCategory): (r: seq<Question>)
    requires !Falsy(c)
    ensures forall q :: q in r <==>
              q in questions && q.id !in previous && (c.id != Some(0) ==> q.category == OptionStr(c.id))
    ensures c.id == Some(0) ==> r == ExcludeIds(questions, previous)
    ensures Ascending(questions) ==> Ascending(r)
  {
    var unseen := ExcludeIds(questions, previous);
    var r := if c.id == Some(0) then unseen else InCategory(unseen, OptionStr(c.id));
    assert Ascending(questions) ==> Ascending(r) by {
      if Ascending(questions) {
        FilterAscending(questions, IdNotIn(previous));
        if c.id != Some(0) {
          FilterAscending(unseen, CategoryIs(OptionStr(c.id)));
        }
      }
    }
    r
  }

  /**
   * What the random source may return: `randrange(0, n)` gives an index
   * below `n` whenever the candidate list is not empty.
   */
  predicate PickFits(questions: seq<Question>, previous: seq<int>, c: QuizCategory, pick: nat)
  {
    Falsy(c) || |Candidates(questions, previous, c)| == 0 || pick < |Candidates(questions, previous, c)|
  }

  /**
   * POST /quizzes: the next quiz question, taken at index `pick` of the
   * candidates. A falsy category is 400. The guard meant to answer 404 for
   * no candidates tests the query object, which is always true, so an empty
   * candidate list reaches `randrange(0, 0)`, which raises: 500.
   */
  method Quiz(questions: seq<Question>, previous: seq<int>, c: QuizCategory, pick: nat) returns (r: Response)
    requires PickFits(questions, previous, c, pick)
    ensures Falsy(c) ==> r == ErrorResponse(BadRequest)
    ensures !Falsy(c) && Candidates(questions, previous, c) == [] ==> r == ErrorResponse(InternalServerError)
    ensures r.status == 200 <==> !Falsy(c) && Candidates(questions, previous, c) != []
    ensures r.status != 404
    ensures r.status == 200 ==>
      && r.body.QuizBody?
      && r.body.question == Candidates(questions, previous, c)[pick]
      && r.body.question in questions
      && r.body.question.id !in previous
      && (c.id != Some(0) ==> r.body.question.category == OptionStr(c.id))
  {
    if Falsy(c) {
      return ErrorResponse(BadRequest);
    }
    var categoryId := c.id;
    var narrowed := ExcludeIds(questions, previous);
    if categoryId != Some(0) {
      narrowed := InCategory(narrowed, OptionStr(categoryId));
    }
    if |narrowed| == 0 {
      return ErrorResponse(InternalServerError);
    }
    assert narrowed[pick] in narrowed;
    r := Response(200, QuizBody(narrowed[pick]));
  }

  /**
   * Once every question of the table has been asked, the quiz faults
   * instead of answering "no more questions".
   */
  method QuizAfterEveryQuestion(questions: seq<Question>, previous: seq<int>, c: QuizCategory, pick: nat)
    returns (r: Response)
    requires !Falsy(c)
    requires forall q :: q in questions ==> q.id in previous
    ensures r == ErrorResponse(InternalServerError)
  {
    r := Quiz(questions, previous, c, pick);
  }

  /**
   * The quiz as its guard intends it: an empty candidate list answers 404
   * instead of faulting; everything else is as in `Quiz`.
   */
  function IntendedQuiz(questions: seq<Question>, previous: seq<int>, c: QuizCategory, pick: nat): (r: Response)
    requires PickFits(questions, previous, c, pick)
    ensures r.status != 500
    ensures Falsy(c) ==> r == ErrorResponse(BadRequest)
    ensures !Falsy(c) && Candidates(questions, previous, c) == [] ==> r == ErrorResponse(NotFound)
    ensures r.status == 200 <==> !Falsy(c) && Candidates(questions, previous, c) != []
    ensures r.status == 200 ==>
      && r.body.QuizBody?
      && r.body.question == Candidates(questions, previous, c)[pick]
      && r.body.question in questions
      && r.body.question.id !in previous
      && (c.id != Some(0) ==> r.body.question.category == OptionStr(c.id))
  {
    if Falsy(c) then ErrorResponse(BadRequest)
    else
      var candidates := Candidates(questions, previous, c);
      if candidates == [] then ErrorResponse(NotFound)
      else
        assert candidates[pick] in candidates;
        Response(200, QuizBody(candidates[pick]))
  }
}
