/**
 * The database the API writes to: the question table, which the delete and
 * create handlers change in place, the category table, and the sequence that
 * hands out question ids.
 */
module Store {
  import opened Records
  import opened Sequences
  import opened Queries
  import opened Responses

  /** Putting a row with a fresh id at the end and then deleting that id gives back the table. */
  lemma DeleteUndoesAppend(qs: seq<Question>, q: Question)
    requires !HasId(qs, q.id)
    ensures WithoutId(qs + [q], q.id) == qs
  {
    var s := qs + [q];
    forall i | 0 <= i < |s| ensures IdIsNot(q.id)(s[i]) <==> i != |qs| {
      if i < |qs| {
        assert s[i] == qs[i] && qs[i] in qs;
      }
    }
    FilterDropsOne(s, |qs|, IdIsNot(q.id));
    assert s[..|qs|] == qs;
  }

  class Database {
    /** The question table, in ascending id order. */
    var questions: seq<Question>
    /** The category table, in ascending id order; no handler changes it. */
    var categories: seq<Category>
    /** The next value of the question id sequence: it starts at 1 and stays above every id it handed out. */
    var nextId: int

    ghost predicate Valid()
      reads this
    {
      && Ascending(questions)
      && CategoriesAscending(categories)
      && nextId >= 1
      && forall i :: 0 <= i < |questions| ==> questions[i].id < nextId
    }

    /** A database with the given categories, no questions and a fresh id sequence. */
    constructor (categories: seq<Category>)
      requires CategoriesAscending(categories)
      ensures Valid()
      ensures this.questions == [] && this.categories == categories && nextId == 1
    {
      this.questions := [];
      this.categories := categories;
      this.nextId := 1;
    }

    /**
     * DELETE /questions/<questionId>: 404 when no question has the id;
     * otherwise that one row is deleted and the answer is 200 with `{}`.
     */
    method DeleteQuestion(questionId: nat) returns (r: Response)
      requires Valid()
      modifies this
      ensures Valid()
      ensures categories == old(categories) && nextId == old(nextId)
      ensures !HasId(old(questions), questionId) ==>
                r == ErrorResponse(NotFound) && questions == old(questions)
      ensures HasId(old(questions), questionId) ==>
                r == Response(200, Empty) && questions == WithoutId(old(questions), questionId)
      ensures |questions| == |old(questions)| - (if HasId(old(questions), questionId) then 1 else 0)
      ensures !HasId(questions, questionId)
    {
      match Lookup(questions, questionId)
      case None =>
        r := ErrorResponse(NotFound);
      case Some(q) =>
        var k :| 0 <= k < |questions| && questions[k] == q;
        WithoutIdRemovesOne(questions, k);
        FilterAscending(questions, IdIsNot(questionId));
        var rest := WithoutId(questions, questionId);
        forall i | 0 <= i < |rest| ensures rest[i].id < nextId {
          assert rest[i] in rest;
        }
        questions := rest;
        r := Response(200, Empty);
    }

    /**
     * POST /questions: the new row takes the next id and, that id being
     * above all others, goes at the end of the table; 201 with `{}`. When the
     * storage layer refuses the row the table is unchanged and the answer is 422.
     */
    method CreateQuestion(draft: Draft, storageFails: bool) returns (r: Response)
      requires Valid()
      modifies this
      ensures Valid()
      ensures categories == old(categories)
      ensures storageFails ==>
                && r == ErrorResponse(UnprocessableEntity)
                && questions == old(questions)
                && nextId == old(nextId)
      ensures !storageFails ==>
                && r == Response(201, Empty)
                && questions == old(questions) +
                     [Question(old(nextId), draft.question, draft.answer, draft.category, draft.difficulty)]
                && nextId == old(nextId) + 1
      ensures !storageFails ==> !HasId(old(questions), old(nextId))
    {
      if storageFails {
        return ErrorResponse(UnprocessableEntity);
      }
      var row := Question(nextId, draft.question, draft.answer, draft.category, draft.difficulty);
      assert !HasId(questions, nextId) by {
        forall q | q in questions ensures q.id != nextId {
          var i :| 0 <= i < |questions| && questions[i] == q;
        }
      }
      questions := questions + [row];
      nextId := nextId + 1;
      r := Response(201, Empty);
    }
  }

  /** Deleting the same id twice: the second request is always 404. */
  method DeleteTwice(db: Database, questionId: nat) returns (first: Response, second: Response)
    requires db.Valid()
    modifies db
    ensures first.status == 200 <==> HasId(old(db.questions), questionId)
    ensures second == ErrorResponse(NotFound)
    ensures db.questions == WithoutId(old(db.questions), questionId)
  {
    ghost var before := db.questions;
    first := db.DeleteQuestion(questionId);
    if !HasId(before, questionId) {
      WithoutAbsentId(before, questionId);
    }
    second := db.DeleteQuestion(questionId);
  }

  /** Creating a question and deleting it by its new id leaves the question table as it was. */
  method CreateThenDelete(db: Database, draft: Draft) returns (created: Response, deleted: Response)
    requires db.Valid()
    modifies db
    ensures created.status == 201 && deleted.status == 200
    ensures db.questions == old(db.questions)
  {
    ghost var before := db.questions;
    var id := db.nextId;
    created := db.CreateQuestion(draft, false);
    assert db.questions[|db.questions| - 1].id == id;
    assert db.questions[|db.questions| - 1] in db.questions;
    deleted := db.DeleteQuestion(id);
    DeleteUndoesAppend(before, Question(id, draft.question, draft.answer, draft.category, draft.difficulty));
  }
}
