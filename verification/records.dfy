/**
 * The two tables of the trivia database, as values.
 *
 * The object-relational mapper and its query objects are replaced by plain
 * rows: a question table is a sequence of `Question` rows and a category
 * table a sequence of `Category` rows, each in ascending id order (the order
 * every `order_by(... .id)` query of the API yields).
 */
module Records {

  datatype Option<+T> = None | Some(value: T)

  /** A row of the question table. `category` holds the column's text form. */
  datatype Question = Question(
    id: int,
    question: string,
    answer: string,
    category: string,
    difficulty: int)

  /** A row of the category table; `typeName` is the `type` column. */
  datatype Category = Category(id: int, typeName: string)

  /** The fields a create request supplies for a new question, already parsed. */
  datatype Draft = Draft(question: string, answer: string, category: string, difficulty: int)

  /** Question rows in strictly ascending id order (so ids are unique). */
  predicate Ascending(qs: seq<Question>)
  {
    forall i, j :: 0 <= i < j < |qs| ==> qs[i].id < qs[j].id
  }

  /** Category rows in strictly ascending id order (so ids are unique). */
  predicate CategoriesAscending(cs: seq<Category>)
  {
    forall i, j :: 0 <= i < j < |cs| ==> cs[i].id < cs[j].id
  }

  /** Some row of the table has the given id. */
  predicate HasId(qs: seq<Question>, id: int)
  {
    exists q :: q in qs && q.id == id
  }
}
