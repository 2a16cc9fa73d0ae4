/**
 * The queries the handlers run against the two tables, each as the filter or
 * lookup it is, with what it selects.
 */
module Queries {
  import opened Records
  import opened Sequences

  /** Filtering never breaks the ascending id order of the table. */
  lemma {:induction false} FilterAscending(qs: seq<Question>, p: Question -> bool)
    requires Ascending(qs)
    ensures Ascending(Filter(qs, p))
  {
    if qs != [] {
      FilterAscending(qs[1..], p);
      var rest := Filter(qs[1..], p);
      forall q | q in rest ensures qs[0].id < q.id {
        var k :| 0 <= k < |qs[1..]| && qs[1..][k] == q;
        assert qs[k + 1] == q;
      }
    }
  }

  // ---- the question table -------------------------------------------------

  // The conditions of the filters below, named so that the lemmas about a
  // filter speak of the very condition its definition uses.

  function IdIs(id: int): Question -> bool { (q: Question) => q.id == id }
  function IdIsNot(id: int): Question -> bool { (q: Question) => q.id != id }
  function IdNotIn(previous: seq<int>): Question -> bool { (q: Question) => q.id !in previous }
  function CategoryIs(key: string): Question -> bool { (q: Question) => q.category == key }
  function TextContains(term: string): Question -> bool { (q: Question) => Contains(q.question, term) }
  function CategoryIdIs(id: int): Category -> bool { (c: Category) => c.id == id }

  /** `Question.query.filter(Question.id == id).one_or_none()` */
  function Lookup(qs: seq<Question>, id: int): (r: Option<Question>)
    ensures r.Some? <==> HasId(qs, id)
    ensures r.Some? ==> r.value in qs && r.value.id == id
  {
    Find(qs, IdIs(id))
  }

  /** The table after the row with the given id is deleted. */
  function WithoutId(qs: seq<Question>, id: int): (r: seq<Question>)
    ensures forall q :: q in r <==> q in qs && q.id != id
    ensures !HasId(r, id)
  {
    Filter(qs, IdIsNot(id))
  }

  /** Deleting a present id removes exactly its one row and keeps all others in order. */
  lemma WithoutIdRemovesOne(qs: seq<Question>, k: nat)
    requires Ascending(qs)
    requires k < |qs|
    ensures WithoutId(qs, qs[k].id) == qs[..k] + qs[k + 1..]
    ensures |WithoutId(qs, qs[k].id)| == |qs| - 1
  {
    FilterDropsOne(qs, k, IdIsNot(qs[k].id));
  }

  /** Deleting an absent id leaves the table as it is. */
  lemma WithoutAbsentId(qs: seq<Question>, id: int)
    requires !HasId(qs, id)
    ensures WithoutId(qs, id) == qs
  {
    FilterKeepsAll(qs, IdIsNot(id));
  }

  /** `Question.query.filter(~Question.id.in_(previous))` */
  function ExcludeIds(qs: seq<Question>, previous: seq<int>): (r: seq<Question>)
    ensures forall q :: q in r <==> q in qs && q.id !in previous
  {
    Filter(qs, IdNotIn(previous))
  }

  /** `filter(Question.category == key)`: the rows whose category column is `key`. */
  function InCategory(qs: seq<Question>, key: string): (r: seq<Question>)
    ensures forall q :: q in r <==> q in qs && q.category == key
  {
    Filter(qs, CategoryIs(key))
  }

  /** The category filter finds something exactly when some row has that category. */
  lemma InCategoryNonEmpty(qs: seq<Question>, key: string)
    ensures |InCategory(qs, key)| > 0 <==> exists q :: q in qs && q.category == key
  {
    var found := InCategory(qs, key);
    if |found| > 0 {
      assert found[0] in found;
    }
  }

  // ---- search ---------------------------------------------------------------

  /** `term` occurs in `text` starting at position `i`. */
  ghost predicate OccursAt(text: string, term: string, i: int)
  {
    0 <= i <= |text| - |term| && text[i..i + |term|] == term
  }

  /** Substring test: what the pattern `%term%` matches when `term` has no wildcard. */
  function Contains(text: string, term: string): (r: bool)
    ensures r <==> exists i :: OccursAt(text, term, i)
    decreases |text|
  {
    if |term| > |text| then false
    else if text[..|term|] == term then
      assert OccursAt(text, term, 0);
      true
    else
      var r := Contains(text[1..], term);
      assert forall i :: OccursAt(text[1..], term, i) <==> OccursAt(text, term, i + 1) by {
        forall i ensures OccursAt(text[1..], term, i) <==> OccursAt(text, term, i + 1) {
          if 0 <= i <= |text| - 1 - |term| {
            assert text[1..][i..i + |term|] == text[i + 1..i + 1 + |term|];
          }
        }
      }
      assert r ==> exists i :: OccursAt(text, term, i) by {
        if r {
          var i :| OccursAt(text[1..], term, i);
          assert OccursAt(text, term, i + 1);
        }
      }
      assert (exists i :: OccursAt(text, term, i)) ==> r by {
        if exists i :: OccursAt(text, term, i) {
          var i :| OccursAt(text, term, i);
          assert i != 0;
          assert OccursAt(text[1..], term, i - 1);
        }
      }
      r
  }

  /** The characters SQL `LIKE` treats specially: `%`, `_` and the escape `\`. */
  predicate NoLikeWildcards(term: string)
  {
    forall i :: 0 <= i < |term| ==> term[i] != '%' && term[i] != '_' && term[i] != '\\'
  }

  /** `Question.query.filter(Question.question.like('%' + term + '%'))` for a wildcard-free term. */
  function Matching(qs: seq<Question>, term: string): (r: seq<Question>)
    ensures forall q :: q in r <==> q in qs && Contains(q.question, term)
  {
    Filter(qs, TextContains(term))
  }

  /** The empty search term matches every question. */
  lemma EmptyTermMatchesAll(qs: seq<Question>)
    ensures Matching(qs, "") == qs
  {
    var p := TextContains("");
    forall i | 0 <= i < |qs| ensures p(qs[i]) {
      assert OccursAt(qs[i].question, "", 0);
    }
    FilterKeepsAll(qs, p);
  }

  // ---- the category table --------------------------------------------------

  /** `Category.query.get(id)` */
  function CategoryById(cs: seq<Category>, id: int): (r: Option<Category>)
    ensures r.Some? <==> exists c :: c in cs && c.id == id
    ensures r.Some? ==> r.value in cs && r.value.id == id
  {
    Find(cs, CategoryIdIs(id))
  }

  /** `{category.id: category.type for category in categories}`: a later row overwrites an earlier one. */
  function CategoryMap(cs: seq<Category>): (m: map<int, string>)
    ensures m.Keys == set c | c in cs :: c.id
    ensures cs != [] ==> m[cs[|cs| - 1].id] == cs[|cs| - 1].typeName
  {
    if cs == [] then map[]
    else
      var init := cs[..|cs| - 1];
      var last := cs[|cs| - 1];
      assert cs == init + [last];
      CategoryMap(init)[last.id := last.typeName]
  }

  /** For the id-ordered category table the map has one entry per row, with that row's type. */
  lemma {:induction false} CategoryMapOfTable(cs: seq<Category>)
    requires CategoriesAscending(cs)
    ensures |CategoryMap(cs)| == |cs|
    ensures forall c :: c in cs ==> CategoryMap(cs)[c.id] == c.typeName
  {
    if cs != [] {
      var init := cs[..|cs| - 1];
      var last := cs[|cs| - 1];
      CategoryMapOfTable(init);
      forall c | c in cs ensures CategoryMap(cs)[c.id] == c.typeName {
        var k :| 0 <= k < |cs| && cs[k] == c;
      }
    }
  }
}
