/**
 * The v1 survey endpoints: the listing's filters (keyword search, tag
 * filter, visibility), its sort rule, the merging of question and
 * subquestion tags into each listed survey, the tag search, and the
 * single-survey lookup.
 *
 * The listing's SQL is modelled by what it selects: a survey is a row
 * with the searchable columns its joins provide, the ids of its tags and
 * of the affiliates it is shared with. Pagination and the order of the
 * rows are not modelled.
 */
module Surveys {
  import opened Common
  import opened LikeSearch
  import SearchBy
  import Patients

  datatype Tag = Tag(id: int, name: string)

  /** A survey row of the listing: the searchable columns (a column whose
    * LEFT JOIN found nothing is absent and never matches), its tag ids,
    * and the affiliates it is shared with. */
  datatype Survey = Survey(id: int, columns: map<string, string>, tagIds: set<int>, affiliateIds: set<int>)

  /** The user asking; `affiliateId` is None when the column is NULL. */
  datatype Viewer = Viewer(id: int, affiliateId: Option<int>)

  // ---------------------------------------------------------------------------
  // Sorting

  /** How the listing orders its rows. */
  datatype SurveyOrder = ByQuestionCount | ByAuthorFirstName | ByColumn(name: string)

  const SortableKeys: set<string> := {"name", "author", "count_questions"}

  /** The constructor's `sort` and the branch `index` takes on it: "name"
    * when absent, None when validation refuses it (422). A blank value
    * skips the `in` rule, as Laravel skips non-implicit rules on empty
    * strings, and is then used as a column name. */
  function SurveyOrdering(sort: Option<string>): (r: Option<SurveyOrder>)
    ensures sort.None? ==> r == Some(ByColumn("name"))
    ensures sort == Some("count_questions") ==> r == Some(ByQuestionCount)
    ensures sort == Some("author") ==> r == Some(ByAuthorFirstName)
    ensures sort == Some("name") ==> r == Some(ByColumn("name"))
    ensures sort.Some? && Trim(sort.value) != "" && sort.value !in SortableKeys ==> r.None?
    ensures sort.Some? && Trim(sort.value) == "" ==> r == Some(ByColumn(sort.value))
  {
    var key := if sort.None? then "name" else sort.value;
    if sort.Some? && Trim(key) != "" && key !in SortableKeys then None
    else if key == "count_questions" then Some(ByQuestionCount)
    else if key == "author" then Some(ByAuthorFirstName)
    else Some(ByColumn(key))
  }

  // ---------------------------------------------------------------------------
  // Tag filter

  predicate IsTagName(s: string) {
    !IsFalsy(s)
  }

  /** `array_filter(array_map('trim', explode(',', $tags)))`: the trimmed
    * comma-separated names, without the falsy ones ("" and "0"). */
  function TagNames(tags: string): (names: seq<string>)
    ensures forall i :: 0 <= i < |names| ==> IsTagName(names[i])
  {
    Filter(TrimAll(Explode(tags, ',')), IsTagName)
  }

  /** The names are exactly the non-falsy trimmed parts; none holds a comma
    * or surrounding blanks. */
  lemma TagNamesMeaning(tags: string)
    ensures forall n :: n in TagNames(tags) ==> ',' !in n && n == Trim(n)
    ensures forall part :: part in Explode(tags, ',') && IsTagName(Trim(part)) ==> Trim(part) in TagNames(tags)
    ensures forall n :: n in TagNames(tags) ==> exists part :: part in Explode(tags, ',') && n == Trim(part)
  {
    var parts := Explode(tags, ',');
    var trimmed := TrimAll(parts);
    var names := TagNames(tags);
    forall n | n in names
      ensures ',' !in n && n == Trim(n) && exists part :: part in parts && n == Trim(part)
    {
      var k := IndexOf(trimmed, n);
      TrimIdempotent(parts[k]);
      TrimKeepsOut(parts[k], ',');
      assert parts[k] in parts;
    }
    forall part | part in parts && IsTagName(Trim(part))
      ensures Trim(part) in names
    {
      assert trimmed[IndexOf(parts, part)] == Trim(part);
    }
  }

  /** Trimming never adds a character. */
  lemma {:induction false} TrimKeepsOut(s: string, c: char)
    requires c !in s
    ensures c !in Trim(s)
  {
    var l := TrimLeft(s);
    assert forall x :: x in l ==> x in s;
    var r := TrimRight(l);
    assert forall x :: x in r ==> x in l;
  }

  /** The unescaped pattern a tag name is looked up with. */
  function TagPattern(name: string): string {
    "%" + name + "%"
  }

  /** A tag is selected when its name is LIKE one of the names' patterns;
    * with no names the `where` group is empty and every tag is selected. */
  predicate TagSelected(names: seq<string>, t: Tag) {
    names == [] || exists n :: n in names && Like(t.name, TagPattern(n))
  }

  function TagId(t: Tag): int {
    t.id
  }

  /** The ids `pluck('id')` returns. */
  function MatchedTagIds(table: seq<Tag>, names: seq<string>): (ids: seq<int>)
    ensures forall t :: t in table && TagSelected(names, t) ==> t.id in ids
    ensures forall id :: id in ids ==> exists t :: t in table && TagSelected(names, t) && t.id == id
  {
    var selected := Filter(table, (t: Tag) => TagSelected(names, t));
    var ids := MapSeq(selected, TagId);
    forall t | t in table && TagSelected(names, t)
      ensures t.id in ids
    {
      assert ids[IndexOf(selected, t)] == t.id;
    }
    forall id | id in ids
      ensures exists t :: t in table && TagSelected(names, t) && t.id == id
    {
      var k := IndexOf(ids, id);
      assert selected[k] in table;
    }
    ids
  }

  /** One LEFT JOIN per matched tag id with `whereNotNull`: the survey must
    * carry every matched tag. A falsy `tags` adds no condition. */
  predicate TagFilterPasses(tags: string, table: seq<Tag>, s: Survey) {
    IsFalsy(tags) || forall id :: id in MatchedTagIds(table, TagNames(tags)) ==> id in s.tagIds
  }

  /** The tag filter asks for every tag that some name selects. */
  lemma TagFilterMeaning(tags: string, table: seq<Tag>, s: Survey)
    requires !IsFalsy(tags)
    ensures TagFilterPasses(tags, table, s)
        <==> forall t :: t in table && TagSelected(TagNames(tags), t) ==> t.id in s.tagIds
  {
    var ids := MatchedTagIds(table, TagNames(tags));
    if forall t :: t in table && TagSelected(TagNames(tags), t) ==> t.id in s.tagIds {
      forall id | id in ids
        ensures id in s.tagIds
      {
        var t :| t in table && TagSelected(TagNames(tags), t) && t.id == id;
      }
    }
  }

  /** A `tags` value with no name in it (",", " , 0") selects every tag, so
    * only surveys carrying all tags pass. */
  lemma NoNamesSelectsAllTags(tags: string, table: seq<Tag>, s: Survey)
    requires !IsFalsy(tags) && TagNames(tags) == []
    ensures TagFilterPasses(tags, table, s) <==> forall t :: t in table ==> t.id in s.tagIds
  {
    TagFilterMeaning(tags, table, s);
  }

  lemma CommaHasNoNames()
    ensures !IsFalsy(",") && TagNames(",") == []
  {
    var parts := Explode(",", ',');
    assert parts == ["", ""] by {
      assert ","[1..] == "";
    }
    assert TrimAll(parts) == ["", ""];
  }

  /** A name without `%`, `_` or a backslash selects the tags whose name
    * contains it. */
  lemma PlainNameSelectsContaining(name: string, t: Tag)
    requires '%' !in name && '_' !in name && '\\' !in name
    ensures Like(t.name, TagPattern(name)) <==> Contains(t.name, name)
  {
    NothingToEscape(name);
    PatternMatchesIffContains(name, t.name);
  }

  lemma {:induction false} NothingToEscape(k: string)
    requires '%' !in k && '_' !in k && '\\' !in k
    ensures AddCSlashes(k, LikeSpecials()) == k
  {
    if k != [] {
      assert k[0] in k;
      assert forall c :: c in k[1..] ==> c in k;
      NothingToEscape(k[1..]);
    }
  }

  /** The documented stand-in for a comma: `_` matches any one character,
    * so the name "a_b" selects the tag "a,b". */
  lemma UnderscoreStandsForComma()
    ensures Like("a,b", TagPattern("a_b"))
  {
    var p := TagPattern("a_b");
    assert p == ['%', 'a', '_', 'b', '%'];
    assert p[1..] == ['a', '_', 'b', '%'] && p[2..] == ['_', 'b', '%'];
    assert p[3..] == ['b', '%'] && p[4..] == ['%'] && p[5..] == [];
    var ts := [AnyRun, Lit('a'), AnyChar, Lit('b'), AnyRun];
    assert Tokens(p) == ts;
    assert ts[1..][1..][1..][1..] == [AnyRun];
    assert Matches([AnyRun], []);
    assert Matches(ts[1..][1..][1..], "b");
    assert Matches(ts[1..][1..], ",b");
    assert Matches(ts[1..], "a,b");
  }

  // ---------------------------------------------------------------------------
  // Visibility and the listing

  /** The affiliate condition after the LEFT JOIN on `affiliate_survey`:
    * a row of the user's affiliate, or, for a NULL affiliate (which the
    * query builder turns into `IS NULL`), no row at all. */
  predicate SharedWith(v: Viewer, s: Survey) {
    if v.affiliateId.Some? then v.affiliateId.value in s.affiliateIds else s.affiliateIds == {}
  }

  /** Shared with the user's affiliate or linked to the user, and not
    * ignored by the user. */
  predicate Visible(v: Viewer, s: Survey, linked: set<(int, int)>, ignored: set<(int, int)>) {
    && (SharedWith(v, s) || (v.id, s.id) in linked)
    && (v.id, s.id) !in ignored
  }

  /** The values of the searched columns a survey row has. */
  function SearchedValues(s: Survey, fields: seq<string>): (values: seq<string>)
    ensures forall v :: v in values <==> exists f :: f in fields && f in s.columns && s.columns[f] == v
  {
    if fields == [] then []
    else
      var rest := SearchedValues(s, fields[1..]);
      var values := if fields[0] in s.columns then [s.columns[fields[0]]] + rest else rest;
      assert forall f :: f in fields ==> f == fields[0] || f in fields[1..];
      values
  }

  /** The listing's request parameters and the tables it joins. */
  datatype Listing = Listing(search: string, searchBy: string, tags: string, viewer: Viewer,
                             tagTable: seq<Tag>, linked: set<(int, int)>, ignored: set<(int, int)>)

  predicate SurveyPasses(q: Listing, fields: seq<string>, s: Survey) {
    && (IsFalsy(q.search) || RowPasses(SearchedValues(s, fields), SearchPatterns(q.search).value))
    && TagFilterPasses(q.tags, q.tagTable, s)
    && Visible(q.viewer, s, q.linked, q.ignored)
  }

  /** The columns searched: `search_by` is resolved only when there is a
    * search. */
  function SearchFields(q: Listing): Result<seq<string>, string> {
    if IsFalsy(q.search) then Ok([])
    else
      var c := SearchBy.SurveySearch();
      SearchBy.SearchByFields(c.basic, c.combined, c.defaultInput, q.searchBy)
  }

  /** The rows `index` lists, or the search-by error. */
  function ListSurveys(surveys: seq<Survey>, q: Listing): (r: Result<seq<Survey>, string>)
    ensures r.Err? <==> !IsFalsy(q.search) && SearchFields(q).Err?
    ensures r.Ok? ==> |r.value| <= |surveys|
    ensures r.Ok? ==> forall s :: s in r.value <==> s in surveys && SurveyPasses(q, SearchFields(q).value, s)
  {
    match SearchFields(q)
    case Err(e) => Err(e)
    case Ok(fields) => Ok(Filter(surveys, (s: Survey) => SurveyPasses(q, fields, s)))
  }

  /** When no search word holds a backslash, a listed survey is one in
    * which every search word occurs in some searched column, that carries
    * every tag the tag names select, and that the user may see and has not
    * ignored. */
  lemma ListingMeaning(surveys: seq<Survey>, q: Listing, s: Survey)
    requires ListSurveys(surveys, q).Ok? && s in surveys
    requires !IsFalsy(q.search) && !IsFalsy(q.tags)
    ensures var fields := SearchFields(q).value;
      (forall w :: w in SearchWords(q.search) ==> '\\' !in w) ==>
      (s in ListSurveys(surveys, q).value <==>
        && (forall w :: w in SearchWords(q.search) ==> exists v :: v in SearchedValues(s, fields) && Contains(v, w))
        && (forall t :: t in q.tagTable && TagSelected(TagNames(q.tags), t) ==> t.id in s.tagIds)
        && Visible(q.viewer, s, q.linked, q.ignored))
  {
    SearchMeaning(q.search, SearchedValues(s, SearchFields(q).value));
    TagFilterMeaning(q.tags, q.tagTable, s);
  }

  /** An ignored survey is never listed. */
  lemma IgnoredNeverListed(surveys: seq<Survey>, q: Listing, s: Survey)
    requires ListSurveys(surveys, q).Ok?
    requires (q.viewer.id, s.id) in q.ignored
    ensures s !in ListSurveys(surveys, q).value
  {
  }

  /** Without a search or a tag filter, a user whose affiliate is NULL
    * sees, besides linked surveys, exactly the surveys shared with no
    * affiliate. */
  lemma NullAffiliateListing(surveys: seq<Survey>, q: Listing, s: Survey)
    requires q.viewer.affiliateId.None? && IsFalsy(q.search) && IsFalsy(q.tags)
    requires s in surveys && (q.viewer.id, s.id) !in q.linked && (q.viewer.id, s.id) !in q.ignored
    ensures ListSurveys(surveys, q).Ok?
    ensures s in ListSurveys(surveys, q).value <==> s.affiliateIds == {}
  {
  }

  /** Without a search, an invalid `search_by` is not an error. */
  lemma SearchByIgnoredWithoutSearch(surveys: seq<Survey>, q: Listing)
    requires IsFalsy(q.search)
    ensures ListSurveys(surveys, q).Ok?
  {
  }

  // ---------------------------------------------------------------------------
  // Tag merging

  function Ids(tags: seq<Tag>): (ids: seq<int>)
    ensures |ids| == |tags| && forall i :: 0 <= i < |tags| ==> ids[i] == tags[i].id
  {
    MapSeq(tags, TagId)
  }

  /** The loops' effect: each tag of `more`, in order, is appended unless a
    * tag with its id is already in the list. */
  function AddNewTags(tags: seq<Tag>, more: seq<Tag>): seq<Tag>
    decreases |more|
  {
    if more == [] then tags
    else
      var r := AddNewTags(tags, more[..|more| - 1]);
      if more[|more| - 1].id in Ids(r) then r else r + [more[|more| - 1]]
  }

  /** Reference definition: the tags of `more` whose id is neither in
    * `seen` nor taken by an earlier tag of `more`. */
  function FreshTags(seen: seq<int>, more: seq<Tag>): seq<Tag>
    decreases |more|
  {
    if more == [] then []
    else if more[0].id in seen then FreshTags(seen, more[1..])
    else [more[0]] + FreshTags(seen + [more[0].id], more[1..])
  }

  /** Concatenation of the subquestions' (or questions') tag lists. */
  function Concat(lists: seq<seq<Tag>>): seq<Tag>
    decreases |lists|
  {
    if lists == [] then [] else Concat(lists[..|lists| - 1]) + lists[|lists| - 1]
  }

  lemma {:induction false} IdsAppend(a: seq<Tag>, b: seq<Tag>)
    ensures Ids(a + b) == Ids(a) + Ids(b)
  {
  }

  /** Appending to `more` appends the tag to the added ones exactly when
    * its id is new. */
  lemma {:induction false} FreshTagsSnoc(seen: seq<int>, more: seq<Tag>, t: Tag)
    ensures FreshTags(seen, more + [t])
         == FreshTags(seen, more) + (if t.id in seen + Ids(FreshTags(seen, more)) then [] else [t])
    decreases |more|
  {
    if more == [] {
      assert [t][1..] == [];
    } else {
      var head := more[0];
      assert (more + [t])[0] == head && (more + [t])[1..] == more[1..] + [t];
      if head.id in seen {
        FreshTagsSnoc(seen, more[1..], t);
      } else {
        var seen' := seen + [head.id];
        FreshTagsSnoc(seen', more[1..], t);
        var rest := FreshTags(seen', more[1..]);
        var last: seq<Tag> := if t.id in seen' + Ids(rest) then [] else [t];
        assert FreshTags(seen', more[1..] + [t]) == rest + last;
        assert FreshTags(seen, more + [t]) == [head] + (rest + last);
        var before := FreshTags(seen, more);
        assert before == [head] + rest;
        IdsAppend([head], rest);
        assert Ids([head]) == [head.id];
        assert Ids(before) == [head.id] + Ids(rest);
        SeenGrows(seen, head.id, Ids(rest));
        assert before + last == [head] + (rest + last);
      }
    }
  }

  lemma SeenGrows(seen: seq<int>, id: int, ids: seq<int>)
    ensures seen + ([id] + ids) == (seen + [id]) + ids
  {
  }

  /** The back-to-front loop appends exactly the added tags. */
  lemma {:induction false} AddNewTagsIsFresh(tags: seq<Tag>, more: seq<Tag>)
    ensures AddNewTags(tags, more) == tags + FreshTags(Ids(tags), more)
    decreases |more|
  {
    if more != [] {
      var init := more[..|more| - 1];
      var t := more[|more| - 1];
      assert more == init + [t];
      AddNewTagsIsFresh(tags, init);
      FreshTagsSnoc(Ids(tags), init, t);
      IdsAppend(tags, FreshTags(Ids(tags), init));
    }
  }

  /** The added tags come from `more`, have ids outside `seen` and no two
    * share an id; every id of `more` ends up in `seen` or among them. */
  lemma {:induction false} FreshTagsMeaning(seen: seq<int>, more: seq<Tag>)
    ensures var added := FreshTags(seen, more);
      && (forall t :: t in added ==> t in more && t.id !in seen)
      && NoDuplicates(Ids(added))
      && (forall t :: t in more ==> t.id in seen || t.id in Ids(added))
    decreases |more|
  {
    if more != [] {
      var head := more[0];
      assert forall t :: t in more ==> t == head || t in more[1..];
      if head.id in seen {
        FreshTagsMeaning(seen, more[1..]);
      } else {
        var seen' := seen + [head.id];
        FreshTagsMeaning(seen', more[1..]);
        var rest := FreshTags(seen', more[1..]);
        assert more == [head] + more[1..];
        FreshConsMeaning(seen, head, more[1..], rest);
      }
    }
  }

  /** A step that adds `head` in front of what the tail adds keeps the
    * three properties of the added tags. */
  lemma FreshConsMeaning(seen: seq<int>, head: Tag, tail: seq<Tag>, rest: seq<Tag>)
    requires head.id !in seen
    requires forall t :: t in rest ==> t in tail && t.id !in seen + [head.id]
    requires NoDuplicates(Ids(rest))
    requires forall t :: t in tail ==> t.id in seen + [head.id] || t.id in Ids(rest)
    ensures var added := [head] + rest;
      && (forall t :: t in added ==> t in [head] + tail && t.id !in seen)
      && NoDuplicates(Ids(added))
      && (forall t :: t in [head] + tail ==> t.id in seen || t.id in Ids(added))
  {
    IdsAppend([head], rest);
    assert Ids([head] + rest) == [head.id] + Ids(rest);
    forall id | id in Ids(rest)
      ensures id != head.id
    {
      var k := IndexOf(Ids(rest), id);
      assert rest[k] in rest;
    }
  }

  /** The merge keeps the original tags first, adds only tags of `more`
    * with an id the list did not have, adds each id once, and leaves no id
    * of `more` out. */
  lemma AddNewTagsMeaning(tags: seq<Tag>, more: seq<Tag>)
    ensures var r := AddNewTags(tags, more);
      && |r| >= |tags| && r[..|tags|] == tags
      && (forall t :: t in r[|tags|..] ==> t in more && t.id !in Ids(tags))
      && NoDuplicates(Ids(r[|tags|..]))
      && (forall t :: t in more ==> t.id in Ids(r))
  {
    AddNewTagsIsFresh(tags, more);
    FreshTagsMeaning(Ids(tags), more);
    var r := AddNewTags(tags, more);
    var added := FreshTags(Ids(tags), more);
    assert r[|tags|..] == added;
    IdsAppend(tags, added);
  }

  /** Merging in two steps is merging the concatenation. */
  lemma {:induction false} AddNewTagsAppend(tags: seq<Tag>, a: seq<Tag>, b: seq<Tag>)
    ensures AddNewTags(tags, a + b) == AddNewTags(AddNewTags(tags, a), b)
    decreases |b|
  {
    if b == [] {
      assert a + b == a;
    } else {
      var init := b[..|b| - 1];
      assert (a + b)[..|a + b| - 1] == a + init;
      assert (a + b)[|a + b| - 1] == b[|b| - 1];
      AddNewTagsAppend(tags, a, init);
    }
  }

  lemma ConcatSnoc(lists: seq<seq<Tag>>, k: nat)
    requires k < |lists|
    ensures Concat(lists[..k + 1]) == Concat(lists[..k]) + lists[k]
  {
    assert lists[..k + 1][..k] == lists[..k];
  }

  /** The inner loop: append each tag of `more` whose id is not yet in
    * `ids`, keeping `ids` the ids of the list. */
  method AppendNewTags(tags: seq<Tag>, ids: seq<int>, more: seq<Tag>) returns (r: seq<Tag>, rIds: seq<int>)
    requires ids == Ids(tags)
    ensures r == AddNewTags(tags, more) && rIds == Ids(r)
  {
    r, rIds := tags, ids;
    for m := 0 to |more|
      invariant r == AddNewTags(tags, more[..m]) && rIds == Ids(r)
    {
      var tag := more[m];
      assert more[..m + 1][..m] == more[..m];
      if tag.id !in rIds {
        IdsAppend(r, [tag]);
        r := r + [tag];
        rIds := rIds + [tag.id];
      }
    }
    assert more[..|more|] == more;
  }

  /** A question of a listed survey: its own tags and each subquestion's. */
  datatype Question = Question(tags: seq<Tag>, subquestionTags: seq<seq<Tag>>)

  /** A question's tag list after the subquestion loop. */
  method MergeQuestionTags(q: Question) returns (tags: seq<Tag>)
    ensures tags == AddNewTags(q.tags, Concat(q.subquestionTags))
  {
    tags := q.tags;
    var ids := Ids(tags);
    for k := 0 to |q.subquestionTags|
      invariant tags == AddNewTags(q.tags, Concat(q.subquestionTags[..k])) && ids == Ids(tags)
    {
      ConcatSnoc(q.subquestionTags, k);
      AddNewTagsAppend(q.tags, Concat(q.subquestionTags[..k]), q.subquestionTags[k]);
      tags, ids := AppendNewTags(tags, ids, q.subquestionTags[k]);
    }
    assert q.subquestionTags[..|q.subquestionTags|] == q.subquestionTags;
  }

  /** Merging one more list into the survey's tags extends the merge of
    * the lists before it. */
  lemma MergeOneMore(surveyTags: seq<Tag>, lists: seq<seq<Tag>>, merged: seq<Tag>)
    ensures AddNewTags(surveyTags, Concat(lists + [merged])) == AddNewTags(AddNewTags(surveyTags, Concat(lists)), merged)
  {
    var next := lists + [merged];
    assert next[..|lists|] == lists;
    assert next[..|lists| + 1] == next;
    ConcatSnoc(next, |lists|);
    AddNewTagsAppend(surveyTags, Concat(lists), merged);
  }

  /** The preparation of one listed survey: every question's tag list
    * gains its subquestions' tags, and the survey's gains its questions'
    * (as merged). */
  method PrepareSurvey(surveyTags: seq<Tag>, questions: seq<Question>)
    returns (tags: seq<Tag>, questionTags: seq<seq<Tag>>)
    ensures |questionTags| == |questions|
    ensures forall i :: 0 <= i < |questions| ==>
      questionTags[i] == AddNewTags(questions[i].tags, Concat(questions[i].subquestionTags))
    ensures tags == AddNewTags(surveyTags, Concat(questionTags))
  {
    tags := surveyTags;
    var ids := Ids(tags);
    questionTags := [];
    for k := 0 to |questions|
      invariant |questionTags| == k
      invariant forall i :: 0 <= i < k ==>
        questionTags[i] == AddNewTags(questions[i].tags, Concat(questions[i].subquestionTags))
      invariant tags == AddNewTags(surveyTags, Concat(questionTags)) && ids == Ids(tags)
    {
      var merged := MergeQuestionTags(questions[k]);
      MergeOneMore(surveyTags, questionTags, merged);
      tags, ids := AppendNewTags(tags, ids, merged);
      questionTags := questionTags + [merged];
    }
  }

  // ---------------------------------------------------------------------------
  // Tag search and survey lookup

  /** `getTags`: every tag without a search, otherwise those whose name is
    * LIKE the unescaped search text. */
  function SearchTags(table: seq<Tag>, search: string): (r: seq<Tag>)
    ensures IsFalsy(search) ==> r == table
    ensures !IsFalsy(search) ==> forall t :: t in r <==> t in table && Like(t.name, TagPattern(search))
  {
    if IsFalsy(search) then table else Filter(table, (t: Tag) => Like(t.name, TagPattern(search)))
  }

  /** The columns `makeHidden` removes from a subquestion's files. */
  const HiddenFileColumns: set<string> := {"subquestion_id", "created_at", "updated_at"}

  datatype Subquestion = Subquestion(columns: map<string, string>, files: seq<map<string, string>>)
  datatype SurveyQuestion = SurveyQuestion(columns: map<string, string>, subquestions: seq<Subquestion>)
  datatype SurveyDetail = SurveyDetail(columns: map<string, string>, questions: seq<SurveyQuestion>)

  function ShownFile(file: map<string, string>): (r: map<string, string>)
    ensures r.Keys == file.Keys - HiddenFileColumns
    ensures forall k :: k in r ==> r[k] == file[k]
  {
    map k | k in file && k !in HiddenFileColumns :: file[k]
  }

  function ShownSubquestion(s: Subquestion): Subquestion {
    s.(files := MapSeq(s.files, ShownFile))
  }

  function ShownQuestion(q: SurveyQuestion): SurveyQuestion {
    q.(subquestions := MapSeq(q.subquestions, ShownSubquestion))
  }

  /** `getSurvey`: 404 "Survey not found" for an unknown id; otherwise the
    * survey with its questions and, on every subquestion file, the
    * bookkeeping columns hidden. */
  function GetSurvey(surveys: map<int, SurveyDetail>, id: int): (r: Patients.Reply<SurveyDetail>)
    ensures r.Failure? <==> id !in surveys
    ensures r.Failure? ==> r.status == 404 && r.message == "Survey not found"
    ensures r.Success? ==> (r.status == 200 && r.body.columns == surveys[id].columns
                            && |r.body.questions| == |surveys[id].questions|)
    ensures r.Success? ==> forall i :: 0 <= i < |r.body.questions| ==>
      && r.body.questions[i].columns == surveys[id].questions[i].columns
      && |r.body.questions[i].subquestions| == |surveys[id].questions[i].subquestions|
    ensures r.Success? ==> forall i, j ::
      0 <= i < |r.body.questions| && 0 <= j < |r.body.questions[i].subquestions| ==>
      && r.body.questions[i].subquestions[j].columns == surveys[id].questions[i].subquestions[j].columns
      && |r.body.questions[i].subquestions[j].files| == |surveys[id].questions[i].subquestions[j].files|
    ensures r.Success? ==> forall i, j, f ::
      0 <= i < |r.body.questions| && 0 <= j < |r.body.questions[i].subquestions|
      && 0 <= f < |r.body.questions[i].subquestions[j].files|
      ==> r.body.questions[i].subquestions[j].files[f] == ShownFile(surveys[id].questions[i].subquestions[j].files[f])
    ensures r.Success? ==> forall i, j, f ::
      0 <= i < |r.body.questions| && 0 <= j < |r.body.questions[i].subquestions|
      && 0 <= f < |r.body.questions[i].subquestions[j].files|
      ==> r.body.questions[i].subquestions[j].files[f].Keys !! HiddenFileColumns
  {
    if id !in surveys then Patients.Failure(404, "Survey not found")
    else
      var s := surveys[id];
      Patients.Success(200, s.(questions := MapSeq(s.questions, ShownQuestion)))
  }
}
