/** The request logic of the page endpoints: the list query, lookup by id,
    and create, update and delete with their cache invalidation. Binding
    is abstract and includes the `binding:"required"` check on Title and
    Content; the page validator itself finds nothing to check, since the
    page record carries no `validate` tags, so it never refuses. */
module PageController {

  import opened Common
  import opened Strings
  import opened CacheTypes
  import opened Listing
  import opened SqlFilter
  import opened Handlers
  import M = Manager

  datatype Page = Page(id: nat, title: string, content: string)

  // ----- GET /pages -----

  datatype PageQuery = PageQuery(page: Option<string>, pageSize: Option<string>, sortBy: Option<string>,
                                 sortOrder: Option<string>, search: string, title: string)

  /** The columns of the group `db.Where("title ILIKE ?").Or("content ILIKE ?")`.
      GORM writes the group in parentheses when another condition follows
      it and without them when it is the only condition. */
  const SearchColumns: seq<string> := ["title", "content"]

  const StandalonePieces: seq<string> := ["title ILIKE ", " OR content ILIKE ", ""]

  /** The group as the only condition: the two alternatives without
      parentheses, each bound to "%search%". */
  function StandaloneSearch(search: string): (c: Condition)
    ensures WellFormed(c) && !Grouped(c)
    ensures c.args == ["%" + search + "%", "%" + search + "%"]
    ensures c.reading == [[Like("title", search)], [Like("content", search)]]
  {
    CountAbsent(StandalonePieces[0], '?');
    CountAbsent(StandalonePieces[1], '?');
    CountAbsent(StandalonePieces[2], '?');
    var s := "%" + search + "%";
    Condition(StandalonePieces, [s, s], [[Like("title", search)], [Like("content", search)]])
  }

  /** The conditions: the search group, then the title filter, each only
      when given. The group is parenthesised exactly when the title filter
      follows it, so every condition is grouped whenever there are two. */
  function Conditions(search: string, title: string): (conds: seq<Condition>)
    ensures forall i :: 0 <= i < |conds| ==> WellFormed(conds[i])
    ensures title != "" ==> forall i :: 0 <= i < |conds| ==> Grouped(conds[i])
    ensures |conds| == (if search != "" then 1 else 0) + (if title != "" then 1 else 0)
    ensures Args(conds) == (if search != "" then ["%" + search + "%", "%" + search + "%"] else [])
                         + (if title != "" then ["%" + title + "%"] else [])
  {
    var a := if search == "" then []
             else if title == "" then [StandaloneSearch(search)]
             else [AnyIlikeCondition(SearchColumns, search)];
    var b := if title != "" then [IlikeCondition("title", title)] else [];
    assert search != "" && title != "" ==> a[0].args == ["%" + search + "%", "%" + search + "%"];
    ArgsAppend(a, b);
    a + b
  }

  /** The group on its own reads `title ILIKE ? OR content ILIKE ?`. */
  lemma StandaloneText(search: string)
    ensures Text(StandaloneSearch(search)) == "title ILIKE ? OR content ILIKE ?"
  {
    var ps := StandalonePieces;
    assert ps[1..][1..] == [""];
    assert Join(ps[1..][1..], "?") == "";
    assert Join(ps[1..], "?") == " OR content ILIKE ?";
  }

  /** The WHERE clause GORM sends when the search is the only filter: the
      bare alternatives. */
  lemma {:induction false} WhereTextAlone(search: string)
    requires search != ""
    ensures Where(Conditions(search, "")).value.text == "title ILIKE ? OR content ILIKE ?"
  {
    var c := StandaloneSearch(search);
    assert Conditions(search, "") == [c];
    WhereTextOfOne(c);
    StandaloneText(search);
  }

  lemma GroupSpelledOut()
    ensures "(" + "title" + " ILIKE ? OR " + "content" + " ILIKE ?)" == "(title ILIKE ? OR content ILIKE ?)"
  {
  }

  /** With both filters: the parenthesised group AND the title test. */
  lemma {:induction false} WhereTextBoth(search: string, title: string)
    requires search != "" && title != ""
    ensures Where(Conditions(search, title)).value.text == "(title ILIKE ? OR content ILIKE ?) AND title ILIKE ?"
  {
    var g := AnyIlikeCondition(SearchColumns, search);
    var f := IlikeCondition("title", title);
    assert Conditions(search, title) == [g, f];
    WhereTextOfTwo(g, f);
    GroupTextOfTwoColumns("title", "content", search);
    GroupSpelledOut();
    var x := "(title ILIKE ? OR content ILIKE ?)" + " AND ";
    assert x == "(title ILIKE ? OR content ILIKE ?) AND ";
    assert x + "title ILIKE ?" == "(title ILIKE ? OR content ILIKE ?) AND title ILIKE ?";
  }

  /** A page row passes the filter exactly when the search occurs in its
      title or content and the title filter in its title, each only when
      given. */
  lemma FilterMeaning(search: string, title: string, row: Row)
    requires search != "" || title != ""
    ensures var conds := Conditions(search, title);
      Satisfies(Where(conds).value.reading, row) <==>
        && (search != "" ==> Ilike(row, "title", search) || Ilike(row, "content", search))
        && (title != "" ==> Ilike(row, "title", title))
  {
    var conds := Conditions(search, title);
    if title == "" {
      var r := Where(conds).value.reading;
      assert r == [[Like("title", search)], [Like("content", search)]];
      if Ilike(row, "title", search) {
        assert AllHold(r[0], row);
      } else if Ilike(row, "content", search) {
        assert AllHold(r[1], row);
      }
      if Satisfies(r, row) {
        var i :| 0 <= i < |r| && AllHold(r[i], row);
        assert Holds(r[i][0], row);
      }
    } else {
      WhereMeansAll(conds, row);
      var cols := ["title", "content"];
      if search != "" {
        assert conds[0] == AnyIlikeCondition(SearchColumns, search);
        SingleAtom(AnyLike(cols, search), row);
        assert Holds(AnyLike(cols, search), row) <==> Ilike(row, cols[0], search) || Ilike(row, cols[1], search);
      }
      var k := if search != "" then 1 else 0;
      assert conds[k] == IlikeCondition("title", title);
      SingleAtom(Like("title", title), row);
    }
  }

  /** `GetPages`: the handler ignores the count's error, but the count and
      the page query run on the same GORM query, which keeps the error; the
      page query is then not sent and returns that same error, so a failed
      count answers 500 with the count's text. Otherwise a failed fetch
      answers 500 with its own text. */
  function GetPages(q: PageQuery, count: Counted, fetched: Rows<Page>): (res: (ListPlan, Reply<Listed<Page>>))
    ensures res.0 == Plan(Conditions(q.search, q.title), PageSortFields, q.sortBy, q.sortOrder, q.page, q.pageSize)
    ensures count.CountFailed? ==> res.1 == Error(500, count.msg)
    ensures count.Counted? && fetched.QueryFailed? ==> res.1 == Error(500, fetched.msg)
    ensures count.Counted? && fetched.Rows? ==> res.1 == ListedReply(fetched.rows, q.page, q.pageSize, count.total)
  {
    var plan := Plan(Conditions(q.search, q.title), PageSortFields, q.sortBy, q.sortOrder, q.page, q.pageSize);
    match (count, fetched)
    case (CountFailed(m), _) => (plan, Error(500, m))
    case (Counted(_), QueryFailed(m)) => (plan, Error(500, m))
    case (Counted(total), Rows(rows)) => (plan, ListedReply(rows, q.page, q.pageSize, total))
  }

  /** The list answers 200 exactly when both queries succeed, and then its
      total is the count; a failure of either is a 500 carrying the text of
      the first query that failed. */
  lemma ListSucceedsIffBothQueries(q: PageQuery, count: Counted, fetched: Rows<Page>)
    ensures var r := GetPages(q, count, fetched).1;
      && (r.code == 200 <==> count.Counted? && fetched.Rows?)
      && (r.code == 200 ==> r.Body? && r.body.total == count.total && r.body.data == fetched.rows)
      && (r.code != 200 ==> r == Error(500, if count.CountFailed? then count.msg else fetched.msg))
  {
  }

  // ----- GET /pages/:id -----

  const InvalidId: string := "Invalid page ID"
  const NotFoundMsg: string := "Page not found"

  function GetPage(idParam: string, lookup: nat -> Found<Page>): (r: (Reply<Page>, seq<Step>))
    ensures ParseId(idParam).None? ==> r == (Error(400, InvalidId), [])
    ensures ParseId(idParam).Some? ==> r.1 == [Lookup]
    ensures r.0.Body? <==> ParseId(idParam).Some? && lookup(ParseId(idParam).value).Found?
    ensures r.0.Body? ==> r.0 == Body(200, lookup(ParseId(idParam).value).record)
  {
    match LookupById(idParam, lookup, InvalidId, NotFoundMsg)
    case Refused(reply, trace) => (reply, trace)
    case Got(_, page) => (Body(200, page), [Lookup])
  }

  // ----- POST /pages, PUT /pages/:id, DELETE /pages/:id -----

  /** `CreatePage`: bind, then create and invalidate the page cache; the
      created page is the bound one with the id the database assigned. It
      answers 201 exactly when the input binds and the write commits. */
  function CreatePage(cm: Option<M.Manager>, link: Link, bound: Bound<Page>, newId: nat, outcome: Outcome)
    : (h: Handled<Page>)
    ensures bound.BindFailed? ==> h == Handled(Error(400, bound.msg), [], cm)
    ensures bound.Bound? ==> h == Transact([], Create, outcome, cm, Pages, link, Body(201, bound.value.(id := newId)))
    ensures h.reply.Body? <==> bound.Bound? && outcome.Ok?
    ensures h.reply.Body? ==> h.reply == Body(201, bound.value.(id := newId))
  {
    match bound
    case BindFailed(m) => Handled(Error(400, m), [], cm)
    case Bound(page) => Transact([], Create, outcome, cm, Pages, link, Body(201, page.(id := newId)))
  }

  /** The `UpdatePage` rule: Title and Content are both replaced
      unconditionally; the id is the stored one, never the input's. */
  function Replace(page: Page, input: Page): (p: Page)
    ensures p.id == page.id && p.title == input.title && p.content == input.content
  {
    page.(title := input.title, content := input.content)
  }

  /** Replacing is idempotent and forgets the previous contents entirely:
      two pages with the same id end up equal after the same update. */
  lemma ReplaceForgets(a: Page, b: Page, input: Page)
    requires a.id == b.id
    ensures Replace(a, input) == Replace(b, input)
    ensures Replace(Replace(a, input), input) == Replace(a, input)
  {
  }

  /** `UpdatePage`: look up, bind, replace, then save and invalidate the
      page cache. It answers 200 with the replaced page exactly when the
      page exists, the input binds and the save commits. */
  function UpdatePage(cm: Option<M.Manager>, link: Link, idParam: string, lookup: nat -> Found<Page>,
                      bound: Bound<Page>, outcome: Outcome): (h: Handled<Page>)
    ensures RefusesAsLookup(h, idParam, lookup, InvalidId, NotFoundMsg, cm)
    ensures Reaches(idParam, lookup) && bound.BindFailed? ==> h == Handled(Error(400, bound.msg), [Lookup], cm)
    ensures Reaches(idParam, lookup) && bound.Bound? ==>
      h == Transact([Lookup], Save, outcome, cm, Pages, link,
                    Body(200, Replace(lookup(ParseId(idParam).value).record, bound.value)))
    ensures h.reply.Body? <==> Reaches(idParam, lookup) && bound.Bound? && outcome.Ok?
    ensures h.reply.Body? ==>
      h.reply == Body(200, Replace(lookup(ParseId(idParam).value).record, bound.value))
  {
    match LookupById(idParam, lookup, InvalidId, NotFoundMsg)
    case Refused(reply, trace) => Handled(reply, trace, cm)
    case Got(_, page) =>
      match bound
      case BindFailed(m) => Handled(Error(400, m), [Lookup], cm)
      case Bound(input) => Transact([Lookup], Save, outcome, cm, Pages, link, Body(200, Replace(page, input)))
  }

  /** `DeletePage`: look up, then delete and invalidate the page cache. It
      answers 200 "Page deleted" exactly when the page exists and the
      deletion commits. */
  function DeletePage(cm: Option<M.Manager>, link: Link, idParam: string, lookup: nat -> Found<Page>,
                      outcome: Outcome): (h: Handled<Page>)
    ensures RefusesAsLookup(h, idParam, lookup, InvalidId, NotFoundMsg, cm)
    ensures Reaches(idParam, lookup) ==>
      h == Transact<Page>([Lookup], Remove, outcome, cm, Pages, link, Message(200, "Page deleted"))
    ensures h.reply.Message? <==> Reaches(idParam, lookup) && outcome.Ok?
    ensures h.reply.Message? ==> h.reply == Message(200, "Page deleted")
  {
    match LookupById(idParam, lookup, InvalidId, NotFoundMsg)
    case Refused(reply, trace) => Handled(reply, trace, cm)
    case Got(_, _) => Transact<Page>([Lookup], Remove, outcome, cm, Pages, link, Message(200, "Page deleted"))
  }

  // ----- Invalidation discipline -----

  // Every page mutation commits exactly when it invalidates the page
  // cache, and does so exactly when it succeeds (`Handlers.Disciplined`).

  lemma CreatePageDisciplined(cm: Option<M.Manager>, link: Link, link': Link, bound: Bound<Page>,
                               newId: nat, outcome: Outcome)
    ensures Disciplined(CreatePage(cm, link, bound, newId, outcome), CreatePage(cm, link', bound, newId, outcome), cm, Pages, link)
  {
  }

  lemma UpdatePageDisciplined(cm: Option<M.Manager>, link: Link, link': Link, idParam: string,
                               lookup: nat -> Found<Page>, bound: Bound<Page>, outcome: Outcome)
    ensures Disciplined(UpdatePage(cm, link, idParam, lookup, bound, outcome),
                        UpdatePage(cm, link', idParam, lookup, bound, outcome), cm, Pages, link)
  {
  }

  lemma DeletePageDisciplined(cm: Option<M.Manager>, link: Link, link': Link, idParam: string,
                               lookup: nat -> Found<Page>, outcome: Outcome)
    ensures Disciplined(DeletePage(cm, link, idParam, lookup, outcome), DeletePage(cm, link', idParam, lookup, outcome), cm, Pages, link)
  {
  }
}
