/** The request logic of the media endpoints: the list query, lookup by id,
    create and delete with their cache invalidation.

    The list filter as written joins "url ILIKE ? OR type ILIKE ?" and
    "type = ?" with " AND " and no parentheses, so the type filter binds
    only to the second half of the search. `ConditionsAsWritten` keeps
    that text and its reading; `Conditions` is the parenthesised clause the
    handler evidently intends, and is the one `GetMedia` uses. */
module MediaController {

  import opened Common
  import opened Strings
  import CT = CacheTypes
  import opened Listing
  import opened SqlFilter
  import opened Handlers
  import M = Manager

  /** A media record: its id, URL and type. */
  datatype Media = Media(id: nat, url: string, mediaType: string)

  /** The columns a media row offers to the filter. */
  function RowOf(m: Media): (row: Row)
    ensures "url" in row && row["url"] == m.url
    ensures "type" in row && row["type"] == m.mediaType
  {
    map["url" := m.url, "type" := m.mediaType]
  }

  // ----- GET /media: the filter -----

  const SearchPiecesAsWritten: seq<string> := ["url ILIKE ", " OR type ILIKE ", ""]
  const SearchColumns: seq<string> := ["url", "type"]

  /** `url ILIKE ? OR type ILIKE ?` as written, with "%search%" twice: its
      two alternatives stay ungrouped. */
  function SearchConditionAsWritten(search: string): (c: Condition)
    ensures WellFormed(c) && !Grouped(c)
    ensures c.args == ["%" + search + "%", "%" + search + "%"]
    ensures c.reading == [[Like("url", search)], [Like("type", search)]]
  {
    CountAbsent(SearchPiecesAsWritten[0], '?');
    CountAbsent(SearchPiecesAsWritten[1], '?');
    CountAbsent(SearchPiecesAsWritten[2], '?');
    var s := "%" + search + "%";
    Condition(SearchPiecesAsWritten, [s, s], [[Like("url", search)], [Like("type", search)]])
  }

  /** The intended search group reads `(url ILIKE ? OR type ILIKE ?)`:
      the written alternatives in parentheses. */
  lemma SearchText(search: string)
    ensures Text(AnyIlikeCondition(SearchColumns, search)) == "(url ILIKE ? OR type ILIKE ?)"
  {
    GroupTextOfTwoColumns("url", "type", search);
  }

  /** The written search clause reads `url ILIKE ? OR type ILIKE ?`. */
  lemma SearchTextAsWritten(search: string)
    ensures Text(SearchConditionAsWritten(search)) == "url ILIKE ? OR type ILIKE ?"
  {
    var ps := SearchPiecesAsWritten;
    assert ps[1..][1..] == [""];
    assert Join(ps[1..][1..], "?") == "";
    assert Join(ps[1..], "?") == " OR type ILIKE ?";
  }

  /** The conditions as the handler builds them: the search clause reads as
      two alternatives, so it is not grouped. */
  function ConditionsAsWritten(search: string, mediaType: string): (conds: seq<Condition>)
    ensures forall i :: 0 <= i < |conds| ==> WellFormed(conds[i])
    ensures |conds| == (if search != "" then 1 else 0) + (if mediaType != "" then 1 else 0)
    ensures search != "" ==> !Grouped(conds[0])
    ensures Args(conds) == (if search != "" then ["%" + search + "%", "%" + search + "%"] else [])
                         + (if mediaType != "" then [mediaType] else [])
  {
    var a := if search != "" then [SearchConditionAsWritten(search)] else [];
    var b := if mediaType != "" then [EqCondition("type", mediaType)] else [];
    ArgsAppend(a, b);
    a + b
  }

  /** The conditions as intended: the search alternatives in parentheses,
      so every condition is grouped. The arguments are the same. */
  function Conditions(search: string, mediaType: string): (conds: seq<Condition>)
    ensures forall i :: 0 <= i < |conds| ==> WellFormed(conds[i]) && Grouped(conds[i])
    ensures |conds| == (if search != "" then 1 else 0) + (if mediaType != "" then 1 else 0)
    ensures Args(conds) == Args(ConditionsAsWritten(search, mediaType))
  {
    var a := if search != "" then [AnyIlikeCondition(SearchColumns, search)] else [];
    var b := if mediaType != "" then [EqCondition("type", mediaType)] else [];
    assert search != "" ==> a[0].args == ["%" + search + "%", "%" + search + "%"];
    ArgsAppend(a, b);
    a + b
  }

  /** What the written clause means with both filters given: a row passes
      when its URL matches the search, whatever its type, or when its type
      matches the search and equals the requested type. */
  lemma {:induction false} AsWrittenMeaning(search: string, mediaType: string, row: Row)
    requires search != "" && mediaType != ""
    ensures Satisfies(Where(ConditionsAsWritten(search, mediaType)).value.reading, row) <==>
      Ilike(row, "url", search) || (Ilike(row, "type", search) && "type" in row && row["type"] == mediaType)
  {
    var conds := ConditionsAsWritten(search, mediaType);
    var url, typ, eq := Like("url", search), Like("type", search), Eq("type", mediaType);
    assert conds[0].reading == [[url], [typ]] && conds[1].reading == [[eq]];
    assert JoinedReading(conds[1..]) == [[eq]];
    assert JoinedReading(conds) == AndTexts([[url], [typ]], [[eq]]);
    var left: Reading, right: Reading := [[url], [typ]], [[eq]];
    assert left[..1] == [[url]] && left[1] + right[0] == [typ, eq] && right[1..] == [];
    var r := Where(conds).value.reading;
    assert r == [[url], [typ, eq]];
    if Holds(url, row) {
      assert AllHold(r[0], row);
    }
    if Holds(typ, row) && Holds(eq, row) {
      assert AllHold(r[1], row);
    }
    if Satisfies(r, row) {
      var i :| 0 <= i < |r| && AllHold(r[i], row);
      if i == 1 {
        assert Holds(r[1][0], row) && Holds(r[1][1], row);
      } else {
        assert Holds(r[0][0], row);
      }
    }
  }

  /** What the intended clause means: every given filter holds. */
  lemma FilterMeaning(search: string, mediaType: string, row: Row)
    requires search != "" || mediaType != ""
    ensures Satisfies(Where(Conditions(search, mediaType)).value.reading, row) <==>
      && (search != "" ==> Ilike(row, "url", search) || Ilike(row, "type", search))
      && (mediaType != "" ==> "type" in row && row["type"] == mediaType)
  {
    var conds := Conditions(search, mediaType);
    WhereMeansAll(conds, row);
    var cols := ["url", "type"];
    if search != "" {
      assert conds[0] == AnyIlikeCondition(SearchColumns, search);
      SingleAtom(AnyLike(cols, search), row);
      assert Holds(AnyLike(cols, search), row) <==> Ilike(row, cols[0], search) || Ilike(row, cols[1], search);
    }
    var k := if search != "" then 1 else 0;
    if mediaType != "" {
      assert conds[k] == EqCondition("type", mediaType);
      SingleAtom(Eq("type", mediaType), row);
    }
  }

  /** The two clauses differ only when both filters are given: they are
      absent together, carry the same arguments, and otherwise select the
      same rows. */
  lemma {:induction false} AsWrittenAgreesAlone(search: string, mediaType: string, row: Row)
    ensures Where(Conditions(search, mediaType)).None? <==> Where(ConditionsAsWritten(search, mediaType)).None?
    ensures Where(Conditions(search, mediaType)).Some? ==>
      Where(Conditions(search, mediaType)).value.args == Where(ConditionsAsWritten(search, mediaType)).value.args
    ensures Where(Conditions(search, mediaType)).Some? && (search == "" || mediaType == "") ==>
      (Satisfies(Where(Conditions(search, mediaType)).value.reading, row) <==>
       Satisfies(Where(ConditionsAsWritten(search, mediaType)).value.reading, row))
  {
    var written := ConditionsAsWritten(search, mediaType);
    if search != "" && mediaType == "" {
      FilterMeaning(search, mediaType, row);
      var url, typ := Like("url", search), Like("type", search);
      assert written == [SearchConditionAsWritten(search)];
      var r := Where(written).value.reading;
      assert r == [[url], [typ]];
      if Holds(url, row) {
        assert AllHold(r[0], row);
      }
      if Holds(typ, row) {
        assert AllHold(r[1], row);
      }
      if Satisfies(r, row) {
        var i :| 0 <= i < |r| && AllHold(r[i], row);
        assert Holds(r[i][0], row);
      }
    } else if search == "" && mediaType != "" {
      assert written == Conditions(search, mediaType);
    }
  }

  /** `?search=jpg&type=video` returns the image "a.jpg" as written,
      although its type is not "video"; the intended clause excludes it. */
  lemma {:induction false} TypeFilterBypassed()
    ensures var row := RowOf(Media(1, "a.jpg", "image"));
      && Satisfies(Where(ConditionsAsWritten("jpg", "video")).value.reading, row)
      && !Satisfies(Where(Conditions("jpg", "video")).value.reading, row)
  {
    var row := RowOf(Media(1, "a.jpg", "image"));
    assert ToLower("a.jpg") == "a.jpg" && ToLower("jpg") == "jpg";
    assert OccursAt("a.jpg", "jpg", 2);
    assert Ilike(row, "url", "jpg");
    AsWrittenMeaning("jpg", "video", row);
    FilterMeaning("jpg", "video", row);
  }

  // ----- GET /media -----

  datatype MediaQuery = MediaQuery(page: Option<string>, pageSize: Option<string>, sortBy: Option<string>,
                                   sortOrder: Option<string>, search: string, mediaType: string)

  const CountFailed: string := "Failed to count media records"
  const FetchFailed: string := "Failed to fetch media records"

  /** `GetMedia`: the count and the page query share one clause; a failed
      count answers 500 before the page is fetched. */
  function GetMedia(q: MediaQuery, count: Option<nat>, fetched: Option<seq<Media>>): (res: (ListPlan, Reply<Listed<Media>>))
    ensures res.0 == Plan(Conditions(q.search, q.mediaType), MediaSortFields, q.sortBy, q.sortOrder, q.page, q.pageSize)
    ensures count.None? ==> res.1 == Error(500, CountFailed)
    ensures count.Some? && fetched.None? ==> res.1 == Error(500, FetchFailed)
    ensures count.Some? && fetched.Some? ==> res.1 == ListedReply(fetched.value, q.page, q.pageSize, count.value)
  {
    var plan := Plan(Conditions(q.search, q.mediaType), MediaSortFields, q.sortBy, q.sortOrder, q.page, q.pageSize);
    if count.None? then (plan, Error(500, CountFailed))
    else if fetched.None? then (plan, Error(500, FetchFailed))
    else (plan, ListedReply(fetched.value, q.page, q.pageSize, count.value))
  }

  /** The clause carries two "%search%" arguments and the exact type, with
      one placeholder per argument, on both queries. */
  lemma PlanPlaceholders(q: MediaQuery, count: Option<nat>, fetched: Option<seq<Media>>)
    requires q.search != "" && q.mediaType != ""
    ensures var w := GetMedia(q, count, fetched).0.pageWhere;
      && w == GetMedia(q, count, fetched).0.countWhere
      && w.Some?
      && w.value.args == ["%" + q.search + "%", "%" + q.search + "%", q.mediaType]
      && Count(w.value.text, '?') == 3
  {
  }

  // ----- GET /media/:id -----

  const InvalidId: string := "Invalid media ID"
  const NotFoundMsg: string := "Media not found"

  function GetMediaById(idParam: string, lookup: nat -> Found<Media>): (r: (Reply<Media>, seq<Step>))
    ensures ParseId(idParam).None? ==> r == (Error(400, InvalidId), [])
    ensures ParseId(idParam).Some? ==> r.1 == [Lookup]
    ensures r.0.Body? <==> ParseId(idParam).Some? && lookup(ParseId(idParam).value).Found?
    ensures r.0.Body? ==> r.0 == Body(200, lookup(ParseId(idParam).value).record)
  {
    match LookupById(idParam, lookup, InvalidId, NotFoundMsg)
    case Refused(reply, trace) => (reply, trace)
    case Got(_, media) => (Body(200, media), [Lookup])
  }

  // ----- POST /media, DELETE /media/:id -----

  /** `CreateMedia`: bind, validate, then create and invalidate the media
      cache. The validator's verdict is a parameter. It answers 201 exactly
      when the input binds, validates and the write commits. */
  function CreateMedia(cm: Option<M.Manager>, link: CT.Link, bound: Bound<Media>, validation: Outcome, newId: nat,
                       outcome: Outcome): (h: Handled<Media>)
    ensures bound.BindFailed? ==> h == Handled(Error(400, bound.msg), [], cm)
    ensures bound.Bound? && validation.Err? ==> h == Handled(Error(400, ValidationFailed + validation.msg), [], cm)
    ensures bound.Bound? && validation.Ok? ==>
      h == Transact([], Create, outcome, cm, CT.Media, link, Body(201, bound.value.(id := newId)))
    ensures h.reply.Body? <==> bound.Bound? && validation.Ok? && outcome.Ok?
    ensures h.reply.Body? ==> validation.Ok? && h.reply == Body(201, bound.value.(id := newId))
  {
    match bound
    case BindFailed(m) => Handled(Error(400, m), [], cm)
    case Bound(input) =>
      if validation.Err? then Handled(Error(400, ValidationFailed + validation.msg), [], cm)
      else Transact([], Create, outcome, cm, CT.Media, link, Body(201, input.(id := newId)))
  }

  /** `DeleteMedia`: look up, then delete and invalidate the media cache.
      It answers 200 "Media deleted" exactly when the media exists and the
      deletion commits. */
  function DeleteMedia(cm: Option<M.Manager>, link: CT.Link, idParam: string, lookup: nat -> Found<Media>,
                       outcome: Outcome): (h: Handled<Media>)
    ensures RefusesAsLookup(h, idParam, lookup, InvalidId, NotFoundMsg, cm)
    ensures Reaches(idParam, lookup) ==>
      h == Transact<Media>([Lookup], Remove, outcome, cm, CT.Media, link, Message(200, "Media deleted"))
    ensures h.reply.Message? <==> Reaches(idParam, lookup) && outcome.Ok?
    ensures h.reply.Message? ==> h.reply == Message(200, "Media deleted")
  {
    match LookupById(idParam, lookup, InvalidId, NotFoundMsg)
    case Refused(reply, trace) => Handled(reply, trace, cm)
    case Got(_, _) => Transact<Media>([Lookup], Remove, outcome, cm, CT.Media, link, Message(200, "Media deleted"))
  }

  // ----- Invalidation discipline -----

  // Every media mutation commits exactly when it invalidates the media
  // cache, and does so exactly when it succeeds (`Handlers.Disciplined`).

  lemma CreateMediaDisciplined(cm: Option<M.Manager>, link: CT.Link, link': CT.Link, bound: Bound<Media>,
                                validation: Outcome, newId: nat, outcome: Outcome)
    ensures Disciplined(CreateMedia(cm, link, bound, validation, newId, outcome),
                        CreateMedia(cm, link', bound, validation, newId, outcome), cm, CT.Media, link)
  {
  }

  lemma DeleteMediaDisciplined(cm: Option<M.Manager>, link: CT.Link, link': CT.Link, idParam: string,
                                lookup: nat -> Found<Media>, outcome: Outcome)
    ensures Disciplined(DeleteMedia(cm, link, idParam, lookup, outcome), DeleteMedia(cm, link', idParam, lookup, outcome), cm, CT.Media, link)
  {
  }
}
