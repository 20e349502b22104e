/** What the post, page and media handlers share: the abstract outcomes of
    the database and of JSON binding, the JSON error reply, the trace of
    effects a request causes, and the write-then-invalidate tail of every
    mutating handler. */
module Handlers {

  import opened Common
  import opened Strings
  import opened CacheTypes
  import opened Listing
  import opened SqlFilter
  import M = Manager

  /** The observable effects of a handler, in order. `Lookup` is the
      by-id read, `FetchMedia` the read of attached media. */
  datatype Step = Lookup | FetchMedia | Begin | Create | Save | Remove | Rollback | Commit | Invalidate

  /** `db.First(&x, id)`: the record, `ErrRecordNotFound`, or another error. */
  datatype Found<T> = Found(record: T) | NotFound | LookupFailed(msg: string)

  /** `query.Count(&total)`: the count, or the database error. */
  datatype Counted = Counted(total: nat) | CountFailed(msg: string)

  /** `query.Find(&rows)`: the rows, or the database error. */
  datatype Rows<T> = Rows(rows: seq<T>) | QueryFailed(msg: string)

  /** `c.ShouldBindJSON(&x)`: the decoded value or the binding error. */
  datatype Bound<T> = Bound(value: T) | BindFailed(msg: string)

  /** A reply: its status and either an error message (`utils.HTTPError` or
      `utils.MessageResponse`) or a JSON body. */
  datatype Reply<T> = Error(code: int, message: string) | Message(code: int, text: string) | Body(code: int, body: T)
  {
    function Code(): int {
      match this
      case Error(c, _) => c
      case Message(c, _) => c
      case Body(c, _) => c
    }
  }

  /** The reply, the effects in order, and the cache manager afterwards. */
  datatype Handled<T> = Handled(reply: Reply<T>, trace: seq<Step>, cache: Option<M.Manager>)

  /** Every invalidation comes right after a commit. */
  predicate InvalidatesAfterCommit(trace: seq<Step>) {
    forall i :: 0 <= i < |trace| && trace[i] == Invalidate ==> i > 0 && trace[i - 1] == Commit
  }

  /** Whether a handler reached its record: the parsed id and the record,
      or the reply it gave up with and the effects up to that point. */
  datatype ByIdResult<T, U> = Got(id: nat, record: T) | Refused(reply: Reply<U>, trace: seq<Step>)

  /** The record a by-id request reaches: the id parses and the lookup finds it. */
  predicate Reaches<T>(idParam: string, lookup: nat -> Found<T>) {
    ParseId(idParam).Some? && lookup(ParseId(idParam).value).Found?
  }

  /** A handler that does not reach its record answers exactly as the lookup
      refuses: 400 before touching the database, 404 or 500 after the
      lookup; nothing else happens and the cache is untouched. */
  predicate RefusesAsLookup<T, U>(h: Handled<U>, idParam: string, lookup: nat -> Found<T>,
                                  invalidId: string, notFound: string, cm: Option<M.Manager>) {
    && (ParseId(idParam).None? ==> h == Handled(Error(400, invalidId), [], cm))
    && (ParseId(idParam).Some? && lookup(ParseId(idParam).value).NotFound? ==>
          h == Handled(Error(404, notFound), [Lookup], cm))
    && (ParseId(idParam).Some? && lookup(ParseId(idParam).value).LookupFailed? ==>
          h == Handled(Error(500, lookup(ParseId(idParam).value).msg), [Lookup], cm))
  }

  /** Parse the `:id` path parameter, then `db.First(&x, id)`. A malformed
      id is refused with 400 before the database is touched; a missing
      record gives 404; any other database error gives 500 with its text. */
  function LookupById<T, U>(idParam: string, lookup: nat -> Found<T>, invalidId: string, notFound: string)
    : (r: ByIdResult<T, U>)
    ensures ParseId(idParam).None? ==> r == Refused(Error(400, invalidId), [])
    ensures ParseId(idParam).Some? ==>
      match lookup(ParseId(idParam).value)
      case Found(x) => r == Got(ParseId(idParam).value, x)
      case NotFound => r == Refused(Error(404, notFound), [Lookup])
      case LookupFailed(m) => r == Refused(Error(500, m), [Lookup])
  {
    match ParseId(idParam)
    case None => Refused(Error(400, invalidId), [])
    case Some(id) =>
      match lookup(id)
      case Found(x) => Got(id, x)
      case NotFound => Refused(Error(404, notFound), [Lookup])
      case LookupFailed(m) => Refused(Error(500, m), [Lookup])
  }

  /** The reply of a validation failure. The validator's own description of
      the failed fields, which Go appends, is not modelled. */
  const ValidationFailed: string := "Validation failed: "

  /** The end of every mutating handler: begin a transaction, perform the
      write, then either roll back and answer 500 with the database's
      message, or commit, invalidate the resource's cache entries and
      answer `success`. The invalidation's own error is dropped: it never
      changes the reply. */
  function Transact<T>(before: seq<Step>, write: Step, outcome: Outcome, cm: Option<M.Manager>,
                       res: Resource, link: Link, success: Reply<T>): (h: Handled<T>)
    ensures outcome.Err? ==> h == Handled(Error(500, outcome.msg), before + [Begin, write, Rollback], cm)
    ensures outcome.Ok? ==> h.reply == success
    ensures outcome.Ok? ==> h.trace == before + [Begin, write, Commit, Invalidate]
    ensures outcome.Ok? ==> h.cache == M.InvalidateResource(cm, res, link).0
  {
    if outcome.Err? then Handled(Error(500, outcome.msg), before + [Begin, write, Rollback], cm)
    else Handled(success, before + [Begin, write, Commit, Invalidate], M.InvalidateResource(cm, res, link).0)
  }

  /** A failed write leaves no invalidation; a successful one invalidates
      exactly once, right after the commit, as the last effect; and in both
      cases the reply is the same whether or not Redis answers. */
  lemma TransactOrdering<T>(before: seq<Step>, write: Step, outcome: Outcome, cm: Option<M.Manager>,
                             res: Resource, link: Link, link': Link, success: Reply<T>)
    requires Invalidate !in before && Commit !in before
    requires write != Invalidate && write != Commit
    ensures var h := Transact(before, write, outcome, cm, res, link, success);
      && InvalidatesAfterCommit(h.trace)
      && (Commit in h.trace <==> outcome.Ok?)
      && (Invalidate in h.trace <==> outcome.Ok?)
      && h.reply == Transact(before, write, outcome, cm, res, link', success).reply
  {
  }

  /** What every mutation of a resource guarantees: the write commits
      exactly when the resource's cache is invalidated, which happens only
      right after the commit and exactly when the reply is a success; the
      cache is untouched otherwise; and the reply does not depend on
      whether Redis answers (`h'` is the same request over another link). */
  predicate Disciplined<T(==)>(h: Handled<T>, h': Handled<T>, cm: Option<M.Manager>, res: Resource, link: Link) {
    && InvalidatesAfterCommit(h.trace)
    && (Commit in h.trace <==> Invalidate in h.trace)
    && (Invalidate in h.trace <==> Is2xx(h.reply.Code()))
    && (Invalidate in h.trace ==> h.cache == M.InvalidateResource(cm, res, link).0)
    && (Invalidate !in h.trace ==> h.cache == cm)
    && h.reply == h'.reply
  }

  // ----- Listing -----

  /** What a list endpoint asks of the database: the WHERE clause of the
      count query and of the page query, the ORDER BY text, LIMIT and
      OFFSET. */
  datatype ListPlan = ListPlan(countWhere: Option<Filter>, pageWhere: Option<Filter>, orderBy: string, limit: int, offset: int)

  /** The body of a successful list reply. */
  datatype Listed<T> = Listed(data: seq<T>, page: int, pageSize: int, total: nat, totalPages: nat)

  /** The plan of a list request: both queries carry the same filter, the
      order is a whitelisted field and a direction, and the page window is
      the normalised one. The offset is the intended one; it is the offset
      the handlers send, which Go computes in int64, whenever that product
      does not overflow. */
  function Plan(conds: seq<Condition>, allowed: set<string>, sortBy: Option<string>, sortOrder: Option<string>,
                page: Option<string>, pageSize: Option<string>): (p: ListPlan)
    requires "created_at" in allowed
    requires forall i :: 0 <= i < |conds| ==> WellFormed(conds[i])
    ensures p.countWhere == p.pageWhere == Where(conds)
    ensures p.orderBy == SortField(sortBy, allowed) + " " + SortOrder(sortOrder)
    ensures 1 <= p.limit <= 100 && p.limit == NormalisePageSize(pageSize)
    ensures p.offset >= 0 && p.offset == Offset(NormalisePage(page), p.limit)
    ensures (NormalisePage(page) - 1) * p.limit <= MaxInt64 ==> p.offset == OffsetAsWritten(NormalisePage(page), p.limit)
  {
    var size := NormalisePageSize(pageSize);
    ListPlan(Where(conds), Where(conds), SortField(sortBy, allowed) + " " + SortOrder(sortOrder),
             size, Offset(NormalisePage(page), size))
  }

  /** The successful reply of a list endpoint: the rows, the normalised page
      and size, the count and the ceiling of count over size. */
  function ListedReply<T>(rows: seq<T>, page: Option<string>, pageSize: Option<string>, total: nat): (r: Reply<Listed<T>>)
    ensures r.Body? && r.code == 200
    ensures r.body.page == NormalisePage(page) && r.body.pageSize == NormalisePageSize(pageSize)
    ensures r.body.total == total && r.body.data == rows
    ensures (r.body.totalPages - 1) * r.body.pageSize < total <= r.body.totalPages * r.body.pageSize
  {
    var size := NormalisePageSize(pageSize);
    Body(200, Listed(rows, NormalisePage(page), size, total, TotalPages(total, size)))
  }
}
