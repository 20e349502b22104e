/** The request logic of the post endpoints: the list query, lookup by id,
    and create, update and delete with their cache invalidation. The
    database is abstract: each handler receives the outcomes of its
    queries as parameters. */
module PostController {

  import opened Common
  import opened Strings
  import opened CacheTypes
  import opened Listing
  import opened SqlFilter
  import opened Handlers
  import M = Manager

  /** A post as the handlers see it; attached media by id. */
  datatype Post = Post(id: nat, title: string, content: string, author: string, media: seq<nat>)

  /** `PostInput`. `mediaIds` is `None` when `media_ids` is absent or null
      (a nil slice) and `Some` — possibly of an empty list — otherwise. */
  datatype PostInput = PostInput(title: string, content: string, author: string, mediaIds: Option<seq<nat>>)

  /** `validate:"required"` on Title and Content. */
  predicate Valid(input: PostInput) {
    input.title != "" && input.content != ""
  }

  // ----- GET /posts -----

  /** The query parameters of `GetPosts`; `c.Query` yields "" when absent. */
  datatype PostQuery = PostQuery(page: Option<string>, pageSize: Option<string>, sortBy: Option<string>,
                                 sortOrder: Option<string>, search: string, title: string, author: string)

  /** The columns the search matches, one `ILIKE ?` each. */
  const SearchColumns: seq<string> := ["title", "content", "author"]

  /** The search group reads `(title ILIKE ? OR content ILIKE ? OR author ILIKE ?)`. */
  lemma SearchText(search: string)
    ensures Text(AnyIlikeCondition(SearchColumns, search)) == "(title ILIKE ? OR content ILIKE ? OR author ILIKE ?)"
  {
    GroupTextOfThree("title", "content", "author");
    SpelledOut();
  }

  lemma SpelledOut()
    ensures "(" + "title" + " ILIKE ? OR " + "content" + " ILIKE ? OR " + "author" + " ILIKE ?)"
         == "(title ILIKE ? OR content ILIKE ? OR author ILIKE ?)"
  {
    var x := "(" + "title" + " ILIKE ? OR ";
    assert x == "(title ILIKE ? OR ";
    var y := x + "content" + " ILIKE ? OR ";
    assert y == "(title ILIKE ? OR content ILIKE ? OR ";
  }

  /** The filter conditions, in the order search, title, author; each is
      grouped, so joining them with AND means all of them must hold. */
  function Conditions(search: string, title: string, author: string): (conds: seq<Condition>)
    ensures forall i :: 0 <= i < |conds| ==> WellFormed(conds[i]) && Grouped(conds[i])
    ensures |conds| == (if search != "" then 1 else 0) + (if title != "" then 1 else 0) + (if author != "" then 1 else 0)
    ensures Args(conds) == (if search != "" then ["%" + search + "%", "%" + search + "%", "%" + search + "%"] else [])
                         + (if title != "" then ["%" + title + "%"] else [])
                         + (if author != "" then [author] else [])
  {
    var a := if search != "" then [AnyIlikeCondition(SearchColumns, search)] else [];
    var b := if title != "" then [IlikeCondition("title", title)] else [];
    var c := if author != "" then [EqCondition("author", author)] else [];
    assert search != "" ==> a[0].args == ["%" + search + "%", "%" + search + "%", "%" + search + "%"];
    ArgsAppend(a, b);
    ArgsAppend(a + b, c);
    a + b + c
  }

  /** A post row passes the filter exactly when it matches the search in
      its title, content or author, contains the title filter in its title,
      and has the author filter as its author, each only when given. */
  lemma FilterMeaning(search: string, title: string, author: string, row: Row)
    requires search != "" || title != "" || author != ""
    ensures var conds := Conditions(search, title, author);
      Satisfies(Where(conds).value.reading, row) <==>
        && (search != "" ==> Ilike(row, "title", search) || Ilike(row, "content", search) || Ilike(row, "author", search))
        && (title != "" ==> Ilike(row, "title", title))
        && (author != "" ==> "author" in row && row["author"] == author)
  {
    var conds := Conditions(search, title, author);
    WhereMeansAll(conds, row);
    var k := if search != "" then 1 else 0;
    var k' := k + (if title != "" then 1 else 0);
    Layout(search, title, author);
    var s := search != "" ==> Ilike(row, "title", search) || Ilike(row, "content", search) || Ilike(row, "author", search);
    var t := title != "" ==> Ilike(row, "title", title);
    var a := author != "" ==> "author" in row && row["author"] == author;
    if search != "" {
      SearchMeaning(search, row);
    }
    if title != "" {
      SingleAtom(Like("title", title), row);
    }
    if author != "" {
      SingleAtom(Eq("author", author), row);
    }
    if s && t && a {
      forall i | 0 <= i < |conds|
        ensures Satisfies(conds[i].reading, row)
      {
        assert (i == 0 && search != "") || (i == k && title != "") || (i == k' && author != "");
      }
    }
  }

  /** Where each given filter sits in the condition list. */
  lemma Layout(search: string, title: string, author: string)
    ensures var conds := Conditions(search, title, author);
      var k := if search != "" then 1 else 0;
      var k' := k + (if title != "" then 1 else 0);
      && (search != "" ==> conds[0] == AnyIlikeCondition(SearchColumns, search))
      && (title != "" ==> conds[k] == IlikeCondition("title", title))
      && (author != "" ==> conds[k'] == EqCondition("author", author))
  {
  }

  /** The search group matches when any of the three columns contains the
      search. */
  lemma SearchMeaning(search: string, row: Row)
    ensures Satisfies(AnyIlikeCondition(SearchColumns, search).reading, row) <==>
      Ilike(row, "title", search) || Ilike(row, "content", search) || Ilike(row, "author", search)
  {
    var cols := SearchColumns;
    SingleAtom(AnyLike(cols, search), row);
    assert Holds(AnyLike(cols, search), row) <==> Ilike(row, cols[0], search) || Ilike(row, cols[1], search) || Ilike(row, cols[2], search);
  }

  /** `GetPosts`: the plan it sends to the database and its reply given the
      count (`None` when counting fails) and the rows fetched (`None` when
      fetching fails). A count failure answers 500 before the fetch. */
  function GetPosts(q: PostQuery, count: Option<nat>, fetched: Option<seq<Post>>): (res: (ListPlan, Reply<Listed<Post>>))
    ensures res.0 == Plan(Conditions(q.search, q.title, q.author), PostSortFields, q.sortBy, q.sortOrder, q.page, q.pageSize)
    ensures count.None? ==> res.1 == Error(500, "Failed to count posts")
    ensures count.Some? && fetched.None? ==> res.1 == Error(500, "Failed to fetch posts")
    ensures count.Some? && fetched.Some? ==> res.1 == ListedReply(fetched.value, q.page, q.pageSize, count.value)
  {
    var plan := Plan(Conditions(q.search, q.title, q.author), PostSortFields, q.sortBy, q.sortOrder, q.page, q.pageSize);
    if count.None? then (plan, Error(500, "Failed to count posts"))
    else if fetched.None? then (plan, Error(500, "Failed to fetch posts"))
    else (plan, ListedReply(fetched.value, q.page, q.pageSize, count.value))
  }

  /** No filter parameter means no WHERE clause; otherwise the clause has
      one placeholder per argument: three for a search, one for each of
      title and author. */
  lemma PlanPlaceholders(q: PostQuery, count: Option<nat>, fetched: Option<seq<Post>>)
    ensures var plan := GetPosts(q, count, fetched).0;
      && (plan.pageWhere.None? <==> q.search == "" && q.title == "" && q.author == "")
      && (plan.pageWhere.Some? ==>
            Count(plan.pageWhere.value.text, '?') == |plan.pageWhere.value.args|
              == (if q.search != "" then 3 else 0) + (if q.title != "" then 1 else 0) + (if q.author != "" then 1 else 0))
  {
  }

  // ----- GET /posts/:id -----

  const InvalidId: string := "Invalid post ID"
  const NotFoundMsg: string := "Post not found"

  /** `GetPost`: the post with the requested id, or the lookup's refusal. */
  function GetPost(idParam: string, lookup: nat -> Found<Post>): (r: (Reply<Post>, seq<Step>))
    ensures ParseId(idParam).None? ==> r == (Error(400, InvalidId), [])
    ensures ParseId(idParam).Some? ==> r.1 == [Lookup]
    ensures r.0.Body? <==> ParseId(idParam).Some? && lookup(ParseId(idParam).value).Found?
    ensures r.0.Body? ==> r.0 == Body(200, lookup(ParseId(idParam).value).record)
  {
    match LookupById(idParam, lookup, InvalidId, NotFoundMsg)
    case Refused(reply, trace) => (reply, trace)
    case Got(_, post) => (Body(200, post), [Lookup])
  }

  // ----- POST /posts and PUT /posts/:id -----

  /** Resolve `media_ids` when it holds at least one id: `None` when the
      fetch fails, else the ids of the media found. */
  type MediaFetch = seq<nat> -> Option<seq<nat>>

  /** The media a request attaches, the effects of getting them, or the 400
      reply when fetching fails. No fetch happens for an empty list. */
  function ResolveMedia(ids: seq<nat>, fetch: MediaFetch): (r: (Option<seq<nat>>, seq<Step>))
    ensures |ids| == 0 ==> r == (Some([]), [])
    ensures |ids| > 0 ==> r == (fetch(ids), [FetchMedia])
  {
    if |ids| > 0 then (fetch(ids), [FetchMedia]) else (Some([]), [])
  }

  /** The media an input attaches: an absent `media_ids` attaches none. */
  function AttachedMedia(input: PostInput, fetch: MediaFetch): (Option<seq<nat>>, seq<Step>) {
    ResolveMedia(input.mediaIds.GetOr([]), fetch)
  }

  const InvalidMedia: string := "Invalid media IDs"

  /** `CreatePost`: bind, validate, resolve media, then write and
      invalidate the post cache. It answers 201 with the new post exactly
      when the input binds, validates, its media resolve and the write
      commits; each earlier refusal is a 400 that leaves the database and
      the cache alone. */
  function CreatePost(cm: Option<M.Manager>, link: Link, bound: Bound<PostInput>, fetch: MediaFetch,
                      newId: nat, outcome: Outcome): (h: Handled<Post>)
    ensures bound.BindFailed? ==> h == Handled(Error(400, bound.msg), [], cm)
    ensures bound.Bound? && !Valid(bound.value) ==> h == Handled(Error(400, ValidationFailed), [], cm)
    ensures bound.Bound? && Valid(bound.value) && AttachedMedia(bound.value, fetch).0.None? ==>
      h == Handled(Error(400, InvalidMedia), AttachedMedia(bound.value, fetch).1, cm)
    ensures bound.Bound? && Valid(bound.value) && AttachedMedia(bound.value, fetch).0.Some? ==>
      var input := bound.value;
      var (media, steps) := AttachedMedia(input, fetch);
      h == Transact(steps, Create, outcome, cm, Posts, link,
                    Body(201, Post(newId, input.title, input.content, input.author, media.value)))
    ensures h.reply.Body? <==>
      bound.Bound? && Valid(bound.value) && AttachedMedia(bound.value, fetch).0.Some? && outcome.Ok?
    ensures h.reply.Body? ==>
      var input := bound.value;
      h.reply == Body(201, Post(newId, input.title, input.content, input.author, AttachedMedia(input, fetch).0.value))
  {
    match bound
    case BindFailed(m) => Handled(Error(400, m), [], cm)
    case Bound(input) =>
      if !Valid(input) then Handled(Error(400, ValidationFailed), [], cm)
      else
        var (media, steps) := ResolveMedia(input.mediaIds.GetOr([]), fetch);
        if media.None? then Handled(Error(400, InvalidMedia), steps, cm)
        else
          var post := Post(newId, input.title, input.content, input.author, media.value);
          Transact(steps, Create, outcome, cm, Posts, link, Body(201, post))
  }

  /** The `UpdatePost` merge: Title, Content and Author are replaced only by
      non-empty values; media are replaced when `media_ids` was given. */
  function Merge(post: Post, input: PostInput, media: seq<nat>): (p: Post)
    ensures p.id == post.id
  {
    Post(post.id,
         if input.title != "" then input.title else post.title,
         if input.content != "" then input.content else post.content,
         if input.author != "" then input.author else post.author,
         if input.mediaIds.Some? then media else post.media)
  }

  /** After validation, Title and Content are always replaced, Author is
      kept exactly when the input leaves it empty, and media are kept
      exactly when `media_ids` was absent. Merging twice changes nothing
      more. */
  lemma MergeRule(post: Post, input: PostInput, media: seq<nat>)
    requires Valid(input)
    ensures var p := Merge(post, input, media);
      && p.title == input.title && p.content == input.content
      && (input.author == "" ==> p.author == post.author)
      && (input.author != "" ==> p.author == input.author)
      && (input.mediaIds.None? ==> p.media == post.media)
      && (input.mediaIds.Some? ==> p.media == media)
      && Merge(p, input, media) == p
  {
  }

  /** `UpdatePost`: look up, bind, validate, resolve media if given, merge,
      then save and invalidate the post cache. It answers 200 with the
      merged post exactly when the post exists, the input binds, validates,
      its media resolve and the save commits. */
  function UpdatePost(cm: Option<M.Manager>, link: Link, idParam: string, lookup: nat -> Found<Post>,
                      bound: Bound<PostInput>, fetch: MediaFetch, outcome: Outcome): (h: Handled<Post>)
    ensures RefusesAsLookup(h, idParam, lookup, InvalidId, NotFoundMsg, cm)
    ensures Reaches(idParam, lookup) && bound.BindFailed? ==> h == Handled(Error(400, bound.msg), [Lookup], cm)
    ensures Reaches(idParam, lookup) && bound.Bound? && !Valid(bound.value) ==>
      h == Handled(Error(400, ValidationFailed), [Lookup], cm)
    ensures Reaches(idParam, lookup) && bound.Bound? && Valid(bound.value) && AttachedMedia(bound.value, fetch).0.None? ==>
      h == Handled(Error(400, InvalidMedia), [Lookup] + AttachedMedia(bound.value, fetch).1, cm)
    ensures Reaches(idParam, lookup) && bound.Bound? && Valid(bound.value) && AttachedMedia(bound.value, fetch).0.Some? ==>
      var prior := lookup(ParseId(idParam).value).record;
      var (media, steps) := AttachedMedia(bound.value, fetch);
      h == Transact([Lookup] + steps, Save, outcome, cm, Posts, link, Body(200, Merge(prior, bound.value, media.value)))
    ensures h.reply.Body? <==>
      Reaches(idParam, lookup) && bound.Bound? && Valid(bound.value) && AttachedMedia(bound.value, fetch).0.Some? && outcome.Ok?
    ensures h.reply.Body? ==>
      h.reply == Body(200, Merge(lookup(ParseId(idParam).value).record, bound.value, AttachedMedia(bound.value, fetch).0.value))
  {
    match LookupById(idParam, lookup, InvalidId, NotFoundMsg)
    case Refused(reply, trace) => Handled(reply, trace, cm)
    case Got(_, post) =>
      match bound
      case BindFailed(m) => Handled(Error(400, m), [Lookup], cm)
      case Bound(input) =>
        if !Valid(input) then Handled(Error(400, ValidationFailed), [Lookup], cm)
        else
          var (media, steps) := ResolveMedia(input.mediaIds.GetOr([]), fetch);
          if media.None? then Handled(Error(400, InvalidMedia), [Lookup] + steps, cm)
          else Transact([Lookup] + steps, Save, outcome, cm, Posts, link, Body(200, Merge(post, input, media.value)))
  }

  // ----- DELETE /posts/:id -----

  /** `DeletePost`: look up, then delete and invalidate the post cache. It
      answers 200 "Post deleted" exactly when the post exists and the
      deletion commits. */
  function DeletePost(cm: Option<M.Manager>, link: Link, idParam: string, lookup: nat -> Found<Post>,
                      outcome: Outcome): (h: Handled<Post>)
    ensures RefusesAsLookup(h, idParam, lookup, InvalidId, NotFoundMsg, cm)
    ensures Reaches(idParam, lookup) ==>
      h == Transact<Post>([Lookup], Remove, outcome, cm, Posts, link, Message(200, "Post deleted"))
    ensures h.reply.Message? <==> Reaches(idParam, lookup) && outcome.Ok?
    ensures h.reply.Message? ==> h.reply == Message(200, "Post deleted")
  {
    match LookupById(idParam, lookup, InvalidId, NotFoundMsg)
    case Refused(reply, trace) => Handled(reply, trace, cm)
    case Got(_, _) => Transact<Post>([Lookup], Remove, outcome, cm, Posts, link, Message(200, "Post deleted"))
  }

  // ----- Invalidation discipline -----

  // Every post mutation commits exactly when it invalidates the post
  // cache, and does so exactly when it succeeds (`Handlers.Disciplined`).

  lemma {:induction false} CreatePostDisciplined(cm: Option<M.Manager>, link: Link, link': Link, bound: Bound<PostInput>,
                                                 fetch: MediaFetch, newId: nat, outcome: Outcome)
    ensures Disciplined(CreatePost(cm, link, bound, fetch, newId, outcome),
                        CreatePost(cm, link', bound, fetch, newId, outcome), cm, Posts, link)
  {
    if bound.Bound? && Valid(bound.value) {
      var input := bound.value;
      var (media, steps) := ResolveMedia(input.mediaIds.GetOr([]), fetch);
      if media.Some? {
        var post := Post(newId, input.title, input.content, input.author, media.value);
        TransactOrdering(steps, Create, outcome, cm, Posts, link, link', Body(201, post));
      }
    }
  }

  lemma {:induction false} UpdatePostDisciplined(cm: Option<M.Manager>, link: Link, link': Link, idParam: string,
                                                 lookup: nat -> Found<Post>, bound: Bound<PostInput>,
                                                 fetch: MediaFetch, outcome: Outcome)
    ensures Disciplined(UpdatePost(cm, link, idParam, lookup, bound, fetch, outcome),
                        UpdatePost(cm, link', idParam, lookup, bound, fetch, outcome), cm, Posts, link)
  {
    var h := UpdatePost(cm, link, idParam, lookup, bound, fetch, outcome);
    if !Reaches(idParam, lookup) || bound.BindFailed? || !Valid(bound.value) {
      assert h.trace == [] || h.trace == [Lookup];
    } else if AttachedMedia(bound.value, fetch).0.None? {
      assert h.trace == [Lookup, FetchMedia];
    } else {
      var prior := lookup(ParseId(idParam).value).record;
      var (media, steps) := AttachedMedia(bound.value, fetch);
      TransactOrdering([Lookup] + steps, Save, outcome, cm, Posts, link, link',
                       Body(200, Merge(prior, bound.value, media.value)));
    }
  }

  lemma {:induction false} DeletePostDisciplined(cm: Option<M.Manager>, link: Link, link': Link, idParam: string,
                                                 lookup: nat -> Found<Post>, outcome: Outcome)
    ensures Disciplined(DeletePost(cm, link, idParam, lookup, outcome),
                        DeletePost(cm, link', idParam, lookup, outcome), cm, Posts, link)
  {
    var r: ByIdResult<Post, Post> := LookupById(idParam, lookup, InvalidId, NotFoundMsg);
    if r.Got? {
      TransactOrdering<Post>([Lookup], Remove, outcome, cm, Posts, link, link', Message(200, "Post deleted"));
    }
  }
}
