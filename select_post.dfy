/**
  * `apps/admin-app/src/components/SelectPost.tsx`: the post picker of the
  * publish page. A search for a user's posts rewrites the `eventId` and
  * `eventType` query parameters according to how many posts came back; a
  * click on a row selects that post. The search lambda and the router are
  * foreign: the lambda's answer is a parameter, the request sent to it is
  * logged, and `replace` is the assignment of the new pairs to `query`.
  */
module SelectPost {
  import opened Wrappers
  import opened Records
  import opened QueryParams

  /** Posts per page. */
  const Limit: nat := 2

  const PostDetail := "post_detail"

  /** What `searchEvent` gives back: some value (an array, or `undefined`/`null`), or a throw. */
  datatype EventsOutcome = Events(result: Option<seq<Post>>) | EventsThrew

  /** The arguments of the search lambda call. */
  datatype SearchRequest = SearchRequest(search: string, eventKind: string, userId: string)

  /** The query pairs after a search, by the number of posts returned. */
  function ParamsAfterSearch(ps: seq<Param>, result: Option<seq<Post>>): seq<Param> {
    if result.None? then ps
    else if |result.value| == 0 then WithParam(WithParam(ps, "eventId", "null"), "eventType", "null")
    else if |result.value| == 1 then WithParam(WithParam(ps, "eventId", result.value[0].userId), "eventType", PostDetail)
    else WithoutParam(WithoutParam(ps, "eventId"), "eventType")
  }

  /** The selection after a search: only a single result selects. */
  function SelectionAfterSearch(selected: Option<string>, result: Option<seq<Post>>): Option<string> {
    if result.None? then selected
    else if |result.value| == 1 then Some(result.value[0].userId)
    else None
  }

  /** `Math.ceil(eventsArray?.length / limit)`; `None` is `NaN`, from an `undefined` length. */
  function PageCount(result: Option<seq<Post>>): Option<nat> {
    if result.None? then None else Some((|result.value| + Limit - 1) / Limit)
  }

  /** `totalPages > 1`, which is false for `NaN`. */
  predicate PagerVisible(totalPages: Option<nat>) {
    totalPages.Some? && totalPages.value > 1
  }

  /** The query pairs after a row click. */
  function ParamsAfterRowClick(ps: seq<Param>, eventId: Option<string>): seq<Param> {
    if Present(eventId) then WithParam(WithParam(ps, "eventId", eventId.value), "eventType", PostDetail)
    else WithoutParam(WithoutParam(ps, "eventId"), "eventType")
  }

  /** Every pair except `eventId` and `eventType`, in order. */
  function OtherParams(ps: seq<Param>): seq<Param> {
    WithoutParam(WithoutParam(ps, "eventId"), "eventType")
  }

  /** What the component renders. */
  datatype PostView = Nothing | NoPostsMessage | PostTable(rows: seq<Post>, pager: bool)

  function View(isSearchComplete: bool, options: Option<seq<Post>>, totalPages: Option<nat>): PostView {
    if !isSearchComplete then Nothing
    else if options.None? || |options.value| == 0 then NoPostsMessage
    else PostTable(options.value, PagerVisible(totalPages))
  }

  /** The component's state and the URL's query pairs. */
  class SelectPost {
    var query: seq<Param>
    var options: Option<seq<Post>>
    var selectedEventId: Option<string>
    var isSearchComplete: bool
    var currentPage: int
    var totalPages: Option<nat>
    var requests: seq<SearchRequest>
    var completions: nat

    constructor(query0: seq<Param>)
      ensures query == query0 && options == None && selectedEventId == None
      ensures !isSearchComplete && currentPage == 1 && totalPages == Some(1)
      ensures requests == [] && completions == 0
    {
      query := query0;
      options := None;
      selectedEventId := None;
      isSearchComplete := false;
      currentPage := 1;
      totalPages := Some(1);
      requests := [];
      completions := 0;
    }

    function Rendered(): PostView
      reads this
    {
      View(isSearchComplete, options, totalPages)
    }

    /**
      * The effect: with both a search term and a user, the search is marked
      * incomplete and the lambda is called. The page number and the limit
      * are handed to `searchEvent` but it does not send them.
      */
    method StartSearch(searchTerm: Option<string>, userId: Option<string>) returns (started: bool)
      modifies this
      ensures started <==> Present(searchTerm) && Present(userId)
      ensures started ==> !isSearchComplete && requests == old(requests) + [SearchRequest(searchTerm.value, "post", userId.value)]
      ensures !started ==> isSearchComplete == old(isSearchComplete) && requests == old(requests)
      ensures query == old(query) && options == old(options) && selectedEventId == old(selectedEventId)
      ensures currentPage == old(currentPage) && totalPages == old(totalPages) && completions == old(completions)
    {
      started := false;
      if searchTerm.Some? && searchTerm.value != "" && userId.Some? && userId.value != "" {
        isSearchComplete := false;
        requests := requests + [SearchRequest(searchTerm.value, "post", userId.value)];
        started := true;
      }
    }

    /** The rest of `fetchEvents`, once the lambda has answered or thrown. */
    method FinishSearch(outcome: EventsOutcome)
      modifies this
      ensures isSearchComplete && completions == old(completions) + 1
      ensures outcome.EventsThrew? ==>
        && query == old(query) && options == old(options)
        && selectedEventId == old(selectedEventId) && totalPages == old(totalPages)
      ensures outcome.Events? ==>
        && query == ParamsAfterSearch(old(query), outcome.result)
        && selectedEventId == SelectionAfterSearch(old(selectedEventId), outcome.result)
        && options == Some(if outcome.result.Some? then outcome.result.value else [])
        && totalPages == PageCount(outcome.result)
      ensures currentPage == old(currentPage) && requests == old(requests)
    {
      if outcome.EventsThrew? {
        isSearchComplete := true;
        completions := completions + 1;
        return;
      }
      var eventsArray := outcome.result;
      ApplyCount(eventsArray);
      options := Some(if eventsArray.Some? then eventsArray.value else []);
      isSearchComplete := true;
      totalPages := if eventsArray.Some? then Some((|eventsArray.value| + Limit - 1) / Limit) else None;
      completions := completions + 1;
    }

    /** The `if` chain of `fetchEvents` on the number of posts, and the `replace` after it. */
    method ApplyCount(eventsArray: Option<seq<Post>>)
      modifies this
      ensures query == ParamsAfterSearch(old(query), eventsArray)
      ensures selectedEventId == SelectionAfterSearch(old(selectedEventId), eventsArray)
      ensures options == old(options) && isSearchComplete == old(isSearchComplete) && currentPage == old(currentPage)
      ensures totalPages == old(totalPages) && requests == old(requests) && completions == old(completions)
    {
      var params := new SearchParams(query);
      if eventsArray.Some? && |eventsArray.value| == 0 {
        params.Set("eventId", "null");
        params.Set("eventType", "null");
        selectedEventId := None;
      } else if eventsArray.Some? && |eventsArray.value| == 1 {
        params.Set("eventId", eventsArray.value[0].userId);
        params.Set("eventType", PostDetail);
        selectedEventId := Some(eventsArray.value[0].userId);
      } else if eventsArray.Some? && |eventsArray.value| > 1 {
        params.Delete("eventId");
        params.Delete("eventType");
        selectedEventId := None;
      }
      query := params.entries;
    }

    /** `handleRowClick`: the clicked id becomes the selection and the `eventId` parameter. */
    method HandleRowClick(eventId: Option<string>)
      modifies this
      ensures selectedEventId == eventId
      ensures query == ParamsAfterRowClick(old(query), eventId)
      ensures options == old(options) && isSearchComplete == old(isSearchComplete) && currentPage == old(currentPage)
      ensures totalPages == old(totalPages) && requests == old(requests) && completions == old(completions)
    {
      selectedEventId := eventId;
      var params := new SearchParams(query);
      if eventId.Some? && eventId.value != "" {
        params.Set("eventId", eventId.value);
        params.Set("eventType", PostDetail);
      } else {
        params.Delete("eventId");
        params.Delete("eventType");
      }
      query := params.entries;
    }

    /** `handlePageChange`. */
    method HandlePageChange(newPage: int)
      modifies this
      ensures currentPage == newPage
      ensures query == old(query) && options == old(options) && selectedEventId == old(selectedEventId)
      ensures isSearchComplete == old(isSearchComplete) && totalPages == old(totalPages)
      ensures requests == old(requests) && completions == old(completions)
    {
      currentPage := newPage;
    }
  }

  /** A set of `eventId` then `eventType` reads back both and keeps every other pair. */
  lemma SetBoth(ps: seq<Param>, id: string, kind: string)
    ensures var r := WithParam(WithParam(ps, "eventId", id), "eventType", kind);
      && ParamValue(r, "eventId") == Some(id) && ParamValue(r, "eventType") == Some(kind)
      && OtherParams(r) == OtherParams(ps)
  {
    var r1 := WithParam(ps, "eventId", id);
    WithParamValue(ps, "eventId", id);
    WithParamOtherValue(r1, "eventType", kind, "eventId");
    WithParamValue(r1, "eventType", kind);
    WithoutParamOfWithParam(r1, "eventType", kind, "eventId");
    WithParamKeepsOthers(ps, "eventId", id);
    WithParamKeepsOthers(WithoutParam(r1, "eventId"), "eventType", kind);
  }

  /** A delete of both names leaves neither and keeps every other pair. */
  lemma DeleteBoth(ps: seq<Param>)
    ensures var r := WithoutParam(WithoutParam(ps, "eventId"), "eventType");
      && ParamValue(r, "eventId") == None && ParamValue(r, "eventType") == None
      && OtherParams(r) == OtherParams(ps)
  {
    var r1 := WithoutParam(ps, "eventId");
    WithoutParamRemoves(ps, "eventId");
    WithoutParamOtherValue(r1, "eventType", "eventId");
    WithoutParamRemoves(r1, "eventType");
    WithoutParamIdempotent(r1, "eventType");
    WithoutParamCommutes(r1, "eventType", "eventId");
    WithoutParamIdempotent(ps, "eventId");
  }

  /** No posts: both parameters read as the string `"null"`, and nothing is selected. */
  lemma NoResultsWriteNull(ps: seq<Param>, selected: Option<string>)
    ensures ParamValue(ParamsAfterSearch(ps, Some([])), "eventId") == Some("null")
    ensures ParamValue(ParamsAfterSearch(ps, Some([])), "eventType") == Some("null")
    ensures SelectionAfterSearch(selected, Some([])) == None
  {
    SetBoth(ps, "null", "null");
  }

  /** One post: the `eventId` parameter and the selection are the post's `userId`, not its `eventId`. */
  lemma OneResultSelectsUserId(ps: seq<Param>, selected: Option<string>, p: Post)
    ensures ParamValue(ParamsAfterSearch(ps, Some([p])), "eventId") == Some(p.userId)
    ensures ParamValue(ParamsAfterSearch(ps, Some([p])), "eventType") == Some(PostDetail)
    ensures SelectionAfterSearch(selected, Some([p])) == Some(p.userId)
  {
    SetBoth(ps, p.userId, PostDetail);
  }

  /** Several posts: both parameters are removed and nothing is selected. */
  lemma SeveralResultsClear(ps: seq<Param>, selected: Option<string>, posts: seq<Post>)
    requires |posts| > 1
    ensures ParamValue(ParamsAfterSearch(ps, Some(posts)), "eventId") == None
    ensures ParamValue(ParamsAfterSearch(ps, Some(posts)), "eventType") == None
    ensures SelectionAfterSearch(selected, Some(posts)) == None
  {
    DeleteBoth(ps);
  }

  /** An `undefined` answer keeps the pairs and the selection, and its page count hides the pager. */
  lemma UndefinedResultChangesNothing(ps: seq<Param>, selected: Option<string>)
    ensures ParamsAfterSearch(ps, None) == ps
    ensures SelectionAfterSearch(selected, None) == selected
    ensures !PagerVisible(PageCount(None))
  {
  }

  /** Whatever comes back, every other query pair is kept, in order. */
  lemma SearchKeepsOtherParams(ps: seq<Param>, result: Option<seq<Post>>)
    ensures OtherParams(ParamsAfterSearch(ps, result)) == OtherParams(ps)
  {
    if result.Some? {
      if |result.value| == 0 {
        SetBoth(ps, "null", "null");
      } else if |result.value| == 1 {
        SetBoth(ps, result.value[0].userId, PostDetail);
      } else {
        DeleteBoth(ps);
      }
    }
  }

  /** The page count is the number of posts divided by two, rounded up. */
  lemma PageCountIsCeiling(posts: seq<Post>)
    ensures var t := PageCount(Some(posts)).value;
      && Limit * t >= |posts|
      && (t == 0 || Limit * (t - 1) < |posts|)
  {
  }

  /** The pager appears exactly when more posts came back than fit on one page. */
  lemma PagerIffMoreThanOnePage(result: Option<seq<Post>>)
    ensures PagerVisible(PageCount(result)) <==> result.Some? && |result.value| > Limit
  {
  }

  /** A click on a row with an id selects it; a click with no id removes both parameters. */
  lemma RowClickParams(ps: seq<Param>, eventId: Option<string>)
    ensures Present(eventId) ==>
      && ParamValue(ParamsAfterRowClick(ps, eventId), "eventId") == eventId
      && ParamValue(ParamsAfterRowClick(ps, eventId), "eventType") == Some(PostDetail)
    ensures !Present(eventId) ==>
      && ParamValue(ParamsAfterRowClick(ps, eventId), "eventId") == None
      && ParamValue(ParamsAfterRowClick(ps, eventId), "eventType") == None
    ensures OtherParams(ParamsAfterRowClick(ps, eventId)) == OtherParams(ps)
  {
    if Present(eventId) {
      SetBoth(ps, eventId.value, PostDetail);
    } else {
      DeleteBoth(ps);
    }
  }

  /**
    * What a finished search renders: the message when nothing came back,
    * otherwise every returned post as a row, whatever the current page,
    * with the pager only beyond two posts.
    */
  lemma ViewAfterSearch(result: Option<seq<Post>>)
    ensures var options := Some(if result.Some? then result.value else []);
      var v := View(true, options, PageCount(result));
      && (v.NoPostsMessage? <==> result.None? || |result.value| == 0)
      && (v.PostTable? ==> v.rows == result.value && (v.pager <==> |result.value| > Limit))
  {
  }

  /** Until a started search finishes, nothing is rendered. */
  lemma NothingWhileSearching(options: Option<seq<Post>>, totalPages: Option<nat>)
    ensures View(false, options, totalPages) == Nothing
  {
  }
}
