/**
 * The feed screen: the list of quotes shown, the page counter, the two busy
 * flags that keep one feed request at a time, and the liked map that the like
 * button flips optimistically and flips back when the backend fails.
 *
 * A handler that awaits is split at the await: `Start...` runs up to the
 * request, `Finish...` runs when the answer arrives, and the handler itself is
 * the two back to back. `inFlight` records the feed requests started and not
 * yet finished.
 */
module HomeScreen {
  import opened Domain
  import QuotesService
  import FavoritesService

  /** The alert texts the screen shows, by their key. */
  datatype Alert = FailedToLoadQuotes | FavoriteUpdate | LoginRequired

  /** A feed request in flight: a first load, a pull-to-refresh, or the next page. */
  datatype FeedLoad = Initial | Refresh | More

  /**
   * The feed requests in flight agree with the two busy flags: none is in
   * flight and neither flag is set, or exactly one is, a refresh under
   * `refreshing` and a page load under `loading`.
   */
  ghost predicate Coherent(inFlight: multiset<FeedLoad>, loading: bool, refreshing: bool) {
    (inFlight == multiset{} && !loading && !refreshing) ||
    (inFlight == multiset{Refresh} && !loading && refreshing) ||
    ((inFlight == multiset{Initial} || inFlight == multiset{More}) && loading && !refreshing)
  }

  /** A request in flight is the only one, and its answer leaves none in flight. */
  lemma SoleRequest(inFlight: multiset<FeedLoad>, loading: bool, refreshing: bool, r: FeedLoad)
    requires Coherent(inFlight, loading, refreshing) && r in inFlight
    ensures inFlight[r := inFlight[r] - 1] == multiset{}
    ensures r == Refresh <==> refreshing
    ensures r != Refresh <==> loading
  {
  }

  /** `!!likedMap[id]`: a missing key reads as not liked. */
  function IsLiked(m: map<string, bool>, id: string): (liked: bool)
    ensures id !in m ==> !liked
    ensures id in m ==> liked == m[id]
  {
    id in m && m[id]
  }

  /** `{ ...prev, [id]: !prev[id] }`. */
  function Flipped(m: map<string, bool>, id: string): (r: map<string, bool>)
    ensures r.Keys == m.Keys + {id}
    ensures forall x :: IsLiked(r, x) == if x == id then !IsLiked(m, id) else IsLiked(m, x)
  {
    m[id := !IsLiked(m, id)]
  }

  /** The liked map after a like: flipped, and flipped back when the toggle reported an error. */
  function AfterToggle(m: map<string, bool>, id: string, failed: bool): map<string, bool> {
    if failed then Flipped(Flipped(m, id), id) else Flipped(m, id)
  }

  /**
   * The rollback restores what the screen shows for every quote. The map itself
   * comes back only if it already had the key: otherwise the key stays, as false.
   */
  lemma FlipTwiceRestoresView(m: map<string, bool>, id: string)
    ensures forall x :: IsLiked(Flipped(Flipped(m, id), id), x) == IsLiked(m, x)
    ensures Flipped(Flipped(m, id), id) == m <==> id in m
  {
    if id in m {
      assert Flipped(Flipped(m, id), id) == m;
    } else {
      assert id in Flipped(Flipped(m, id), id);
    }
  }

  /** The liked map agrees with the favorites table for one user. */
  ghost predicate LikedInSync(m: map<string, bool>, rows: map<FavoritesService.RowId, FavoritesService.Favorite>, userId: string) {
    forall q :: IsLiked(m, q) <==> FavoritesService.Favorite(userId, q) in FavoritesService.Pairs(rows)
  }

  /**
   * `if (error)` on the toggle's error: a database error is an object and so
   * always truthy, while a caught exception's message is falsy when empty.
   */
  function ErrorReported(e: Option<FavoritesService.ToggleError>): (r: bool)
    ensures r <==> e.Some? && e != Some(FavoritesService.Thrown(""))
  {
    match e
    case None => false
    case Some(failure) => failure.DbFailure? || failure.message != ""
  }

  /**
   * A like whose lookup gets an answer (or throws) keeps the liked map in step
   * with the table, whether the toggle succeeds or is rolled back, except when
   * the toggle fails with an empty exception message: that error is falsy, so
   * the optimistic flip stays although the table did not change.
   */
  lemma {:induction false} LikeKeepsMapInSync(m: map<string, bool>, rows: map<FavoritesService.RowId, FavoritesService.Favorite>, userId: string,
                           quoteId: string, lookup: FavoritesService.Transport, write: FavoritesService.Transport, newId: FavoritesService.RowId)
    requires FavoritesService.UniquePairs(rows) && newId !in rows && !lookup.Errored?
    requires LikedInSync(m, rows, userId)
    ensures var o := FavoritesService.Toggle(rows, userId, quoteId, lookup, write, newId);
      LikedInSync(AfterToggle(m, quoteId, ErrorReported(o.result.error)), o.rows, userId) <==>
      o.result.error != Some(FavoritesService.Thrown(""))
  {
    var o := FavoritesService.Toggle(rows, userId, quoteId, lookup, write, newId);
    var shown := AfterToggle(m, quoteId, ErrorReported(o.result.error));
    if o.result.error.None? {
      assert lookup == FavoritesService.Delivered && write == FavoritesService.Delivered;
      assert shown == Flipped(m, quoteId);
      SuccessfulToggleSyncs(m, rows, userId, quoteId, newId);
    } else if o.result.error == Some(FavoritesService.Thrown("")) {
      assert o.rows == rows && shown == Flipped(m, quoteId);
      FlipAloneBreaksSync(m, rows, userId, quoteId);
    } else {
      assert o.rows == rows && shown == Flipped(Flipped(m, quoteId), quoteId);
      RollbackKeepsSync(m, rows, userId, quoteId);
    }
  }

  /** A toggle that goes through moves the table the way the optimistic flip moved the map. */
  lemma SuccessfulToggleSyncs(m: map<string, bool>, rows: map<FavoritesService.RowId, FavoritesService.Favorite>, userId: string,
                              quoteId: string, newId: FavoritesService.RowId)
    requires FavoritesService.UniquePairs(rows) && newId !in rows
    requires LikedInSync(m, rows, userId)
    ensures LikedInSync(Flipped(m, quoteId),
                        FavoritesService.Toggle(rows, userId, quoteId, FavoritesService.Delivered, FavoritesService.Delivered, newId).rows, userId)
  {
    if FavoritesService.Favorite(userId, quoteId) in FavoritesService.Pairs(rows) {
      FavoritesService.ToggleUnlikes(rows, userId, quoteId, newId);
    } else {
      FavoritesService.ToggleLikes(rows, userId, quoteId, newId);
    }
  }

  /** Flipping back restores what the map says, so it is still in step with an unchanged table. */
  lemma RollbackKeepsSync(m: map<string, bool>, rows: map<FavoritesService.RowId, FavoritesService.Favorite>, userId: string, quoteId: string)
    requires LikedInSync(m, rows, userId)
    ensures LikedInSync(Flipped(Flipped(m, quoteId), quoteId), rows, userId)
  {
    FlipTwiceRestoresView(m, quoteId);
  }

  /** A flip the table does not follow puts the map out of step with it. */
  lemma FlipAloneBreaksSync(m: map<string, bool>, rows: map<FavoritesService.RowId, FavoritesService.Favorite>, userId: string, quoteId: string)
    requires LikedInSync(m, rows, userId)
    ensures !LikedInSync(Flipped(m, quoteId), rows, userId)
  {
    assert IsLiked(Flipped(m, quoteId), quoteId) != IsLiked(m, quoteId);
  }

  /** The map the liked-quotes effect builds: every listed id maps to true. */
  method BuildLikedMap(ids: seq<string>) returns (m: map<string, bool>)
    ensures forall k :: k in m <==> k in ids
    ensures forall k :: k in m ==> m[k]
    ensures forall k :: IsLiked(m, k) <==> k in ids
  {
    m := map[];
    for i := 0 to |ids|
      invariant forall k :: k in m <==> k in ids[..i]
      invariant forall k :: k in m ==> m[k]
    {
      assert ids[..i + 1] == ids[..i] + [ids[i]];
      m := m[ids[i] := true];
    }
    assert ids[..|ids|] == ids;
  }

  class Screen {
    /** The signed-in user, from the session. */
    var userId: Option<string>
    var quotes: seq<Quote>
    var likedMap: map<string, bool>
    var page: nat
    var loading: bool
    var refreshing: bool
    var selectedFilters: seq<string>
    /** The alerts shown, oldest first. */
    var alerts: seq<Alert>
    ghost var inFlight: multiset<FeedLoad>

    /** At most one feed request in flight, and the busy flags say which. */
    ghost predicate Valid()
      reads this
    {
      Coherent(inFlight, loading, refreshing)
    }

    /** The list shown is the first `page` pages of the feed of `table` under the current filter. */
    ghost predicate ShowsFirstPages(table: seq<Quote>)
      reads this
    {
      quotes == QuotesService.FirstPages(QuotesService.Feed(table, selectedFilters), page)
    }

    constructor (userId: Option<string>)
      ensures this.userId == userId && quotes == [] && likedMap == map[] && page == 0
      ensures !loading && !refreshing && selectedFilters == [] && alerts == [] && inFlight == multiset{}
      ensures Valid()
    {
      this.userId := userId;
      quotes := [];
      likedMap := map[];
      page := 0;
      loading := false;
      refreshing := false;
      selectedFilters := [];
      alerts := [];
      inFlight := multiset{};
    }

    /**
     * `loadInitialQuotes` up to its request, with the guard's early return
     * leaving the flags alone: it starts a first load only when no feed request
     * is in flight.
     */
    method StartInitialLoad() returns (started: bool)
      modifies this
      ensures started <==> !old(loading) && !old(refreshing)
      ensures started ==> loading && page == 0 && inFlight == old(inFlight) + multiset{Initial}
      ensures !started ==> loading == old(loading) && page == old(page) && inFlight == old(inFlight)
      ensures refreshing == old(refreshing) && quotes == old(quotes) && alerts == old(alerts)
      ensures userId == old(userId) && likedMap == old(likedMap) && selectedFilters == old(selectedFilters)
      ensures old(Valid()) ==> Valid()
    {
      if loading || refreshing {
        return false;
      }
      loading := true;
      page := 0;
      inFlight := inFlight + multiset{Initial};
      started := true;
    }

    /**
     * `loadInitialQuotes` up to its request as written: the guard's `return`
     * sits inside `try`, so the `finally` clears `loading` even though the
     * request that set it is still in flight.
     */
    method StartInitialLoadAsWritten() returns (started: bool)
      modifies this
      ensures started <==> !old(loading) && !old(refreshing)
      ensures started ==> loading && page == 0 && inFlight == old(inFlight) + multiset{Initial}
      ensures !started ==> !loading && page == old(page) && inFlight == old(inFlight)
      ensures refreshing == old(refreshing) && quotes == old(quotes) && alerts == old(alerts)
      ensures userId == old(userId) && likedMap == old(likedMap) && selectedFilters == old(selectedFilters)
    {
      if loading || refreshing {
        loading := false;
        return false;
      }
      loading := true;
      page := 0;
      inFlight := inFlight + multiset{Initial};
      started := true;
    }

    /** The rest of `loadInitialQuotes` once `fetchQuotes(0, ...)` has answered. */
    method FinishInitialLoad(response: QueryResult<seq<Quote>>)
      requires Initial in inFlight
      modifies this`quotes, this`page, this`alerts, this`loading, this`inFlight
      ensures response.data.Some? ==> quotes == response.data.value && page == 1
      ensures response.data.None? ==> quotes == old(quotes) && page == old(page)
      ensures response.error.Some? ==> alerts == old(alerts) + [FailedToLoadQuotes]
      ensures response.error.None? ==> alerts == old(alerts)
      ensures !loading && refreshing == old(refreshing) && inFlight == old(inFlight)[Initial := old(inFlight)[Initial] - 1]
      ensures userId == old(userId) && likedMap == old(likedMap) && selectedFilters == old(selectedFilters)
      ensures old(Valid()) ==> Valid()
    {
      if Valid() {
        SoleRequest(inFlight, loading, refreshing, Initial);
      }
      var shown, shownPage := quotes, page;
      if response.data.Some? {
        shown, shownPage := response.data.value, 1;
      }
      var raised := if response.error.Some? then [FailedToLoadQuotes] else [];
      quotes, page, alerts, loading := shown, shownPage, alerts + raised, false;
      inFlight := inFlight[Initial := inFlight[Initial] - 1];
    }

    /**
     * `loadInitialQuotes` against the quotes table; `fault` is the backend's
     * error, if it fails the request. A successful load shows the first page
     * of the feed under the current filter.
     */
    method LoadInitialQuotes(table: seq<Quote>, fault: Option<DbError>)
      requires Valid()
      modifies this
      ensures Valid() && inFlight == old(inFlight) && loading == old(loading) && refreshing == old(refreshing)
      ensures userId == old(userId) && likedMap == old(likedMap) && selectedFilters == old(selectedFilters)
      ensures old(loading) || old(refreshing) ==> quotes == old(quotes) && page == old(page) && alerts == old(alerts)
      ensures !old(loading) && !old(refreshing) && fault.None? ==>
        ShowsFirstPages(table) && page == 1 && alerts == old(alerts)
      ensures !old(loading) && !old(refreshing) && fault.Some? ==>
        quotes == old(quotes) && page == 0 && alerts == old(alerts) + [FailedToLoadQuotes]
    {
      var started := StartInitialLoad();
      if started {
        var response := QuotesService.FetchQuotes(table, 0, selectedFilters, fault);
        QuotesService.FirstFetchIsFirstPage(table, selectedFilters);
        FinishInitialLoad(response);
      }
    }

    /** `handleRefresh` up to its request, the guard leaving the flags alone. */
    method StartRefresh() returns (started: bool)
      modifies this
      ensures started <==> !old(loading) && !old(refreshing)
      ensures started ==> refreshing && page == 0 && inFlight == old(inFlight) + multiset{Refresh}
      ensures !started ==> refreshing == old(refreshing) && page == old(page) && inFlight == old(inFlight)
      ensures loading == old(loading) && quotes == old(quotes) && alerts == old(alerts)
      ensures userId == old(userId) && likedMap == old(likedMap) && selectedFilters == old(selectedFilters)
      ensures old(Valid()) ==> Valid()
    {
      if refreshing || loading {
        return false;
      }
      refreshing := true;
      page := 0;
      inFlight := inFlight + multiset{Refresh};
      started := true;
    }

    /** `handleRefresh` up to its request as written: the `finally` clears `refreshing` after the guard returns. */
    method StartRefreshAsWritten() returns (started: bool)
      modifies this
      ensures started <==> !old(loading) && !old(refreshing)
      ensures started ==> refreshing && page == 0 && inFlight == old(inFlight) + multiset{Refresh}
      ensures !started ==> !refreshing && page == old(page) && inFlight == old(inFlight)
      ensures loading == old(loading) && quotes == old(quotes) && alerts == old(alerts)
      ensures userId == old(userId) && likedMap == old(likedMap) && selectedFilters == old(selectedFilters)
    {
      if refreshing || loading {
        refreshing := false;
        return false;
      }
      refreshing := true;
      page := 0;
      inFlight := inFlight + multiset{Refresh};
      started := true;
    }

    /** The rest of `handleRefresh` once `fetchQuotes(0, ...)` has answered. */
    method FinishRefresh(response: QueryResult<seq<Quote>>)
      requires Refresh in inFlight
      modifies this`quotes, this`page, this`alerts, this`refreshing, this`inFlight
      ensures response.data.Some? ==> quotes == response.data.value && page == 1
      ensures response.data.None? ==> quotes == old(quotes) && page == old(page)
      ensures response.error.Some? ==> alerts == old(alerts) + [FailedToLoadQuotes]
      ensures response.error.None? ==> alerts == old(alerts)
      ensures !refreshing && loading == old(loading) && inFlight == old(inFlight)[Refresh := old(inFlight)[Refresh] - 1]
      ensures userId == old(userId) && likedMap == old(likedMap) && selectedFilters == old(selectedFilters)
      ensures old(Valid()) ==> Valid()
    {
      if Valid() {
        SoleRequest(inFlight, loading, refreshing, Refresh);
      }
      var shown, shownPage := quotes, page;
      if response.data.Some? {
        shown, shownPage := response.data.value, 1;
      }
      var raised := if response.error.Some? then [FailedToLoadQuotes] else [];
      quotes, page, alerts, refreshing := shown, shownPage, alerts + raised, false;
      inFlight := inFlight[Refresh := inFlight[Refresh] - 1];
    }

    /** `handleRefresh` against the quotes table: a successful refresh shows the first page again. */
    method HandleRefresh(table: seq<Quote>, fault: Option<DbError>)
      requires Valid()
      modifies this
      ensures Valid() && inFlight == old(inFlight) && loading == old(loading) && refreshing == old(refreshing)
      ensures userId == old(userId) && likedMap == old(likedMap) && selectedFilters == old(selectedFilters)
      ensures old(loading) || old(refreshing) ==> quotes == old(quotes) && page == old(page) && alerts == old(alerts)
      ensures !old(loading) && !old(refreshing) && fault.None? ==>
        ShowsFirstPages(table) && page == 1 && alerts == old(alerts)
      ensures !old(loading) && !old(refreshing) && fault.Some? ==>
        quotes == old(quotes) && page == 0 && alerts == old(alerts) + [FailedToLoadQuotes]
    {
      var started := StartRefresh();
      if started {
        var response := QuotesService.FetchQuotes(table, 0, selectedFilters, fault);
        QuotesService.FirstFetchIsFirstPage(table, selectedFilters);
        FinishRefresh(response);
      }
    }

    /** `loadMoreQuotes` up to its request: the page it asks for, or none when a feed request is in flight. */
    method StartLoadMore() returns (requested: Option<nat>)
      modifies this
      ensures requested.Some? <==> !old(loading) && !old(refreshing)
      ensures requested.Some? ==> requested.value == page && loading && inFlight == old(inFlight) + multiset{More}
      ensures requested.None? ==> loading == old(loading) && inFlight == old(inFlight)
      ensures page == old(page) && refreshing == old(refreshing) && quotes == old(quotes) && alerts == old(alerts)
      ensures userId == old(userId) && likedMap == old(likedMap) && selectedFilters == old(selectedFilters)
      ensures old(Valid()) ==> Valid()
    {
      if loading || refreshing {
        return None;
      }
      loading := true;
      inFlight := inFlight + multiset{More};
      requested := Some(page);
    }

    /**
     * The rest of `loadMoreQuotes`: a non-empty page is appended and the page
     * counter moves on; an error is not reported.
     */
    method FinishLoadMore(response: QueryResult<seq<Quote>>)
      requires More in inFlight
      modifies this`quotes, this`page, this`alerts, this`loading, this`inFlight
      ensures response.data.Some? && |response.data.value| > 0 ==> quotes == old(quotes) + response.data.value && page == old(page) + 1
      ensures response.data.None? || |response.data.value| == 0 ==> quotes == old(quotes) && page == old(page)
      ensures !loading && refreshing == old(refreshing) && alerts == old(alerts) && inFlight == old(inFlight)[More := old(inFlight)[More] - 1]
      ensures userId == old(userId) && likedMap == old(likedMap) && selectedFilters == old(selectedFilters)
      ensures old(Valid()) ==> Valid()
    {
      if Valid() {
        SoleRequest(inFlight, loading, refreshing, More);
      }
      var shown, shownPage := quotes, page;
      if response.data.Some? && |response.data.value| > 0 {
        shown, shownPage := quotes + response.data.value, page + 1;
      }
      quotes, page, loading := shown, shownPage, false;
      inFlight := inFlight[More := inFlight[More] - 1];
    }

    /**
     * `loadMoreQuotes` against the quotes table. If the list showed the first
     * pages of the feed, it still does: the next page is appended, or nothing
     * changes once the feed is exhausted.
     */
    method LoadMoreQuotes(table: seq<Quote>, fault: Option<DbError>)
      requires Valid()
      modifies this
      ensures Valid() && inFlight == old(inFlight) && loading == old(loading) && refreshing == old(refreshing)
      ensures userId == old(userId) && likedMap == old(likedMap) && selectedFilters == old(selectedFilters) && alerts == old(alerts)
      ensures old(loading) || old(refreshing) || fault.Some? ==> quotes == old(quotes) && page == old(page)
      ensures !old(loading) && !old(refreshing) && fault.None? ==>
        quotes == old(quotes) + QuotesService.Page(QuotesService.Feed(table, selectedFilters), old(page))
      ensures !old(loading) && !old(refreshing) ==>
        page == old(page) + if fault.None? && |QuotesService.Page(QuotesService.Feed(table, selectedFilters), old(page))| > 0 then 1 else 0
      ensures !old(loading) && !old(refreshing) && old(ShowsFirstPages(table)) ==> ShowsFirstPages(table)
    {
      var requested := StartLoadMore();
      if requested.Some? {
        var response := QuotesService.FetchQuotes(table, requested.value, selectedFilters, fault);
        FinishLoadMore(response);
      }
    }

    /** `handleApply` reaching the screen: the filter is replaced and the first load runs under it. */
    method ApplyFilters(filters: seq<string>, table: seq<Quote>, fault: Option<DbError>)
      requires Valid()
      modifies this
      ensures selectedFilters == filters
      ensures Valid() && inFlight == old(inFlight) && loading == old(loading) && refreshing == old(refreshing)
      ensures userId == old(userId) && likedMap == old(likedMap)
      ensures old(loading) || old(refreshing) ==> quotes == old(quotes) && page == old(page) && alerts == old(alerts)
      ensures !old(loading) && !old(refreshing) && fault.None? ==> ShowsFirstPages(table) && page == 1 && alerts == old(alerts)
      ensures !old(loading) && !old(refreshing) && fault.Some? ==>
        quotes == old(quotes) && page == 0 && alerts == old(alerts) + [FailedToLoadQuotes]
    {
      selectedFilters := filters;
      LoadInitialQuotes(table, fault);
    }

    /** The liked-quotes effect: the map is rebuilt from the user's favorites, or an alert is shown. */
    method LoadLikedMap(reply: Reply<seq<FavoritesService.LikedRow>>)
      modifies this
      ensures userId.None? ==> likedMap == old(likedMap) && alerts == old(alerts)
      ensures userId.Some? && reply.Failed? ==> likedMap == old(likedMap) && alerts == old(alerts) + [FavoriteUpdate]
      ensures userId.Some? && reply.Rows? ==> alerts == old(alerts)
      ensures userId.Some? && reply.Rows? ==>
        forall q :: IsLiked(likedMap, q) <==> exists i :: 0 <= i < |reply.data| && reply.data[i].quoteId == q
      ensures userId == old(userId) && quotes == old(quotes) && page == old(page) && selectedFilters == old(selectedFilters)
      ensures loading == old(loading) && refreshing == old(refreshing) && inFlight == old(inFlight)
    {
      if userId.None? {
        return;
      }
      var (ids, error) := FavoritesService.FetchLikedQuotes(reply);
      if error.Some? {
        alerts := alerts + [FavoriteUpdate];
        return;
      }
      likedMap := BuildLikedMap(ids);
      forall q | IsLiked(likedMap, q) ensures exists i :: 0 <= i < |reply.data| && reply.data[i].quoteId == q {
        var i :| 0 <= i < |ids| && ids[i] == q;
        assert reply.data[i].quoteId == q;
      }
    }

    /**
     * `handleToggleLike`: without a session only an alert; otherwise the map is
     * flipped at once, the toggle runs against the table, and a truthy error
     * flips the map back and shows an alert.
     */
    method HandleToggleLike(quoteId: string, favorites: FavoritesService.FavoritesTable,
                            lookup: FavoritesService.Transport, write: FavoritesService.Transport, newId: FavoritesService.RowId)
      requires newId !in favorites.rows
      modifies this, favorites
      ensures userId.None? ==> likedMap == old(likedMap) && favorites.rows == old(favorites.rows) && alerts == old(alerts) + [LoginRequired]
      ensures userId.Some? ==>
        var o := FavoritesService.Toggle(old(favorites.rows), userId.value, quoteId, lookup, write, newId);
        favorites.rows == o.rows &&
        likedMap == AfterToggle(old(likedMap), quoteId, ErrorReported(o.result.error)) &&
        alerts == old(alerts) + if ErrorReported(o.result.error) then [FavoriteUpdate] else []
      ensures userId == old(userId) && quotes == old(quotes) && page == old(page) && selectedFilters == old(selectedFilters)
      ensures loading == old(loading) && refreshing == old(refreshing) && inFlight == old(inFlight)
    {
      if userId.None? {
        alerts := alerts + [LoginRequired];
        return;
      }
      likedMap := Flipped(likedMap, quoteId);
      var r := favorites.ToggleFavorite(userId.value, quoteId, lookup, write, newId);
      if ErrorReported(r.error) {
        likedMap := Flipped(likedMap, quoteId);
        alerts := alerts + [FavoriteUpdate];
      }
    }
  }

  /**
   * As written: a first load that a filter change triggers while the next page
   * is loading skips its request but clears `loading`, so the next scroll asks
   * for page 0 again and both answers are appended. `page0` stands for each
   * answer; after a real filter change the second is page 0 under the new filter.
   */
  method FilterChangeDuringLoadMoreAsWritten(page0: seq<Quote>) returns (requested: seq<nat>, shown: seq<Quote>)
    requires |page0| > 0
    ensures requested == [0, 0]
    ensures shown == page0 + page0
  {
    var s := new Screen(None);
    var first := s.StartLoadMore();
    var _ := s.StartInitialLoadAsWritten();
    var second := s.StartLoadMore();
    s.FinishLoadMore(QueryResult(Some(page0), None));
    s.FinishLoadMore(QueryResult(Some(page0), None));
    requested := [first.value, second.value];
    shown := s.quotes;
  }

  /** The same sequence with the guard leaving the flags alone: the second request is refused and the page shown once. */
  method FilterChangeDuringLoadMore(page0: seq<Quote>) returns (requested: seq<nat>, shown: seq<Quote>)
    requires |page0| > 0
    ensures requested == [0]
    ensures shown == page0
  {
    var s := new Screen(None);
    var first := s.StartLoadMore();
    var _ := s.StartInitialLoad();
    var second := s.StartLoadMore();
    s.FinishLoadMore(QueryResult(Some(page0), None));
    requested := [first.value];
    shown := s.quotes;
    assert second.None?;
  }

  /** As written: a second pull-to-refresh while one is in flight clears `refreshing`, and a page load can then start beside the refresh. */
  method DoubleRefreshAsWritten() returns (refreshStarted: bool, moreRequested: Option<nat>)
    ensures refreshStarted && moreRequested == Some(0)
  {
    var s := new Screen(None);
    refreshStarted := s.StartRefresh();
    var _ := s.StartRefreshAsWritten();
    moreRequested := s.StartLoadMore();
  }

  /** With the guard leaving the flags alone, no page load starts while the refresh is in flight. */
  method DoubleRefresh() returns (refreshStarted: bool, moreRequested: Option<nat>)
    ensures refreshStarted && moreRequested.None?
  {
    var s := new Screen(None);
    refreshStarted := s.StartRefresh();
    var _ := s.StartRefresh();
    moreRequested := s.StartLoadMore();
  }
}
