# quote-vault, modelled in Dafny

quote-vault is a React Native app for reading quotes. It shows a paged feed of quotes, filtered by category and newest first. A user can like quotes, save them to named collections, and get one "quote of the day". The backend is Supabase: PostgreSQL tables reached through a query client.

This project models the app's core and proves what that core promises. The core is:

- the service functions that decide what is read from and written to the tables;
- the feed screen's paging and liked-map state machine;
- the category filter popup;
- the save-to-collection sheet;
- the hash that picks a quote card's background picture.

The backend is replaced by its answers:

- each request's outcome (rows, an error object, or an exception) is a parameter;
- the tables a service writes are fields of a class (`FavoritesTable`, `CollectionsDb`, `DailyQuoteStore`);
- the database's unique constraints appear as the SQLSTATE 23505 error (PostgreSQL's unique_violation) that an insert of a taken key receives.

Modules, one per source file:

| module | source file | what it holds |
|---|---|---|
| `Domain` | — | shared shapes: `Option`, the error object, the `{ data, error }` result, `Quote`, `array.map`, the unique-key insert rule, and UTF-16 code units (JavaScript's string length and `charCodeAt`) |
| `QuotesService` | `quotes.services.ts` | the feed: category filter, newest-first order, 10-row pages |
| `AuthService` | `auth.services.ts` | the guards checked before a request, and the error-message mapping |
| `FavoritesService` | `favorites.services.ts` | the like toggle over the favorites table, `checkIsLiked`, the two list fetches |
| `CollectionsService` | `collections.services.ts` | collection lists with counts, create, and add with duplicates tolerated |
| `DailyQuoteService` | `dailyquote.services.ts` | the daily-quote resolver over the history table |
| `QuoteReelItem` | `QuoteReelItem.tsx` | the background-picture hash |
| `CategoryPopup` | `CategoryPopup.tsx` | the local multi-selection |
| `HomeScreen` | `HomeScreen.tsx` | the feed screen |
| `AddToCollections` | `AddToCollections.tsx` | the save-to-collection sheet |

## How the screens are modelled

A screen handler that awaits is split at the await:

- `Start…` runs the handler up to its request;
- `Finish…` runs it once the answer arrives;
- the handler itself runs the two back to back.

A ghost multiset `inFlight` holds the feed requests that have started and not yet finished. `Valid()` says that at most one feed request is in flight and that `loading` and `refreshing` say which one. `ShowsFirstPages(table)` says that the list shown is exactly the first `page` pages of the feed. A successful first load or refresh establishes it, and each next-page load keeps it.

## Behaviours of the source the proofs make explicit

These are stated as lemmas and contracts:

- **Favorites lookup error.** `toggleFavorite` ignores the error of its lookup. When the lookup of a liked quote fails, it inserts a second row for the pair (`FailedLookupInsertsDuplicate`). If the favorites table has no unique (user_id, quote_id) constraint, as this model assumes, that insert succeeds. With two rows for a pair, `.single()` finds nothing, so that quote can never be un-liked again (`DuplicateRowsCannotBeUnliked`).
- **Empty exception message.** When the toggle throws with an empty message, `toggleFavorite` returns `error: ""`, which `if (error)` reads as no error. The optimistic flip then stays although the table did not change, and no alert is shown (`ErrorReported`, `LikeKeepsMapInSync`).
- **Failed reload resets the page.** A failed first load or refresh keeps the old list but leaves `page` at 0. This is stated in the contracts of `LoadInitialQuotes` and `HandleRefresh`.
- **Dangling daily-quote row.** A history row whose quote no longer joins counts as no row. The resolver picks again, and the pick's insert collides with that row, so the pick is not recorded (`DanglingRowIsPickedAgain`).
- **Concurrent daily-quote resolutions.** Of two resolutions for the same day, the second is shown a quote that the history does not keep (`RaceKeepsFirstWriter`).
- **Toggling a chip twice.** This restores the selected set, but a key that was not last moves to the end of the list (`ToggleTwiceMovesMiddleKey`).

## Model

| member | source | states |
|---|---|---|
| `Domain.InsertError` | src/services/collections.services.ts:54-62 | an insert fails exactly when the request fails or its key is taken; a taken key with no other failure gives the 23505 duplicate-key error |
| `Domain.MapSeq` | src/services/favorites.services.ts:66-69 | `array.map` keeps length and order and maps element by element |
| `Domain.Utf16Units` | src/components/quote/QuoteReelItem.tsx:45-46 | a character is one code unit below U+10000, else a surrogate pair in the high and low ranges that decodes back to it |
| `Domain.Utf16` | src/services/auth.services.ts:15 | a string's `length` is at least its number of characters, every unit is below 0x10000, and for a string without astral characters the two agree and unit i is character i's code, what `charCodeAt(i)` returns |
| `QuotesService.Matching` | src/services/quotes.services.ts:17-19 | only rows passing the category filter remain, each with its multiplicity in the table |
| `QuotesService.InsertByDate` | src/services/quotes.services.ts:15 | inserting into a newest-first list keeps it newest first and adds exactly that row |
| `QuotesService.SortNewestFirst` | src/services/quotes.services.ts:15 | the order by `created_at` descending is newest first and a permutation of its input |
| `QuotesService.Feed` | src/services/quotes.services.ts:11-19 | the feed is newest first, passes the filter, and holds each passing table row as often as the table does |
| `QuotesService.FetchQuotes` | src/services/quotes.services.ts:7-23 | a failed request gives no data and its error; otherwise exactly page p of the feed, so at most ten rows, newest first, all passing the filter, all from the table |
| `QuotesService.PageOfSortedList` | src/services/quotes.services.ts:14-15 | a page of a newest-first list is newest first, at most ten rows, drawn from the list |
| `QuotesService.FeedRowsComeFromTable` | src/services/quotes.services.ts:11-13 | every feed row is a table row |
| `QuotesService.Page` | src/services/quotes.services.ts:4-14 | `.range(p*10, p*10+9)` is inclusive at both ends: the page holds the rows from position p*10 on, ten of them or as many as exist, none past the end |
| `QuotesService.PagesAreContiguous` | src/services/quotes.services.ts:14 | two consecutive pages laid end to end are one contiguous slice of the list |
| `QuotesService.FirstPagesArePrefix` | src/services/quotes.services.ts:14 | pages 0..k-1 laid end to end are the first 10k rows of the feed, with no gap or repeat |
| `QuotesService.FirstFetchIsFirstPage` | src/services/quotes.services.ts:4-15 | a successful fetch of page 0 answers exactly the first page of the feed, the state a first load or refresh shows |
| `QuotesService.EmptyFilterKeepsAll` | src/services/quotes.services.ts:9-17 | with the default empty category list no row is filtered out |
| `QuotesService.FilterAppliedIffNonEmpty` | src/services/quotes.services.ts:17-19 | under a non-empty list a row is kept iff it is in the table and its category is listed |
| `AuthService.ErrorText` | src/services/auth.services.ts:10 | `error?.message \|\| null` is a message exactly when there is an error with a non-empty message |
| `AuthService.Login` | src/services/auth.services.ts:5-11 | invalid email is rejected first, then an empty password; a request is sent iff both guards pass, and its reply is mapped field by field |
| `AuthService.Signup` | src/services/auth.services.ts:13-19 | invalid email first, then a password shorter than 6 UTF-16 units; sent iff both pass |
| `AuthService.ResetPassword` | src/services/auth.services.ts:21-28 | the reset request is sent iff the email is valid; otherwise "Invalid email format" |
| `AuthService.Logout` | src/services/auth.services.ts:30-33 | sign-out is always sent; the result is null iff the backend's error has no non-empty message, and otherwise it is that message |
| `AuthService.RejectionIgnoresBackend` | src/services/auth.services.ts:5-19 | a rejected login or signup makes no request and its answer does not depend on the backend |
| `AuthService.NoErrorOnlyFromBackend` | src/services/auth.services.ts:5-19 | a login or signup without error sent its request |
| `AuthService.GuardsAreNested` | src/services/auth.services.ts:5-28 | a signup that passes would pass login, a login that passes would pass reset, and a bad email is reported before a bad password |
| `QuoteReelItem.Hash` | src/components/quote/QuoteReelItem.tsx:44-47 | the running hash stays in `[0, n)` after every step |
| `QuoteReelItem.StepReduction` | src/components/quote/QuoteReelItem.tsx:46 | reducing modulo n at every step equals reducing once at the end |
| `QuoteReelItem.HashIsPolyMod` | src/components/quote/QuoteReelItem.tsx:44-47 | the loop's hash is the base-31 polynomial of the id's code units modulo the picture count |
| `QuoteReelItem.BackgroundImage` | src/components/quote/QuoteReelItem.tsx:43-49 | with pictures, the one picked is at index polynomial mod count, so it is one of the pictures, and an empty id picks the first; with none, `undefined` |
| `CategoryPopup.Without` | src/components/quote/CategoryPopup.tsx:29 | `filter(k => k !== key)` drops every copy of the key and keeps every other key's multiplicity |
| `CategoryPopup.WithoutKeepsOrder` | src/components/quote/CategoryPopup.tsx:29 | filtering a concatenation filters each part in place, so the kept keys keep their order |
| `CategoryPopup.WithoutAbsent` | src/components/quote/CategoryPopup.tsx:29 | filtering out an absent key changes nothing |
| `CategoryPopup.WithoutClosesGap` | src/components/quote/CategoryPopup.tsx:29 | removing a key held once closes its gap and keeps the others in order |
| `CategoryPopup.WithoutKeepsNoDuplicates` | src/components/quote/CategoryPopup.tsx:29 | removal keeps a duplicate-free selection duplicate-free |
| `CategoryPopup.Toggled` | src/components/quote/CategoryPopup.tsx:26-34 | the key's membership flips and every other key's membership stays as it was |
| `CategoryPopup.ToggleAbsentAppends` | src/components/quote/CategoryPopup.tsx:32 | a key not selected is appended at the end |
| `CategoryPopup.ToggleFlipsMembership` | src/components/quote/CategoryPopup.tsx:26-34 | a toggle flips exactly the key's membership and keeps the selection duplicate-free |
| `CategoryPopup.ToggleTwice` | src/components/quote/CategoryPopup.tsx:26-34 | two toggles restore the selected set, and the list when the key was absent or last |
| `CategoryPopup.ToggleTwiceMovesMiddleKey` | src/components/quote/CategoryPopup.tsx:26-34 | on a duplicate-free list, two toggles of a key at any position but the last take it out of its place and append it, so the list changes |
| `CategoryPopup.Popup.constructor` | src/components/quote/CategoryPopup.tsx:17 | the local selection starts empty |
| `CategoryPopup.Popup.Open` | src/screens/home/HomeScreen.tsx:188 | the feed opens the popup; the selection is untouched |
| `CategoryPopup.Popup.SyncOnOpen` | src/components/quote/CategoryPopup.tsx:20-24 | an open popup takes over the feed's filter; a closed one keeps its selection |
| `CategoryPopup.Popup.ToggleCategory` | src/components/quote/CategoryPopup.tsx:26-34 | the selection becomes the toggled selection |
| `CategoryPopup.Popup.HandleClear` | src/components/quote/CategoryPopup.tsx:41-43 | the selection becomes empty |
| `CategoryPopup.Popup.HandleApply` | src/components/quote/CategoryPopup.tsx:36-39 | the selection is handed over unchanged and the popup closes |
| `CategoryPopup.Popup.Close` | src/screens/home/HomeScreen.tsx:228 | the popup closes and keeps its selection |
| `CollectionsService.FirstCount` | src/services/collections.services.ts:17 | the count is nonzero exactly when the first aggregate cell has a nonzero count, and then it is that count |
| `CollectionsService.FetchUserCollections` | src/services/collections.services.ts:4-21 | rows keep their order and fields and gain their count; a failure gives no data and the error |
| `CollectionsService.CountsAreNonNegative` | src/services/collections.services.ts:15-18 | no count is negative when the aggregate's counts are not |
| `CollectionsService.FetchCollectionDetails` | src/services/collections.services.ts:24-40 | the joined quotes in row order, or `[]` and the error |
| `CollectionsService.AddOutcome` | src/services/collections.services.ts:60-64 | a duplicate becomes success with `isDuplicate`; any other error is returned as is |
| `CollectionsService.CollectionsDb.CreateCollection` | src/services/collections.services.ts:43-51 | a successful create adds exactly the one row for (user, name) and returns it; a failure changes nothing |
| `CollectionsService.CollectionsDb.AddQuoteToCollection` | src/services/collections.services.ts:54-65 | the pair is in the table afterwards unless the request failed; the reply follows the unique-key rule |
| `CollectionsService.AddToleratesDuplicates` | src/services/collections.services.ts:60-62 | adding a pair already present is a success flagged duplicate; a new pair is a plain success |
| `CollectionsService.OtherErrorsPassThrough` | src/services/collections.services.ts:63-64 | an error other than 23505 is returned unchanged with `isDuplicate` false |
| `DailyQuoteService.DatePart` | src/services/dailyquote.services.ts:6 | `split('T')[0]` is the longest prefix without 'T' |
| `DailyQuoteService.TodayIsFullDate` | src/services/dailyquote.services.ts:6 | for a `toISOString()` timestamp the key is its first ten characters, a YYYY-MM-DD date |
| `DailyQuoteService.Joined` | src/services/dailyquote.services.ts:9-21 | the lookup yields a quote exactly when the history has the key and its quote still exists |
| `DailyQuoteService.Recorded` | src/services/dailyquote.services.ts:50-62 | only a successful insert adds the row; a failed one leaves the history as it was |
| `DailyQuoteService.ResolveAgainst` | src/services/dailyquote.services.ts:4-70 | a quote is returned iff no error is; the history only grows, by at most the day's key; the lookup is always the first request |
| `DailyQuoteService.Resolve` | src/services/dailyquote.services.ts:4-70 | a quote is returned iff no error is; the history only grows, and when it changes the day's key was absent and now holds the returned quote, after exactly the lookup, the pick and the insert |
| `DailyQuoteService.DailyQuoteStore.GetDailyQuote` | src/services/dailyquote.services.ts:4-70 | the method's result, history and requests are those of the resolution for the day of `nowIso` |
| `DailyQuoteService.RecordedQuoteIsReplayed` | src/services/dailyquote.services.ts:9-21 | a recorded quote is returned with only the lookup sent: no pick, no insert |
| `DailyQuoteService.DanglingRowIsPickedAgain` | src/services/dailyquote.services.ts:18-57 | a row whose quote is gone counts as absent; the new pick is returned, inserted, and not recorded |
| `DailyQuoteService.FailuresWriteNothing` | src/services/dailyquote.services.ts:16-29 | a lookup or pick error returns its message and no quote, and nothing is inserted |
| `DailyQuoteService.FallbackIsNotRecorded` | src/services/dailyquote.services.ts:34-41 | with no unique pick the fallback is returned and not recorded; with no fallback, "No quotes in database." |
| `DailyQuoteService.UniquePickIsInsertedOnce` | src/services/dailyquote.services.ts:42-64 | a unique pick is inserted exactly once as (user, quote, day), and no insert error changes the result |
| `DailyQuoteService.FreshPickIsStable` | src/services/dailyquote.services.ts:9-57 | once a pick is recorded, every later resolution that day returns it with the lookup alone |
| `DailyQuoteService.RaceKeepsFirstWriter` | src/services/dailyquote.services.ts:50-61 | of two resolutions racing on one day, the first insert wins and the second's pick is shown but not kept |
| `DailyQuoteService.UniquePicksKeepNoRepeats` | src/services/dailyquote.services.ts:25-57 | if the pick never repeats a seen quote, no user's history holds a quote twice |
| `FavoritesService.MatchingUnderUniquePairs` | src/services/favorites.services.ts:6-13 | without duplicate pairs, `.single()` finds a row iff the pair is liked |
| `FavoritesService.FoundSingle` | src/services/favorites.services.ts:6-13 | `existing` is non-null only for an answered lookup, and without duplicate pairs exactly when the pair is liked |
| `FavoritesService.Toggle` | src/services/favorites.services.ts:3-34 | no error iff the lookup did not throw and the write went through; an error leaves the table and returns no data; returned data is the new (user, quote) row, the only change to the table, reported liked |
| `FavoritesService.ToggleUnlikes` | src/services/favorites.services.ts:13-20 | a liked quote loses exactly its one row and the toggle reports not liked |
| `FavoritesService.ToggleLikes` | src/services/favorites.services.ts:21-29 | a quote not liked gains exactly one (user, quote) row and the toggle reports liked with the row |
| `FavoritesService.ToggleTouchesOnlyItsPair` | src/services/favorites.services.ts:6-29 | whatever the backend does, no row of another pair changes, and the only row added is this pair's |
| `FavoritesService.TogglePreservesUniquePairs` | src/services/favorites.services.ts:6-29 | a toggle whose lookup is answered or throws keeps pairs unique |
| `FavoritesService.FailedLookupInsertsDuplicate` | src/services/favorites.services.ts:6-13 | a lookup error on a liked pair leads to a second row for it |
| `FavoritesService.ToggleTwiceRestoresPairs` | src/services/favorites.services.ts:6-29 | two successful toggles restore the set of liked pairs |
| `FavoritesService.ToggleThrown` | src/services/favorites.services.ts:31-33 | an exception gives no data, not liked, its message, and no write |
| `FavoritesService.FailedWriteChangesNothing` | src/services/favorites.services.ts:15-29 | a failed delete or insert leaves the table and reports an error |
| `FavoritesService.DuplicateRowsCannotBeUnliked` | src/services/favorites.services.ts:6-13 | with two rows for a pair the toggle inserts a third and reports liked |
| `FavoritesService.CheckIsLiked` | src/services/favorites.services.ts:36-44 | true exactly when the lookup finds a single row; an exception rejects |
| `FavoritesService.CheckIsLikedIffRow` | src/services/favorites.services.ts:36-44 | without duplicate pairs, liked iff a row for (user, quote) exists |
| `FavoritesService.FavoritesTable.ToggleFavorite` | src/services/favorites.services.ts:3-34 | the result and the new table are the toggle's on the old table |
| `FavoritesService.FetchUserFavorites` | src/services/favorites.services.ts:46-72 | each row becomes its id next to its quote, in order; a failure gives no data |
| `FavoritesService.FetchLikedQuotes` | src/services/favorites.services.ts:74-89 | the quote ids row for row in order, or `[]` and the error |
| `HomeScreen.Flipped` | src/screens/home/HomeScreen.tsx:154-157 | the flip negates exactly the quote's liked state |
| `HomeScreen.FlipTwiceRestoresView` | src/screens/home/HomeScreen.tsx:154-165 | the rollback restores every quote's liked state; the map is equal only if it had the key |
| `HomeScreen.LikeKeepsMapInSync` | src/screens/home/HomeScreen.tsx:147-170 | a like whose lookup is answered or throws keeps the liked map in step with the table, on success and on rollback, exactly unless it failed with an empty exception message |
| `HomeScreen.BuildLikedMap` | src/screens/home/HomeScreen.tsx:62-63 | the map has exactly the listed ids, all true |
| `HomeScreen.IsLiked` | src/screens/home/HomeScreen.tsx:182 | a quote missing from the map reads as not liked; otherwise its stored flag |
| `HomeScreen.ErrorReported` | src/screens/home/HomeScreen.tsx:161 | `if (error)` is true for every database error and for a non-empty exception message, false for none and for an empty message |
| `HomeScreen.Screen.constructor` | src/screens/home/HomeScreen.tsx:39-47 | the initial state: nothing shown, page 0, not busy, no filter |
| `HomeScreen.Screen.StartInitialLoad` | src/screens/home/HomeScreen.tsx:78-85 | corrected guard (see Findings): a first load starts iff no feed request is in flight, and then resets the page; `Valid` is kept |
| `HomeScreen.Screen.StartInitialLoadAsWritten` | src/screens/home/HomeScreen.tsx:78-100 | when the guard returns, `loading` is cleared anyway |
| `HomeScreen.Screen.FinishInitialLoad` | src/screens/home/HomeScreen.tsx:85-100 | data replaces the list and sets page 1; an error adds an alert; `loading` is cleared |
| `HomeScreen.Screen.LoadInitialQuotes` | src/screens/home/HomeScreen.tsx:78-101 | with the corrected guard: a load that starts and succeeds shows the first page of the feed; a failed one keeps the list, sets page 0 and alerts |
| `HomeScreen.Screen.StartRefresh` | src/screens/home/HomeScreen.tsx:105-112 | corrected guard (see Findings): a refresh starts iff no feed request is in flight; `Valid` is kept |
| `HomeScreen.Screen.StartRefreshAsWritten` | src/screens/home/HomeScreen.tsx:105-126 | when the guard returns, `refreshing` is cleared anyway |
| `HomeScreen.Screen.FinishRefresh` | src/screens/home/HomeScreen.tsx:112-126 | data replaces the list and sets page 1; an error adds an alert; `refreshing` is cleared |
| `HomeScreen.Screen.HandleRefresh` | src/screens/home/HomeScreen.tsx:105-127 | with the corrected guard: a refresh that starts and succeeds shows the first page again; a failed one keeps the list, sets page 0 and alerts |
| `HomeScreen.Screen.StartLoadMore` | src/screens/home/HomeScreen.tsx:131-135 | the current page is requested iff no feed request is in flight |
| `HomeScreen.Screen.FinishLoadMore` | src/screens/home/HomeScreen.tsx:135-142 | a non-empty answer is appended and the page moves on; an empty or failed one changes nothing; no alert |
| `HomeScreen.Screen.LoadMoreQuotes` | src/screens/home/HomeScreen.tsx:131-143 | the next page of the feed is appended and the page counter moves on exactly when that page is non-empty; a failure or a busy screen changes nothing; a list showing the first pages still does |
| `HomeScreen.Screen.ApplyFilters` | src/screens/home/HomeScreen.tsx:74-76 | the filter is replaced; with the corrected guard, a load that starts shows the first page under it without alert, or on failure keeps the list, sets page 0 and alerts |
| `HomeScreen.Screen.LoadLikedMap` | src/screens/home/HomeScreen.tsx:52-70 | with a user, the map becomes exactly the liked ids, or an alert is shown; without one nothing happens |
| `HomeScreen.Screen.HandleToggleLike` | src/screens/home/HomeScreen.tsx:147-170 | without a session only an alert; otherwise the table is toggled and the map flipped, then flipped back with an alert exactly when the error is truthy |
| `HomeScreen.FilterChangeDuringLoadMoreAsWritten` | src/screens/home/HomeScreen.tsx:78-100 | as written, a filter change during a page load lets page p be requested again, and both answers are appended |
| `HomeScreen.FilterChangeDuringLoadMore` | src/screens/home/HomeScreen.tsx:78-100 | with the guard leaving the flags alone, the page is requested and shown once |
| `HomeScreen.DoubleRefreshAsWritten` | src/screens/home/HomeScreen.tsx:105-126 | as written, a second refresh clears the flag and a page load starts beside the refresh |
| `HomeScreen.DoubleRefresh` | src/screens/home/HomeScreen.tsx:105-126 | with the guard leaving the flags alone, no page load starts during the refresh |
| `AddToCollections.TrimStartDropsLeadingWhitespace` | src/components/quote/AddToCollections.tsx:56 | trimming the start leaves a suffix that does not begin with whitespace, and only whitespace was dropped |
| `AddToCollections.TrimEndDropsTrailingWhitespace` | src/components/quote/AddToCollections.tsx:56 | trimming the end leaves a prefix that does not end with whitespace, and only whitespace was dropped |
| `AddToCollections.Trim` | src/components/quote/AddToCollections.tsx:56 | `trim()` is no longer than its input and neither begins nor ends with whitespace |
| `AddToCollections.TrimEmptyIffBlank` | src/components/quote/AddToCollections.tsx:56 | `!name.trim()` holds exactly for names made only of JavaScript whitespace |
| `AddToCollections.CreateFailureText` | src/components/quote/AddToCollections.tsx:67 | the alert shows the error's message, or "Could not create collection" when there is none |
| `AddToCollections.Sheet.constructor` | src/components/quote/AddToCollections.tsx:31-37 | the sheet starts with an empty list, loading, not in create mode, an empty name |
| `AddToCollections.Sheet.Open` | src/components/quote/AddToCollections.tsx:40-53 | opening leaves create mode with an empty name and replaces the list by the fetched collections, or keeps it on failure |
| `AddToCollections.Sheet.Close` | src/screens/home/HomeScreen.tsx:222 | closing hides the sheet and keeps its state |
| `AddToCollections.Sheet.StartCreating` | src/components/quote/AddToCollections.tsx:148 | create mode is entered |
| `AddToCollections.Sheet.CancelCreating` | src/components/quote/AddToCollections.tsx:126 | create mode is left and the typed name kept |
| `AddToCollections.Sheet.EditName` | src/components/quote/AddToCollections.tsx:122 | the name becomes the typed text |
| `AddToCollections.Sheet.HandleCreateCollection` | src/components/quote/AddToCollections.tsx:55-70 | a blank name sends nothing; a created collection, named as typed, goes to the top and create mode ends; a failure alerts and keeps everything |
| `AddToCollections.Sheet.HandleSelectCollection` | src/components/quote/AddToCollections.tsx:72-87 | the quote is added; the sheet closes iff no error came back, with "Saved" for a duplicate, "Success" for a new pair, "Error" otherwise |

## Left out

- The backend client is not modelled: queries, the network, row-level security. Each request's outcome is a parameter (`Reply`, `Transport`, `fault`).
- The SQL of `get_random_unique_quote` is not modelled. The `.limit(1).single()` fallback query is not modelled either. Both are inputs (`Backend.rpc`, `Backend.fallback`).
- The uniqueness of (user_id, date) and of (collection_id, quote_id) lives in the database. It is modelled as the key of a map or set, plus the 23505 error.
- `isValidEmail` from `@/utils` is not part of this model. It is a parameter of the auth functions.
- The clock (`new Date()`) is the parameter `nowIso`. `TodayIsFullDate` covers the 24-character form of `toISOString()`, not the six-digit extended years.
- Logging (`console.warn`, `console.log`, `console.error`) is left out. So are sharing, the download modal, navigation, themes and rendering.
- The screen's alert texts from the strings module are not part of this model. They are recorded by key (`HomeScreen.Alert`). The sheet's alert texts are the literal strings.
- Rows with equal `created_at` are not modelled as the database returns them. The database leaves their order unspecified; `SortNewestFirst` fixes one order.
- Exceptions are modelled only for the like toggle and for `checkIsLiked`, whose thrown lookup rejects. The client reports failures as values, so the other catch branches are not modelled: `HomeScreen.tsx` lines 94-96, 121-123 and 67-69, and the sheet's requests.
- The favorites table is assumed to have no unique (user_id, quote_id) constraint. The files at hand do not declare one, so an insert for a pair already liked succeeds (`FailedLookupInsertsDuplicate`, `DuplicateRowsCannotBeUnliked`).
- `dailyquote.services.ts` folds two cases into the input errors:
  - a `.maybeSingle()` that finds several rows is folded into `Backend.lookupError` or `RpcFailed`;
  - the thrown error's `message` is the string carried there.
- JavaScript numbers are 64-bit floats, and the model uses unbounded integers. The hash's intermediate value is below 31·n + 65536. That is exact for any realistic picture count n, so integer and float results agree.
- React's scheduling is not modelled. Handlers run one at a time, with the interleavings shown by the scenarios of the findings. Not modelled: stale closures over `loading`, and state updater functions queued together.
- HomeScreen.Screen.StartInitialLoad: models the intended guard, whose early return leaves `loading` alone; `HomeScreen.Screen.StartInitialLoadAsWritten` holds the source's, where `finally` clears it.
- HomeScreen.Screen.LoadInitialQuotes: runs `StartInitialLoad`, the intended guard; the source's busy path clears `loading` (see Findings).
- HomeScreen.Screen.StartRefresh: models the intended guard, whose early return leaves `refreshing` alone; `HomeScreen.Screen.StartRefreshAsWritten` holds the source's, where `finally` clears it.
- HomeScreen.Screen.HandleRefresh: runs `StartRefresh`, the intended guard; the source's busy path clears `refreshing` (see Findings).
- HomeScreen.Screen.ApplyFilters: runs `LoadInitialQuotes`, the intended guard; `StartInitialLoadAsWritten` holds the source's busy path.
- HomeScreen.Screen.ApplyFilters: reloads on every apply. The source's effect runs only when the filter array is a new reference, so Apply with the very array the popup was opened with does not reload. Reference identity is not modelled.
- HomeScreen.Screen.LoadLikedMap: the effect's dependency on `session?.user` and its `.catch` are not modelled. The method is the effect run once for the current user.
- AddToCollections.Sheet.Open: the fetch's own `loading` phase between request and answer is folded into one step.
- AddToCollections.Sheet.HandleCreateCollection: the time between request and answer is not split into two halves. `creatingLoader` is true only inside it, and the disabled Create button becomes its precondition `!creatingLoader`.
- The database assigns row ids and `created_at`. These are the parameters `newId` and `createdAt`, required fresh.

## Findings

| source | as written | input that shows it | evidently intended | confidence | as-written member | corrected member |
|---|---|---|---|---|---|---|
| src/screens/home/HomeScreen.tsx:78-101 | the guard `if (loading \|\| refreshing) return;` is inside `try`, so `finally` clears `loading` on the early return | a next-page load is in flight and the filter changes: the first load returns early but clears `loading`, the next scroll requests the same page again, and both answers are appended | the early return leaves the flags of the request in flight alone, so one feed request runs at a time | not executed | `HomeScreen.FilterChangeDuringLoadMoreAsWritten` | `HomeScreen.Screen.StartInitialLoad` |
| src/screens/home/HomeScreen.tsx:105-127 | the guard `if (refreshing \|\| loading) return;` is inside `try`, so `finally` clears `refreshing` on the early return | a refresh is in flight and a second refresh fires (the pull-to-refresh control normally does not fire while it shows its spinner, so this needs another caller): it returns early but clears `refreshing`, and a page load starts beside the refresh | the early return leaves `refreshing` set while the refresh is in flight | not executed | `HomeScreen.DoubleRefreshAsWritten` | `HomeScreen.Screen.StartRefresh` |
