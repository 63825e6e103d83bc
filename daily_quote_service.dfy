/**
 * The daily quote resolver: for a user and a calendar day it returns the quote
 * already recorded in the user's history, or else a quote the backend picks
 * among those the user has not seen (recorded for the day), or else any quote
 * (not recorded). The backend's answers are inputs; the history table is a map
 * keyed by (user, day) whose uniqueness the database enforces.
 */
module DailyQuoteService {
  import opened Domain

  /** The (user_id, date) key of the user_daily_quotes table. */
  datatype HistoryKey = HistoryKey(userId: string, date: string)

  /** What `get_random_unique_quote` answers: an error, no row, or one quote. */
  datatype RpcReply = RpcFailed(message: string) | RpcEmpty | RpcPicked(quote: Quote)

  /**
   * The backend's answers to one resolution: the error of the history lookup,
   * the unique pick, the fallback `limit(1).single()` row (its error is
   * discarded, so only its data is an input), and the insert's own fault.
   */
  datatype Backend = Backend(lookupError: Option<string>, rpc: RpcReply, fallback: Option<Quote>, insertFault: Option<DbError>)

  /** A request sent to the backend. */
  datatype Call = Lookup(key: HistoryKey) | PickUnique(userId: string) | PickFallback | Insert(key: HistoryKey, quoteId: string)

  /** `{ data, error }` of `getDailyQuote`; the error is a message. */
  datatype DailyResult = DailyResult(data: Option<Quote>, error: Option<string>)

  /** One resolution: what it returns, the history table after it, and the requests it sent in order. */
  datatype Resolution = Resolution(result: DailyResult, history: map<HistoryKey, string>, calls: seq<Call>)

  const NoQuotesMessage := "No quotes in database."

  /**
   * `iso.split('T')[0]`: the longest prefix without a 'T'. Together, the three
   * clauses determine the result.
   */
  function DatePart(iso: string): (r: string)
    ensures 'T' !in r
    ensures |r| <= |iso| && r == iso[..|r|]
    ensures |r| < |iso| ==> iso[|r|] == 'T'
  {
    if iso == [] || iso[0] == 'T' then [] else [iso[0]] + DatePart(iso[1..])
  }

  predicate IsDigit(c: char) { '0' <= c <= '9' }

  /** An RFC 3339 full-date, YYYY-MM-DD, by its shape. */
  predicate IsFullDate(s: string) {
    |s| == 10 && s[4] == '-' && s[7] == '-' &&
    forall i :: 0 <= i < 10 && i != 4 && i != 7 ==> IsDigit(s[i])
  }

  /**
   * The shape of `Date.prototype.toISOString()` for a year between 0 and 9999:
   * YYYY-MM-DDTHH:mm:ss.sssZ, 24 characters.
   */
  predicate IsIsoTimestamp(s: string) {
    |s| == 24 && IsFullDate(s[..10]) && s[10] == 'T' && s[23] == 'Z' &&
    s[13] == ':' && s[16] == ':' && s[19] == '.'
  }

  /** The key of the day is the timestamp's full-date, its first ten characters. */
  lemma TodayIsFullDate(iso: string)
    requires IsIsoTimestamp(iso)
    ensures DatePart(iso) == iso[..10] && IsFullDate(DatePart(iso))
  {
    var r := DatePart(iso);
    assert forall i :: 0 <= i < 10 ==> iso[..10][i] != 'T';
    assert |r| <= 10 by {
      if |r| > 10 {
        assert false;
      }
    }
  }

  /** The quote the history lookup joins for a key: none when there is no row or its quote is gone. */
  function Joined(history: map<HistoryKey, string>, quotes: map<string, Quote>, key: HistoryKey): (q: Option<Quote>)
    ensures q.Some? <==> key in history && history[key] in quotes
    ensures q.Some? ==> q.value == quotes[history[key]]
  {
    if key in history && history[key] in quotes then Some(quotes[history[key]]) else None
  }

  /** The history after inserting (key, quoteId): only a successful insert adds the row. */
  function Recorded(history: map<HistoryKey, string>, key: HistoryKey, quoteId: string, fault: Option<DbError>): (h: map<HistoryKey, string>)
    ensures InsertError(key in history, fault).None? ==> h == history[key := quoteId]
    ensures InsertError(key in history, fault).Some? ==> h == history
  {
    if InsertError(key in history, fault).None? then history[key := quoteId] else history
  }

  /** History only grows: no row is removed and no row is rewritten. */
  predicate Extends(before: map<HistoryKey, string>, after: map<HistoryKey, string>) {
    forall k :: k in before ==> k in after && after[k] == before[k]
  }

  /**
   * `getDailyQuote` where the lookup sees the history `seen` and the insert
   * meets the history `atInsert`; the two differ only when another resolution
   * for the same user ran in between.
   */
  function ResolveAgainst(seen: map<HistoryKey, string>, atInsert: map<HistoryKey, string>, quotes: map<string, Quote>,
                          userId: string, today: string, b: Backend): (r: Resolution)
    ensures r.result.data.Some? <==> r.result.error.None?
    ensures Extends(atInsert, r.history)
    ensures r.history.Keys <= atInsert.Keys + {HistoryKey(userId, today)}
    ensures |r.calls| > 0 && r.calls[0] == Lookup(HistoryKey(userId, today))
  {
    var key := HistoryKey(userId, today);
    if b.lookupError.Some? then
      Resolution(DailyResult(None, b.lookupError), atInsert, [Lookup(key)])
    else if Joined(seen, quotes, key).Some? then
      Resolution(DailyResult(Joined(seen, quotes, key), None), atInsert, [Lookup(key)])
    else
      match b.rpc
      case RpcFailed(message) =>
        Resolution(DailyResult(None, Some(message)), atInsert, [Lookup(key), PickUnique(userId)])
      case RpcEmpty =>
        if b.fallback.None? then
          Resolution(DailyResult(None, Some(NoQuotesMessage)), atInsert, [Lookup(key), PickUnique(userId), PickFallback])
        else
          Resolution(DailyResult(b.fallback, None), atInsert, [Lookup(key), PickUnique(userId), PickFallback])
      case RpcPicked(q) =>
        Resolution(DailyResult(Some(q), None), Recorded(atInsert, key, q.id, b.insertFault),
                   [Lookup(key), PickUnique(userId), Insert(key, q.id)])
  }

  /** `getDailyQuote` when nothing else writes the history meanwhile. */
  function Resolve(history: map<HistoryKey, string>, quotes: map<string, Quote>, userId: string, today: string, b: Backend): (r: Resolution)
    ensures r.result.data.Some? <==> r.result.error.None?
    ensures Extends(history, r.history)
    ensures r.history != history ==>
      r.result.data.Some? && HistoryKey(userId, today) !in history && r.history == history[HistoryKey(userId, today) := r.result.data.value.id] &&
      r.calls == [Lookup(HistoryKey(userId, today)), PickUnique(userId), Insert(HistoryKey(userId, today), r.result.data.value.id)]
  {
    ResolveAgainst(history, history, quotes, userId, today, b)
  }

  /** The history table and the quotes it joins; `calls` records every request sent. */
  class DailyQuoteStore {
    var history: map<HistoryKey, string>
    var quotes: map<string, Quote>
    ghost var calls: seq<Call>

    constructor (history: map<HistoryKey, string>, quotes: map<string, Quote>)
      ensures this.history == history && this.quotes == quotes && calls == []
    {
      this.history := history;
      this.quotes := quotes;
      calls := [];
    }

    /** `getDailyQuote(userId)` at the instant whose ISO timestamp is `nowIso`. */
    method GetDailyQuote(userId: string, nowIso: string, b: Backend) returns (r: DailyResult)
      modifies this
      ensures quotes == old(quotes)
      ensures r == Resolve(old(history), old(quotes), userId, DatePart(nowIso), b).result
      ensures history == Resolve(old(history), old(quotes), userId, DatePart(nowIso), b).history
      ensures calls == old(calls) + Resolve(old(history), old(quotes), userId, DatePart(nowIso), b).calls
    {
      var today := DatePart(nowIso);
      var key := HistoryKey(userId, today);
      calls := calls + [Lookup(key)];
      if b.lookupError.Some? {
        return DailyResult(None, b.lookupError);
      }
      var existing := Joined(history, quotes, key);
      if existing.Some? {
        return DailyResult(existing, None);
      }
      calls := calls + [PickUnique(userId)];
      if b.rpc.RpcFailed? {
        return DailyResult(None, Some(b.rpc.message));
      }
      var finalQuote: Quote;
      var saveToHistory: bool;
      if b.rpc.RpcEmpty? {
        calls := calls + [PickFallback];
        if b.fallback.None? {
          return DailyResult(None, Some(NoQuotesMessage));
        }
        finalQuote, saveToHistory := b.fallback.value, false;
      } else {
        finalQuote, saveToHistory := b.rpc.quote, true;
      }
      if saveToHistory {
        calls := calls + [Insert(key, finalQuote.id)];
        var insertError := InsertError(key in history, b.insertFault);
        if insertError.None? {
          history := history[key := finalQuote.id];
        }
      }
      r := DailyResult(Some(finalQuote), None);
    }
  }

  /** A recorded quote for the day is returned as is; nothing is picked and nothing written. */
  lemma RecordedQuoteIsReplayed(history: map<HistoryKey, string>, quotes: map<string, Quote>, userId: string, today: string, b: Backend)
    requires b.lookupError.None?
    requires HistoryKey(userId, today) in history && history[HistoryKey(userId, today)] in quotes
    ensures Resolve(history, quotes, userId, today, b) ==
      Resolution(DailyResult(Some(quotes[history[HistoryKey(userId, today)]]), None), history, [Lookup(HistoryKey(userId, today))])
  {
  }

  /**
   * A history row whose quote no longer joins counts as no row: a quote is
   * picked again, and its insert collides with the row that is there, so the
   * history stays as it was.
   */
  lemma DanglingRowIsPickedAgain(history: map<HistoryKey, string>, quotes: map<string, Quote>, userId: string, today: string, b: Backend)
    requires b.lookupError.None? && b.rpc.RpcPicked?
    requires HistoryKey(userId, today) in history && history[HistoryKey(userId, today)] !in quotes
    ensures Resolve(history, quotes, userId, today, b).result == DailyResult(Some(b.rpc.quote), None)
    ensures Resolve(history, quotes, userId, today, b).history == history
    ensures Insert(HistoryKey(userId, today), b.rpc.quote.id) in Resolve(history, quotes, userId, today, b).calls
  {
  }

  /** A lookup or pick that fails returns its message and no quote, and writes nothing. */
  lemma FailuresWriteNothing(history: map<HistoryKey, string>, quotes: map<string, Quote>, userId: string, today: string, b: Backend)
    requires b.lookupError.Some? || (Joined(history, quotes, HistoryKey(userId, today)).None? && b.rpc.RpcFailed?)
    ensures Resolve(history, quotes, userId, today, b).result.data.None?
    ensures Resolve(history, quotes, userId, today, b).result.error ==
      if b.lookupError.Some? then b.lookupError else Some(b.rpc.message)
    ensures Resolve(history, quotes, userId, today, b).history == history
    ensures forall c :: c in Resolve(history, quotes, userId, today, b).calls ==> !c.Insert?
  {
  }

  /** When the pick finds nothing, the fallback is returned and not recorded; with no fallback the result is the fixed message. */
  lemma FallbackIsNotRecorded(history: map<HistoryKey, string>, quotes: map<string, Quote>, userId: string, today: string, b: Backend)
    requires b.lookupError.None? && Joined(history, quotes, HistoryKey(userId, today)).None? && b.rpc.RpcEmpty?
    ensures Resolve(history, quotes, userId, today, b).result ==
      if b.fallback.Some? then DailyResult(b.fallback, None) else DailyResult(None, Some(NoQuotesMessage))
    ensures Resolve(history, quotes, userId, today, b).history == history
    ensures forall c :: c in Resolve(history, quotes, userId, today, b).calls ==> !c.Insert?
  {
  }

  /**
   * A unique pick is returned and inserted exactly once as (user, quote, day);
   * the insert's error, whatever it is, changes nothing in what is returned.
   */
  lemma UniquePickIsInsertedOnce(history: map<HistoryKey, string>, quotes: map<string, Quote>, userId: string, today: string, b: Backend, fault: Option<DbError>)
    requires b.lookupError.None? && Joined(history, quotes, HistoryKey(userId, today)).None? && b.rpc.RpcPicked?
    ensures Resolve(history, quotes, userId, today, b).calls ==
      [Lookup(HistoryKey(userId, today)), PickUnique(userId), Insert(HistoryKey(userId, today), b.rpc.quote.id)]
    ensures Resolve(history, quotes, userId, today, b).result == DailyResult(Some(b.rpc.quote), None)
    ensures Resolve(history, quotes, userId, today, b.(insertFault := fault)).result == Resolve(history, quotes, userId, today, b).result
  {
  }

  /**
   * A fresh pick that is recorded is what every later resolution on the same
   * day returns, without picking again, whatever the backend would answer.
   */
  lemma FreshPickIsStable(history: map<HistoryKey, string>, quotes: map<string, Quote>, userId: string, today: string, b: Backend, later: Backend)
    requires HistoryKey(userId, today) !in history
    requires b.lookupError.None? && b.rpc.RpcPicked? && b.insertFault.None?
    requires b.rpc.quote.id in quotes && quotes[b.rpc.quote.id] == b.rpc.quote
    requires later.lookupError.None?
    ensures Resolve(Resolve(history, quotes, userId, today, b).history, quotes, userId, today, later).result ==
            Resolve(history, quotes, userId, today, b).result
    ensures Resolve(Resolve(history, quotes, userId, today, b).history, quotes, userId, today, later).calls ==
            [Lookup(HistoryKey(userId, today))]
  {
  }

  /**
   * Two resolutions for the same day that both find no row: the first insert
   * wins, the second is rejected as a duplicate and silently dropped, so the
   * second caller is shown a quote that the history does not hold, and every
   * later resolution returns the first pick.
   */
  lemma RaceKeepsFirstWriter(history: map<HistoryKey, string>, quotes: map<string, Quote>, userId: string, today: string,
                             b1: Backend, b2: Backend, later: Backend)
    requires HistoryKey(userId, today) !in history
    requires b1.lookupError.None? && b1.rpc.RpcPicked? && b1.insertFault.None?
    requires b2.lookupError.None? && b2.rpc.RpcPicked? && b2.rpc.quote.id != b1.rpc.quote.id
    requires b1.rpc.quote.id in quotes && quotes[b1.rpc.quote.id] == b1.rpc.quote
    requires later.lookupError.None?
    ensures var first := ResolveAgainst(history, history, quotes, userId, today, b1);
            var second := ResolveAgainst(history, first.history, quotes, userId, today, b2);
            second.result == DailyResult(Some(b2.rpc.quote), None) &&
            second.history == first.history &&
            second.history[HistoryKey(userId, today)] != b2.rpc.quote.id &&
            Resolve(second.history, quotes, userId, today, later).result == DailyResult(Some(b1.rpc.quote), None)
  {
  }

  /** No quote twice: within one user's history, distinct days hold distinct quotes. */
  predicate NoRepeats(history: map<HistoryKey, string>) {
    forall k1, k2 :: k1 in history && k2 in history && k1.userId == k2.userId && k1 != k2 ==> history[k1] != history[k2]
  }

  /** The quotes already recorded for a user. */
  function SeenBy(history: map<HistoryKey, string>, userId: string): set<string> {
    set k | k in history && k.userId == userId :: history[k]
  }

  /**
   * If the backend's unique pick honours its name (it never returns a quote
   * the user has already been given), the history never records a quote twice
   * for one user.
   */
  lemma UniquePicksKeepNoRepeats(history: map<HistoryKey, string>, quotes: map<string, Quote>, userId: string, today: string, b: Backend)
    requires NoRepeats(history)
    requires b.rpc.RpcPicked? ==> b.rpc.quote.id !in SeenBy(history, userId)
    ensures NoRepeats(Resolve(history, quotes, userId, today, b).history)
  {
    var key := HistoryKey(userId, today);
    var h := Resolve(history, quotes, userId, today, b).history;
    if h != history {
      var q := b.rpc.quote.id;
      assert h == history[key := q];
      forall k1, k2 | k1 in h && k2 in h && k1.userId == k2.userId && k1 != k2
        ensures h[k1] != h[k2]
      {
        if k1 == key {
          assert h[k2] == history[k2] && history[k2] in SeenBy(history, userId);
        } else if k2 == key {
          assert h[k1] == history[k1] && history[k1] in SeenBy(history, userId);
        }
      }
    }
  }
}
