/**
 * The favorites service: the like toggle over the favorites table, the
 * liked check, and the two list fetches.
 */
module FavoritesService {
  import opened Domain

  type RowId = nat

  /** A row of the favorites table (its `id` is the map key). */
  datatype Favorite = Favorite(userId: string, quoteId: string)

  /** How one request fares: the database answers it, answers with an error, or the client throws. */
  datatype Transport = Delivered | Errored(error: DbError) | Threw(message: string)

  /** The `error` a toggle reports: the database's error object, or the message of a caught exception. */
  datatype ToggleError = DbFailure(error: DbError) | Thrown(message: string)

  datatype FavoriteRow = FavoriteRow(id: RowId, favorite: Favorite)

  /** `{ data, isLiked, error }` of `toggleFavorite`. */
  datatype ToggleResult = ToggleResult(data: Option<FavoriteRow>, isLiked: bool, error: Option<ToggleError>)

  datatype ToggleOutcome = ToggleOutcome(result: ToggleResult, rows: map<RowId, Favorite>)

  /** The ids of the rows for (user, quote). */
  function Matching(rows: map<RowId, Favorite>, userId: string, quoteId: string): set<RowId> {
    set id | id in rows && rows[id] == Favorite(userId, quoteId)
  }

  /** The (user, quote) pairs the table holds. */
  function Pairs(rows: map<RowId, Favorite>): set<Favorite> {
    set id | id in rows :: rows[id]
  }

  /** No two rows for the same (user, quote): the state the toggle is designed for. */
  predicate UniquePairs(rows: map<RowId, Favorite>) {
    forall a, b :: a in rows && b in rows && a != b ==> rows[a] != rows[b]
  }

  /**
   * `.single()` on the lookup finds a row only when exactly one row matches and
   * the query got through; otherwise `existing` is null and the error is ignored.
   */
  predicate FoundSingle(rows: map<RowId, Favorite>, userId: string, quoteId: string, lookup: Transport): (found: bool)
    ensures found ==> lookup.Delivered?
    ensures UniquePairs(rows) ==> (found <==> lookup.Delivered? && Favorite(userId, quoteId) in Pairs(rows))
  {
    var single := lookup.Delivered? && |Matching(rows, userId, quoteId)| == 1;
    if UniquePairs(rows) then MatchingUnderUniquePairs(rows, userId, quoteId); single else single
  }

  function WriteError(write: Transport): Option<ToggleError> {
    match write
    case Delivered => None
    case Errored(e) => Some(DbFailure(e))
    case Threw(m) => Some(Thrown(m))
  }

  /**
   * `toggleFavorite(userId, quoteId)`: delete the one existing row, or insert a
   * row with the database-assigned id `newId`. `lookup` and `write` say how the
   * two requests fare.
   */
  function Toggle(rows: map<RowId, Favorite>, userId: string, quoteId: string,
                  lookup: Transport, write: Transport, newId: RowId): (o: ToggleOutcome)
    requires newId !in rows
    ensures o.result.error.None? <==> !lookup.Threw? && write.Delivered?
    ensures o.result.error.Some? ==> o.rows == rows && o.result.data.None?
    ensures o.result.data.Some? ==>
      o.result.isLiked && o.result.data.value == FavoriteRow(newId, Favorite(userId, quoteId)) &&
      o.rows == rows[newId := Favorite(userId, quoteId)]
  {
    if lookup.Threw? then
      ToggleOutcome(ToggleResult(None, false, Some(Thrown(lookup.message))), rows)
    else if FoundSingle(rows, userId, quoteId, lookup) then
      // delete by the id of the single matching row
      var rows' := if write.Delivered? then rows - Matching(rows, userId, quoteId) else rows;
      ToggleOutcome(ToggleResult(None, false, WriteError(write)), rows')
    else
      match write
      case Delivered =>
        var row := Favorite(userId, quoteId);
        ToggleOutcome(ToggleResult(Some(FavoriteRow(newId, row)), true, None), rows[newId := row])
      case Errored(e) => ToggleOutcome(ToggleResult(None, true, Some(DbFailure(e))), rows)
      case Threw(m) => ToggleOutcome(ToggleResult(None, false, Some(Thrown(m))), rows)
  }

  lemma SingletonMember(s: set<RowId>, a: RowId, b: RowId)
    requires |s| == 1 && a in s && b in s
    ensures a == b
  {
    assert |s - {a}| == 0;
    assert s == {a};
  }

  /** Under unique pairs, exactly one row matches iff the pair is in the table. */
  lemma MatchingUnderUniquePairs(rows: map<RowId, Favorite>, userId: string, quoteId: string)
    requires UniquePairs(rows)
    ensures |Matching(rows, userId, quoteId)| == 1 <==> Favorite(userId, quoteId) in Pairs(rows)
    ensures |Matching(rows, userId, quoteId)| <= 1
  {
    var m := Matching(rows, userId, quoteId);
    if Favorite(userId, quoteId) in Pairs(rows) {
      var id :| id in rows && rows[id] == Favorite(userId, quoteId);
      assert m == {id};
    } else {
      assert m == {};
    }
  }

  /** A liked quote is un-liked: exactly its one row goes, and the toggle reports `isLiked = false`. */
  lemma ToggleUnlikes(rows: map<RowId, Favorite>, userId: string, quoteId: string, newId: RowId)
    requires UniquePairs(rows) && newId !in rows
    requires Favorite(userId, quoteId) in Pairs(rows)
    ensures var o := Toggle(rows, userId, quoteId, Delivered, Delivered, newId);
      o.result == ToggleResult(None, false, None) &&
      Pairs(o.rows) == Pairs(rows) - {Favorite(userId, quoteId)} &&
      |o.rows| == |rows| - 1
  {
    MatchingUnderUniquePairs(rows, userId, quoteId);
    var o := Toggle(rows, userId, quoteId, Delivered, Delivered, newId);
    var id :| id in Matching(rows, userId, quoteId);
    assert Matching(rows, userId, quoteId) == {id};
    assert o.rows == rows - {id};
    forall f | f in Pairs(o.rows) ensures f != Favorite(userId, quoteId) {
      var k :| k in o.rows && o.rows[k] == f;
      assert k in rows && k != id;
    }
    forall f | f in Pairs(rows) && f != Favorite(userId, quoteId) ensures f in Pairs(o.rows) {
      var k :| k in rows && rows[k] == f;
      assert k in o.rows;
    }
  }

  /** A quote not liked is liked: one row (user, quote) is added, and the toggle reports `isLiked = true`. */
  lemma ToggleLikes(rows: map<RowId, Favorite>, userId: string, quoteId: string, newId: RowId)
    requires UniquePairs(rows) && newId !in rows
    requires Favorite(userId, quoteId) !in Pairs(rows)
    ensures var o := Toggle(rows, userId, quoteId, Delivered, Delivered, newId);
      o.result == ToggleResult(Some(FavoriteRow(newId, Favorite(userId, quoteId))), true, None) &&
      Pairs(o.rows) == Pairs(rows) + {Favorite(userId, quoteId)} &&
      o.rows == rows[newId := Favorite(userId, quoteId)]
  {
    MatchingUnderUniquePairs(rows, userId, quoteId);
    var o := Toggle(rows, userId, quoteId, Delivered, Delivered, newId);
    assert o.rows[newId] == Favorite(userId, quoteId);
    forall f | f in Pairs(o.rows) ensures f in Pairs(rows) + {Favorite(userId, quoteId)} {
      var k :| k in o.rows && o.rows[k] == f;
      if k != newId { assert k in rows; }
    }
    forall f | f in Pairs(rows) ensures f in Pairs(o.rows) {
      var k :| k in rows && rows[k] == f;
      assert k in o.rows && o.rows[k] == f;
    }
  }

  /**
   * Whatever the backend does, the toggle touches no row of another (user, quote):
   * every other row stays, and the only row it may add is (user, quote) under `newId`.
   */
  lemma ToggleTouchesOnlyItsPair(rows: map<RowId, Favorite>, userId: string, quoteId: string,
                                 lookup: Transport, write: Transport, newId: RowId)
    requires newId !in rows
    ensures var o := Toggle(rows, userId, quoteId, lookup, write, newId);
      (forall id :: id in rows && rows[id] != Favorite(userId, quoteId) ==> id in o.rows && o.rows[id] == rows[id]) &&
      (forall id :: id in o.rows ==> (id in rows && o.rows[id] == rows[id]) || (id == newId && o.rows[id] == Favorite(userId, quoteId)))
  {
  }

  /**
   * A toggle whose lookup got through (or threw) keeps the table free of
   * duplicate pairs.
   */
  lemma TogglePreservesUniquePairs(rows: map<RowId, Favorite>, userId: string, quoteId: string,
                                   lookup: Transport, write: Transport, newId: RowId)
    requires UniquePairs(rows) && newId !in rows && !lookup.Errored?
    ensures UniquePairs(Toggle(rows, userId, quoteId, lookup, write, newId).rows)
  {
    MatchingUnderUniquePairs(rows, userId, quoteId);
    var o := Toggle(rows, userId, quoteId, lookup, write, newId);
    if o.rows != rows && newId in o.rows {
      assert Matching(rows, userId, quoteId) == {};
    }
  }

  /**
   * The lookup's error is ignored, so a lookup that fails on a liked quote is
   * taken for "not liked" and a second row for the same pair is inserted.
   */
  lemma FailedLookupInsertsDuplicate(rows: map<RowId, Favorite>, userId: string, quoteId: string, e: DbError, newId: RowId)
    requires UniquePairs(rows) && newId !in rows
    requires Favorite(userId, quoteId) in Pairs(rows)
    ensures var o := Toggle(rows, userId, quoteId, Errored(e), Delivered, newId);
      o.result.isLiked && |Matching(o.rows, userId, quoteId)| == 2 && !UniquePairs(o.rows)
  {
    MatchingUnderUniquePairs(rows, userId, quoteId);
    var o := Toggle(rows, userId, quoteId, Errored(e), Delivered, newId);
    var id :| id in Matching(rows, userId, quoteId);
    assert Matching(rows, userId, quoteId) == {id};
    assert Matching(o.rows, userId, quoteId) == {id, newId};
    assert o.rows[id] == o.rows[newId];
  }

  /** Two successful toggles of the same quote restore the set of liked pairs. */
  lemma ToggleTwiceRestoresPairs(rows: map<RowId, Favorite>, userId: string, quoteId: string, id1: RowId, id2: RowId)
    requires UniquePairs(rows) && id1 !in rows
    requires id2 !in Toggle(rows, userId, quoteId, Delivered, Delivered, id1).rows
    ensures var once := Toggle(rows, userId, quoteId, Delivered, Delivered, id1).rows;
      Pairs(Toggle(once, userId, quoteId, Delivered, Delivered, id2).rows) == Pairs(rows)
  {
    var once := Toggle(rows, userId, quoteId, Delivered, Delivered, id1).rows;
    TogglePreservesUniquePairs(rows, userId, quoteId, Delivered, Delivered, id1);
    if Favorite(userId, quoteId) in Pairs(rows) {
      ToggleUnlikes(rows, userId, quoteId, id1);
      ToggleLikes(once, userId, quoteId, id2);
    } else {
      ToggleLikes(rows, userId, quoteId, id1);
      ToggleUnlikes(once, userId, quoteId, id2);
    }
  }

  /** An exception at the lookup gives `data = null`, `isLiked = false`, its message as the error, and no write. */
  lemma ToggleThrown(rows: map<RowId, Favorite>, userId: string, quoteId: string, message: string, write: Transport, newId: RowId)
    requires newId !in rows
    ensures Toggle(rows, userId, quoteId, Threw(message), write, newId) ==
            ToggleOutcome(ToggleResult(None, false, Some(Thrown(message))), rows)
  {
  }

  /** A failed write leaves the table as it was and reports the error. */
  lemma FailedWriteChangesNothing(rows: map<RowId, Favorite>, userId: string, quoteId: string,
                                  lookup: Transport, write: Transport, newId: RowId)
    requires newId !in rows && !write.Delivered?
    ensures Toggle(rows, userId, quoteId, lookup, write, newId).rows == rows
    ensures Toggle(rows, userId, quoteId, lookup, write, newId).result.error.Some?
    ensures Toggle(rows, userId, quoteId, lookup, write, newId).result.data.None?
  {
  }

  /**
   * With two rows for the same pair `.single()` finds nothing, so the toggle
   * inserts a third row and reports `isLiked = true`: such a pair can no
   * longer be un-liked.
   */
  lemma DuplicateRowsCannotBeUnliked(rows: map<RowId, Favorite>, userId: string, quoteId: string, newId: RowId)
    requires newId !in rows && |Matching(rows, userId, quoteId)| >= 2
    ensures var o := Toggle(rows, userId, quoteId, Delivered, Delivered, newId);
      o.result.isLiked && |Matching(o.rows, userId, quoteId)| == |Matching(rows, userId, quoteId)| + 1
  {
    var o := Toggle(rows, userId, quoteId, Delivered, Delivered, newId);
    assert Matching(o.rows, userId, quoteId) == Matching(rows, userId, quoteId) + {newId};
  }

  /** `checkIsLiked`: `!!data` of the same single-row lookup; an exception rejects (`None`). */
  function CheckIsLiked(rows: map<RowId, Favorite>, userId: string, quoteId: string, lookup: Transport): (r: Option<bool>)
    ensures r.None? <==> lookup.Threw?
    ensures r == Some(true) <==> FoundSingle(rows, userId, quoteId, lookup)
  {
    if lookup.Threw? then None else Some(FoundSingle(rows, userId, quoteId, lookup))
  }

  /** On a table without duplicate pairs, a quote is reported liked iff a row for (user, quote) exists. */
  lemma CheckIsLikedIffRow(rows: map<RowId, Favorite>, userId: string, quoteId: string)
    requires UniquePairs(rows)
    ensures CheckIsLiked(rows, userId, quoteId, Delivered) == Some(Favorite(userId, quoteId) in Pairs(rows))
  {
    MatchingUnderUniquePairs(rows, userId, quoteId);
  }

  /** The favorites table; the toggle is its one writer. */
  class FavoritesTable {
    var rows: map<RowId, Favorite>

    constructor (rows: map<RowId, Favorite>)
      ensures this.rows == rows
    {
      this.rows := rows;
    }

    method ToggleFavorite(userId: string, quoteId: string, lookup: Transport, write: Transport, newId: RowId)
      returns (r: ToggleResult)
      requires newId !in rows
      modifies this
      ensures ToggleOutcome(r, rows) == Toggle(old(rows), userId, quoteId, lookup, write, newId)
    {
      if lookup.Threw? {
        return ToggleResult(None, false, Some(Thrown(lookup.message)));
      }
      var matching := Matching(rows, userId, quoteId);
      if lookup.Delivered? && |matching| == 1 {
        var existing :| existing in matching;
        if write.Delivered? {
          forall id | id in matching ensures id == existing {
            SingletonMember(matching, id, existing);
          }
          assert matching == {existing};
          rows := rows - {existing};
        }
        r := ToggleResult(None, false, WriteError(write));
      } else {
        match write
        case Delivered =>
          rows := rows[newId := Favorite(userId, quoteId)];
          r := ToggleResult(Some(FavoriteRow(newId, Favorite(userId, quoteId))), true, None);
        case Errored(e) =>
          r := ToggleResult(None, true, Some(DbFailure(e)));
        case Threw(m) =>
          r := ToggleResult(None, false, Some(Thrown(m)));
      }
    }
  }

  /** A row of `favorites` joined with its quote; the quote is null when the join finds none. */
  datatype FavoriteJoin = FavoriteJoin(id: RowId, quote: Option<QuoteSummary>)

  /** `{ favoriteId, ...quote }`: the row id next to the spread quote fields. */
  datatype FavoriteItem = FavoriteItem(favoriteId: RowId, quote: Option<QuoteSummary>)

  function ToItem(j: FavoriteJoin): FavoriteItem {
    FavoriteItem(j.id, j.quote)
  }

  function FetchUserFavorites(reply: Reply<seq<FavoriteJoin>>): (r: QueryResult<seq<FavoriteItem>>)
    ensures reply.Failed? ==> r == QueryResult(None, Some(reply.error))
    ensures reply.Rows? ==> r.error.None? && r.data.Some? && |r.data.value| == |reply.data|
    ensures reply.Rows? ==> forall i :: 0 <= i < |reply.data| ==>
      r.data.value[i].favoriteId == reply.data[i].id && r.data.value[i].quote == reply.data[i].quote
  {
    match reply
    case Failed(e) => QueryResult(None, Some(e))
    case Rows(rows) => QueryResult(Some(MapSeq(ToItem, rows)), None)
  }

  /** A row of `select("quote_id")`. */
  datatype LikedRow = LikedRow(quoteId: string)

  function QuoteIdOf(row: LikedRow): string { row.quoteId }

  function FetchLikedQuotes(reply: Reply<seq<LikedRow>>): (r: (seq<string>, Option<DbError>))
    ensures reply.Failed? ==> r == ([], Some(reply.error))
    ensures reply.Rows? ==> r.1.None? && |r.0| == |reply.data|
    ensures reply.Rows? ==> forall i :: 0 <= i < |reply.data| ==> r.0[i] == reply.data[i].quoteId
  {
    match reply
    case Failed(e) => ([], Some(e))
    case Rows(rows) => (MapSeq(QuoteIdOf, rows), None)
  }
}
