/**
 * The collections service: listing a user's collections with their item
 * counts, listing the quotes of one collection, creating a collection, and
 * adding a quote to a collection with duplicates tolerated.
 */
module CollectionsService {
  import opened Domain

  /** A row of the collections table. */
  datatype CollectionRow = CollectionRow(id: string, userId: string, name: string, createdAt: int)

  /** One element of the `collection_quotes (count)` aggregate; its `count` may be missing. */
  datatype CountCell = CountCell(count: Option<int>)

  /** A collection as selected with `*, collection_quotes (count)`; the aggregate may be missing. */
  datatype FetchedCollection = FetchedCollection(row: CollectionRow, collectionQuotes: Option<seq<CountCell>>)

  /** `{ ...item, count }`: every selected field kept, plus the flattened count. */
  datatype CollectionView = CollectionView(row: CollectionRow, collectionQuotes: Option<seq<CountCell>>, count: int)

  /** `item.collection_quotes?.[0]?.count || 0`. */
  function FirstCount(cells: Option<seq<CountCell>>): (c: int)
    ensures c != 0 <==> cells.Some? && |cells.value| > 0 && cells.value[0].count.Some? && cells.value[0].count.value != 0
    ensures c != 0 ==> cells.value[0].count == Some(c)
  {
    if cells.Some? && |cells.value| > 0 && cells.value[0].count.Some? then cells.value[0].count.value else 0
  }

  function Format(item: FetchedCollection): CollectionView {
    CollectionView(item.row, item.collectionQuotes, FirstCount(item.collectionQuotes))
  }

  /** `fetchUserCollections`: the rows in the order they came, each with its count; `data` is undefined on error. */
  function FetchUserCollections(reply: Reply<seq<FetchedCollection>>): (r: QueryResult<seq<CollectionView>>)
    ensures reply.Failed? ==> r == QueryResult(None, Some(reply.error))
    ensures reply.Rows? ==> r.error.None? && r.data.Some? && |r.data.value| == |reply.data|
    ensures reply.Rows? ==> forall i :: 0 <= i < |reply.data| ==>
      r.data.value[i].row == reply.data[i].row &&
      r.data.value[i].collectionQuotes == reply.data[i].collectionQuotes &&
      r.data.value[i].count == FirstCount(reply.data[i].collectionQuotes)
  {
    match reply
    case Failed(e) => QueryResult(None, Some(e))
    case Rows(items) => QueryResult(Some(MapSeq(Format, items)), None)
  }

  /** A collection's count is never negative when the aggregate's counts are not. */
  lemma CountsAreNonNegative(reply: Reply<seq<FetchedCollection>>)
    requires reply.Rows?
    requires forall i :: 0 <= i < |reply.data| ==> reply.data[i].collectionQuotes.Some? ==>
      forall k :: 0 <= k < |reply.data[i].collectionQuotes.value| ==>
        reply.data[i].collectionQuotes.value[k].count.Some? ==> reply.data[i].collectionQuotes.value[k].count.value >= 0
    ensures forall i :: 0 <= i < |reply.data| ==> FetchUserCollections(reply).data.value[i].count >= 0
  {
  }

  /** A row of `collection_quotes` with its joined quote, null when the join finds none. */
  datatype CollectionEntry = CollectionEntry(quote: Option<QuoteSummary>)

  function QuoteOf(e: CollectionEntry): Option<QuoteSummary> { e.quote }

  /** `fetchCollectionDetails`: the joined quotes in row order, or `[]` when there is no data. */
  function FetchCollectionDetails(reply: Reply<seq<CollectionEntry>>): (r: (seq<Option<QuoteSummary>>, Option<DbError>))
    ensures reply.Failed? ==> r == ([], Some(reply.error))
    ensures reply.Rows? ==> r.1.None? && |r.0| == |reply.data|
    ensures reply.Rows? ==> forall i :: 0 <= i < |reply.data| ==> r.0[i] == reply.data[i].quote
  {
    match reply
    case Failed(e) => ([], Some(e))
    case Rows(entries) => (MapSeq(QuoteOf, entries), None)
  }

  /** `{ data, error }` of `createCollection`. */
  datatype CreateResult = CreateResult(data: Option<CollectionRow>, error: Option<DbError>)

  /** `{ error, isDuplicate }` of `addQuoteToCollection`; a missing `isDuplicate` reads as false. */
  datatype AddResult = AddResult(error: Option<DbError>, isDuplicate: bool)

  /** How `addQuoteToCollection` reports the insert's error: a duplicate key is a success. */
  function AddOutcome(error: Option<DbError>): (r: AddResult)
    ensures r.isDuplicate <==> error.Some? && error.value.code == UniqueViolation
    ensures r.error.None? <==> error.None? || error.value.code == UniqueViolation
    ensures r.error.Some? ==> r.error == error
  {
    if error.Some? && error.value.code == UniqueViolation then AddResult(None, true)
    else AddResult(error, false)
  }

  /** The collections and collection_quotes tables. */
  class CollectionsDb {
    var collections: map<string, CollectionRow>
    /** (collection_id, quote_id) pairs, unique in the table. */
    var collectionQuotes: set<(string, string)>

    constructor (collections: map<string, CollectionRow>, collectionQuotes: set<(string, string)>)
      ensures this.collections == collections && this.collectionQuotes == collectionQuotes
    {
      this.collections := collections;
      this.collectionQuotes := collectionQuotes;
    }

    /**
     * `createCollection(userId, name)`: one row with the given user and name;
     * `newId` and `createdAt` are what the database assigns.
     */
    method CreateCollection(userId: string, name: string, newId: string, createdAt: int, fault: Option<DbError>)
      returns (r: CreateResult)
      requires newId !in collections
      modifies this
      ensures collectionQuotes == old(collectionQuotes)
      ensures fault.Some? ==> r == CreateResult(None, fault) && collections == old(collections)
      ensures fault.None? ==> r == CreateResult(Some(CollectionRow(newId, userId, name, createdAt)), None)
      ensures fault.None? ==> collections == old(collections)[newId := CollectionRow(newId, userId, name, createdAt)]
      ensures fault.None? ==> |collections| == |old(collections)| + 1
    {
      if fault.Some? {
        return CreateResult(None, fault);
      }
      var row := CollectionRow(newId, userId, name, createdAt);
      collections := collections[newId := row];
      r := CreateResult(Some(row), None);
    }

    /** `addQuoteToCollection(collectionId, quoteId)`. */
    method AddQuoteToCollection(collectionId: string, quoteId: string, fault: Option<DbError>)
      returns (r: AddResult)
      modifies this
      ensures collections == old(collections)
      ensures r == AddOutcome(InsertError((collectionId, quoteId) in old(collectionQuotes), fault))
      ensures collectionQuotes == if fault.None? then old(collectionQuotes) + {(collectionId, quoteId)} else old(collectionQuotes)
    {
      var error := InsertError((collectionId, quoteId) in collectionQuotes, fault);
      if error.None? {
        collectionQuotes := collectionQuotes + {(collectionId, quoteId)};
      }
      r := AddOutcome(error);
    }
  }

  /**
   * Adding a quote that is already in the collection is a success flagged as
   * a duplicate; adding a new one is a plain success; either way the pair is
   * in the table afterwards and no error is returned.
   */
  lemma AddToleratesDuplicates(pairs: set<(string, string)>, collectionId: string, quoteId: string)
    ensures AddOutcome(InsertError((collectionId, quoteId) in pairs, None)) ==
            AddResult(None, (collectionId, quoteId) in pairs)
  {
  }

  /** Any other error is handed back unchanged, with `isDuplicate` false. */
  lemma OtherErrorsPassThrough(e: DbError)
    requires e.code != UniqueViolation
    ensures AddOutcome(Some(e)) == AddResult(Some(e), false)
  {
  }
}
