/**
 * The "save to collection" sheet: opening it reloads the user's collections
 * and leaves create mode; in create mode a non-blank name creates a collection
 * that goes to the top of the list; choosing a collection adds the quote to it
 * and closes the sheet when that worked.
 */
module AddToCollections {
  import opened Domain
  import opened CollectionsService

  /** A line of the sheet's list: a collection as fetched, or one just created (a plain row, without a count). */
  datatype SheetItem = Listed(view: CollectionView) | Created(row: CollectionRow)

  /** An alert: its title and its message. */
  datatype SheetAlert = SheetAlert(title: string, message: string)

  const CreateFailedDefault := "Could not create collection"
  const AlreadySaved := SheetAlert("Saved", "Quote was already in this collection.")
  const Added := SheetAlert("Success", "Quote added to collection!")
  const AddFailed := SheetAlert("Error", "Could not add quote.")

  /**
   * The characters `String.prototype.trim` removes: the ECMAScript WhiteSpace
   * (tab, vertical tab, form feed, space, no-break space, the byte order mark
   * and the Unicode space separators) and LineTerminator code points.
   */
  predicate IsJsWhitespace(c: char) {
    c == '\U{9}' || c == '\U{B}' || c == '\U{C}' || c == '\U{20}' || c == '\U{A0}' || c == '\U{FEFF}' ||
    c == '\U{1680}' || ('\U{2000}' <= c <= '\U{200A}') || c == '\U{202F}' || c == '\U{205F}' || c == '\U{3000}' ||
    c == '\U{A}' || c == '\U{D}' || c == '\U{2028}' || c == '\U{2029}'
  }

  /** `s.trimStart()`: the string without its leading whitespace. */
  function TrimStart(s: string): string {
    if s != [] && IsJsWhitespace(s[0]) then TrimStart(s[1..]) else s
  }

  /** `s.trimEnd()`: the string without its trailing whitespace. */
  function TrimEnd(s: string): string {
    if s != [] && IsJsWhitespace(s[|s| - 1]) then TrimEnd(s[..|s| - 1]) else s
  }

  /** `s.trim()`: the string without its leading and trailing whitespace. */
  function Trim(s: string): (r: string)
    ensures |r| <= |s|
    ensures r == [] || (!IsJsWhitespace(r[0]) && !IsJsWhitespace(r[|r| - 1]))
  {
    TrimStartDropsLeadingWhitespace(s);
    TrimEndDropsTrailingWhitespace(TrimStart(s));
    TrimEnd(TrimStart(s))
  }

  predicate IsBlank(s: string) {
    forall i :: 0 <= i < |s| ==> IsJsWhitespace(s[i])
  }

  /** Trimming the start drops a run of whitespace and stops at the first other character. */
  lemma {:induction false} TrimStartDropsLeadingWhitespace(s: string)
    ensures |TrimStart(s)| <= |s| && TrimStart(s) == s[|s| - |TrimStart(s)|..]
    ensures TrimStart(s) == [] || !IsJsWhitespace(TrimStart(s)[0])
    ensures forall i :: 0 <= i < |s| - |TrimStart(s)| ==> IsJsWhitespace(s[i])
  {
    if s != [] && IsJsWhitespace(s[0]) {
      TrimStartDropsLeadingWhitespace(s[1..]);
      assert s[1..][|s| - 1 - |TrimStart(s)|..] == s[|s| - |TrimStart(s)|..];
      forall i | 0 <= i < |s| - |TrimStart(s)| ensures IsJsWhitespace(s[i]) {
        if i > 0 {
          assert s[i] == s[1..][i - 1];
        }
      }
    }
  }

  /** Trimming the end drops a run of whitespace and stops at the last other character. */
  lemma {:induction false} TrimEndDropsTrailingWhitespace(s: string)
    ensures |TrimEnd(s)| <= |s| && TrimEnd(s) == s[..|TrimEnd(s)|]
    ensures TrimEnd(s) == [] || !IsJsWhitespace(TrimEnd(s)[|TrimEnd(s)| - 1])
    ensures forall i :: |TrimEnd(s)| <= i < |s| ==> IsJsWhitespace(s[i])
  {
    if s != [] && IsJsWhitespace(s[|s| - 1]) {
      TrimEndDropsTrailingWhitespace(s[..|s| - 1]);
      assert s[..|s| - 1][..|TrimEnd(s)|] == s[..|TrimEnd(s)|];
      forall i | |TrimEnd(s)| <= i < |s| ensures IsJsWhitespace(s[i]) {
        if i < |s| - 1 {
          assert s[i] == s[..|s| - 1][i];
        }
      }
    }
  }

  /** `!name.trim()` holds exactly for names made only of whitespace, the empty name included. */
  lemma TrimEmptyIffBlank(s: string)
    ensures Trim(s) == [] <==> IsBlank(s)
  {
    var t := TrimStart(s);
    TrimStartDropsLeadingWhitespace(s);
    TrimEndDropsTrailingWhitespace(t);
    if Trim(s) == [] && t != [] {
      assert false;
    }
  }

  /** `error?.message || 'Could not create collection'`. */
  function CreateFailureText(error: Option<DbError>): (text: string)
    ensures text == CreateFailedDefault <==> error.None? || error.value.message == "" || error.value.message == CreateFailedDefault
    ensures text != CreateFailedDefault ==> text == error.value.message
  {
    if error.Some? && error.value.message != "" then error.value.message else CreateFailedDefault
  }

  function ToItem(view: CollectionView): SheetItem { Listed(view) }

  class Sheet {
    /** The props: the quote to save, its user, and whether the sheet is shown. */
    var visible: bool
    var userId: string
    var quoteId: string
    var collections: seq<SheetItem>
    var loading: bool
    var isCreating: bool
    var newCollectionName: string
    var creatingLoader: bool
    /** The alerts shown, oldest first. */
    var alerts: seq<SheetAlert>

    constructor (userId: string, quoteId: string)
      ensures this.userId == userId && this.quoteId == quoteId && !visible
      ensures collections == [] && loading && !isCreating && newCollectionName == "" && !creatingLoader && alerts == []
    {
      this.userId := userId;
      this.quoteId := quoteId;
      visible := false;
      collections := [];
      loading := true;
      isCreating := false;
      newCollectionName := "";
      creatingLoader := false;
      alerts := [];
    }

    /**
     * The sheet opens and its effect runs: create mode is left with an empty
     * name, and the list is replaced by the fetched collections, or kept when
     * the fetch failed.
     */
    method Open(reply: Reply<seq<FetchedCollection>>)
      modifies this
      ensures visible && !loading && !isCreating && newCollectionName == ""
      ensures reply.Failed? ==> collections == old(collections)
      ensures reply.Rows? ==> |collections| == |reply.data|
      ensures reply.Rows? ==> forall i :: 0 <= i < |reply.data| ==>
        collections[i] == Listed(FetchUserCollections(reply).data.value[i])
      ensures userId == old(userId) && quoteId == old(quoteId) && creatingLoader == old(creatingLoader) && alerts == old(alerts)
    {
      visible := true;
      loading := true;
      var fetched := FetchUserCollections(reply);
      isCreating := false;
      newCollectionName := "";
      if fetched.data.Some? {
        collections := MapSeq(ToItem, fetched.data.value);
      }
      loading := false;
    }

    method Close()
      modifies this
      ensures !visible
      ensures collections == old(collections) && isCreating == old(isCreating) && newCollectionName == old(newCollectionName)
      ensures creatingLoader == old(creatingLoader) && alerts == old(alerts) && loading == old(loading)
    {
      visible := false;
    }

    /** "New Collection": switch to create mode. */
    method StartCreating()
      modifies this
      ensures isCreating && newCollectionName == old(newCollectionName) && collections == old(collections)
      ensures visible == old(visible) && creatingLoader == old(creatingLoader) && alerts == old(alerts)
    {
      isCreating := true;
    }

    /** "Cancel": back to the list; the typed name is kept. */
    method CancelCreating()
      modifies this
      ensures !isCreating && newCollectionName == old(newCollectionName) && collections == old(collections)
      ensures visible == old(visible) && creatingLoader == old(creatingLoader) && alerts == old(alerts)
    {
      isCreating := false;
    }

    method EditName(text: string)
      modifies this
      ensures newCollectionName == text && isCreating == old(isCreating) && collections == old(collections)
      ensures visible == old(visible) && creatingLoader == old(creatingLoader) && alerts == old(alerts)
    {
      newCollectionName := text;
    }

    /**
     * `handleCreateCollection` against the collections table. The Create
     * button is disabled while a create is running. A blank name sends
     * nothing; otherwise the name is sent as typed, untrimmed, and the new
     * collection goes to the top of the list.
     */
    method HandleCreateCollection(db: CollectionsDb, newId: string, createdAt: int, fault: Option<DbError>)
      requires !creatingLoader
      requires newId !in db.collections
      modifies this, db
      ensures !creatingLoader && visible == old(visible) && loading == old(loading)
      ensures db.collectionQuotes == old(db.collectionQuotes)
      ensures Trim(old(newCollectionName)) == [] ==>
        db.collections == old(db.collections) && collections == old(collections) &&
        isCreating == old(isCreating) && newCollectionName == old(newCollectionName) && alerts == old(alerts)
      ensures Trim(old(newCollectionName)) != [] && fault.None? ==>
        var row := CollectionRow(newId, userId, old(newCollectionName), createdAt);
        db.collections == old(db.collections)[newId := row] &&
        collections == [Created(row)] + old(collections) &&
        !isCreating && newCollectionName == "" && alerts == old(alerts)
      ensures Trim(old(newCollectionName)) != [] && fault.Some? ==>
        db.collections == old(db.collections) && collections == old(collections) &&
        isCreating == old(isCreating) && newCollectionName == old(newCollectionName) &&
        alerts == old(alerts) + [SheetAlert("Error", CreateFailureText(fault))]
    {
      var name := newCollectionName;
      if Trim(name) == [] {
        return;
      }
      creatingLoader := true;
      var result := db.CreateCollection(userId, name, newId, createdAt, fault);
      if result.data.Some? {
        collections, isCreating, newCollectionName := [Created(result.data.value)] + collections, false, "";
      } else {
        alerts := alerts + [SheetAlert("Error", CreateFailureText(result.error))];
      }
      creatingLoader := false;
    }

    /**
     * `handleSelectCollection`: the quote is added to the collection; the sheet
     * closes exactly when no error came back, a duplicate counting as saved.
     */
    method HandleSelectCollection(db: CollectionsDb, collectionId: string, fault: Option<DbError>)
      modifies this, db
      ensures db.collections == old(db.collections)
      ensures db.collectionQuotes == if fault.None? then old(db.collectionQuotes) + {(collectionId, quoteId)} else old(db.collectionQuotes)
      ensures !visible <==> !old(visible) || fault.None? || fault.value.code == UniqueViolation
      ensures alerts == old(alerts) + [
        if fault.None? && (collectionId, quoteId) !in old(db.collectionQuotes) then Added
        else if fault.None? || fault.value.code == UniqueViolation then AlreadySaved
        else AddFailed]
      ensures collections == old(collections) && isCreating == old(isCreating) && newCollectionName == old(newCollectionName)
      ensures creatingLoader == old(creatingLoader) && loading == old(loading)
    {
      var r := db.AddQuoteToCollection(collectionId, quoteId, fault);
      if r.error.None? {
        if r.isDuplicate {
          alerts := alerts + [AlreadySaved];
        } else {
          alerts := alerts + [Added];
        }
        visible := false;
      } else {
        alerts := alerts + [AddFailed];
      }
    }
  }
}
