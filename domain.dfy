/** Entities and backend shapes shared by the services and screens of the quote app. */
module Domain {

  datatype Option<+T> = None | Some(value: T)

  /** An error object as the backend client reports it: a SQLSTATE-style code and a message. */
  datatype DbError = DbError(code: string, message: string)

  /** SQLSTATE 23505, PostgreSQL's unique_violation. */
  const UniqueViolation: string := "23505"

  /** The error the database reports when an insert would break a unique constraint. */
  const DuplicateKey: DbError := DbError(UniqueViolation, "duplicate key value violates unique constraint")

  /**
   * The error of an insert into a table with a unique key: the request's own
   * fault if it has one, else a duplicate key when the key is taken, else none.
   */
  function InsertError(taken: bool, fault: Option<DbError>): (e: Option<DbError>)
    ensures e.None? <==> fault.None? && !taken
    ensures fault.None? && taken ==> e == Some(DuplicateKey)
  {
    if fault.Some? then fault else if taken then Some(DuplicateKey) else None
  }

  /** The answer to one select: the rows, or the error (the client never gives both). */
  datatype Reply<+T> = Rows(data: T) | Failed(error: DbError)

  /** The `{ data, error }` object the service functions hand back to their callers. */
  datatype QueryResult<+T> = QueryResult(data: Option<T>, error: Option<DbError>)

  /**
   * A row of the quotes table. `createdAt` is the instant of the `created_at`
   * column, ordered as the database orders it.
   */
  datatype Quote = Quote(id: string, text: string, author: string, category: string, createdAt: int)

  /** The `quotes (id, text, author)` part of a joined select. */
  datatype QuoteSummary = QuoteSummary(id: string, text: string, author: string)

  /** `array.map(f)`: same length, same order, element by element. */
  function MapSeq<A, B>(f: A -> B, s: seq<A>): (r: seq<B>)
    ensures |r| == |s|
    ensures forall i :: 0 <= i < |s| ==> r[i] == f(s[i])
  {
    if s == [] then [] else [f(s[0])] + MapSeq(f, s[1..])
  }

  /** The UTF-16 code units of one character: one below U+10000, a surrogate pair above. */
  function Utf16Units(c: char): (u: seq<int>)
    ensures 1 <= |u| <= 2
    ensures forall i :: 0 <= i < |u| ==> 0 <= u[i] < 0x10000
    ensures |u| == 1 <==> (c as int) < 0x10000
    ensures |u| == 1 ==> u[0] == c as int
    ensures |u| == 2 ==> 0xD800 <= u[0] < 0xDC00 <= u[1] < 0xE000
    ensures |u| == 2 ==> 0x10000 + (u[0] - 0xD800) * 0x400 + (u[1] - 0xDC00) == c as int
  {
    var v := c as int;
    if v < 0x10000 then [v]
    else [0xD800 + (v - 0x10000) / 0x400, 0xDC00 + (v - 0x10000) % 0x400]
  }

  /**
   * A string as JavaScript sees it: `s.length` is the length of this sequence
   * and `s.charCodeAt(i)` its i-th element.
   */
  function Utf16(s: string): (u: seq<int>)
    ensures |u| >= |s|
    ensures forall i :: 0 <= i < |u| ==> 0 <= u[i] < 0x10000
    ensures (forall i :: 0 <= i < |s| ==> (s[i] as int) < 0x10000) ==> |u| == |s|
    ensures (forall i :: 0 <= i < |s| ==> (s[i] as int) < 0x10000) ==> forall i :: 0 <= i < |s| ==> u[i] == s[i] as int
  {
    if s == [] then [] else Utf16Units(s[0]) + Utf16(s[1..])
  }
}
