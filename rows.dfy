/**
 * The relational row seen by `FromRow` decoders: a map from column name to a
 * column value, and the typed column reads (`Row::try_get`) that decoders
 * chain with `?`. Identifier columns are text holding decimal digits.
 */
module Rows {
  import opened Wrappers
  import opened Identifiers

  /** A timestamp with offset; an opaque value that decoders copy and never compute on. */
  datatype OffsetDateTime = OffsetDateTime(unixNanos: int, offsetSeconds: int)

  datatype SqlValue = Null | Text(text: string) | Int8(int8: int) | TimestampTz(at: OffsetDateTime)

  type Row = map<string, SqlValue>

  /**
   * Why a row could not be decoded: the column is absent (`ColumnNotFound`),
   * holds a value of another type or NULL (`ColumnDecode`), or holds text that
   * is not a valid identifier (`MalformedRow`, where the source panics).
   */
  datatype RowError =
    | ColumnNotFound(column: string)
    | ColumnDecode(column: string)
    | MalformedRow(column: string, cause: IdError)

  /** `row.try_get::<String, &str>(column)`. */
  function TryGetText(row: Row, column: string): (r: Result<string, RowError>)
    ensures r.Success? <==> column in row && row[column].Text?
    ensures r.Success? ==> row[column] == Text(r.value)
    ensures r.Failure? ==> r.error == (if column in row then ColumnDecode(column) else ColumnNotFound(column))
  {
    if column !in row then Failure(ColumnNotFound(column))
    else match row[column]
      case Text(s) => Success(s)
      case _ => Failure(ColumnDecode(column))
  }

  /** `row.try_get::<OffsetDateTime, &str>(column)`. */
  function TryGetTimestamp(row: Row, column: string): (r: Result<OffsetDateTime, RowError>)
    ensures r.Success? <==> column in row && row[column].TimestampTz?
    ensures r.Success? ==> row[column] == TimestampTz(r.value)
    ensures r.Failure? ==> r.error == (if column in row then ColumnDecode(column) else ColumnNotFound(column))
  {
    if column !in row then Failure(ColumnNotFound(column))
    else match row[column]
      case TimestampTz(t) => Success(t)
      case _ => Failure(ColumnDecode(column))
  }

  /**
   * An identifier column: read as text, then `new_checked(text.parse::<u64>())`.
   * The one decoder shared by every table with identifier columns.
   */
  function TryGetId<M>(row: Row, column: string): (r: Result<Id<M>, RowError>)
    ensures r.Success? <==> column in row && row[column].Text? && DecodeId<M>(row[column].text).Success?
    ensures r.Success? ==> DecodeId<M>(row[column].text) == Success(r.value)
    ensures column in row && row[column].Text? && DecodeId<M>(row[column].text).Failure? ==>
              r == Failure(MalformedRow(column, DecodeId<M>(row[column].text).error))
    ensures !(column in row && row[column].Text?) ==> r == TryGetText(row, column).PropagateFailure()
  {
    var text :- TryGetText(row, column);
    DecodeId<M>(text).MapFailure(cause => MalformedRow(column, cause))
  }

  /** A column holding the decimal text of a non-zero 64-bit integer reads back as the identifier with that value. */
  lemma TryGetIdEncoded<M>(row: Row, column: string, n: nat)
    requires 0 < n <= Decimal.U64_MAX
    requires column in row && row[column] == Text(Decimal.Encode(n))
    ensures TryGetId<M>(row, column) == Success(Id(n))
  {
    DecodeEncode<M>(n);
  }
}
