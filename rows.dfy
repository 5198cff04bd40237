/**
  The rows a Mapper reads. A row of a data chunk is a mapping from column name to
  cell; a cell is either null (a missing value in the table) or holds a value.
  Only the column named Passenger_ID is ever consulted.
 */
module Rows {
  import opened Wrappers

  /** A table cell: a null-like value, or a present value of type V. */
  datatype Cell<V> = Null | Value(v: V)

  /** One row of a chunk, keyed by column name. */
  type Row<V> = map<string, Cell<V>>

  /** A data chunk: its rows in iteration order. */
  type Chunk<V> = seq<Row<V>>

  /** The column that identifies the passenger of a flight row. */
  const PassengerIdColumn: string := "Passenger_ID"

  /**
    The passenger identifier of a row, or None when the row has no Passenger_ID
    column or the cell in it is null. Those are the two cases the Mapper skips.
   */
  function PassengerId<V>(row: Row<V>): (r: Option<V>)
    ensures r.Some? <==> PassengerIdColumn in row && row[PassengerIdColumn].Value?
    ensures r.Some? ==> row[PassengerIdColumn] == Value(r.value)
  {
    if PassengerIdColumn !in row then None
    else match row[PassengerIdColumn]
      case Null => None
      case Value(v) => Some(v)
  }
}
