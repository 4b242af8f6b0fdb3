/** The decoded forms of a stored row (`Entry`). */
module Entries {
  import opened OrmTypes
  import opened Proto

  datatype Entry =
    /** One table row: the primary-key values and the whole record. */
    | PrimaryKeyEntry(key: seq<Value>, value: Msg)
    /** A secondary-index row: the indexed values and the primary key they reference. */
    | IndexKeyEntry(indexValues: seq<Value>, primaryKey: seq<Value>)
}
