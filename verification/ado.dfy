/** The ADO.NET collaborators the mapper talks to, as plain records:
    records read from a data reader, connections, transactions and commands. */
module Ado {
  import opened Results

  /** A boxed value as it travels between properties, columns and parameters. */
  datatype Value =
    | Null                                 // a null reference
    | DbNull                               // DBNull.Value, the database-null marker
    | Num(n: int)
    | Str(s: string)
    | Bool(b: bool)
    | Boxed(typeName: string, payload: int) // any other boxed value: enum members, dates, structs

  predicate IsNull(v: Value) {
    v.Null? || v.DbNull?
  }

  /** Column i of a record: GetName(i) and GetValue(i). */
  datatype Column = Column(name: string, value: Value)

  /** An IDataRecord: its FieldCount columns, in ordinal order. */
  type Record = seq<Column>

  /** An opaque IDbTransaction handle. */
  datatype Transaction = Transaction(id: nat)

  /** An IDbConnection. A command it creates starts with `enlisted` as its
      transaction, which is up to the provider (usually none). */
  datatype Connection = Connection(enlisted: Option<Transaction>)

  datatype CommandType = Text | StoredProcedure | TableDirect

  datatype Parameter = Parameter(name: string, value: Value)

  /** An IDbCommand as the mapper leaves it; nothing is executed. */
  datatype Command = Command(
    text: string,
    commandType: CommandType,
    transaction: Option<Transaction>,
    parameters: seq<Parameter>)
}
