/** Reading back what a command wrote: the parameters of CreateCommand, stored as a
    row whose columns are named after the properties, materialise to the same
    values on every property the mapper both writes and reads. */
module RoundTrip {
  import opened Results
  import opened Casing
  import opened ClrTypes
  import opened Ado
  import opened Reflectors
  import opened Materialization
  import opened Commands

  function Unprefix(name: string): (n: string)
    ensures "@" + n == name || n == name
  {
    if |name| > 0 && name[0] == '@' then name[1..] else name
  }

  /** The row a store hands back after saving `cmd`: one column per parameter,
      named like the parameter without its '@'. */
  function StoredRecord(cmd: Command): (record: Record)
    ensures |record| == |cmd.parameters|
    ensures forall j :: 0 <= j < |record| ==>
      "@" + record[j].name == cmd.parameters[j].name || record[j].name == cmd.parameters[j].name
  {
    seq(|cmd.parameters|, j requires 0 <= j < |cmd.parameters| =>
      Column(Unprefix(cmd.parameters[j].name), cmd.parameters[j].value))
  }

  /** No two mappable properties have names equal up to case. */
  predicate MappableNamesDistinct(props: seq<Property>) {
    forall k1, k2 :: 0 <= k1 < |props| && 0 <= k2 < |props| && k1 != k2
                     && Mappable(props[k1].propertyType) && Mappable(props[k2].propertyType) ==>
      !SameName(props[k1].name, props[k2].name)
  }

  /** Converting a property's own non-null value to its own type gives it back. */
  predicate PreservesValues(conv: Conversions, props: seq<Property>, model: Instance)
    requires |model| == |props|
  {
    forall k :: 0 <= k < |props| && Participates(props[k]) && !IsNull(model[k]) ==>
      Coerce(conv, ResolveSettableType(props[k].propertyType), model[k]) == Some(model[k])
  }

  lemma UnprefixName(name: string)
    ensures Unprefix("@" + name) == name
  {
    assert ("@" + name)[1..] == name;
  }

  /** `record` holds, column by column, the mappable properties listed in `idx` and their bound values. */
  predicate Stores(record: Record, props: seq<Property>, model: Instance, idx: seq<nat>)
    requires |model| == |props|
  {
    && |record| == |idx|
    && forall j :: 0 <= j < |idx| ==>
         idx[j] < |props| && record[j] == Column(props[idx[j]].name, BindValue(model[idx[j]]))
  }

  /** The stored row of a command built from `model` holds the mappable properties in order. */
  lemma StoredColumns(r: Reflector, sql: string, model: Instance, connection: Connection,
                      commandType: CommandType, transaction: Option<Transaction>)
    requires Consistent(r) && |model| == |r.target.properties|
    requires CreateCommand(r, Some(sql), Some(model), Some(connection), commandType, transaction).Success?
    ensures
      Stores(StoredRecord(CreateCommand(r, Some(sql), Some(model), Some(connection), commandType, transaction).value),
             r.target.properties, model, MappableIndices(r.target.properties))
  {
    var cmd := CreateCommand(r, Some(sql), Some(model), Some(connection), commandType, transaction).value;
    var idx := MappableIndices(r.target.properties);
    forall j | 0 <= j < |idx|
      ensures StoredRecord(cmd)[j] == Column(r.target.properties[idx[j]].name, BindValue(model[idx[j]]))
    {
      UnprefixName(r.target.properties[idx[j]].name);
    }
  }

  /** In a stored row, the only column a mappable property matches is its own. */
  lemma OwnColumn(record: Record, props: seq<Property>, model: Instance, k: int, i: int)
    requires |model| == |props| && MappableNamesDistinct(props)
    requires Stores(record, props, model, MappableIndices(props))
    requires 0 <= k < |props| && Mappable(props[k].propertyType) && Matches(record, props[k].name, i)
    ensures MappableIndices(props)[i] == k
  {
    var idx := MappableIndices(props);
    assert record[i].name == props[idx[i]].name;
  }

  lemma StoredCaseDistinct(record: Record, props: seq<Property>, model: Instance)
    requires |model| == |props| && MappableNamesDistinct(props)
    requires Stores(record, props, model, MappableIndices(props))
    ensures CaseDistinct(record)
  {
    var idx := MappableIndices(props);
    forall i, j | 0 <= i < j < |record|
      ensures ToUpperInvariant(record[i].name) != ToUpperInvariant(record[j].name)
    {
      assert record[i].name == props[idx[i]].name && record[j].name == props[idx[j]].name;
      assert idx[i] < idx[j];
    }
  }

  lemma StoredConvertible(conv: Conversions, record: Record, props: seq<Property>, model: Instance)
    requires |model| == |props| && MappableNamesDistinct(props)
    requires Stores(record, props, model, MappableIndices(props))
    requires PreservesValues(conv, props, model)
    ensures Convertible(conv, props, record)
  {
    forall k, i | 0 <= k < |props| && 0 <= i < |record| && Participates(props[k])
                  && Matches(record, props[k].name, i) && !IsNull(record[i].value)
      ensures Coerce(conv, ResolveSettableType(props[k].propertyType), record[i].value).Some?
    {
      OwnColumn(record, props, model, k, i);
    }
  }

  /** Every mapped property has a getter, so CreateCommand can read it. */
  predicate MappableReadable(props: seq<Property>) {
    forall k :: 0 <= k < |props| && Mappable(props[k].propertyType) ==> props[k].canRead
  }

  /** Reading back a stored row: it materialises, and each property comes back with its own
      value when it is filled and that value is not null, and with its default otherwise. */
  lemma StoredReadBack(r: Reflector, conv: Conversions, record: Record, model: Instance)
    requires Consistent(r) && Valid(r.target) && r.target.defaultInstance.Some?
    requires |model| == |r.target.properties|
    requires MappableNamesDistinct(r.target.properties)
    requires PreservesValues(conv, r.target.properties, model)
    requires Stores(record, r.target.properties, model, MappableIndices(r.target.properties))
    ensures
      var back := ToModel(r, conv, Some(record));
      && back.Success?
      && forall k :: 0 <= k < |model| ==>
           back.value[k] == if Participates(r.target.properties[k]) && !IsNull(model[k]) then model[k]
                            else r.target.defaultInstance.value[k]
  {
    var props := r.target.properties;
    var defaults := r.target.defaultInstance.value;
    var idx := MappableIndices(props);
    StoredCaseDistinct(record, props, model);
    StoredConvertible(conv, record, props, model);
    var back := ToModel(r, conv, Some(record));
    forall k | 0 <= k < |model|
      ensures back.value[k] == if Participates(props[k]) && !IsNull(model[k]) then model[k] else defaults[k]
    {
      if Participates(props[k]) {
        var j :| 0 <= j < |idx| && idx[j] == k;
        assert Matches(record, props[k].name, j);
      }
    }
  }

  /** Build a command from `model`, store it, read the row back: the command is built,
      and every property that is both bound and filled comes back with its value, unless
      that value was null; every other property keeps the default of a fresh instance. */
  lemma CommandRoundTrip(
    r: Reflector, conv: Conversions, sql: string, model: Instance, connection: Connection,
    commandType: CommandType, transaction: Option<Transaction>)
    requires Consistent(r) && Valid(r.target) && r.target.defaultInstance.Some?
    requires |model| == |r.target.properties|
    requires sql != "" && MappableReadable(r.target.properties)
    requires MappableNamesDistinct(r.target.properties)
    requires PreservesValues(conv, r.target.properties, model)
    ensures
      var built := CreateCommand(r, Some(sql), Some(model), Some(connection), commandType, transaction);
      && built.Success?
      && var back := ToModel(r, conv, Some(StoredRecord(built.value)));
      && back.Success?
      && forall k :: 0 <= k < |model| ==>
           back.value[k] == if Participates(r.target.properties[k]) && !IsNull(model[k]) then model[k]
                            else r.target.defaultInstance.value[k]
  {
    var built := CreateCommand(r, Some(sql), Some(model), Some(connection), commandType, transaction);
    assert built.Success?;
    StoredColumns(r, sql, model, connection, commandType, transaction);
    StoredReadBack(r, conv, StoredRecord(built.value), model);
  }

  /** The same round trip through ToModel as written: for a class T it gives back what
      the corrected model gives; for a struct T every property keeps its default. */
  lemma CommandRoundTripAsWritten(
    r: Reflector, conv: Conversions, sql: string, model: Instance, connection: Connection,
    commandType: CommandType, transaction: Option<Transaction>)
    requires Consistent(r) && Valid(r.target) && r.target.defaultInstance.Some?
    requires |model| == |r.target.properties|
    requires sql != "" && MappableReadable(r.target.properties)
    requires MappableNamesDistinct(r.target.properties)
    requires PreservesValues(conv, r.target.properties, model)
    ensures
      var built := CreateCommand(r, Some(sql), Some(model), Some(connection), commandType, transaction);
      && built.Success?
      && var back := ToModelAsWritten(r, conv, Some(StoredRecord(built.value)));
      && back.Success?
      && forall k :: 0 <= k < |model| ==>
           back.value[k] == if !r.target.isValueType && Participates(r.target.properties[k]) && !IsNull(model[k])
                            then model[k]
                            else r.target.defaultInstance.value[k]
  {
    CommandRoundTrip(r, conv, sql, model, connection, commandType, transaction);
  }
}
