/** Reflector<T>.CreateCommand and its two shorter overloads: a command whose
    parameters are the instance's mappable properties. */
module Commands {
  import opened Results
  import opened ClrTypes
  import opened Ado
  import opened Reflectors

  /** The positions of the mappable properties, in property order. */
  function MappableIndices(props: seq<Property>): (idx: seq<nat>)
    ensures forall j :: 0 <= j < |idx| ==> idx[j] < |props| && Mappable(props[idx[j]].propertyType)
    ensures forall k :: 0 <= k < |props| && Mappable(props[k].propertyType) ==> k in idx
    ensures forall j1, j2 :: 0 <= j1 < j2 < |idx| ==> idx[j1] < idx[j2]
    decreases |props|
  {
    if |props| == 0 then []
    else
      var last := |props| - 1;
      var prefix := MappableIndices(props[..last]);
      if Mappable(props[last].propertyType) then prefix + [last] else prefix
  }

  /** The value bound for a property value: null becomes DBNull. */
  function BindValue(v: Value): (b: Value)
    ensures !b.Null?
    ensures v.Null? ==> b == DbNull
    ensures !v.Null? ==> b == v
  {
    if v.Null? then DbNull else v
  }

  /** The parameter for one mappable property; reading a property without a getter throws. */
  function ParameterFor(p: Property, v: Value): (r: Result<Parameter>)
    ensures r.Success? <==> p.canRead
    ensures r.Failure? ==> r.error == GetMethodNotFound(p.name)
    ensures r.Success? ==> r.value.name == "@" + p.name && r.value.value == BindValue(v)
  {
    if !p.canRead then Failure(GetMethodNotFound(p.name))
    else Success(Parameter("@" + p.name, BindValue(v)))
  }

  /** All arguments are present and the SQL text is non-empty. */
  predicate ArgumentsGiven(sql: Option<string>, model: Option<Instance>, connection: Option<Connection>) {
    connection.Some? && model.Some? && sql.Some? && sql.value != ""
  }

  /** The five-argument CreateCommand. */
  function CreateCommand(
    r: Reflector, sql: Option<string>, model: Option<Instance>, connection: Option<Connection>,
    commandType: CommandType, transaction: Option<Transaction>): (res: Result<Command>)
    requires Consistent(r)
    requires model.Some? ==> |model.value| == |r.target.properties|
    ensures connection.None? ==> res == Failure(ArgumentNull("connection"))
    ensures connection.Some? && model.None? ==> res == Failure(ArgumentNull("model"))
    ensures connection.Some? && model.Some? && (sql.None? || sql.value == "") ==> res == Failure(ArgumentNull("sql"))
    ensures ArgumentsGiven(sql, model, connection) ==>
      (res.Success? <==> forall k :: 0 <= k < |r.target.properties| && Mappable(r.target.properties[k].propertyType) ==>
                           r.target.properties[k].canRead)
    ensures res.Failure? && ArgumentsGiven(sql, model, connection) ==>
      exists k :: 0 <= k < |r.target.properties| && Mappable(r.target.properties[k].propertyType)
                  && !r.target.properties[k].canRead
                  && res.error == GetMethodNotFound(r.target.properties[k].name)
    ensures res.Success? ==>
      && res.value.text == sql.value
      && res.value.commandType == commandType
      && res.value.transaction == (if transaction.Some? then transaction else connection.value.enlisted)
    ensures res.Success? ==>
      var idx := MappableIndices(r.target.properties);
      && |res.value.parameters| == |idx|
      && forall j :: 0 <= j < |idx| ==>
           res.value.parameters[j] == Parameter("@" + r.target.properties[idx[j]].name, BindValue(model.value[idx[j]]))
  {
    if connection.None? then Failure(ArgumentNull("connection"))
    else if model.None? then Failure(ArgumentNull("model"))
    else if sql.None? || sql.value == "" then Failure(ArgumentNull("sql"))
    else
      var attached := if transaction.Some? then transaction else connection.value.enlisted;
      var (props, _) := TypeProperties(r);
      var values := model.value;
      var idx := MappableIndices(props);
      var parameters :- Traverse(idx, (k: nat) requires k < |props| && |values| == |props| => ParameterFor(props[k], values[k]));
      Success(Command(sql.value, commandType, attached, parameters))
  }

  /** CreateCommand(sql, model, connection, commandType): no transaction. */
  function CreateCommandOfType(
    r: Reflector, sql: Option<string>, model: Option<Instance>, connection: Option<Connection>,
    commandType: CommandType): (res: Result<Command>)
    requires Consistent(r)
    requires model.Some? ==> |model.value| == |r.target.properties|
    ensures res == CreateCommand(r, sql, model, connection, commandType, None)
    ensures res.Success? ==> res.value.commandType == commandType && res.value.transaction == connection.value.enlisted
  {
    CreateCommand(r, sql, model, connection, commandType, None)
  }

  /** CreateCommand(sql, model, connection): a text command with no transaction. */
  function CreateTextCommand(
    r: Reflector, sql: Option<string>, model: Option<Instance>, connection: Option<Connection>): (res: Result<Command>)
    requires Consistent(r)
    requires model.Some? ==> |model.value| == |r.target.properties|
    ensures res == CreateCommand(r, sql, model, connection, Text, None)
    ensures res.Success? ==> res.value.commandType == Text && res.value.transaction == connection.value.enlisted
  {
    CreateCommandOfType(r, sql, model, connection, Text)
  }

  function ExampleProperties(): seq<Property> {
    [Property("Id", Primitive(Int32), true, true),
     Property("Name", SystemString, true, true),
     Property("Age", NullableOf(Primitive(Int32)), true, true)]
  }

  lemma ExampleIndices()
    ensures MappableIndices(ExampleProperties()) == [0, 1, 2]
  {
    var props := ExampleProperties();
    assert props[..2][..1] == [props[0]];
    assert MappableIndices(props[..2][..1][..0]) == [];
    assert MappableIndices(props[..2][..1]) == [0];
    assert MappableIndices(props[..2]) == [0, 1];
  }

  /** Id: int, Name: string, Age: int? with Age unset: three parameters, Age bound to DBNull. */
  lemma ThreeParameterExample()
    ensures
      var t := TargetType(ExampleProperties(), false, Some([Num(0), Null, Null]));
      var res := CreateTextCommand(NewReflector(t), Some("INSERT"), Some([Num(1), Str("Ann"), Null]), Some(Connection(None)));
      && res.Success?
      && res.value.parameters == [Parameter("@Id", Num(1)), Parameter("@Name", Str("Ann")), Parameter("@Age", DbNull)]
  {
    ExampleIndices();
    var t := TargetType(ExampleProperties(), false, Some([Num(0), Null, Null]));
    var res := CreateTextCommand(NewReflector(t), Some("INSERT"), Some([Num(1), Str("Ann"), Null]), Some(Connection(None)));
    assert res.Success?;
    var ps := res.value.parameters;
    assert |ps| == 3;
    assert ps[0] == Parameter("@" + "Id", Num(1));
    assert ps[1] == Parameter("@" + "Name", Str("Ann"));
    assert ps[2] == Parameter("@" + "Age", DbNull);
    assert "@" + "Id" == "@Id" && "@" + "Name" == "@Name" && "@" + "Age" == "@Age";
    assert ps == [ps[0], ps[1], ps[2]];
  }
}
