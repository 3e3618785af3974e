/** Reflector<T>.ToModel and ToCollection: filling a fresh instance of T from
    a record by case-insensitive name matching. */
module Materialization {
  import opened Results
  import opened Casing
  import opened ClrTypes
  import opened Ado
  import opened Reflectors

  /** Enum.ToObject and Convert.ChangeType, None where they throw. */
  datatype Conversions = Conversions(
    enumToObject: (ClrType, Value) -> Option<Value>,
    changeType: (Value, ClrType) -> Option<Value>)

  /** The conversion applied to a non-null column value on its way into a
      property of resolved type `t`: enums by Enum.ToObject, all else by Convert.ChangeType. */
  function Coerce(conv: Conversions, t: ClrType, v: Value): Option<Value> {
    if t.Enum? then conv.enumToObject(t, v) else conv.changeType(v, t)
  }

  predicate SameName(a: string, b: string) {
    ToUpperInvariant(a) == ToUpperInvariant(b)
  }

  /** Column i is the one a property called `name` is matched with. */
  predicate Matches(record: Record, name: string, i: int) {
    0 <= i < |record| && SameName(record[i].name, name)
  }

  predicate HasColumn(record: Record, name: string) {
    exists i :: 0 <= i < |record| && Matches(record, name, i)
  }

  /** No two column names are equal once upper-cased. */
  predicate CaseDistinct(record: Record) {
    forall i, j :: 0 <= i < j < |record| ==>
      ToUpperInvariant(record[i].name) != ToUpperInvariant(record[j].name)
  }

  /** Column j is the first whose upper-cased name was already taken. */
  predicate FirstCollision(record: Record, j: int) {
    && 0 < j < |record|
    && CaseDistinct(record[..j])
    && exists i :: 0 <= i < j && SameName(record[i].name, record[j].name)
  }

  /** `dict` maps every upper-cased column name to that column's ordinal, and nothing else. */
  predicate IndexesRecord(dict: map<string, nat>, record: Record) {
    && (forall i :: 0 <= i < |record| ==>
          ToUpperInvariant(record[i].name) in dict && dict[ToUpperInvariant(record[i].name)] == i)
    && (forall k :: k in dict ==>
          dict[k] < |record| && ToUpperInvariant(record[dict[k]].name) == k)
  }

  /** The name-to-ordinal dictionary, built column by column with Dictionary.Add. */
  function FieldDictionary(record: Record): (res: Result<map<string, nat>>)
    ensures res.Success? <==> CaseDistinct(record)
    ensures res.Success? ==> IndexesRecord(res.value, record)
    ensures res.Failure? ==>
      exists j :: FirstCollision(record, j) && res.error == DuplicateKey(ToUpperInvariant(record[j].name))
    decreases |record|
  {
    if |record| == 0 then Success(map[])
    else
      var last := |record| - 1;
      match FieldDictionary(record[..last])
      case Failure(e) =>
        CollisionInPrefix(record, last);
        Failure(e)
      case Success(dict) =>
        var key := ToUpperInvariant(record[last].name);
        if key in dict then
          CollisionAtLast(record, dict);
          Failure(DuplicateKey(key))
        else
          IndexesExtended(record, dict);
          Success(dict[key := last])
  }

  /** A first collision among the first n columns is the first collision of the whole record. */
  lemma CollisionInPrefix(record: Record, n: int)
    requires 0 <= n <= |record|
    ensures forall j :: FirstCollision(record[..n], j) ==> FirstCollision(record, j) && !CaseDistinct(record)
  {
    forall j | FirstCollision(record[..n], j)
      ensures FirstCollision(record, j) && !CaseDistinct(record)
    {
      assert record[..n][..j] == record[..j];
      var i :| 0 <= i < j && SameName(record[..n][i].name, record[..n][j].name);
      assert record[..n][i] == record[i] && record[..n][j] == record[j];
    }
  }

  /** The last column repeats a name of a case-distinct prefix: the first collision is there. */
  lemma CollisionAtLast(record: Record, dict: map<string, nat>)
    requires |record| > 0
    requires CaseDistinct(record[..|record| - 1])
    requires IndexesRecord(dict, record[..|record| - 1])
    requires ToUpperInvariant(record[|record| - 1].name) in dict
    ensures FirstCollision(record, |record| - 1) && !CaseDistinct(record)
  {
    var last := |record| - 1;
    var i := dict[ToUpperInvariant(record[last].name)];
    assert record[..last][i] == record[i];
    assert SameName(record[i].name, record[last].name);
  }

  /** Adding a fresh name for the last column keeps the dictionary exact. */
  lemma IndexesExtended(record: Record, dict: map<string, nat>)
    requires |record| > 0
    requires CaseDistinct(record[..|record| - 1])
    requires IndexesRecord(dict, record[..|record| - 1])
    requires ToUpperInvariant(record[|record| - 1].name) !in dict
    ensures CaseDistinct(record)
    ensures IndexesRecord(dict[ToUpperInvariant(record[|record| - 1].name) := |record| - 1], record)
  {
    var last := |record| - 1;
    var prefix := record[..last];
    forall i, j | 0 <= i < j < |record|
      ensures ToUpperInvariant(record[i].name) != ToUpperInvariant(record[j].name)
    {
      assert prefix[i] == record[i];
      if j < last {
        assert prefix[j] == record[j];
      }
    }
    forall i | 0 <= i < last
      ensures prefix[i] == record[i]
    {
    }
  }

  /** A property the materialisation loop may fill: writable, with a mappable type. */
  predicate Participates(p: Property) {
    p.canWrite && Mappable(p.propertyType)
  }

  /** What happens to one property of the fresh instance: its final value, or the
      conversion failure that aborts the whole call. */
  function Slot(conv: Conversions, record: Record, dict: map<string, nat>, p: Property, default: Value): (r: Result<Value>)
    requires IndexesRecord(dict, record)
    ensures !Participates(p) || !HasColumn(record, p.name) ==> r == Success(default)
    ensures forall i :: Participates(p) && Matches(record, p.name, i) ==>
      if IsNull(record[i].value) then r == Success(default)
      else match Coerce(conv, ResolveSettableType(p.propertyType), record[i].value)
           case Some(v) => r == Success(v)
           case None => r == Failure(ConversionFailed(p.name))
  {
    if !p.canWrite then Success(default)
    else
      var t := ResolveSettableType(p.propertyType);
      if !IncludeInDbReflection(t) then Success(default)
      else
        var key := ToUpperInvariant(p.name);
        if key !in dict then Success(default)
        else
          assert Matches(record, p.name, dict[key]);
          var raw := record[dict[key]].value;
          if IsNull(raw) then Success(default)
          else match Coerce(conv, t, raw)
            case Some(v) => Success(v)
            case None => Failure(ConversionFailed(p.name))
  }

  /** Every participating property whose matched column holds a non-null value converts. */
  predicate Convertible(conv: Conversions, props: seq<Property>, record: Record) {
    forall k, i :: 0 <= k < |props| && 0 <= i < |record| && Participates(props[k]) && Matches(record, props[k].name, i)
                   && !IsNull(record[i].value) ==>
      Coerce(conv, ResolveSettableType(props[k].propertyType), record[i].value).Some?
  }

  /** The slot function of the materialisation loop, over (property, default value) pairs. */
  function SlotOf(conv: Conversions, record: Record, dict: map<string, nat>): ((Property, Value)) --> Result<Value>
  {
    (pd: (Property, Value)) requires IndexesRecord(dict, record) => Slot(conv, record, dict, pd.0, pd.1)
  }

  function Zip(props: seq<Property>, values: Instance): (z: seq<(Property, Value)>)
    requires |props| == |values|
    ensures |z| == |props| && forall k :: 0 <= k < |z| ==> z[k] == (props[k], values[k])
  {
    seq(|props|, k requires 0 <= k < |props| => (props[k], values[k]))
  }

  /** Reflector<T>.ToModel (corrected for value-type T, see ToModelAsWritten). */
  function ToModel(r: Reflector, conv: Conversions, record: Option<Record>): (res: Result<Instance>)
    requires Consistent(r) && Valid(r.target)
    ensures r.target.defaultInstance.None? ==> res == Failure(MissingDefaultConstructor)
    ensures r.target.defaultInstance.Some? && record.None? ==> res == Failure(NullReference)
    ensures r.target.defaultInstance.Some? && record.Some? && !CaseDistinct(record.value) ==>
      res.Failure? && res.error.DuplicateKey?
    ensures r.target.defaultInstance.Some? && record.Some? && CaseDistinct(record.value) ==>
      (res.Success? <==> Convertible(conv, r.target.properties, record.value))
    ensures res.Failure? && r.target.defaultInstance.Some? && record.Some? && CaseDistinct(record.value) ==>
      res.error.ConversionFailed?
    ensures res.Success? ==> |res.value| == |r.target.properties|
    ensures res.Success? ==> forall k :: 0 <= k < |r.target.properties| ==>
      var p := r.target.properties[k];
      !Participates(p) || !HasColumn(record.value, p.name) ==> res.value[k] == r.target.defaultInstance.value[k]
    ensures res.Success? ==> forall k, i :: 0 <= k < |r.target.properties| && 0 <= i < |record.value| ==>
      var p := r.target.properties[k];
      Participates(p) && Matches(record.value, p.name, i) ==>
        if IsNull(record.value[i].value) then res.value[k] == r.target.defaultInstance.value[k]
        else Some(res.value[k]) == Coerce(conv, ResolveSettableType(p.propertyType), record.value[i].value)
  {
    match r.target.defaultInstance
    case None => Failure(MissingDefaultConstructor)
    case Some(initial) =>
      var (props, _) := TypeProperties(r);
      if record.None? then Failure(NullReference)
      else
        var dict :- FieldDictionary(record.value);
        var z := Zip(props, initial);
        var res := Traverse(z, SlotOf(conv, record.value, dict));
        assert res.Failure? ==> res.error.ConversionFailed?;
        res
  }

  /** Reflector<T>.ToModel exactly as written. For a value-type T, each
      `property.SetValue(model, …)` boxes a copy of `model` and sets the copy, so
      no assignment reaches the instance returned; the conversions still run
      and can still throw. */
  function ToModelAsWritten(r: Reflector, conv: Conversions, record: Option<Record>): (res: Result<Instance>)
    requires Consistent(r) && Valid(r.target)
    ensures !r.target.isValueType ==> res == ToModel(r, conv, record)
    ensures r.target.isValueType ==> res.Success? == ToModel(r, conv, record).Success?
    ensures r.target.isValueType && res.Success? ==> res.value == r.target.defaultInstance.value
    ensures res.Failure? ==> res == ToModel(r, conv, record)
  {
    var filled :- ToModel(r, conv, record);
    if r.target.isValueType then Success(r.target.defaultInstance.value) else Success(filled)
  }

  /** Conversions that return every value unchanged. */
  function IdentityConversions(): Conversions {
    Conversions((t: ClrType, v: Value) => Some(v), (v: Value, t: ClrType) => Some(v))
  }

  /** A struct with a writable int property Id, read from a record with column ID = 5:
      as written the result keeps Id = 0; corrected it holds 5. */
  lemma ValueTypeAssignmentsLost()
    ensures
      var t := TargetType([Property("Id", Primitive(Int32), true, true)], true, Some([Num(0)]));
      var record := [Column("ID", Num(5))];
      && ToModelAsWritten(NewReflector(t), IdentityConversions(), Some(record)) == Success([Num(0)])
      && ToModel(NewReflector(t), IdentityConversions(), Some(record)) == Success([Num(5)])
  {
    var t := TargetType([Property("Id", Primitive(Int32), true, true)], true, Some([Num(0)]));
    var record := [Column("ID", Num(5))];
    var r := NewReflector(t);
    assert Matches(record, "Id", 0);
    assert ToUpperInvariant("Id") == "ID";
    assert ToUpperInvariant("ID") == "ID";
    assert CaseDistinct(record);
    var conv := IdentityConversions();
    assert Convertible(conv, t.properties, record);
    var res := ToModel(r, conv, Some(record));
    assert res.Success? && |res.value| == 1;
    assert Some(res.value[0]) == Coerce(conv, Primitive(Int32), Num(5));
    assert res.value == [Num(5)];
  }

  /** Reflector<T>.ToCollection: one instance per row the reader yields, in row order;
      the first row that fails aborts the whole call. */
  function ToCollection(r: Reflector, conv: Conversions, reader: Option<seq<Record>>): (res: Result<seq<Instance>>)
    requires Consistent(r) && Valid(r.target)
    ensures reader.None? ==> res == Failure(ArgumentNull("dataReader"))
    ensures res.Success? ==>
      && |res.value| == |reader.value|
      && forall i :: 0 <= i < |reader.value| ==> ToModel(r, conv, Some(reader.value[i])) == Success(res.value[i])
    ensures reader.Some? && res.Failure? ==>
      exists i :: 0 <= i < |reader.value| && ToModel(r, conv, Some(reader.value[i])) == Failure(res.error)
                  && forall j :: 0 <= j < i ==> ToModel(r, conv, Some(reader.value[j])).Success?
  {
    match reader
    case None => Failure(ArgumentNull("dataReader"))
    case Some(rows) =>
      Traverse(rows, (row: Record) requires Consistent(r) && Valid(r.target) => ToModel(r, conv, Some(row)))
  }

  /** Columns "id" and "Id" collide even though no property is called Id. */
  lemma DuplicateColumnsFailUnmatched()
    ensures
      var t := TargetType([Property("Name", SystemString, true, true)], false, Some([Null]));
      var record := [Column("id", Num(1)), Column("Id", Num(2))];
      ToModel(NewReflector(t), IdentityConversions(), Some(record)) == Failure(DuplicateKey("ID"))
  {
    var record := [Column("id", Num(1)), Column("Id", Num(2))];
    assert ToUpperInvariant("id") == "ID" && ToUpperInvariant("Id") == "ID";
    assert record[..1] == [Column("id", Num(1))];
    assert record[..1][..0] == [];
  }

  /** A reader with one row whose columns collide fails, whatever T is. */
  lemma CollectionFailsOnCollidingRow(r: Reflector, conv: Conversions, rows: seq<Record>, n: int)
    requires Consistent(r) && Valid(r.target) && r.target.defaultInstance.Some?
    requires 0 <= n < |rows| && !CaseDistinct(rows[n])
    ensures ToCollection(r, conv, Some(rows)).Failure?
  {
  }

  /** Reflector<T>.ToCollection exactly as written: each row goes through the
      as-written ToModel, so for a value-type T every row yields the default instance. */
  function ToCollectionAsWritten(r: Reflector, conv: Conversions, reader: Option<seq<Record>>): (res: Result<seq<Instance>>)
    requires Consistent(r) && Valid(r.target)
    ensures reader.None? ==> res == Failure(ArgumentNull("dataReader"))
    ensures res.Success? ==>
      && |res.value| == |reader.value|
      && forall i :: 0 <= i < |reader.value| ==> ToModelAsWritten(r, conv, Some(reader.value[i])) == Success(res.value[i])
    ensures res.Success? == ToCollection(r, conv, reader).Success?
    ensures r.target.isValueType && res.Success? ==>
      forall i :: 0 <= i < |res.value| ==> res.value[i] == r.target.defaultInstance.value
    ensures res.Failure? ==> res == ToCollection(r, conv, reader)
  {
    match reader
    case None => Failure(ArgumentNull("dataReader"))
    case Some(rows) =>
      var corrected := (row: Record) requires Consistent(r) && Valid(r.target) => ToModel(r, conv, Some(row));
      var asWritten := (row: Record) requires Consistent(r) && Valid(r.target) => ToModelAsWritten(r, conv, Some(row));
      TraverseSameFailure(rows, asWritten, corrected);
      Traverse(rows, asWritten)
  }

  /** For a reference-type T the code as written and the corrected model read the same collection. */
  lemma {:induction false} CollectionAsWrittenForClasses(r: Reflector, conv: Conversions, reader: Option<seq<Record>>)
    requires Consistent(r) && Valid(r.target) && !r.target.isValueType
    ensures ToCollectionAsWritten(r, conv, reader) == ToCollection(r, conv, reader)
  {
    if reader.Some? {
      var rows := reader.value;
      var a := ToCollectionAsWritten(r, conv, reader);
      var b := ToCollection(r, conv, reader);
      forall i | 0 <= i < |rows|
        ensures ToModelAsWritten(r, conv, Some(rows[i])) == ToModel(r, conv, Some(rows[i]))
      {
      }
      if a.Success? {
        assert a.value == b.value;
      } else {
        var i :| 0 <= i < |rows| && ToModelAsWritten(r, conv, Some(rows[i])) == Failure(a.error)
                 && forall j :: 0 <= j < i ==> ToModelAsWritten(r, conv, Some(rows[j])).Success?;
        var i' :| 0 <= i' < |rows| && ToModel(r, conv, Some(rows[i'])) == Failure(b.error)
                  && forall j :: 0 <= j < i' ==> ToModel(r, conv, Some(rows[j])).Success?;
        assert i == i';
      }
    }
  }
}
