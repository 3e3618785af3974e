# ADOMore Reflector — a Dafny model

ADOMore maps ADO.NET data to plain C# objects and back. `Reflector<T>` reads
the public properties of `T` once and caches them. It then offers two
directions:

- **Materialisation** (`ToModel`, `ToCollection`). A record, or every row of
  a data reader, becomes a fresh instance of `T`. Each writable property of
  a mappable type is filled from the column whose name matches it
  case-insensitively. Column values that are null or `DBNull` are skipped.
  The rest are converted with `Enum.ToObject` or `Convert.ChangeType`.
- **Command building** (`CreateCommand`, three overloads). An instance of `T`
  becomes an `IDbCommand`. It gets one `@Name` parameter per mappable
  property, and a null value is bound as `DBNull`.

`ReflectionExtensions` decides which property types are mapped. Value types
and `string` are; other reference types are not. `Nullable<U>` is first
unwrapped to `U`.

The model is functional. A type is a `ClrType` descriptor. `T` is a
`TargetType`: its property descriptors in `GetProperties()` order, whether
it is a value type, and the instance `Activator.CreateInstance<T>()`
builds. An instance is a sequence of boxed `Value`s aligned with the
properties. A record is a sequence of named columns, and a reader is a
sequence of records. A command is a record holding its parameters. Every
exception becomes a `Result` failure (`Results.Error`).

Files:
- `results.dfy` — errors, `Result`, and `Traverse`: a loop whose body may throw.
- `casing.dfy` — `ToUpperInvariant`, for ASCII letters.
- `clr_types.dfy` — `ResolveSettableType` and `IncludeInDbReflection`.
- `ado.dfy` — values, records, connections, transactions, commands.
- `reflectors.dfy` — `Reflector<T>` and its lazily filled `TypeProperties`.
- `materialization.dfy` — `ToModel`, `ToCollection`, and the value-type finding.
- `commands.dfy` — the three `CreateCommand` overloads.
- `round_trip.dfy` — a command's parameters, stored and read back with `ToModel`.

Behaviour of Reflector.cs worth noting:
- `ToModel` does not check its record for null. It fails with a null
  dereference after constructing the instance, not with an argument error.
- `ToCollection` names its parameter `"dataReader"` in the exception.
- The typed `CreateCommand` lets the caller choose the command type.
- A mappable property without a getter makes `CreateCommand` throw from
  `PropertyInfo.GetValue`.

## Model

| member | source | states |
|---|---|---|
| Casing.ToUpperInvariant | ADOMore.MonoTouch/Reflector.cs:74 | the upper-cased name has the same length, no lower-case letters, and the same letters as the input |
| Casing.UpperMatchIsCaseInsensitive | ADOMore.MonoTouch/Reflector.cs:83-85 | comparing upper-cased names is exactly comparing names with case ignored, in both directions |
| Casing.UpperIdempotent | ADOMore.MonoTouch/Reflector.cs:74 | upper-casing an upper-cased name changes nothing |
| ClrTypes.ResolveSettableType | ADOMore.MonoTouch/ReflectionExtensions.cs:16-24 | `Nullable<U>` resolves to `U`; any other type resolves to itself; a valid type resolves to a non-nullable type |
| ClrTypes.ResolveIdempotent | ADOMore.MonoTouch/ReflectionExtensions.cs:16-24 | resolving twice is resolving once, because a Nullable never wraps a Nullable |
| ClrTypes.IncludeInDbReflection | ADOMore.MonoTouch/ReflectionExtensions.cs:11-14 | a type is mapped iff it is a value type (primitive, enum, struct, Nullable) or `string`; no other reference type is; the primitive-and-IConvertible disjunct adds nothing |
| ClrTypes.NullableUnderlyingMappable | ADOMore.MonoTouch/ReflectionExtensions.cs:11-21 | the resolved type of any `Nullable<U>` is mapped |
| ClrTypes.MappableIgnoresNullable | ADOMore.MonoTouch/ReflectionExtensions.cs:11-24 | unwrapping Nullable never changes whether a valid declared type is mapped |
| Reflectors.NewReflector | ADOMore.MonoTouch/Reflector.cs:14-17 | a new Reflector has an empty property cache and has not scanned the type |
| Reflectors.TypeProperties | ADOMore.MonoTouch/Reflector.cs:21-33 | every read returns the type's properties in `GetProperties()` order; the first read fills the cache; later reads leave the Reflector unchanged |
| Reflectors.ScannedAtMostOnce | ADOMore.MonoTouch/Reflector.cs:25-31 | after any positive number of reads the Reflector holds the cached properties with exactly one scan, whatever state it started in; every read returns the same sequence |
| Materialization.FieldDictionary | ADOMore.MonoTouch/Reflector.cs:70-75 | building the name-to-ordinal dictionary succeeds iff no two column names are equal once upper-cased; on success it maps each upper-cased name to its ordinal and holds nothing else; otherwise it fails with DuplicateKey for the first repeated name |
| Materialization.Slot | ADOMore.MonoTouch/Reflector.cs:79-99 | a property that is unwritable, unmapped or unmatched keeps its default; a matched null or DBNull keeps the default; otherwise it gets `Coerce` of the matched column (`Enum.ToObject` when the resolved type is an enum, `Convert.ChangeType` otherwise), or the call fails with ConversionFailed |
| Materialization.ToModel | ADOMore.MonoTouch/Reflector.cs:62-105 | fails without a parameterless constructor, then on a null record, then with DuplicateKey on colliding columns even if no property matches them; otherwise succeeds iff every matched non-null value converts; every property not writable, not mapped, unmatched or null-valued keeps its default; a matched non-null value is converted and assigned |
| Materialization.ToModelAsWritten | ADOMore.MonoTouch/Reflector.cs:68-98 | for a reference-type T it is ToModel; for a value-type T it fails exactly when ToModel fails and with ToModel's error, and otherwise returns the default instance unchanged |
| Materialization.ValueTypeAssignmentsLost | ADOMore.MonoTouch/Reflector.cs:93-97 | for a struct with property Id and a record with column ID = 5, the code as written yields Id = 0 where the corrected ToModel yields 5 |
| Materialization.DuplicateColumnsFailUnmatched | ADOMore.MonoTouch/Reflector.cs:72-75 | columns "id" and "Id" fail with DuplicateKey("ID") even though the only property is Name |
| Materialization.ToCollection | ADOMore.MonoTouch/Reflector.cs:40-55 | a null reader fails with ArgumentNull("dataReader"); otherwise one instance per row, in row order, each what the corrected ToModel makes of that row; if a row fails, the call fails with the first failing row's error |
| Materialization.ToCollectionAsWritten | ADOMore.MonoTouch/Reflector.cs:40-55 | the collection as written: a null reader fails with ArgumentNull("dataReader"); otherwise one as-written ToModel result per row, in row order; it succeeds exactly when the corrected ToCollection does; when it fails, it fails with the same error (the first failing row's); for a value-type T every element is the default instance |
| Materialization.CollectionAsWrittenForClasses | ADOMore.MonoTouch/Reflector.cs:49-52 | for a reference-type T the collection as written equals the corrected one, errors included |
| Materialization.CollectionFailsOnCollidingRow | ADOMore.MonoTouch/Reflector.cs:49-52 | a reader with any row whose column names collide makes ToCollection fail |
| Commands.MappableIndices | ADOMore.MonoTouch/Reflector.cs:169-174 | exactly the positions of the mapped properties, strictly increasing; writability plays no part |
| Commands.BindValue | ADOMore.MonoTouch/Reflector.cs:177-182 | a bound value is never null: null becomes DBNull and every other value is bound unchanged |
| Commands.ParameterFor | ADOMore.MonoTouch/Reflector.cs:175-184 | a property's parameter is built iff it has a getter, named `@` + its name and holding its bound value; without a getter the call fails with GetMethodNotFound |
| Commands.CreateCommand | ADOMore.MonoTouch/Reflector.cs:141-189 | fails with ArgumentNull for connection, then model, then null or empty sql; otherwise succeeds iff every mapped property is readable; the command has text sql and the given type; it takes the transaction only if one is given, and otherwise keeps what the connection gave it; its parameters are one `@Name` per mapped property in property order, with a null value bound as DBNull |
| Commands.CreateCommandOfType | ADOMore.MonoTouch/Reflector.cs:127-130 | the four-argument overload is the five-argument one without a transaction |
| Commands.CreateTextCommand | ADOMore.MonoTouch/Reflector.cs:114-117 | the three-argument overload builds a Text command without a transaction |
| Commands.ThreeParameterExample | ADOMore.MonoTouch/Reflector.cs:169-186 | Id = 1, Name = "Ann", Age: int? = null gives parameters @Id = 1, @Name = "Ann", @Age = DBNull |
| RoundTrip.CommandRoundTrip | ADOMore.MonoTouch/Reflector.cs:62-186 | if mapped property names are distinct up to case and conversion keeps a property's own values, then storing a command's parameters as a row and reading it back with the corrected ToModel succeeds. Each writable mapped property gets its value back unless that value was null; every other property keeps the fresh default |
| RoundTrip.CommandRoundTripAsWritten | ADOMore.MonoTouch/Reflector.cs:62-186 | the same round trip through ToModel as written: for a class T each writable mapped non-null value comes back; for a struct T every property keeps its fresh default |

## Left out

- DataExtensions.cs is not part of this model. Its methods only construct a
  Reflector and delegate to it. Its `ToModel(reader, readFirst)` calls a
  Reflector overload that does not exist.
- Reflection (`GetProperties`, `SetValue`, `GetValue`, `Activator`) is given
  as data: the property descriptors, and the instance a parameterless
  constructor yields. Setters and getters are taken to store and return
  values without side effects. Indexed properties, whose `GetValue(model, null)`
  throws, are not modelled.
- The parameterless constructor: `Activator.CreateInstance<T>()` runs on every
  ToModel call, so once per row in ToCollection. The model takes one fixed
  `defaultInstance` for `T`. This means the constructor is assumed to be
  deterministic: one that reads the clock, a counter or a new Guid would give
  each row a different default. The constructor is also assumed not to
  throw: a throwing one raises `TargetInvocationException`, which has no
  case in `Error`. Only a missing parameterless constructor is modelled.
- Static properties: `GetProperties()` also returns public static properties,
  whose value is shared by all instances. The model gives every property,
  static or not, its own slot in each instance. So it does not show a static
  property ending up with the last row's value after ToCollection, nor
  CreateCommand reading that shared value.
- `Enum.ToObject` and `Convert.ChangeType` are parameters (`Conversions`).
  They return None where the real call would throw.
- Casing.ToUpperInvariant: maps only the ASCII letters, not the full Unicode
  case tables of the invariant culture.
- ClrTypes.IncludeInDbReflection: pointer and by-ref types are not in `ClrType`.
  Which non-primitive structs implement IConvertible is reduced to decimal
  and DateTime, which only matters inside a disjunct the contract shows to
  be redundant.
- The ADO.NET provider is not modelled: `CreateCommand()`, `CreateParameter()`,
  `Read()` and execution. A connection records only the transaction a new
  command starts with. A reader is its sequence of rows, and it is neither
  closed nor disposed.
- Materialization.ToModel, Materialization.ToCollection and Commands.CreateCommand
  read `TypeProperties` but do not hand back the Reflector with its cache
  filled. By the contract of `TypeProperties`, the cache never changes what
  a read returns.
- The lock-free lazy cache is not modelled under concurrent use.

## Findings

| source | as written | input that shows it | evidently intended | confidence | as-written member | corrected member |
|---|---|---|---|---|---|---|
| ADOMore.MonoTouch/Reflector.cs:93-97 | `property.SetValue(model, …)` boxes `model`. For a value type `T`, each assignment goes to a temporary copy, so ToModel returns the default instance with no column applied. | `T` a struct with a writable `int Id`, and a record with column `ID` = 5 | the matched property holds the converted column value, as it does for a class | high for the C# boxing semantics; medium that structs are meant as `T`; not executed | Materialization.ToModelAsWritten | Materialization.ToModel |

The same applies to the callers of ToModel. Materialization.ToCollectionAsWritten and
RoundTrip.CommandRoundTripAsWritten give their as-written behaviour. Materialization.ToCollection
and RoundTrip.CommandRoundTrip give the corrected behaviour. The two agree for every class T.
