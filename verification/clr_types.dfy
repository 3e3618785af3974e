/** The two type-classification helpers of ReflectionExtensions, over a
    descriptor of the CLR types a property can be declared with. */
module ClrTypes {

  /** The types for which Type.IsPrimitive holds. */
  datatype PrimitiveKind =
    | Boolean | Byte | SByte | Int16 | UInt16 | Int32 | UInt32 | Int64 | UInt64
    | IntPtr | UIntPtr | Char | Double | Single

  datatype ClrType =
    | Primitive(kind: PrimitiveKind)
    | Enum(name: string)
    | Struct(name: string)              // every other non-nullable value type: decimal, DateTime, user structs
    | NullableOf(underlying: ClrType)   // a closed Nullable<U>
    | SystemString
    | Reference(name: string)           // every other reference type

  /** The CLR only lets a non-nullable value type instantiate Nullable<U>. */
  predicate ValidType(t: ClrType) {
    match t
    case NullableOf(u) => u.Primitive? || u.Enum? || u.Struct?
    case _ => true
  }

  predicate IsValueType(t: ClrType) {
    t.Primitive? || t.Enum? || t.Struct? || t.NullableOf?
  }

  /** typeof(IConvertible).IsAssignableFrom(t). Every primitive but the two
      pointer-sized integers implements IConvertible. */
  predicate IsConvertible(t: ClrType) {
    match t
    case Primitive(k) => k != IntPtr && k != UIntPtr
    case Enum(_) => true
    case Struct(name) => name == "System.Decimal" || name == "System.DateTime"
    case NullableOf(_) => false
    case SystemString => true
    case Reference(_) => false
  }

  /** ResolveSettableType: unwraps one level of Nullable<U>. */
  function ResolveSettableType(t: ClrType): (r: ClrType)
    ensures t.NullableOf? ==> t == NullableOf(r)
    ensures !t.NullableOf? ==> r == t
    ensures ValidType(t) ==> ValidType(r) && !r.NullableOf?
  {
    if t.NullableOf? then t.underlying else t
  }

  /** IncludeInDbReflection: whether a (resolved) property type takes part in mapping.
      The primitive-and-convertible disjunct is subsumed: primitives are value types. */
  function IncludeInDbReflection(t: ClrType): (r: bool)
    ensures r <==> IsValueType(t) || t == SystemString
    ensures t.Reference? ==> !r
  {
    (t.Primitive? && IsConvertible(t)) || IsValueType(t) || t == SystemString
  }

  /** A property takes part in mapping when its resolved type does. */
  predicate Mappable(declared: ClrType) {
    IncludeInDbReflection(ResolveSettableType(declared))
  }

  /** Resolving an already resolved type changes nothing. */
  lemma ResolveIdempotent(t: ClrType)
    requires ValidType(t)
    ensures ResolveSettableType(ResolveSettableType(t)) == ResolveSettableType(t)
  {
  }

  /** The type under any Nullable<U> is mappable. */
  lemma NullableUnderlyingMappable(t: ClrType)
    requires ValidType(t) && t.NullableOf?
    ensures IncludeInDbReflection(ResolveSettableType(t))
  {
  }

  /** Unwrapping Nullable never changes whether a declared type is mapped. */
  lemma MappableIgnoresNullable(t: ClrType)
    requires ValidType(t)
    ensures Mappable(t) <==> IncludeInDbReflection(t)
  {
  }
}
