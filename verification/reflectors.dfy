/** The target type T as reflection sees it, and the Reflector<T> instance
    with its lazily filled property list. */
module Reflectors {
  import opened Results
  import opened ClrTypes
  import opened Ado

  /** A PropertyInfo: its name, declared type, and whether it has a getter and a setter. */
  datatype Property = Property(name: string, propertyType: ClrType, canRead: bool, canWrite: bool)

  /** An instance of T: one value per property, in property order. */
  type Instance = seq<Value>

  /** T: the properties GetProperties() returns, in order; whether T is a value type;
      and what Activator.CreateInstance<T>() yields (None when T has no parameterless constructor). */
  datatype TargetType = TargetType(
    properties: seq<Property>,
    isValueType: bool,
    defaultInstance: Option<Instance>)

  predicate Valid(t: TargetType) {
    && (t.defaultInstance.Some? ==> |t.defaultInstance.value| == |t.properties|)
    && (t.isValueType ==> t.defaultInstance.Some?)
    && forall i :: 0 <= i < |t.properties| ==> ValidType(t.properties[i].propertyType)
  }

  /** A Reflector<T>: the type it reflects over, its private typeProperties field,
      and how many times it has called GetProperties(). */
  datatype Reflector = Reflector(
    target: TargetType,
    typeProperties: Option<seq<Property>>,
    scans: nat)

  function NewReflector(t: TargetType): (r: Reflector)
    ensures Consistent(r) && r.target == t && r.scans == 0
  {
    Reflector(t, None, 0)
  }

  /** The private field is only ever filled from GetProperties(), by one scan. */
  predicate Consistent(r: Reflector) {
    match r.typeProperties
    case None => r.scans == 0
    case Some(ps) => ps == r.target.properties && r.scans == 1
  }

  /** The TypeProperties getter: fills the field on the first read only. */
  function TypeProperties(r: Reflector): (out: (seq<Property>, Reflector))
    requires Consistent(r)
    ensures out.0 == r.target.properties
    ensures Consistent(out.1) && out.1.target == r.target
    ensures out.1.typeProperties == Some(out.0) && out.1.scans == 1
    ensures r.typeProperties.Some? ==> out.1 == r
  {
    match r.typeProperties
    case Some(ps) => (ps, r)
    case None =>
      var ps := r.target.properties;
      (ps, r.(typeProperties := Some(ps), scans := r.scans + 1))
  }

  /** Reads the property list n times in a row, returning every read and the final state. */
  function ReadRepeatedly(r: Reflector, n: nat): (out: (seq<seq<Property>>, Reflector))
    requires Consistent(r)
    ensures |out.0| == n
    ensures Consistent(out.1)
    decreases n
  {
    if n == 0 then ([], r)
    else
      var (ps, r1) := TypeProperties(r);
      var (rest, r2) := ReadRepeatedly(r1, n - 1);
      ([ps] + rest, r2)
  }

  /** However often it is read, GetProperties() runs once: after n > 0 reads the
      Reflector is exactly the one the first read left, whatever state it started
      in, and every read returns the same sequence. The content is the cached
      branch of TypeProperties, which leaves the Reflector unchanged. */
  lemma {:induction false} ScannedAtMostOnce(r: Reflector, n: nat)
    requires Consistent(r)
    ensures n > 0 ==>
      ReadRepeatedly(r, n).1 == r.(typeProperties := Some(r.target.properties), scans := 1)
    ensures forall i :: 0 <= i < n ==> ReadRepeatedly(r, n).0[i] == r.target.properties
    decreases n
  {
    if n > 0 {
      var (ps, r1) := TypeProperties(r);
      ScannedAtMostOnce(r1, n - 1);
      assert r1.target == r.target;
    }
  }
}
