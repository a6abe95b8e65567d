/** The data the resolution engine works on: type descriptors in place of
    reflection, loosely typed supplied values, and the closed family of
    dependency sources a resolution can produce. */
module Types {
  import opened Results

  /** An enum type: its full name and its member names in declaration order. */
  datatype EnumDesc = EnumDesc(fullName: string, members: seq<string>)

  /** The statically required type of a constructor parameter or setter. */
  datatype TypeDesc =
    | StringType
    | IntType
    | BoolType
    | EnumType(desc: EnumDesc)
      /** An interface or class, by full name. */
    | ObjectType(fullName: string)
    | ArrayOf(elem: TypeDesc)
    | IEnumerableOf(elem: TypeDesc)
    | IListOf(elem: TypeDesc)
    | ListOf(elem: TypeDesc)

  /** Which kind of member a dependency is resolved for; carried into every problem. */
  datatype MemberKind = ConstructorArgument | SetterProperty

  /** A value a caller may supply for a member. `Obj` is an opaque object of
      class `className` that also implements the interfaces named in
      `implements`; `InstanceVal` is a build-time instance descriptor that
      already knows its own dependency source. */
  datatype Value =
    | Null
    | Str(text: string)
    | IntVal(i: int)
    | BoolVal(b: bool)
    | EnumVal(enumDesc: EnumDesc, member: string)
    | Obj(className: string, implements: set<string>)
    | ArrayVal(elemType: TypeDesc, items: seq<Value>)
    | ListVal(elemType: TypeDesc, items: seq<Value>)
    | InstanceVal(source: DependencySource)

  /** The structured reason of a dependency problem; rendering it to text is left to callers. */
  datatype ProblemMessage =
    | MissingPrimitive
    | CastingError(value: Value, sourceType: TypeDesc, targetType: TypeDesc)
    | UnableToDetermineDependency(targetType: TypeDesc, value: Value)

  /** Where the value of one member comes from at build time. */
  datatype DependencySource =
    | Constant(returnedType: TypeDesc, value: Value)
    | DefaultDependencySource(dependencyType: TypeDesc)
    | LifecycleDependencySource(dependencyType: TypeDesc, instanceName: string)
    | AllPossibleValuesDependencySource(enumerableType: TypeDesc)
    | DependencyProblem(name: string, kind: MemberKind, returnedType: TypeDesc, message: ProblemMessage)

  /** The one message text whose exact wording is part of the contract. */
  const MissingPrimitiveWarning: string := "Required primitive dependency is not explicitly defined"

  /** The fixed text of a message, for the kinds whose wording is fixed;
      the other kinds are formatted from their data by callers. */
  function FixedText(m: ProblemMessage): (r: Option<string>)
    ensures m.MissingPrimitive? <==> r == Some(MissingPrimitiveWarning)
    ensures !m.MissingPrimitive? ==> r.None?
  {
    if m.MissingPrimitive? then Some(MissingPrimitiveWarning) else None
  }

  /** Primitive, string and enum types: these are never built by the container. */
  predicate IsSimple(t: TypeDesc)
    ensures IsSimple(t) ==> !IsEnumerable(t) && !t.ObjectType?
  {
    t.StringType? || t.IntType? || t.BoolType? || t.EnumType?
  }

  /** Collection shapes the container can fill with every registered implementation. */
  predicate IsEnumerable(t: TypeDesc)
    ensures IsEnumerable(t) ==> !IsValueType(t) && !t.ObjectType?
  {
    t.ArrayOf? || t.IEnumerableOf? || t.IListOf? || t.ListOf?
  }

  /** Value types, which cannot hold null. */
  predicate IsValueType(t: TypeDesc) {
    t.IntType? || t.BoolType? || t.EnumType?
  }

  /** The root class every plain value converts to. */
  const SystemObject: string := "System.Object"

  /** True when a non-null value can be used where `t` is required without any
      conversion. Every plain value is an `object`; arrays implement
      IEnumerable<T> and IList<T>; a List<T> implements IEnumerable<T> and
      IList<T>. */
  predicate Assignable(v: Value, t: TypeDesc)
    ensures Assignable(v, t) ==> !v.Null? && !v.InstanceVal?
    ensures !v.Null? && !v.InstanceVal? && t == ObjectType(SystemObject) ==> Assignable(v, t)
  {
    if t == ObjectType(SystemObject) then !v.Null? && !v.InstanceVal?
    else match v
    case Null => false
    case Str(_) => t == StringType
    case IntVal(_) => t == IntType
    case BoolVal(_) => t == BoolType
    case EnumVal(e, _) => t == EnumType(e)
    case Obj(c, impl) => t.ObjectType? && (t.fullName == c || t.fullName in impl)
    case ArrayVal(e, _) => t == ArrayOf(e) || t == IEnumerableOf(e) || t == IListOf(e)
    case ListVal(e, _) => t == ListOf(e) || t == IEnumerableOf(e) || t == IListOf(e)
    case InstanceVal(_) => false
  }

  /** The run-time type of a plain (non-null, non-instance) value. */
  function RuntimeType(v: Value): (t: TypeDesc)
    requires !v.Null? && !v.InstanceVal?
    ensures Assignable(v, t)
    ensures v.Str? ==> t == StringType
    ensures v.IntVal? ==> t == IntType
    ensures v.BoolVal? ==> t == BoolType
    ensures v.EnumVal? ==> t == EnumType(v.enumDesc)
    ensures v.Obj? ==> t == ObjectType(v.className)
    ensures v.ArrayVal? ==> t == ArrayOf(v.elemType)
    ensures v.ListVal? ==> t == ListOf(v.elemType)
  {
    match v
    case Str(_) => StringType
    case IntVal(_) => IntType
    case BoolVal(_) => BoolType
    case EnumVal(e, _) => EnumType(e)
    case Obj(c, _) => ObjectType(c)
    case ArrayVal(e, _) => ArrayOf(e)
    case ListVal(e, _) => ListOf(e)
  }
}
