/** The per-member decision of where a dependency comes from. */
module ConcreteTypes {
  import opened Results
  import opened Types
  import opened Parsing
  import opened Coercion

  /** The dependency source for one member of kind `kind`, named `name`,
      requiring type `t`, given the supplied value `v` (`Null` when nothing
      was supplied). Pure and total; exactly one source per call. */
  function SourceFor(kind: MemberKind, name: string, t: TypeDesc, v: Value): (r: DependencySource)
    ensures !v.InstanceVal? && r.DependencyProblem? ==> r.name == name && r.kind == kind && r.returnedType == t
    ensures !v.InstanceVal? && r.Constant? ==> r.returnedType == t && Assignable(r.value, t)
    ensures !v.InstanceVal? ==> !r.LifecycleDependencySource?
    ensures !v.InstanceVal? && r.DefaultDependencySource? ==> v.Null? && r.dependencyType == t
    ensures !v.InstanceVal? && r.AllPossibleValuesDependencySource? ==> v.Null? && r.enumerableType == t
  {
    if v.Null? then
      if IsSimple(t) then DependencyProblem(name, kind, t, MissingPrimitive)
      else if IsEnumerable(t) then AllPossibleValuesDependencySource(t)
      else DefaultDependencySource(t)
    else if v.InstanceVal? then v.source
    else if Assignable(v, t) then Constant(t, v)
    else if IsSimple(t) then
      match ConvertSimple(v, t)
      case Some(c) => Constant(t, c)
      case None => DependencyProblem(name, kind, t, CastingError(v, RuntimeType(v), t))
    else if IsEnumerable(t) then
      match Reshape(v, t)
      case Some(c) => Constant(t, c)
      case None => DependencyProblem(name, kind, t, UnableToDetermineDependency(t, v))
    else DependencyProblem(name, kind, t, UnableToDetermineDependency(t, v))
  }

  /** A supplied value (or its absence) from which `t` can be satisfied:
      nothing supplied for a type the container can build or collect, an
      instance whose own source is sound, or a value that coerces to `t`. */
  predicate Resolvable(t: TypeDesc, v: Value) {
    if v.Null? then !IsSimple(t)
    else if v.InstanceVal? then !v.source.DependencyProblem?
    else Coerce(v, t).Some?
  }

  /** SourceFor reports a problem exactly when the value cannot satisfy the type. */
  lemma ProblemIffUnresolvable(kind: MemberKind, name: string, t: TypeDesc, v: Value)
    ensures SourceFor(kind, name, t, v).DependencyProblem? <==> !Resolvable(t, v)
  {
  }

  /** For a plain value, SourceFor is a constant exactly when coercion
      succeeds, and the constant holds the coerced value typed at `t`. */
  lemma ConstantIffCoerces(kind: MemberKind, name: string, t: TypeDesc, v: Value)
    requires !v.Null? && !v.InstanceVal?
    ensures SourceFor(kind, name, t, v).Constant? <==> Coerce(v, t).Some?
    ensures Coerce(v, t).Some? ==> SourceFor(kind, name, t, v) == Constant(t, Coerce(v, t).value)
  {
  }

  /** Nothing supplied for a buildable, non-collection type defers to the
      registry default of exactly that type. */
  lemma NullNonSimpleIsDefault(kind: MemberKind, name: string, t: TypeDesc)
    requires !IsSimple(t) && !IsEnumerable(t)
    ensures SourceFor(kind, name, t, Null) == DefaultDependencySource(t)
  {
  }

  /** An instance descriptor is passed through: its own source is the answer,
      whatever the member's type. */
  lemma InstancePassesThrough(kind: MemberKind, name: string, t: TypeDesc, src: DependencySource)
    ensures SourceFor(kind, name, t, InstanceVal(src)) == src
  {
  }

  /** A value already of the required type becomes a constant of that same
      value, typed at the required type. */
  lemma AssignableIsConstant(kind: MemberKind, name: string, t: TypeDesc, v: Value)
    requires !v.InstanceVal? && Assignable(v, t)
    ensures SourceFor(kind, name, t, v) == Constant(t, v)
  {
  }

  /** Decimal text for an int member becomes the integer constant. */
  lemma IntTextIsConstant(kind: MemberKind, name: string, n: int)
    requires InInt32Range(n)
    ensures SourceFor(kind, name, IntType, Str(FormatInt(n))) == Constant(IntType, IntVal(n))
  {
  }

  /** Text that does not parse as a 32-bit integer (no signed digit run, or
      out of range), for an int member, is a casting problem naming the text,
      its type (string) and the target (int). */
  lemma UnparsableTextIsCastingError(kind: MemberKind, name: string, s: string)
    requires ParseInt(s).None?
    ensures SourceFor(kind, name, IntType, Str(s))
         == DependencyProblem(name, kind, IntType, CastingError(Str(s), StringType, IntType))
  {
  }

  /** In particular, text containing a non-digit and not starting with a sign. */
  lemma NonNumericTextIsCastingError(kind: MemberKind, name: string, s: string)
    requires !AllDigits(s) && (|s| == 0 || (s[0] != '-' && s[0] != '+'))
    ensures SourceFor(kind, name, IntType, Str(s))
         == DependencyProblem(name, kind, IntType, CastingError(Str(s), StringType, IntType))
  {
  }

  /** Text for an enum member is the enum constant when it names a member and
      a casting problem otherwise. */
  lemma EnumTextResolution(kind: MemberKind, name: string, e: EnumDesc, s: string)
    ensures s in e.members ==>
      SourceFor(kind, name, EnumType(e), Str(s)) == Constant(EnumType(e), EnumVal(e, s))
    ensures s !in e.members ==>
      SourceFor(kind, name, EnumType(e), Str(s))
        == DependencyProblem(name, kind, EnumType(e), CastingError(Str(s), StringType, EnumType(e)))
  {
  }

  /** Sequences are reshaped in both directions: an array given for List<T>
      becomes a list, an array given for IList<T> is used as it is, and a list
      given for T[] becomes an array; each constant is typed at the target
      and holds the same elements in the same order. */
  lemma CollectionReshaping(kind: MemberKind, name: string, e: TypeDesc, xs: seq<Value>)
    requires AllFit(xs, e)
    ensures SourceFor(kind, name, ListOf(e), ArrayVal(e, xs)) == Constant(ListOf(e), ListVal(e, xs))
    ensures SourceFor(kind, name, IListOf(e), ArrayVal(e, xs)) == Constant(IListOf(e), ArrayVal(e, xs))
    ensures SourceFor(kind, name, ArrayOf(e), ListVal(e, xs)) == Constant(ArrayOf(e), ArrayVal(e, xs))
  {
  }

  /** Nothing supplied for any collection shape collects all registered
      implementations, even though such types are not simple. */
  lemma NullCollectionIsAllPossible(kind: MemberKind, name: string, t: TypeDesc)
    requires IsEnumerable(t)
    ensures SourceFor(kind, name, t, Null) == AllPossibleValuesDependencySource(t)
  {
  }

  /** Nothing supplied for a simple type (string included) is the
      missing-primitive problem, carrying member name, kind and type. */
  lemma NullSimpleIsMissingPrimitive(kind: MemberKind, name: string, t: TypeDesc)
    requires IsSimple(t)
    ensures SourceFor(kind, name, t, Null) == DependencyProblem(name, kind, t, MissingPrimitive)
    ensures FixedText(SourceFor(kind, name, t, Null).message)
         == Some("Required primitive dependency is not explicitly defined")
  {
  }

  /** A plain value of the wrong type for an interface or class member is the
      unable-to-determine problem, naming the target type and the value. */
  lemma MismatchIsUnableToDetermine(kind: MemberKind, name: string, t: TypeDesc, v: Value)
    requires t.ObjectType? && !v.Null? && !v.InstanceVal? && !Assignable(v, t)
    ensures SourceFor(kind, name, t, v)
         == DependencyProblem(name, kind, t, UnableToDetermineDependency(t, v))
  {
  }
}
