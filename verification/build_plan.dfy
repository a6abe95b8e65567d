/** Build plans: choosing a public constructor of a concrete type, resolving
    each of its parameters and each flagged setter through SourceFor, and
    judging the plan's validity. Reflection is replaced by a type table. */
module BuildPlans {
  import opened Results
  import opened Types
  import opened Coercion
  import opened ConcreteTypes

  /** A constructor parameter or a setter property: its name and type. */
  datatype Member = Member(name: string, memberType: TypeDesc)

  datatype Ctor = Ctor(isPublic: bool, parameters: seq<Member>)

  /** What reflection reports about a concrete type: its full name, its
      constructors in the order the selection policy prefers them, and the
      setter properties flagged for injection. */
  datatype TypeInfo = TypeInfo(fullName: string, ctors: seq<Ctor>, setters: seq<Member>)

  /** Values supplied for members, keyed by parameter or property name. */
  type Dependencies = map<string, Value>

  datatype ConstructorStep = ConstructorStep(ctor: Ctor, arguments: seq<DependencySource>)

  datatype BuildPlan = BuildPlan(concreteType: string, ctorStep: ConstructorStep, setterSources: seq<DependencySource>)

  datatype ConfigurationError = NoPublicConstructor(typeName: string)

  function ErrorMessage(e: ConfigurationError): string {
    "No public constructor could be selected for concrete type " + e.typeName
  }

  /** The value supplied for `name`, or `Null` when none was. */
  function Lookup(deps: Dependencies, name: string): (r: Value)
    ensures name in deps ==> r == deps[name]
    ensures name !in deps ==> r.Null?
  {
    if name in deps then deps[name] else Null
  }

  /** The first public constructor at or after index `from`. */
  function FirstPublic(ctors: seq<Ctor>, from: nat): (r: Option<nat>)
    requires from <= |ctors|
    ensures r.Some? ==> from <= r.value < |ctors| && ctors[r.value].isPublic
    ensures r.Some? ==> forall j :: from <= j < r.value ==> !ctors[j].isPublic
    ensures r.None? ==> forall j :: from <= j < |ctors| ==> !ctors[j].isPublic
    decreases |ctors| - from
  {
    if from == |ctors| then None
    else if ctors[from].isPublic then Some(from)
    else FirstPublic(ctors, from + 1)
  }

  /** The source of every member in `ms`, in order, each looked up by name. */
  function SourcesFor(kind: MemberKind, ms: seq<Member>, deps: Dependencies): (r: seq<DependencySource>)
    ensures |r| == |ms|
    ensures forall i :: 0 <= i < |ms| ==>
      r[i] == SourceFor(kind, ms[i].name, ms[i].memberType, Lookup(deps, ms[i].name))
  {
    seq(|ms|, i requires 0 <= i < |ms| => SourceFor(kind, ms[i].name, ms[i].memberType, Lookup(deps, ms[i].name)))
  }

  /** The constructor step: the selected public constructor with a source per
      parameter; a type without a public constructor is a configuration error
      naming the type. */
  function BuildConstructorStep(ti: TypeInfo, deps: Dependencies): (r: Result<ConstructorStep, ConfigurationError>)
    ensures r.Err? <==> forall j :: 0 <= j < |ti.ctors| ==> !ti.ctors[j].isPublic
    ensures r.Err? ==> r.error == NoPublicConstructor(ti.fullName)
    ensures r.Ok? ==> r.value.ctor in ti.ctors && r.value.ctor.isPublic
    ensures r.Ok? ==> |r.value.arguments| == |r.value.ctor.parameters|
    ensures r.Ok? ==> forall i :: 0 <= i < |r.value.arguments| ==>
      var p := r.value.ctor.parameters[i];
      r.value.arguments[i] == SourceFor(ConstructorArgument, p.name, p.memberType, Lookup(deps, p.name))
  {
    match FirstPublic(ti.ctors, 0)
    case None => Err(NoPublicConstructor(ti.fullName))
    case Some(k) =>
      var c := ti.ctors[k];
      Ok(ConstructorStep(c, SourcesFor(ConstructorArgument, c.parameters, deps)))
  }

  /** The full build plan: the constructor step plus a source per flagged setter. */
  function BuildSource(ti: TypeInfo, deps: Dependencies): (r: Result<BuildPlan, ConfigurationError>)
    ensures r.Err? <==> BuildConstructorStep(ti, deps).Err?
    ensures r.Err? ==> r.error == NoPublicConstructor(ti.fullName)
    ensures r.Ok? ==> r.value.concreteType == ti.fullName
    ensures r.Ok? ==> r.value.ctorStep == BuildConstructorStep(ti, deps).value
    ensures r.Ok? ==> |r.value.setterSources| == |ti.setters|
    ensures r.Ok? ==> forall i :: 0 <= i < |ti.setters| ==>
      r.value.setterSources[i]
        == SourceFor(SetterProperty, ti.setters[i].name, ti.setters[i].memberType, Lookup(deps, ti.setters[i].name))
  {
    match BuildConstructorStep(ti, deps)
    case Err(e) => Err(e)
    case Ok(step) => Ok(BuildPlan(ti.fullName, step, SourcesFor(SetterProperty, ti.setters, deps)))
  }

  predicate NoProblems(sources: seq<DependencySource>) {
    forall i :: 0 <= i < |sources| ==> !sources[i].DependencyProblem?
  }

  /** A plan is valid when no constructor argument and no setter is a problem. */
  predicate IsValid(plan: BuildPlan)
    ensures IsValid(plan) <==>
      forall s :: s in plan.ctorStep.arguments + plan.setterSources ==> !s.DependencyProblem?
  {
    NoProblems(plan.ctorStep.arguments) && NoProblems(plan.setterSources)
  }

  /** Every member of `ms` can be satisfied from `deps`. */
  predicate MembersResolvable(ms: seq<Member>, deps: Dependencies) {
    forall i :: 0 <= i < |ms| ==> Resolvable(ms[i].memberType, Lookup(deps, ms[i].name))
  }

  /** A plan is valid exactly when every parameter of the selected
      constructor and every flagged setter can be satisfied from what was
      supplied under its name. */
  lemma IsValidIffAllResolvable(ti: TypeInfo, deps: Dependencies)
    requires BuildSource(ti, deps).Ok?
    ensures var plan := BuildSource(ti, deps).value;
      IsValid(plan) <==>
        (MembersResolvable(plan.ctorStep.ctor.parameters, deps) && MembersResolvable(ti.setters, deps))
  {
  }

  predicate AllSimple(ms: seq<Member>) {
    forall i :: 0 <= i < |ms| ==> IsSimple(ms[i].memberType)
  }

  /** Every member of `ms` has a non-null value supplied under its name, and
      that value coerces to the member's type. */
  predicate AllSupplied(ms: seq<Member>, deps: Dependencies) {
    forall i :: 0 <= i < |ms| ==>
      ms[i].name in deps && !deps[ms[i].name].Null? && Coerce(deps[ms[i].name], ms[i].memberType).Some?
  }

  /** No supplied value is an instance descriptor. */
  predicate PlainValues(deps: Dependencies) {
    forall n :: n in deps ==> !deps[n].InstanceVal?
  }

  /** For simple-typed members given plain values, being resolvable is
      exactly having a supplied value of (or convertible to) the right type. */
  lemma SimpleResolvableIffSupplied(ms: seq<Member>, deps: Dependencies)
    requires AllSimple(ms) && PlainValues(deps)
    ensures MembersResolvable(ms, deps) <==> AllSupplied(ms, deps)
  {
  }

  /** A type whose selected constructor and flagged setters are all simple,
      given plain values: its plan is valid exactly when every one of those
      members has a value supplied under its name. */
  lemma SimpleTypeValidIffAllSupplied(ti: TypeInfo, deps: Dependencies)
    requires BuildSource(ti, deps).Ok?
    requires AllSimple(BuildSource(ti, deps).value.ctorStep.ctor.parameters) && AllSimple(ti.setters)
    requires PlainValues(deps)
    ensures var plan := BuildSource(ti, deps).value;
      IsValid(plan) <==>
        (AllSupplied(plan.ctorStep.ctor.parameters, deps) && AllSupplied(ti.setters, deps))
  {
  }

  /** Omitting the value of any one simple-typed parameter or flagged setter
      makes the plan invalid. */
  lemma OmittedSimpleMemberInvalid(ti: TypeInfo, deps: Dependencies, m: Member)
    requires BuildSource(ti, deps).Ok?
    requires m in BuildSource(ti, deps).value.ctorStep.ctor.parameters || m in ti.setters
    requires IsSimple(m.memberType) && m.name !in deps
    ensures !IsValid(BuildSource(ti, deps).value)
  {
  }
}
