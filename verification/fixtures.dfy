/** The concrete cases the ConcreteType tests exercise, stated on the model:
    the gateway interface and its stub, the breed enum, and the three guy
    types whose build plans are checked. */
module Fixtures {
  import opened Results
  import opened Types
  import opened Parsing
  import opened Coercion
  import opened ConcreteTypes
  import opened BuildPlans

  const Gateway: TypeDesc := ObjectType("IGateway")
  const StubbedGateway: Value := Obj("StubbedGateway", {"IGateway"})
  const ColorRule: Value := Obj("ColorRule", {"Rule"})
  const Breed: EnumDesc := EnumDesc("BreedEnum", ["Angus", "Beefmaster"])

  const GuyWithPrimitives: TypeInfo :=
    TypeInfo("StructureMap.Testing.Building.GuyWithPrimitives",
      [Ctor(true, [Member("name", StringType), Member("age", IntType), Member("isAwake", BoolType)])],
      [])

  /** Only the implicit public parameterless constructor; three flagged setters. */
  const GuyWithPrimitiveSetters: TypeInfo :=
    TypeInfo("StructureMap.Testing.Building.GuyWithPrimitiveSetters",
      [Ctor(true, [])],
      [Member("Name", StringType), Member("Age", IntType), Member("IsAwake", BoolType)])

  const GuyWithNoSuitableCtor: TypeInfo :=
    TypeInfo("StructureMap.Testing.Building.GuyWithNoSuitableCtor", [Ctor(false, [])], [])

  /** Text coercions for simple targets: "42" to int, "Angus" to the breed
      enum, and "foo" to int failing with the casting problem. */
  lemma TextCoercionCases()
    ensures SourceFor(ConstructorArgument, "SomeProp", IntType, Str("42")) == Constant(IntType, IntVal(42))
    ensures SourceFor(ConstructorArgument, "SomeProp", EnumType(Breed), Str("Angus"))
         == Constant(EnumType(Breed), EnumVal(Breed, "Angus"))
    ensures SourceFor(ConstructorArgument, "SomeArg", IntType, Str("foo"))
         == DependencyProblem("SomeArg", ConstructorArgument, IntType, CastingError(Str("foo"), StringType, IntType))
  {
    assert FormatInt(42) == "42" by {
      assert Digits(42) == Digits(4) + [DigitChar(2)];
    }
    IntTextIsConstant(ConstructorArgument, "SomeProp", 42);
    assert !IsDigit("foo"[0]);
    NonNumericTextIsCastingError(ConstructorArgument, "SomeArg", "foo");
  }

  /** Supplied values already of the required type, and the two problems
      reported for a missing string and a non-gateway given for a gateway. */
  lemma ConstantAndProblemCases()
    ensures SourceFor(ConstructorArgument, "SomeProp", Gateway, StubbedGateway) == Constant(Gateway, StubbedGateway)
    ensures SourceFor(ConstructorArgument, "SomeProp", EnumType(Breed), EnumVal(Breed, "Beefmaster"))
         == Constant(EnumType(Breed), EnumVal(Breed, "Beefmaster"))
    ensures SourceFor(SetterProperty, "SomeProp", StringType, Null)
         == DependencyProblem("SomeProp", SetterProperty, StringType, MissingPrimitive)
    ensures SourceFor(SetterProperty, "SomeProp", Gateway, ColorRule)
         == DependencyProblem("SomeProp", SetterProperty, Gateway, UnableToDetermineDependency(Gateway, ColorRule))
  {
  }

  /** A type with only a private constructor has no constructor step, and the
      error message ends with the type's full name. */
  lemma NoSuitableCtorFails(deps: Dependencies)
    ensures BuildConstructorStep(GuyWithNoSuitableCtor, deps) == Err(NoPublicConstructor(GuyWithNoSuitableCtor.fullName))
    ensures var msg := ErrorMessage(NoPublicConstructor(GuyWithNoSuitableCtor.fullName));
      msg[|msg| - |GuyWithNoSuitableCtor.fullName|..] == GuyWithNoSuitableCtor.fullName
  {
  }

  /** All three constructor values supplied: valid; "isAwake" left out: invalid. */
  lemma GuyWithPrimitivesValidity()
    ensures BuildSource(GuyWithPrimitives, map["name" := Str("Jeremy"), "age" := IntVal(40), "isAwake" := BoolVal(true)]).Ok?
    ensures IsValid(BuildSource(GuyWithPrimitives, map["name" := Str("Jeremy"), "age" := IntVal(40), "isAwake" := BoolVal(true)]).value)
    ensures BuildSource(GuyWithPrimitives, map["name" := Str("Jeremy"), "age" := IntVal(40)]).Ok?
    ensures !IsValid(BuildSource(GuyWithPrimitives, map["name" := Str("Jeremy"), "age" := IntVal(40)]).value)
  {
    var happy: Dependencies := map["name" := Str("Jeremy"), "age" := IntVal(40), "isAwake" := BoolVal(true)];
    var plan := BuildSource(GuyWithPrimitives, happy).value;
    assert plan.ctorStep.arguments
        == [Constant(StringType, Str("Jeremy")), Constant(IntType, IntVal(40)), Constant(BoolType, BoolVal(true))];
    assert plan.setterSources == [];
    var sad: Dependencies := map["name" := Str("Jeremy"), "age" := IntVal(40)];
    OmittedSimpleMemberInvalid(GuyWithPrimitives, sad, Member("isAwake", BoolType));
  }

  /** All three setter values supplied: valid; "IsAwake" left out: invalid. */
  lemma GuyWithPrimitiveSettersValidity()
    ensures BuildSource(GuyWithPrimitiveSetters, map["Name" := Str("Jeremy"), "Age" := IntVal(40), "IsAwake" := BoolVal(true)]).Ok?
    ensures IsValid(BuildSource(GuyWithPrimitiveSetters, map["Name" := Str("Jeremy"), "Age" := IntVal(40), "IsAwake" := BoolVal(true)]).value)
    ensures BuildSource(GuyWithPrimitiveSetters, map["Name" := Str("Jeremy"), "Age" := IntVal(40)]).Ok?
    ensures !IsValid(BuildSource(GuyWithPrimitiveSetters, map["Name" := Str("Jeremy"), "Age" := IntVal(40)]).value)
  {
    var happy: Dependencies := map["Name" := Str("Jeremy"), "Age" := IntVal(40), "IsAwake" := BoolVal(true)];
    var plan := BuildSource(GuyWithPrimitiveSetters, happy).value;
    assert plan.ctorStep.arguments == [];
    assert plan.setterSources
        == [Constant(StringType, Str("Jeremy")), Constant(IntType, IntVal(40)), Constant(BoolType, BoolVal(true))];
    var sad: Dependencies := map["Name" := Str("Jeremy"), "Age" := IntVal(40)];
    OmittedSimpleMemberInvalid(GuyWithPrimitiveSetters, sad, Member("IsAwake", BoolType));
  }
}
