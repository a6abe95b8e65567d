# StructureMap dependency resolution, modelled in Dafny

This project models two pieces of StructureMap's dependency-resolution engine.

1. **`ConcreteType.SourceFor`** is the pure decision of where one constructor
   argument or setter property gets its value. The answer is one of:
   - a `Constant`;
   - the registry's `DefaultDependencySource`;
   - an `AllPossibleValuesDependencySource` collection;
   - the dependency source of an instance that was supplied;
   - a `DependencyProblem`.

   The model also covers the coercion this decision performs, the
   constructor step, and the build plan and its `IsValid()`. The
   implementation of `ConcreteType` is not part of this model. Its behaviour
   is taken from the assertions of `ConcreteTypeTester.cs`.
2. **`ExplicitArguments` and `ExplicitInstance`.** `ExplicitArguments` is the
   per-request bag of overrides, keyed by name and by type. The model covers
   `Configure`, `RegisterDefaults`, and `ExplicitInstance`'s constructor and
   child-lookup precedence.

Modules:

- `Types` (types.dfy): type descriptors in place of reflection, supplied
  values, and dependency sources. `Value` and `DependencySource` are
  mutually recursive, because a supplied instance carries its own source and
  a constant carries a value.
- `Parsing` (parsing.dfy): text to 32-bit integer, and text to boolean.
- `Coercion` (coercion.dfy): identity, parsing for simple types, and
  array/list reshaping.
- `ConcreteTypes` (concrete_type.dfy): `SourceFor` and its properties.
- `BuildPlans` (build_plan.dfy): constructor selection over a type table,
  `BuildConstructorStep`, `BuildSource` and `IsValid`.
- `Fixtures` (fixtures.dfy): the tester's concrete cases, replayed on the
  model.
- `ExplicitArgs` (explicit_arguments.dfy): the override bag, `Configure`,
  `RegisterDefaults`, `ExplicitInstance` and `GetChild`.
- `Results` (results.dfy): `Option` and `Result`. A `Result` error stands
  for a thrown exception.

Constructor selection does not depend on whether the parameters resolve.
The sad-path tests (ConcreteTypeTester.cs:242-253, 270-281) still build a
plan, and only `IsValid()` is false. The model selects a public constructor
and reports unresolved members through `IsValid`.

## Model

| member | source | states |
|---|---|---|
| ConcreteTypes.SourceFor | src/StructureMap.Testing/Building/ConcreteTypeTester.cs:19-214 | For a plain value, every constant is typed at the requested type and holds a value assignable to it. Every problem carries the member's name, kind and type. Default and all-possible sources arise only from a missing value and name the requested type. |
| ConcreteTypes.ProblemIffUnresolvable | src/StructureMap.Testing/Building/ConcreteTypeTester.cs:19-214 | The result is a `DependencyProblem` exactly when the value cannot satisfy the type. Cannot satisfy means one of: missing for a simple type, an instance whose own source is a problem, or a plain value that does not coerce. |
| ConcreteTypes.ConstantIffCoerces | src/StructureMap.Testing/Building/ConcreteTypeTester.cs:37-127 | A plain value gives a `Constant` exactly when coercion succeeds. The constant holds the coerced value, typed at the requested type. |
| ConcreteTypes.NullNonSimpleIsDefault | src/StructureMap.Testing/Building/ConcreteTypeTester.cs:20-25 | A missing value for a non-simple, non-collection type gives `DefaultDependencySource` of exactly that type. |
| ConcreteTypes.InstancePassesThrough | src/StructureMap.Testing/Building/ConcreteTypeTester.cs:28-35 | A supplied instance yields its own dependency source unchanged, whatever the member type. |
| ConcreteTypes.AssignableIsConstant | src/StructureMap.Testing/Building/ConcreteTypeTester.cs:38-65 | A value already assignable to the target is returned as `Constant` of that same value, typed at the target. |
| ConcreteTypes.IntTextIsConstant | src/StructureMap.Testing/Building/ConcreteTypeTester.cs:68-72 | The decimal text of any 32-bit integer, given for an int member, gives `Constant` of that integer. |
| ConcreteTypes.UnparsableTextIsCastingError | src/StructureMap.Testing/Building/ConcreteTypeTester.cs:204-214 | Any text that does not parse as a 32-bit integer, given for an int member, gives a casting problem. This covers "", "-foo", "+" and out-of-range digit runs. The problem carries the value, its type (string) and the target type (int). |
| ConcreteTypes.NonNumericTextIsCastingError | src/StructureMap.Testing/Building/ConcreteTypeTester.cs:204-214 | The special case of the row above for text like "foo": it contains a non-digit and does not start with a sign. |
| ConcreteTypes.EnumTextResolution | src/StructureMap.Testing/Building/ConcreteTypeTester.cs:74-79 | Text naming an enum member gives that enum constant. Any other text gives a casting problem. |
| ConcreteTypes.CollectionReshaping | src/StructureMap.Testing/Building/ConcreteTypeTester.cs:82-127 | An array given for `List<T>` becomes a list. An array given for `IList<T>` is used as it is. A list given for `T[]` becomes an array. Each constant is typed at the target and keeps the elements in order. |
| ConcreteTypes.NullCollectionIsAllPossible | src/StructureMap.Testing/Building/ConcreteTypeTester.cs:130-159 | A missing value for `T[]`, `IEnumerable<T>`, `IList<T>` or `List<T>` gives `AllPossibleValuesDependencySource` of that type. |
| ConcreteTypes.NullSimpleIsMissingPrimitive | src/StructureMap.Testing/Building/ConcreteTypeTester.cs:162-183 | A missing value for a simple type (string included) gives the missing-primitive problem. The problem carries the member name, kind and type. Its message text is exactly "Required primitive dependency is not explicitly defined". |
| Types.FixedText | src/StructureMap.Testing/Building/ConcreteTypeTester.cs:169 | The missing-primitive message, and only that kind, has the fixed text "Required primitive dependency is not explicitly defined". |
| ConcreteTypes.MismatchIsUnableToDetermine | src/StructureMap.Testing/Building/ConcreteTypeTester.cs:186-201 | A plain value of the wrong type for an interface or class gives the unable-to-determine problem. The problem names the target type and the value. |
| Types.RuntimeType | src/StructureMap.Testing/Building/ConcreteTypeTester.cs:212-213 | The source type reported in a casting problem is the value's own run-time type: string for text, the object's own class (not an interface it implements), `T[]` for an array and `List<T>` for a list. The value is assignable to that type. |
| Types.IsSimple | src/StructureMap.Testing/Building/ConcreteTypeTester.cs:162-183 | Simple types (string, int, bool, enums) are neither collection shapes nor interface or class types, so a missing value has exactly one applicable rule. |
| Types.IsEnumerable | src/StructureMap.Testing/Building/ConcreteTypeTester.cs:130-159 | The four collection shapes are reference types and not interface or class types, so they take the all-possible rule and never the default-source rule. |
| Types.Assignable | src/StructureMap.Testing/Building/ConcreteTypeTester.cs:38-65 | Only plain values are assignable. Every plain value is assignable to `System.Object`. |
| Coercion.ConvertSimple | src/StructureMap.Testing/Building/ConcreteTypeTester.cs:68-79 | Conversion to a simple type yields a value of that type. The only input it converts that is not already of the type is text. An already-typed value converts to itself. |
| Coercion.Reshape | src/StructureMap.Testing/Building/ConcreteTypeTester.cs:82-127 | Reshaping succeeds exactly for an array or list whose elements fit the element type. The result has the target's shape (an array for `T[]`, a list otherwise), is assignable to the target and has the same elements in order. |
| Coercion.Coerce | src/StructureMap.Testing/Building/ConcreteTypeTester.cs:38-127 | Every successful coercion yields a value assignable to the target. An already-assignable value is kept unchanged. |
| Coercion.ArrayListRoundTrip | src/StructureMap.Testing/Building/ConcreteTypeTester.cs:82-127 | Array to list and back again gives the original array: same element type, same elements, same order, for any length. |
| Coercion.IntTextConverts | src/StructureMap.Testing/Building/ConcreteTypeTester.cs:68-72 | The decimal text of any 32-bit integer coerces to that integer. |
| Coercion.EnumTextConverts | src/StructureMap.Testing/Building/ConcreteTypeTester.cs:74-79 | Text coerces to an enum exactly when it is a member name, matched case-sensitively. |
| Parsing.ParseInt | src/StructureMap.Testing/Building/ConcreteTypeTester.cs:68-72 | Text parses exactly when it is an optional sign followed by at least one digit, and the number it denotes is in the 32-bit signed range. The result is that number, so "+42" and "042" give 42. |
| Parsing.ParseFormatInt | src/StructureMap.Testing/Building/ConcreteTypeTester.cs:68-72 | Parsing the decimal text of any 32-bit integer gives that integer back. |
| Parsing.Digits | src/StructureMap.Testing/Building/ConcreteTypeTester.cs:68-72 | The decimal spelling of a natural number is a non-empty digit run that denotes the number again. |
| Parsing.ParseBool | src/StructureMap.Testing/Building/ConcreteTypeTester.cs:68-79 | Text parses to true or false exactly when it is "true" or "false", ignoring letter case. |
| Parsing.ParseFormatBool | src/StructureMap.Testing/Building/ConcreteTypeTester.cs:68-79 | The rendered text of a boolean parses back to it. |
| BuildPlans.FirstPublic | src/StructureMap.Testing/Building/ConcreteTypeTester.cs:288-293 | Finds the first public constructor, skipping private ones. It finds none exactly when no constructor is public. |
| BuildPlans.BuildConstructorStep | src/StructureMap.Testing/Building/ConcreteTypeTester.cs:219-227 | Fails exactly when the type has no public constructor, with an error naming the type's full name. Otherwise it uses a public constructor of the type and resolves each parameter by name through `SourceFor`. |
| BuildPlans.BuildSource | src/StructureMap.Testing/Building/ConcreteTypeTester.cs:229-281 | Fails exactly when the constructor step fails. Otherwise the plan names the type and holds the constructor step plus one `SourceFor` result per flagged setter, in order. |
| BuildPlans.Lookup | src/StructureMap.Testing/Building/ConcreteTypeTester.cs:229-281 | The value supplied under a name is the stored one when present, and null when the name was never supplied. |
| BuildPlans.IsValid | src/StructureMap.Testing/Building/ConcreteTypeTester.cs:229-281 | A plan is valid exactly when no constructor argument or setter source in it is a `DependencyProblem`. |
| BuildPlans.IsValidIffAllResolvable | src/StructureMap.Testing/Building/ConcreteTypeTester.cs:229-281 | A plan is valid exactly when every parameter of the selected constructor and every flagged setter can be satisfied from the value supplied under its name. |
| BuildPlans.SimpleResolvableIffSupplied | src/StructureMap.Testing/Building/ConcreteTypeTester.cs:229-281 | For simple-typed members given plain values, being resolvable is exactly having a non-null value supplied under the member's name that coerces to its type. |
| BuildPlans.SimpleTypeValidIffAllSupplied | src/StructureMap.Testing/Building/ConcreteTypeTester.cs:229-281 | For a type whose members are all simple, the plan is valid exactly when every parameter and flagged setter has a suitable value supplied under its name. |
| BuildPlans.OmittedSimpleMemberInvalid | src/StructureMap.Testing/Building/ConcreteTypeTester.cs:242-253 | Leaving out the value of any one simple-typed parameter or flagged setter makes the plan invalid. |
| Fixtures.TextCoercionCases | src/StructureMap.Testing/Building/ConcreteTypeTester.cs:67-79 | "42" for int gives `Constant 42`. "Angus" for the breed enum gives `Constant Angus`. "foo" for int gives the casting problem for "foo", string and int. |
| Fixtures.ConstantAndProblemCases | src/StructureMap.Testing/Building/ConcreteTypeTester.cs:37-201 | Covers the tester's cases for a stub gateway, an enum value, a missing string setter and a colour rule given for a gateway, with the constants and problems it expects. |
| Fixtures.NoSuitableCtorFails | src/StructureMap.Testing/Building/ConcreteTypeTester.cs:218-227 | A type with only a private constructor fails with the no-public-constructor error. Its message ends with the type's full name. |
| Fixtures.GuyWithPrimitivesValidity | src/StructureMap.Testing/Building/ConcreteTypeTester.cs:229-253 | Supplying name, age and isAwake gives a valid plan. Leaving out isAwake gives an invalid one. |
| Fixtures.GuyWithPrimitiveSettersValidity | src/StructureMap.Testing/Building/ConcreteTypeTester.cs:257-281 | The same as the row above, for the setters Name, Age and IsAwake. |
| ExplicitArgs.NewArguments | Source/StructureMap/Pipeline/ExplicitArguments.cs:11-18 | A new bag has exactly the given names, each holding its given value, and no type keys. |
| ExplicitArgs.HasType | Source/StructureMap/Pipeline/ExplicitArguments.cs:56-59 | True exactly when the type was stored, a stored null included. |
| ExplicitArgs.HasName | Source/StructureMap/Pipeline/ExplicitArguments.cs:61-64 | True exactly when the name was stored, a stored null included. |
| ExplicitArgs.Get | Source/StructureMap/Pipeline/ExplicitArguments.cs:25-28 | Returns the stored value when the type is present, and null otherwise. |
| ExplicitArgs.GetArg | Source/StructureMap/Pipeline/ExplicitArguments.cs:40-43 | Returns the stored value when the name is present, and null otherwise. |
| ExplicitArgs.Set | Source/StructureMap/Pipeline/ExplicitArguments.cs:30-33 | Fails exactly when the type is already present. On success the type maps to the value. Other types and all names are unchanged. |
| ExplicitArgs.SetArg | Source/StructureMap/Pipeline/ExplicitArguments.cs:35-38 | Fails exactly when the name is already present. On success the name maps to the value. Other names and all types are unchanged. |
| ExplicitArgs.SetTwiceFails | Source/StructureMap/Pipeline/ExplicitArguments.cs:30-38 | For every type and every name, a second insertion under the same key always fails, so a stored value is never overwritten. |
| ExplicitArgs.StoredNullOnlyVisibleToHas | Source/StructureMap/Pipeline/ExplicitArguments.cs:40-64 | Storing null under a name leaves `GetArg` as it was. Only `HasName` distinguishes a stored null from an absent name. |
| ExplicitArgs.SetAndSetArgCommute | Source/StructureMap/Pipeline/ExplicitArguments.cs:8-38 | The name map and the type map are independent: inserting by type and by name in either order gives the same bag. |
| ExplicitArgs.PropertyWrites | Source/StructureMap/Pipeline/ExplicitArguments.cs:47-51 | The property writes cover exactly the names with non-null values. Each holds the rendered text of its value. |
| ExplicitArgs.ChildWrites | Source/StructureMap/Pipeline/ExplicitArguments.cs:47-52 | The child bindings cover exactly the names with non-null values. Each holds the value itself. |
| ExplicitArgs.Configure | Source/StructureMap/Pipeline/ExplicitArguments.cs:45-54 | Each non-null named value is written both as a rendered property and as a child binding. Null values are skipped. Entries for other keys and the plugged type are untouched. |
| ExplicitArgs.ConfigureEach | Source/StructureMap/Pipeline/ExplicitArguments.cs:45-54 | The entry-by-entry loop, in any visiting order, produces exactly `Configure`'s result. |
| ExplicitArgs.ConfigureIdempotent | Source/StructureMap/Pipeline/ExplicitArguments.cs:45-54 | Configuring a second time with the same bag changes nothing. |
| ExplicitArgs.RegisterDefaults | Source/StructureMap/Pipeline/ExplicitArguments.cs:66-72 | Every type-keyed value becomes the session default for its type. Other defaults are kept. No name-keyed value is registered. |
| ExplicitArgs.RegisterEach | Source/StructureMap/Pipeline/ExplicitArguments.cs:66-72 | The entry-by-entry loop, in any visiting order, produces exactly `RegisterDefaults`'s result. |
| ExplicitArgs.NewExplicitInstance | Source/StructureMap/Pipeline/ExplicitArguments.cs:79-93 | The instance keeps the bag and is configured first. A configured default is then merged in. Otherwise the plugged type becomes the requested plugin type, over exactly the non-null named writes. |
| ExplicitArgs.NewInstanceChildLookup | Source/StructureMap/Pipeline/ExplicitArguments.cs:79-109 | After construction, a non-null named value with no type override is what the child lookup returns, over any default. Over a default that is not a configured instance, that value is also the instance's configured child binding. |
| ExplicitArgs.GetChild | Source/StructureMap/Pipeline/ExplicitArguments.cs:96-109 | A type override comes first. Next comes a name override, even a stored null. The base lookup is used only when neither is present. |
| ExplicitArgs.TypeOverrideWins | Source/StructureMap/Pipeline/ExplicitArguments.cs:98-101 | A type-keyed override wins even when a name-keyed override for the property also exists. |
| ExplicitArgs.StoredNullShadowsBase | Source/StructureMap/Pipeline/ExplicitArguments.cs:103-106 | A name-keyed null is returned whatever the base lookup would have given. |
| ExplicitArgs.BaseReachedIffNoOverride | Source/StructureMap/Pipeline/ExplicitArguments.cs:96-109 | The child equals the base lookup for every base lookup exactly when neither the type nor the name is in the bag. |
| ExplicitArgs.RegisteredDefaultsAgreeWithGetChild | Source/StructureMap/Pipeline/ExplicitArguments.cs:66-101 | After `RegisterDefaults`, the session default for an overridden type equals the child that `GetChild` returns for it. |

## Left out

- Reflection is replaced by a `TypeInfo` table: a full name, constructors with public/private flags and parameters, and the flagged setter properties.
- BuildPlans.BuildConstructorStep: selects the first public constructor in the table's order. Greediest-first ordering is not modelled, because the tests do not evidence it.
- Explicit arguments passed to `BuildSource`, and the policies argument, are not modelled: every test passes null and empty policies. The dependency collection is modelled as a name-keyed map only.
- Message text is kept as structured data (`ProblemMessage`, `ConfigurationError`). The exceptions are the fixed missing-primitive sentence and the no-public-constructor prefix.
- ExplicitArgs.Configure: the rendering of a value to text (`ToString`) is a parameter, `render`.
- ExplicitArgs.NewExplicitInstance: `mergeIntoThis` is a parameter, `merge`. No merge precedence is claimed.
- ExplicitArgs.GetChild: the base lookup (`base.getChild` with its build session) is a parameter, `baseChild`.
- The build session is a map of defaults by type. `RegisterDefault` is modelled as replacing an earlier default for the same type; the session's code is not part of this model.
- The generic `Get<T>()` is `Get(typeof(T))` followed by a cast. Only `Get` is modelled.
- Lifecycles, caching and real object construction are not modelled. A supplied instance is modelled by the dependency source it already carries.
- Supplied values that are raw dependency sources, rather than instances carrying one, are not modelled.
- Parsing.ParseInt: leading and trailing whitespace, which .NET integer parsing tolerates, is not accepted.
- Coercion.EnumTextConverts: only exact member names are accepted. Numeric and comma-separated flag text is not.
- Coercion.ConvertSimple: only text is converted. A non-text value of another simple type, such as an int given for a string member, is reported as a casting error, and not converted as .NET's general conversion would.
- Coercion.Reshape: a sequence whose elements do not fit the target element type gives the unable-to-determine problem. In the running system the element cast would raise an exception instead.
- Types.Assignable: array covariance (a `Derived[]` used as a `Base[]`) is not modelled. Element types must match exactly. The type world is closed: apart from `System.Object`, a value is assignable to an interface or class only if it is an opaque object naming that type as its class or among its interfaces. Base classes must be listed there. The non-generic `IEnumerable` and other framework interfaces of strings, arrays and lists are not modelled, and such a member yields the unable-to-determine problem.
- Parsing.ParseBool: boolean text parsing goes beyond what the tests exercise; it is kept because text is parsed for every simple type. Surrounding whitespace, which .NET's `Boolean.Parse` trims, is rejected.
- ExplicitArgs.NewExplicitInstance: the bag is an immutable value, so the instance keeps a snapshot. In the running system the bag holds the caller's dictionary by reference (ExplicitArguments.cs:13), and the instance keeps the live bag (ExplicitArguments.cs:82). A later `SetArg` or `Set` would show in the caller's dictionary and in `getChild`, but not in the properties `Configure` already wrote. That sharing is not modelled.
- `IntVal` holds an unbounded integer. The 32-bit width of `int` is enforced only where text is parsed.
- The `GuyWithPrimitiveEverything` fixture is not used by any test and is not modelled.
