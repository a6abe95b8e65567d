/** Explicit arguments: the per-request bag of caller-supplied overrides,
    keyed by member name and by type, and the explicit instance that consults
    it before any other lookup. */
module ExplicitArgs {
  import opened Results
  import opened Types

  /** Two independent finite maps: name to value and type to value. */
  datatype ExplicitArguments = ExplicitArguments(args: map<string, Value>, children: map<TypeDesc, Value>)

  /** The key an insertion found already present. */
  datatype DuplicateKey = DuplicateType(t: TypeDesc) | DuplicateName(name: string)

  /** The part of a configured instance the overrides write to: the plugged
      type (absent until set), literal property values, and child bindings. */
  datatype ConfiguredInstance = ConfiguredInstance(
    pluggedType: Option<TypeDesc>,
    properties: map<string, string>,
    children: map<string, Value>)

  /** A session's registered defaults, by type. */
  type SessionDefaults = map<TypeDesc, Value>

  /** True exactly when the type was stored, even with a null value. */
  predicate HasType(ea: ExplicitArguments, t: TypeDesc)
    ensures HasType(ea, t) <==> t in ea.children.Keys
  {
    t in ea.children
  }

  /** True exactly when the name was stored, even with a null value. */
  predicate HasName(ea: ExplicitArguments, name: string)
    ensures HasName(ea, name) <==> name in ea.args.Keys
  {
    name in ea.args
  }

  /** A bag over the given name-keyed values, with no type-keyed ones. */
  function NewArguments(args: map<string, Value>): (r: ExplicitArguments)
    ensures forall n :: HasName(r, n) <==> n in args
    ensures forall n :: n in args ==> GetArg(r, n) == args[n]
    ensures forall t :: !HasType(r, t)
  {
    ExplicitArguments(args, map[])
  }

  /** The type-keyed value, or `Null` when the type was never set. */
  function Get(ea: ExplicitArguments, t: TypeDesc): (r: Value)
    ensures HasType(ea, t) ==> r == ea.children[t]
    ensures !HasType(ea, t) ==> r.Null?
  {
    if t in ea.children then ea.children[t] else Null
  }

  /** The name-keyed value, or `Null` when the name was never set. */
  function GetArg(ea: ExplicitArguments, name: string): (r: Value)
    ensures HasName(ea, name) ==> r == ea.args[name]
    ensures !HasName(ea, name) ==> r.Null?
  {
    if name in ea.args then ea.args[name] else Null
  }

  /** Adds a type-keyed value; a type already present is an error and the bag
      keeps its old value. Nothing name-keyed changes, nor any other type. */
  function Set(ea: ExplicitArguments, t: TypeDesc, v: Value): (r: Result<ExplicitArguments, DuplicateKey>)
    ensures r.Err? <==> HasType(ea, t)
    ensures r.Err? ==> r.error == DuplicateType(t)
    ensures r.Ok? ==> HasType(r.value, t) && Get(r.value, t) == v
    ensures r.Ok? ==> forall u :: u != t ==> (HasType(r.value, u) <==> HasType(ea, u))
    ensures r.Ok? ==> forall u :: u != t ==> Get(r.value, u) == Get(ea, u)
    ensures r.Ok? ==> forall n :: (HasName(r.value, n) <==> HasName(ea, n)) && GetArg(r.value, n) == GetArg(ea, n)
  {
    if t in ea.children then Err(DuplicateType(t))
    else Ok(ea.(children := ea.children[t := v]))
  }

  /** Adds a name-keyed value; a name already present is an error and the bag
      keeps its old value. Nothing type-keyed changes, nor any other name. */
  function SetArg(ea: ExplicitArguments, name: string, v: Value): (r: Result<ExplicitArguments, DuplicateKey>)
    ensures r.Err? <==> HasName(ea, name)
    ensures r.Err? ==> r.error == DuplicateName(name)
    ensures r.Ok? ==> HasName(r.value, name) && GetArg(r.value, name) == v
    ensures r.Ok? ==> forall n :: n != name ==> (HasName(r.value, n) <==> HasName(ea, n))
    ensures r.Ok? ==> forall n :: n != name ==> GetArg(r.value, n) == GetArg(ea, n)
    ensures r.Ok? ==> forall u :: (HasType(r.value, u) <==> HasType(ea, u)) && Get(r.value, u) == Get(ea, u)
  {
    if name in ea.args then Err(DuplicateName(name))
    else Ok(ea.(args := ea.args[name := v]))
  }

  /** A second Set of the same type always fails. */
  lemma SetTwiceFails(ea: ExplicitArguments, t: TypeDesc, name: string, v: Value, w: Value)
    ensures Set(ea, t, v).Ok? ==> Set(Set(ea, t, v).value, t, w) == Err(DuplicateType(t))
    ensures SetArg(ea, name, v).Ok? ==> SetArg(SetArg(ea, name, v).value, name, w) == Err(DuplicateName(name))
  {
  }

  /** Storing null under a name is invisible to GetArg: only HasName tells it
      apart from never storing anything. */
  lemma StoredNullOnlyVisibleToHas(ea: ExplicitArguments, name: string)
    requires !HasName(ea, name)
    ensures SetArg(ea, name, Null).Ok?
    ensures GetArg(SetArg(ea, name, Null).value, name) == GetArg(ea, name)
    ensures HasName(SetArg(ea, name, Null).value, name) && !HasName(ea, name)
  {
  }

  /** The two maps are independent: adding by type and by name, in either
      order, gives the same bag. */
  lemma SetAndSetArgCommute(ea: ExplicitArguments, t: TypeDesc, v: Value, name: string, w: Value)
    requires !HasType(ea, t) && !HasName(ea, name)
    ensures Set(ea, t, v).Ok? && SetArg(ea, name, w).Ok?
    ensures SetArg(Set(ea, t, v).value, name, w).Ok? && Set(SetArg(ea, name, w).value, t, v).Ok?
    ensures SetArg(Set(ea, t, v).value, name, w).value == Set(SetArg(ea, name, w).value, t, v).value
  {
  }

  /** Names whose stored value is not null: the only ones Configure writes. */
  function NonNullNames(ea: ExplicitArguments): (r: set<string>)
    ensures forall n :: n in r <==> n in ea.args && !ea.args[n].Null?
  {
    set n | n in ea.args && !ea.args[n].Null?
  }

  /** The property writes Configure performs: each non-null value rendered to text. */
  function PropertyWrites(ea: ExplicitArguments, render: Value -> string): (w: map<string, string>)
    ensures w.Keys == NonNullNames(ea)
    ensures forall n :: n in w ==> w[n] == render(ea.args[n])
  {
    map n | n in ea.args && !ea.args[n].Null? :: render(ea.args[n])
  }

  /** The child bindings Configure performs: each non-null value itself. */
  function ChildWrites(ea: ExplicitArguments): (w: map<string, Value>)
    ensures w.Keys == NonNullNames(ea)
    ensures forall n :: n in w ==> w[n] == ea.args[n]
  {
    map n | n in ea.args && !ea.args[n].Null? :: ea.args[n]
  }

  /** Writes every non-null name-keyed value into the instance twice: as a
      property, rendered to text by `render`, and as a child binding. Null
      values are skipped; entries for other keys and the plugged type are
      left as they were. */
  function Configure(ea: ExplicitArguments, inst: ConfiguredInstance, render: Value -> string): (r: ConfiguredInstance)
    ensures r.pluggedType == inst.pluggedType
    ensures r.properties.Keys == inst.properties.Keys + NonNullNames(ea)
    ensures r.children.Keys == inst.children.Keys + NonNullNames(ea)
    ensures forall n :: n in ea.args && !ea.args[n].Null? ==>
      r.properties[n] == render(ea.args[n]) && r.children[n] == ea.args[n]
    ensures forall n :: n in inst.properties && n !in NonNullNames(ea) ==> r.properties[n] == inst.properties[n]
    ensures forall n :: n in inst.children && n !in NonNullNames(ea) ==> r.children[n] == inst.children[n]
  {
    ConfiguredInstance(inst.pluggedType, inst.properties + PropertyWrites(ea, render), inst.children + ChildWrites(ea))
  }

  /** The bag cut down to the names in `visited`; its type-keyed part is kept. */
  function Visited(ea: ExplicitArguments, visited: set<string>): (r: ExplicitArguments)
    ensures r.args.Keys == ea.args.Keys * visited
    ensures forall n :: n in r.args ==> r.args[n] == ea.args[n]
  {
    ea.(args := map n | n in ea.args && n in visited :: ea.args[n])
  }

  /** Visiting one more name adds that name's writes, if its value is not null. */
  lemma WritesStep(ea: ExplicitArguments, render: Value -> string, visited: set<string>, n: string)
    requires n in ea.args && n !in visited
    ensures ea.args[n].Null? ==>
      PropertyWrites(Visited(ea, visited + {n}), render) == PropertyWrites(Visited(ea, visited), render) &&
      ChildWrites(Visited(ea, visited + {n})) == ChildWrites(Visited(ea, visited))
    ensures !ea.args[n].Null? ==>
      PropertyWrites(Visited(ea, visited + {n}), render)
        == PropertyWrites(Visited(ea, visited), render)[n := render(ea.args[n])] &&
      ChildWrites(Visited(ea, visited + {n})) == ChildWrites(Visited(ea, visited))[n := ea.args[n]]
  {
  }

  /** Updating a union at a key equals updating the right operand there. */
  lemma UnionUpdate<K, V>(m: map<K, V>, w: map<K, V>, k: K, x: V)
    ensures (m + w)[k := x] == m + w[k := x]
  {
  }

  /** Configure visits the name-keyed entries one at a time, in whatever order
      the dictionary yields them; the outcome is the same for every order. */
  method ConfigureEach(ea: ExplicitArguments, inst: ConfiguredInstance, render: Value -> string)
    returns (r: ConfiguredInstance)
    ensures r == Configure(ea, inst, render)
  {
    r := inst;
    var visited: set<string> := {};
    var pending := ea.args.Keys;
    assert NonNullNames(Visited(ea, {})) == {};
    assert PropertyWrites(Visited(ea, {}), render) == map[];
    assert ChildWrites(Visited(ea, {})) == map[];
    assert inst.properties + map[] == inst.properties;
    assert inst.children + map[] == inst.children;
    while pending != {}
      invariant pending == ea.args.Keys - visited
      invariant visited <= ea.args.Keys
      invariant r.pluggedType == inst.pluggedType
      invariant r.properties == inst.properties + PropertyWrites(Visited(ea, visited), render)
      invariant r.children == inst.children + ChildWrites(Visited(ea, visited))
      decreases pending
    {
      var n :| n in pending;
      WritesStep(ea, render, visited, n);
      var v := ea.args[n];
      if !v.Null? {
        UnionUpdate(inst.properties, PropertyWrites(Visited(ea, visited), render), n, render(v));
        UnionUpdate(inst.children, ChildWrites(Visited(ea, visited)), n, v);
        r := r.(properties := r.properties[n := render(v)], children := r.children[n := v]);
      }
      visited := visited + {n};
      pending := pending - {n};
    }
    assert Visited(ea, visited) == ea;
  }

  /** Configuring twice with the same bag changes nothing the first time did not. */
  lemma ConfigureIdempotent(ea: ExplicitArguments, inst: ConfiguredInstance, render: Value -> string)
    ensures Configure(ea, Configure(ea, inst, render), render) == Configure(ea, inst, render)
  {
  }

  /** Registers every type-keyed value as a session default, replacing any
      earlier default for that type. Name-keyed values are not registered and
      other defaults are kept. */
  function RegisterDefaults(ea: ExplicitArguments, session: SessionDefaults): (r: SessionDefaults)
    ensures r.Keys == session.Keys + ea.children.Keys
    ensures forall t :: HasType(ea, t) ==> r[t] == Get(ea, t)
    ensures forall t :: t in session && !HasType(ea, t) ==> r[t] == session[t]
  {
    session + ea.children
  }

  /** RegisterDefaults visits the type-keyed entries one at a time; the
      outcome is the same for every order. */
  method RegisterEach(ea: ExplicitArguments, session: SessionDefaults) returns (r: SessionDefaults)
    ensures r == RegisterDefaults(ea, session)
  {
    r := session;
    var pending := ea.children.Keys;
    while pending != {}
      invariant pending <= ea.children.Keys
      invariant r.Keys == session.Keys + (ea.children.Keys - pending)
      invariant forall t :: t in r ==> r[t] == if t in ea.children && t !in pending then ea.children[t] else session[t]
      decreases pending
    {
      var t :| t in pending;
      r := r[t := ea.children[t]];
      pending := pending - {t};
    }
    assert r == RegisterDefaults(ea, session);
  }

  /** The default instance an explicit instance is built over: a configured
      instance, some other kind of instance, or none at all. */
  datatype Instance = Configured(config: ConfiguredInstance) | OtherInstance | NoInstance

  /** A configured instance carrying the bag it was built from. */
  datatype ExplicitInstance = ExplicitInstance(config: ConfiguredInstance, args: ExplicitArguments)

  const Unconfigured: ConfiguredInstance := ConfiguredInstance(None, map[], map[])

  /** Builds an explicit instance: the bag is configured into a fresh
      instance; then a configured default is merged in with `merge`, and
      otherwise the plugged type becomes the requested plugin type. */
  function NewExplicitInstance(
    pluginType: TypeDesc, ea: ExplicitArguments, defaultInstance: Instance,
    render: Value -> string, merge: (ConfiguredInstance, ConfiguredInstance) -> ConfiguredInstance)
    : (r: ExplicitInstance)
    ensures r.args == ea
    ensures defaultInstance.Configured? ==>
      r.config == merge(Configure(ea, Unconfigured, render), defaultInstance.config)
    ensures !defaultInstance.Configured? ==> r.config.pluggedType == Some(pluginType)
    ensures !defaultInstance.Configured? ==>
      r.config.properties.Keys == NonNullNames(ea) && r.config.children.Keys == NonNullNames(ea)
    ensures !defaultInstance.Configured? ==> forall n :: n in ea.args && !ea.args[n].Null? ==>
      r.config.properties[n] == render(ea.args[n]) && r.config.children[n] == ea.args[n]
  {
    var own := Configure(ea, Unconfigured, render);
    match defaultInstance
    case Configured(d) => ExplicitInstance(merge(own, d), ea)
    case _ => ExplicitInstance(own.(pluggedType := Some(pluginType)), ea)
  }

  /** Over a default that is not a configured instance, a non-null named
      value with no type override is the child both through the configured
      binding and through the lookup. Over any default, the bag's named value
      is what the lookup returns, whatever the merge kept. */
  lemma NewInstanceChildLookup(
    pluginType: TypeDesc, ea: ExplicitArguments, defaultInstance: Instance,
    render: Value -> string, merge: (ConfiguredInstance, ConfiguredInstance) -> ConfiguredInstance,
    name: string, t: TypeDesc, base: (string, TypeDesc) -> Value)
    requires name in ea.args && !ea.args[name].Null? && !HasType(ea, t)
    ensures var r := NewExplicitInstance(pluginType, ea, defaultInstance, render, merge);
      GetChild(r, name, t, base) == ea.args[name]
    ensures var r := NewExplicitInstance(pluginType, ea, defaultInstance, render, merge);
      !defaultInstance.Configured? ==> name in r.config.children && GetChild(r, name, t, base) == r.config.children[name]
  {
  }

  /** The child for a property: a type-keyed override first, then a
      name-keyed one (even a stored null), and only then `baseChild`, the
      lookup a plain configured instance would do. */
  function GetChild(ei: ExplicitInstance, propertyName: string, pluginType: TypeDesc,
                    baseChild: (string, TypeDesc) -> Value): (r: Value)
    ensures HasType(ei.args, pluginType) ==> r == ei.args.children[pluginType]
    ensures !HasType(ei.args, pluginType) && HasName(ei.args, propertyName) ==> r == ei.args.args[propertyName]
    ensures !HasType(ei.args, pluginType) && !HasName(ei.args, propertyName) ==> r == baseChild(propertyName, pluginType)
  {
    if HasType(ei.args, pluginType) then Get(ei.args, pluginType)
    else if HasName(ei.args, propertyName) then GetArg(ei.args, propertyName)
    else baseChild(propertyName, pluginType)
  }

  /** A type-keyed override wins even when the same property also has a
      different name-keyed override. */
  lemma TypeOverrideWins(ei: ExplicitInstance, name: string, t: TypeDesc, base: (string, TypeDesc) -> Value)
    requires HasType(ei.args, t) && HasName(ei.args, name)
    ensures GetChild(ei, name, t, base) == Get(ei.args, t)
  {
  }

  /** A name-keyed null shadows the base lookup: the child is null whatever
      the base would have returned. */
  lemma StoredNullShadowsBase(ei: ExplicitInstance, name: string, t: TypeDesc,
                              base1: (string, TypeDesc) -> Value, base2: (string, TypeDesc) -> Value)
    requires !HasType(ei.args, t) && HasName(ei.args, name) && ei.args.args[name].Null?
    ensures GetChild(ei, name, t, base1) == Null && GetChild(ei, name, t, base2) == Null
  {
  }

  /** The base lookup is reached exactly when neither key is in the bag. */
  lemma BaseReachedIffNoOverride(ei: ExplicitInstance, name: string, t: TypeDesc)
    ensures (forall base: (string, TypeDesc) -> Value {:trigger base(name, t)} :: GetChild(ei, name, t, base) == base(name, t))
        <==> !HasType(ei.args, t) && !HasName(ei.args, name)
  {
    if HasType(ei.args, t) || HasName(ei.args, name) {
      var stored := GetChild(ei, name, t, (n, u) => Null);
      var other: Value := if stored.Null? then IntVal(0) else Null;
      var base := (n: string, u: TypeDesc) => other;
      assert GetChild(ei, name, t, base) == stored;
      assert GetChild(ei, name, t, base) != base(name, t);
    }
  }

  /** Registering the bag's defaults makes every type-keyed override what the
      session yields for that type, the same value the explicit instance's
      own child lookup gives it. */
  lemma RegisteredDefaultsAgreeWithGetChild(ei: ExplicitInstance, session: SessionDefaults, name: string, t: TypeDesc,
                                            base: (string, TypeDesc) -> Value)
    requires HasType(ei.args, t)
    ensures t in RegisterDefaults(ei.args, session)
    ensures RegisterDefaults(ei.args, session)[t] == GetChild(ei, name, t, base)
  {
  }
}
