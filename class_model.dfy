/** The metadata of one mapped Java class: its fields by name, its overloaded
    methods by name, a one-shot "mapped" flag and the holder of its collection
    name. The reflection engine is replaced by explicit inputs: what it would
    discover is handed to Map, and what it reports about the class itself is a
    ClassInfo. */
module Mapper {
  import opened Wrappers
  import opened NameOrder
  import opened MemberTables
  import opened WeightedValues

  /** The exception kinds the modelled code raises. */
  datatype MappingFailure =
    | ClassMappingException(message: string)
    | IndexOutOfBounds(index: nat, size: nat)

  /** Result of aClass.getConstructor(): found, or the NoSuchMethodException message. */
  datatype ConstructorLookup = PublicNoArg | Missing(message: string)

  /** What reflection reports about the modelled class. */
  datatype ClassInfo = ClassInfo(
    simpleName: string,
    typeVariables: seq<string>,   // names of getTypeParameters(), in declaration order
    noArgConstructor: ConstructorLookup)

  /** Collaborators the model only passes along. */
  datatype CodecRegistry = CodecRegistry(id: nat)
  datatype TypeResolver = TypeResolver(id: nat)

  /** The mutable part of a ClassModel, as a value. */
  datatype Snapshot = Snapshot(fields: map<string, FieldModel>, methods: map<string, seq<MethodModel>>, mapped: bool)

  predicate WellFormed(s: Snapshot)
  {
    KeyedByName(s.fields) && OverloadsWellFormed(s.methods)
  }

  /** What map() does to a model in state s, given the fields discovered and
      the outcome of building a descriptor for each discovered method: the new
      state and the exception thrown, if any. */
  function Discover(s: Snapshot, fs: seq<FieldModel>, rs: seq<MethodBuild>): (r: (Snapshot, Option<MappingFailure>))
    ensures WellFormed(s) ==> WellFormed(r.0)
  {
    if s.mapped then (s, None)
    else
      var fields := InsertFields(s.fields, fs);
      var methods := AppendMethods(s.methods, BuiltPrefix(rs));
      match FirstFailure(rs)
      case None => (Snapshot(fields, methods, true), None)
      case Some(message) => (Snapshot(fields, methods, false), Some(ClassMappingException(message)))
  }

  /** Discover of an unmapped model, case by case: an unfolding hint for the
      loops of ClassModel.Map, not a property of its own. */
  lemma DiscoverOutcome(s: Snapshot, fs: seq<FieldModel>, rs: seq<MethodBuild>)
    requires !s.mapped
    ensures Discover(s, fs, rs).0.fields == InsertFields(s.fields, fs)
    ensures Discover(s, fs, rs).0.methods == AppendMethods(s.methods, BuiltPrefix(rs))
    ensures Discover(s, fs, rs).0.mapped == FirstFailure(rs).None?
    ensures FirstFailure(rs).None? ==> Discover(s, fs, rs).1 == None
    ensures FirstFailure(rs).Some? ==> Discover(s, fs, rs).1 == Some(ClassMappingException(FirstFailure(rs).value))
  {
  }

  /** Once a discovery has succeeded, every later one is a no-op, whatever it would discover. */
  lemma DiscoverIdempotent(s: Snapshot, fs: seq<FieldModel>, rs: seq<MethodBuild>, fs': seq<FieldModel>, rs': seq<MethodBuild>)
    requires Discover(s, fs, rs).1.None?
    ensures Discover(s, fs, rs).0.mapped
    ensures Discover(Discover(s, fs, rs).0, fs', rs') == (Discover(s, fs, rs).0, None)
  {
  }

  /** A discovery of an unmapped model fails exactly when some method
      descriptor fails to build, reports the first such failure, and leaves the
      model unmapped. */
  lemma DiscoverFailure(s: Snapshot, fs: seq<FieldModel>, rs: seq<MethodBuild>)
    requires !s.mapped
    ensures Discover(s, fs, rs).1.Some? <==> exists i :: 0 <= i < |rs| && rs[i].Failure?
    ensures Discover(s, fs, rs).1.Some? ==>
      var k := |BuiltPrefix(rs)|;
      k < |rs| && rs[k] == Failure(Discover(s, fs, rs).1.value.message) &&
      (forall i :: 0 <= i < k ==> rs[i].Success?) &&
      !Discover(s, fs, rs).0.mapped
  {
    BuildOutcome(rs);
  }

  /** After discovery (successful or not) each discovered field is the one
      stored under its name unless a later discovered field has that name. */
  lemma DiscoveredFieldLastWins(s: Snapshot, fs: seq<FieldModel>, rs: seq<MethodBuild>, i: nat)
    requires !s.mapped && i < |fs|
    requires forall j :: i < j < |fs| ==> fs[j].name != fs[i].name
    ensures fs[i].name in Discover(s, fs, rs).0.fields
    ensures Discover(s, fs, rs).0.fields[fs[i].name] == fs[i]
  {
    InsertFieldsLastWins(s.fields, fs, i);
  }

  /** After a successful discovery, the methods named n are those held before
      followed by every discovered method named n, in discovery order. */
  lemma DiscoveredMethodsInOrder(s: Snapshot, fs: seq<FieldModel>, rs: seq<MethodBuild>, n: string)
    requires !s.mapped && Discover(s, fs, rs).1.None?
    ensures |BuiltPrefix(rs)| == |rs|
    ensures forall i :: 0 <= i < |rs| ==> rs[i] == Success(BuiltPrefix(rs)[i])
    ensures MethodsNamed(Discover(s, fs, rs).0.methods, n) == MethodsNamed(s.methods, n) + Named(BuiltPrefix(rs), n)
  {
    BuildOutcome(rs);
    AppendMethodsLookup(s.methods, BuiltPrefix(rs), n);
  }

  /** A failed discovery leaves its fields and the methods built before the
      failure in place, so a retry re-inserts the same fields (no change) and
      appends the methods a second time. */
  lemma RetryAfterFailure(s: Snapshot, fs: seq<FieldModel>, rs: seq<MethodBuild>, rs': seq<MethodBuild>, n: string)
    requires !s.mapped && Discover(s, fs, rs).1.Some?
    ensures Discover(Discover(s, fs, rs).0, fs, rs').0.fields == InsertFields(s.fields, fs)
    ensures MethodsNamed(Discover(Discover(s, fs, rs).0, fs, rs').0.methods, n)
         == MethodsNamed(s.methods, n) + Named(BuiltPrefix(rs), n) + Named(BuiltPrefix(rs'), n)
  {
    var once := Discover(s, fs, rs).0;
    InsertFieldsIdempotent(s.fields, fs);
    AppendMethodsLookup(s.methods, BuiltPrefix(rs), n);
    AppendMethodsLookup(once.methods, BuiltPrefix(rs'), n);
  }

  class ClassModel {
    const classInfo: ClassInfo
    const registry: CodecRegistry
    const resolver: TypeResolver
    const collectionName: WeightedValue
    /** Declared, never written. */
    const parameterizedTypes: map<string, ClassRef> := map[]
    var fields: map<string, FieldModel>
    var methods: map<string, seq<MethodModel>>
    var mapped: bool

    ghost predicate Valid()
      reads this
    {
      KeyedByName(fields) && OverloadsWellFormed(methods)
    }

    ghost function State(): Snapshot
      reads this
    {
      Snapshot(fields, methods, mapped)
    }

    /** The part of ClassModel(registry, resolver, aClass) that cannot fail. */
    constructor (registry: CodecRegistry, resolver: TypeResolver, aClass: ClassInfo, rule: Rule)
      ensures Valid() && fresh(collectionName)
      ensures classInfo == aClass && this.registry == registry && this.resolver == resolver
      ensures collectionName.rule == rule && collectionName.proposals == []
      ensures fields == map[] && methods == map[] && !mapped
    {
      classInfo := aClass;
      this.registry := registry;
      this.resolver := resolver;
      collectionName := new WeightedValue(rule);
      fields := map[];
      methods := map[];
      mapped := false;
    }

    /** ClassModel(template, parameterTypes) once the template is mapped and
        the type-variable map is built: one specialised field per template
        field, visited in name order and stored under the specialised field's
        name; the collection-name holder is the template's own. */
    constructor Specialized(template: ClassModel, typeMap: map<string, ClassRef>, specialize: FieldSpecializer)
      ensures Valid()
      ensures classInfo == template.classInfo && registry == template.registry && resolver == template.resolver
      ensures collectionName == template.collectionName
      ensures fields == InsertFields(map[], SpecializeEach(FieldsInOrder(template.fields), typeMap, specialize))
      ensures methods == map[] && !mapped
    {
      classInfo := template.classInfo;
      registry := template.registry;
      resolver := template.resolver;
      collectionName := template.collectionName;
      var entries := FieldsInOrder(template.fields);
      ghost var specialized := SpecializeEach(entries, typeMap, specialize);
      var table: map<string, FieldModel> := map[];
      for i := 0 to |entries|
        invariant InsertFields(table, specialized[i..]) == InsertFields(map[], specialized)
        invariant KeyedByName(table)
      {
        var model := specialize(entries[i], typeMap);
        InsertFieldsStep(table, specialized, i);
        table := table[model.name := model];
      }
      fields := table;
      methods := map[];
      mapped := false;
    }

    function GetCollectionName(): (r: Option<string>)
      reads collectionName
      ensures r == collectionName.rule(collectionName.proposals)
    {
      collectionName.Get()
    }

    function GetField(name: string): (r: Option<FieldModel>)
      reads this
      requires Valid()
      ensures r.Some? <==> name in fields
      ensures r.Some? ==> r.value.name == name && r.value == fields[name]
    {
      if name in fields then Some(fields[name]) else None
    }

    function GetFields(): (r: seq<FieldModel>)
      reads this
      requires Valid()
      ensures |r| == |fields|
      ensures forall i :: 0 <= i < |r| ==> r[i].name in fields && fields[r[i].name] == r[i]
      ensures forall i, j :: 0 <= i < j < |r| ==> Less(r[i].name, r[j].name)
    {
      FieldsInOrder(fields)
    }

    /** Runs discovery once; a no-op once it has succeeded. */
    method Map(discoveredFields: seq<FieldModel>, discoveredMethods: seq<MethodBuild>) returns (thrown: Option<MappingFailure>)
      requires Valid()
      modifies this
      ensures Valid()
      ensures (State(), thrown) == Discover(old(State()), discoveredFields, discoveredMethods)
    {
      thrown := None;
      if !mapped {
        ghost var before := State();
        for i := 0 to |discoveredFields|
          invariant Valid() && !mapped && methods == before.methods
          invariant InsertFields(fields, discoveredFields[i..]) == InsertFields(before.fields, discoveredFields)
        {
          InsertFieldsStep(fields, discoveredFields, i);
          AddField(discoveredFields[i]);
        }
        for j := 0 to |discoveredMethods|
          invariant Valid() && !mapped && thrown.None?
          invariant fields == InsertFields(before.fields, discoveredFields)
          invariant AppendMethods(methods, BuiltPrefix(discoveredMethods[j..]))
                 == AppendMethods(before.methods, BuiltPrefix(discoveredMethods))
          invariant FirstFailure(discoveredMethods[j..]) == FirstFailure(discoveredMethods)
        {
          BuildStep(methods, discoveredMethods, j);
          thrown := AddMethod(discoveredMethods[j]);
          if thrown.Some? {
            DiscoverOutcome(before, discoveredFields, discoveredMethods);
            return;
          }
        }
        assert discoveredMethods[|discoveredMethods|..] == [];
        DiscoverOutcome(before, discoveredFields, discoveredMethods);
        mapped := true;
      }
    }

    /** The parameterised-type table is never filled in, so no type name resolves. */
    function ResolveGenericType(typeName: string): (r: Option<ClassRef>)
      ensures r == None
    {
      Get(parameterizedTypes, typeName)
    }

    method AddMethod(built: MethodBuild) returns (thrown: Option<MappingFailure>)
      requires Valid()
      modifies this
      ensures Valid()
      ensures fields == old(fields) && mapped == old(mapped)
      ensures built.Failure? ==> thrown == Some(ClassMappingException(built.error)) && methods == old(methods)
      ensures built.Success? ==> thrown.None? && methods == AppendMethod(old(methods), built.value)
    {
      match built
      case Failure(message) =>
        thrown := Some(ClassMappingException(message));
      case Success(model) =>
        // An empty list is put into the table and then appended to in place;
        // with values that is one update of the name's entry.
        var list := GetMethods(model.name);
        methods := methods[model.name := list + [model]];
        thrown := None;
    }

    method AddField(model: FieldModel)
      requires Valid()
      modifies this
      ensures Valid()
      ensures fields == old(fields)[model.name := model]
      ensures methods == old(methods) && mapped == old(mapped)
    {
      fields := fields[model.name := model];
    }

    function GetMethods(name: string): (r: seq<MethodModel>)
      reads this
      requires Valid()
      ensures r == [] <==> name !in methods
      ensures forall i :: 0 <= i < |r| ==> r[i].name == name
    {
      MethodsNamed(methods, name)
    }

    method SetCollectionName(weight: int, name: string)
      modifies collectionName
      ensures collectionName.proposals == old(collectionName.proposals) + [Proposal(weight, name)]
      ensures GetCollectionName() == collectionName.rule(old(collectionName.proposals) + [Proposal(weight, name)])
    {
      collectionName.Set(weight, name);
    }
  }

  /** ClassModel(registry, resolver, aClass): fails, before anything is mapped,
      when the class has no public no-argument constructor. */
  method Create(registry: CodecRegistry, resolver: TypeResolver, aClass: ClassInfo, rule: Rule)
    returns (r: Result<ClassModel, MappingFailure>)
    ensures aClass.noArgConstructor.Missing? ==>
      r == Failure(ClassMappingException(aClass.noArgConstructor.message))
    ensures aClass.noArgConstructor.PublicNoArg? ==>
      r.Success? && fresh(r.value) && fresh(r.value.collectionName) && r.value.Valid() &&
      r.value.classInfo == aClass && r.value.registry == registry && r.value.resolver == resolver &&
      r.value.fields == map[] && r.value.methods == map[] && !r.value.mapped &&
      r.value.collectionName.rule == rule && r.value.collectionName.proposals == []
  {
    var model := new ClassModel(registry, resolver, aClass, rule);
    if aClass.noArgConstructor.Missing? {
      r := Failure(ClassMappingException(aClass.noArgConstructor.message));
    } else {
      r := Success(model);
    }
  }

  /** The type-variable map of the specialising constructor: the i-th type
      variable is bound to the i-th argument; too few arguments make
      parameterTypes.get(i) throw. */
  method BindTypeVariables(typeVariables: seq<string>, parameterTypes: seq<ClassRef>)
    returns (r: Result<map<string, ClassRef>, MappingFailure>)
    ensures |parameterTypes| < |typeVariables| ==>
      r == Failure(IndexOutOfBounds(|parameterTypes|, |parameterTypes|))
    ensures |typeVariables| <= |parameterTypes| ==> r == Success(PairUp(typeVariables, parameterTypes))
  {
    var typeMap: map<string, ClassRef> := map[];
    for i := 0 to |typeVariables|
      invariant i <= |parameterTypes|
      invariant typeMap == PairUp(typeVariables[..i], parameterTypes)
    {
      if i >= |parameterTypes| {
        return Failure(IndexOutOfBounds(i, |parameterTypes|));
      }
      assert typeVariables[..i + 1][..i] == typeVariables[..i];
      typeMap := typeMap[typeVariables[i] := parameterTypes[i]];
    }
    assert typeVariables[..|typeVariables|] == typeVariables;
    return Success(typeMap);
  }

  /** ClassModel(template, parameterTypes): forces template.map(), binds the
      template's type variables to the arguments by position, and builds a
      model of specialised template fields sharing the template's
      collection-name holder. */
  method Specialize(template: ClassModel, parameterTypes: seq<ClassRef>,
                    discoveredFields: seq<FieldModel>, discoveredMethods: seq<MethodBuild>,
                    specialize: FieldSpecializer)
    returns (r: Result<ClassModel, MappingFailure>)
    requires template.Valid()
    modifies template
    ensures template.Valid()
    ensures template.State() == Discover(old(template.State()), discoveredFields, discoveredMethods).0
    ensures var thrown := Discover(old(template.State()), discoveredFields, discoveredMethods).1;
            var vars := template.classInfo.typeVariables;
      && (thrown.Some? ==> r == Failure(thrown.value))
      && (thrown.None? && |parameterTypes| < |vars| ==>
            r == Failure(IndexOutOfBounds(|parameterTypes|, |parameterTypes|)))
      && (thrown.None? && |vars| <= |parameterTypes| ==>
            && r.Success? && fresh(r.value) && r.value.Valid()
            && r.value.classInfo == template.classInfo
            && r.value.registry == template.registry && r.value.resolver == template.resolver
            && r.value.collectionName == template.collectionName
            && r.value.fields == InsertFields(map[], SpecializeEach(FieldsInOrder(template.fields),
                                                                PairUp(vars, parameterTypes), specialize))
            && r.value.methods == map[] && !r.value.mapped)
  {
    var thrown := template.Map(discoveredFields, discoveredMethods);
    if thrown.Some? {
      return Failure(thrown.value);
    }
    var typeMap := BindTypeVariables(template.classInfo.typeVariables, parameterTypes);
    if typeMap.Failure? {
      return Failure(typeMap.error);
    }
    var model := new ClassModel.Specialized(template, typeMap.value, specialize);
    r := Success(model);
  }

  /** When specialising keeps field names, a specialised model has exactly
      its template's fields, each replaced by its specialised copy. */
  lemma SpecializedFieldCount(template: Snapshot, typeMap: map<string, ClassRef>, specialize: FieldSpecializer)
    requires WellFormed(template)
    requires forall n :: n in template.fields ==> specialize(template.fields[n], typeMap).name == n
    ensures |InsertFields(map[], SpecializeEach(FieldsInOrder(template.fields), typeMap, specialize))| == |template.fields|
  {
    SpecializedFieldsMatchTemplate(template.fields, typeMap, specialize);
  }

  /** A client: a proposal made through a specialised model is what its
      template reports, because the two share one holder. */
  method SharedCollectionNameScenario(rule: Rule)
  {
    var info := ClassInfo("Pair", ["A", "B"], PublicNoArg);
    var created := Create(CodecRegistry(0), TypeResolver(0), info, rule);
    var template := created.value;
    var keep := (f: FieldModel, typeMap: map<string, ClassRef>) => f;
    var specialized := Specialize(template, [ClassRef("String"), ClassRef("Integer")], [], [], keep);
    assert template.mapped;
    var model := specialized.value;
    assert model.collectionName == template.collectionName && !model.mapped;
    assert model.collectionName.proposals == [] && model.collectionName.rule == rule;
    model.SetCollectionName(10, "pairs");
    assert model.collectionName.proposals == [Proposal(10, "pairs")];
    assert template.GetCollectionName() == model.GetCollectionName() == rule([Proposal(10, "pairs")]);
    var tooFew := Specialize(template, [ClassRef("String")], [], [], keep);
    assert tooFew == Failure(IndexOutOfBounds(1, 1));
  }
}
