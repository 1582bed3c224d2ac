/** The two tables a ClassModel keeps (fields by name, overloaded methods by
    name) and the type-variable binding used when a model is specialised, as
    values, with what inserting into them does. */
module MemberTables {
  import opened Wrappers
  import opened NameOrder

  /** A Java Class<?> handed over as a type argument; only its identity matters. */
  datatype ClassRef = ClassRef(name: string)

  /** A field descriptor. The model keys on `name`; `detail` stands for
      everything else a FieldModel holds (declared type, codec, owner), which
      is not looked into here. */
  datatype FieldModel = FieldModel(name: string, detail: nat)

  /** A method descriptor, opaque apart from its name. */
  datatype MethodModel = MethodModel(name: string, detail: nat)

  /** Building a MethodModel from a discovered method: the descriptor, or the
      message of the exception its constructor threw. */
  type MethodBuild = Result<MethodModel, string>

  /** The field-specialising constructor FieldModel(existing, typeMap). */
  type FieldSpecializer = (FieldModel, map<string, ClassRef>) -> FieldModel

  // ---------------------------------------------------------------- fields

  /** Every field is stored under its own name. */
  predicate KeyedByName(m: map<string, FieldModel>)
  {
    forall n :: n in m ==> m[n].name == n
  }

  function FieldNames(fs: seq<FieldModel>): set<string>
  {
    set f | f in fs :: f.name
  }

  /** fields.put(f.getName(), f) for every f of fs, in order. */
  function InsertFields(m: map<string, FieldModel>, fs: seq<FieldModel>): (r: map<string, FieldModel>)
    ensures r.Keys == m.Keys + FieldNames(fs)
    ensures KeyedByName(m) ==> KeyedByName(r)
    decreases |fs|
  {
    if fs == [] then m
    else
      assert FieldNames(fs) == {fs[0].name} + FieldNames(fs[1..]) by {
        assert fs == [fs[0]] + fs[1..];
      }
      InsertFields(m[fs[0].name := fs[0]], fs[1..])
  }

  /** Inserting the fields of fs from position i on starts with fs[i]. */
  lemma InsertFieldsStep(m: map<string, FieldModel>, fs: seq<FieldModel>, i: nat)
    requires i < |fs|
    ensures InsertFields(m, fs[i..]) == InsertFields(m[fs[i].name := fs[i]], fs[i + 1..])
  {
    assert fs[i..][1..] == fs[i + 1..];
  }

  /** A name that no inserted field carries keeps its old entry, or stays absent. */
  lemma {:induction false} InsertFieldsKeepsOthers(m: map<string, FieldModel>, fs: seq<FieldModel>, n: string)
    requires forall j :: 0 <= j < |fs| ==> fs[j].name != n
    ensures n in InsertFields(m, fs) <==> n in m
    ensures n in m ==> InsertFields(m, fs)[n] == m[n]
    decreases |fs|
  {
    if fs != [] {
      InsertFieldsKeepsOthers(m[fs[0].name := fs[0]], fs[1..], n);
    }
  }

  /** Last write wins: the last inserted field with a given name is the one stored. */
  lemma {:induction false} InsertFieldsLastWins(m: map<string, FieldModel>, fs: seq<FieldModel>, i: nat)
    requires i < |fs|
    requires forall j :: i < j < |fs| ==> fs[j].name != fs[i].name
    ensures fs[i].name in InsertFields(m, fs)
    ensures InsertFields(m, fs)[fs[i].name] == fs[i]
    decreases |fs|
  {
    if i == 0 {
      InsertFieldsKeepsOthers(m[fs[0].name := fs[0]], fs[1..], fs[0].name);
    } else {
      InsertFieldsLastWins(m[fs[0].name := fs[0]], fs[1..], i - 1);
    }
  }

  /** The index of the last field of fs named n. */
  function LastNamed(fs: seq<FieldModel>, n: string): (i: nat)
    requires n in FieldNames(fs)
    ensures i < |fs| && fs[i].name == n
    ensures forall j :: i < j < |fs| ==> fs[j].name != n
  {
    var k := |fs| - 1;
    if fs[k].name == n then k
    else
      assert n in FieldNames(fs[..k]) by {
        var f :| f in fs && f.name == n;
        var j :| 0 <= j < |fs| && fs[j] == f;
        assert fs[..k][j] == f;
      }
      LastNamed(fs[..k], n)
  }

  /** Inserting the same fields a second time changes nothing. */
  lemma InsertFieldsIdempotent(m: map<string, FieldModel>, fs: seq<FieldModel>)
    ensures InsertFields(InsertFields(m, fs), fs) == InsertFields(m, fs)
  {
    var once := InsertFields(m, fs);
    var twice := InsertFields(once, fs);
    forall n | n in twice
      ensures n in once && twice[n] == once[n]
    {
      if n in FieldNames(fs) {
        var i := LastNamed(fs, n);
        InsertFieldsLastWins(m, fs, i);
        InsertFieldsLastWins(once, fs, i);
      } else {
        InsertFieldsKeepsOthers(once, fs, n);
      }
    }
  }

  /** The values of m in ascending key order: new ArrayList(treeMap.values()),
      and the order treeMap.entrySet() is iterated in. */
  function FieldsInOrder(m: map<string, FieldModel>): (r: seq<FieldModel>)
    ensures |r| == |m|
    ensures forall n :: n in m ==> m[n] in r
    ensures KeyedByName(m) ==> forall i :: 0 <= i < |r| ==> r[i].name in m && m[r[i].name] == r[i]
    ensures KeyedByName(m) ==> forall i, j :: 0 <= i < j < |r| ==> Less(r[i].name, r[j].name)
  {
    var ks := SortedKeys(m.Keys);
    var r := ValuesAt(m, ks);
    FieldsInOrderFacts(m, ks, r);
    r
  }

  function ValuesAt(m: map<string, FieldModel>, ks: seq<string>): (r: seq<FieldModel>)
    requires forall k :: k in ks ==> k in m
    ensures |r| == |ks| && forall i :: 0 <= i < |ks| ==> r[i] == m[ks[i]]
  {
    seq(|ks|, i requires 0 <= i < |ks| => m[ks[i]])
  }

  lemma FieldsInOrderFacts(m: map<string, FieldModel>, ks: seq<string>, r: seq<FieldModel>)
    requires |ks| == |m| && (forall k :: k in ks <==> k in m) && StrictlyAscending(ks)
    requires |r| == |ks| && forall i :: 0 <= i < |ks| ==> r[i] == m[ks[i]]
    ensures forall n :: n in m ==> m[n] in r
    ensures KeyedByName(m) ==> forall i :: 0 <= i < |r| ==> r[i].name in m && m[r[i].name] == r[i]
    ensures KeyedByName(m) ==> forall i, j :: 0 <= i < j < |r| ==> Less(r[i].name, r[j].name)
  {
    forall n | n in m
      ensures m[n] in r
    {
      var i :| 0 <= i < |ks| && ks[i] == n;
      assert r[i] == m[n];
    }
    if KeyedByName(m) {
      assert forall i :: 0 <= i < |r| ==> r[i].name == ks[i];
    }
  }

  /** The specialised copy of every field of fs, in the same order. */
  function SpecializeEach(fs: seq<FieldModel>, typeMap: map<string, ClassRef>, specialize: FieldSpecializer): (r: seq<FieldModel>)
    ensures |r| == |fs| && forall i :: 0 <= i < |fs| ==> r[i] == specialize(fs[i], typeMap)
  {
    seq(|fs|, i requires 0 <= i < |fs| => specialize(fs[i], typeMap))
  }

  /** When specialising keeps every field's name, the specialised table has
      exactly the template's names, each bound to the specialised template field. */
  lemma SpecializedFieldsMatchTemplate(m: map<string, FieldModel>, typeMap: map<string, ClassRef>, specialize: FieldSpecializer)
    requires KeyedByName(m)
    requires forall n :: n in m ==> specialize(m[n], typeMap).name == n
    ensures InsertFields(map[], SpecializeEach(FieldsInOrder(m), typeMap, specialize)).Keys == m.Keys
    ensures forall n :: n in m ==>
      InsertFields(map[], SpecializeEach(FieldsInOrder(m), typeMap, specialize))[n] == specialize(m[n], typeMap)
  {
    var vs := FieldsInOrder(m);
    var sp := SpecializeEach(vs, typeMap, specialize);
    SpecializedNames(m, typeMap, specialize, vs, sp);
    var r := InsertFields(map[], sp);
    assert r.Keys == m.Keys;
    SpecializedEntries(m, typeMap, specialize, vs, sp);
    assert forall n :: n in m ==> r[n] == specialize(m[n], typeMap);
  }

  lemma SpecializedEntries(m: map<string, FieldModel>, typeMap: map<string, ClassRef>, specialize: FieldSpecializer,
                           vs: seq<FieldModel>, sp: seq<FieldModel>)
    requires KeyedByName(m) && forall n :: n in m ==> m[n] in vs
    requires |sp| == |vs| && forall i :: 0 <= i < |sp| ==> sp[i] == specialize(vs[i], typeMap)
    requires forall i :: 0 <= i < |sp| ==> sp[i].name == vs[i].name
    requires forall i, j :: 0 <= i < j < |sp| ==> sp[i].name != sp[j].name
    ensures forall n :: n in m ==> n in InsertFields(map[], sp) && InsertFields(map[], sp)[n] == specialize(m[n], typeMap)
  {
    forall n | n in m
      ensures n in InsertFields(map[], sp) && InsertFields(map[], sp)[n] == specialize(m[n], typeMap)
    {
      SpecializedEntry(m, typeMap, specialize, vs, sp, n);
    }
  }

  lemma SpecializedEntry(m: map<string, FieldModel>, typeMap: map<string, ClassRef>, specialize: FieldSpecializer,
                         vs: seq<FieldModel>, sp: seq<FieldModel>, n: string)
    requires KeyedByName(m) && n in m && m[n] in vs
    requires |sp| == |vs| && forall i :: 0 <= i < |sp| ==> sp[i] == specialize(vs[i], typeMap)
    requires forall i :: 0 <= i < |sp| ==> sp[i].name == vs[i].name
    requires forall i, j :: 0 <= i < j < |sp| ==> sp[i].name != sp[j].name
    ensures n in InsertFields(map[], sp) && InsertFields(map[], sp)[n] == specialize(m[n], typeMap)
  {
    var i :| 0 <= i < |vs| && vs[i] == m[n];
    InsertFieldsLastWins(map[], sp, i);
  }

  /** The specialised fields carry the template's names, in strictly ascending
      order, and so do not collide. */
  lemma SpecializedNames(m: map<string, FieldModel>, typeMap: map<string, ClassRef>, specialize: FieldSpecializer,
                         vs: seq<FieldModel>, sp: seq<FieldModel>)
    requires KeyedByName(m)
    requires forall n :: n in m ==> specialize(m[n], typeMap).name == n
    requires vs == FieldsInOrder(m) && sp == SpecializeEach(vs, typeMap, specialize)
    ensures |sp| == |vs|
    ensures forall i :: 0 <= i < |sp| ==> sp[i].name == vs[i].name
    ensures forall i, j :: 0 <= i < j < |sp| ==> sp[i].name != sp[j].name
    ensures FieldNames(sp) == m.Keys
  {
    assert forall i :: 0 <= i < |sp| ==> sp[i].name == vs[i].name;
    forall i, j | 0 <= i < j < |sp|
      ensures sp[i].name != sp[j].name
    {
      LessIrreflexive(vs[i].name);
    }
    forall n | n in FieldNames(sp)
      ensures n in m
    {
      var f :| f in sp && f.name == n;
      var i :| 0 <= i < |sp| && sp[i] == f;
    }
    forall n | n in m
      ensures n in FieldNames(sp)
    {
      var i :| 0 <= i < |vs| && vs[i] == m[n];
      assert sp[i] in sp;
    }
  }

  // ---------------------------------------------------------------- methods

  /** Every overload list is non-empty and holds methods of its own name. */
  predicate OverloadsWellFormed(ms: map<string, seq<MethodModel>>)
  {
    forall n :: n in ms ==> IsOverloadList(n, ms[n])
  }

  predicate IsOverloadList(n: string, l: seq<MethodModel>)
  {
    l != [] && forall i :: 0 <= i < |l| ==> l[i].name == n
  }

  function MethodNames(bs: seq<MethodModel>): set<string>
  {
    set b | b in bs :: b.name
  }

  /** getMethods(name): the overload list, or an empty list for an unknown name. */
  function MethodsNamed(ms: map<string, seq<MethodModel>>, n: string): seq<MethodModel>
  {
    if n in ms then ms[n] else []
  }

  /** The methods of bs named n, in order. */
  function Named(bs: seq<MethodModel>, n: string): seq<MethodModel>
  {
    if bs == [] then []
    else (if bs[0].name == n then [bs[0]] else []) + Named(bs[1..], n)
  }

  /** addMethod for a descriptor that was built: append it to its name's list,
      which is created on the name's first occurrence. */
  function AppendMethod(ms: map<string, seq<MethodModel>>, b: MethodModel): (r: map<string, seq<MethodModel>>)
    ensures OverloadsWellFormed(ms) ==> OverloadsWellFormed(r)
  {
    ms[b.name := MethodsNamed(ms, b.name) + [b]]
  }

  function AppendMethods(ms: map<string, seq<MethodModel>>, bs: seq<MethodModel>): (r: map<string, seq<MethodModel>>)
    ensures r.Keys == ms.Keys + MethodNames(bs)
    ensures OverloadsWellFormed(ms) ==> OverloadsWellFormed(r)
    decreases |bs|
  {
    if bs == [] then ms
    else
      assert MethodNames(bs) == {bs[0].name} + MethodNames(bs[1..]) by {
        assert bs == [bs[0]] + bs[1..];
      }
      var ms' := AppendMethod(ms, bs[0]);
      assert ms'.Keys == ms.Keys + {bs[0].name};
      AppendMethods(ms', bs[1..])
  }

  lemma AppendMethodLookup(ms: map<string, seq<MethodModel>>, b: MethodModel, n: string)
    ensures MethodsNamed(AppendMethod(ms, b), n) == MethodsNamed(ms, n) + (if b.name == n then [b] else [])
  {
  }

  /** Associativity of concatenation, an unfolding hint for AppendMethodsLookup:
      stated separately it keeps that proof within its resource budget. */
  lemma SeqAssoc(a: seq<MethodModel>, b: seq<MethodModel>, c: seq<MethodModel>)
    ensures (a + b) + c == a + (b + c)
  {
  }

  /** Overloads accumulate in discovery order after whatever the list already held. */
  lemma {:induction false} AppendMethodsLookup(ms: map<string, seq<MethodModel>>, bs: seq<MethodModel>, n: string)
    ensures MethodsNamed(AppendMethods(ms, bs), n) == MethodsNamed(ms, n) + Named(bs, n)
    decreases |bs|
  {
    if bs != [] {
      var ms' := AppendMethod(ms, bs[0]);
      var head := if bs[0].name == n then [bs[0]] else [];
      AppendMethodsLookup(ms', bs[1..], n);
      AppendMethodLookup(ms, bs[0], n);
      assert Named(bs, n) == head + Named(bs[1..], n);
      SeqAssoc(MethodsNamed(ms, n), head, Named(bs[1..], n));
    }
  }


  /** The descriptors built before the first failure. */
  function BuiltPrefix(rs: seq<MethodBuild>): seq<MethodModel>
  {
    if rs == [] || rs[0].Failure? then [] else [rs[0].value] + BuiltPrefix(rs[1..])
  }

  /** The message of the first descriptor that failed to build, if any. */
  function FirstFailure(rs: seq<MethodBuild>): Option<string>
  {
    if rs == [] then None
    else if rs[0].Failure? then Some(rs[0].error)
    else FirstFailure(rs[1..])
  }

  /** BuiltPrefix holds exactly the descriptors before the first failure, and
      FirstFailure reports the failure that stopped it. */
  lemma {:induction false} BuildOutcome(rs: seq<MethodBuild>)
    ensures FirstFailure(rs).None? <==> forall i :: 0 <= i < |rs| ==> rs[i].Success?
    ensures FirstFailure(rs).None? ==> |BuiltPrefix(rs)| == |rs|
    ensures forall i :: 0 <= i < |BuiltPrefix(rs)| ==> i < |rs| && rs[i] == Success(BuiltPrefix(rs)[i])
    ensures FirstFailure(rs).Some? ==>
      |BuiltPrefix(rs)| < |rs| && rs[|BuiltPrefix(rs)|] == Failure(FirstFailure(rs).value)
  {
    if rs != [] && rs[0].Success? {
      BuildOutcome(rs[1..]);
      assert forall i :: 1 <= i < |rs| ==> rs[i] == rs[1..][i - 1];
    }
  }

  /** Processing the build outcomes from position j on: a built descriptor is
      appended and the rest follows; a failure stops everything. */
  lemma BuildStep(ms: map<string, seq<MethodModel>>, rs: seq<MethodBuild>, j: nat)
    requires j < |rs|
    ensures rs[j].Success? ==>
      AppendMethods(ms, BuiltPrefix(rs[j..])) == AppendMethods(AppendMethod(ms, rs[j].value), BuiltPrefix(rs[j + 1..])) &&
      FirstFailure(rs[j..]) == FirstFailure(rs[j + 1..])
    ensures rs[j].Failure? ==>
      BuiltPrefix(rs[j..]) == [] && FirstFailure(rs[j..]) == Some(rs[j].error)
  {
    assert rs[j..][1..] == rs[j + 1..];
    if rs[j].Success? {
      var rest := BuiltPrefix(rs[j + 1..]);
      assert BuiltPrefix(rs[j..]) == [rs[j].value] + rest;
      assert ([rs[j].value] + rest)[1..] == rest;
    }
  }

  // ---------------------------------------------------------------- type variables

  /** typeMap.put(vars[i], args.get(i)) for i = 0 .. |vars| - 1. */
  function PairUp(vars: seq<string>, args: seq<ClassRef>): (r: map<string, ClassRef>)
    requires |vars| <= |args|
    ensures r.Keys == set v | v in vars
  {
    if vars == [] then map[]
    else
      var k := |vars| - 1;
      assert (set v | v in vars) == (set v | v in vars[..k]) + {vars[k]} by {
        assert vars == vars[..k] + [vars[k]];
      }
      PairUp(vars[..k], args)[vars[k] := args[k]]
  }

  /** Each type variable is bound to the argument at its own position. */
  lemma {:induction false} PairUpAt(vars: seq<string>, args: seq<ClassRef>, i: nat)
    requires |vars| <= |args| && i < |vars|
    requires forall j :: i < j < |vars| ==> vars[j] != vars[i]
    ensures vars[i] in PairUp(vars, args) && PairUp(vars, args)[vars[i]] == args[i]
  {
    var k := |vars| - 1;
    if i < k {
      PairUpAt(vars[..k], args, i);
    }
  }

  /** Arguments beyond the last type variable are ignored. */
  lemma {:induction false} PairUpIgnoresExtra(vars: seq<string>, args: seq<ClassRef>, args': seq<ClassRef>)
    requires |vars| <= |args| && |vars| <= |args'|
    requires args[..|vars|] == args'[..|vars|]
    ensures PairUp(vars, args) == PairUp(vars, args')
  {
    if vars != [] {
      var k := |vars| - 1;
      assert args[k] == args[..|vars|][k];
      assert args[..k] == args'[..k] by {
        assert args[..k] == args[..|vars|][..k];
        assert args'[..k] == args'[..|vars|][..k];
      }
      PairUpIgnoresExtra(vars[..k], args, args');
    }
  }
}
