# ClassModel: verified model of the BSON class-mapping metadata

This project models `org.bson.codecs.configuration.mapper.ClassModel`, the
metadata container the BSON object mapper keeps for one Java class:

- the class's fields, kept in a `TreeMap` by name;
- its overloaded methods, one list per name in discovery order;
- a one-shot `mapped` flag;
- the holder of its collection name.

Reflection (classmate's `TypeResolver` and `MemberResolver`) is replaced by
explicit inputs. A `ClassInfo` says what reflection reports about the class:
its type variables and whether it has a public no-argument constructor.
`Map` receives the discovered field descriptors and, for each discovered
method, either the built `MethodModel` or the message of the exception its
constructor threw.

Modules:

- `Wrappers` (wrappers.dfy): `Option` (Java `null`), `Result` (a call that throws), `Get` (`Map.get`).
- `NameOrder` (name_order.dfy): the `String.compareTo` order that a `TreeMap<String, _>` keeps.
  It proves this order is a strict total order and gives `SortedKeys`, the order a `TreeMap` iterates in.
- `MemberTables` (member_tables.dfy): the field and method tables as values.
  It holds what `put` and the overload append do to them, and the type-variable binding of the specialising constructor.
- `WeightedValues` (weighted_value.dfy): the collection-name holder.
  It records every proposal; the rule that picks the winner is abstract.
- `Mapper` (class_model.dfy): the `ClassModel` class, with `fields`, `methods` and `mapped` updated in place.
  `Discover` is the specification of `map()`. `Create` and `Specialize` stand for the two Java constructors, which can throw.

Behaviour reproduced as the code has it:

- A failed `map()` does not roll back. The fields and the methods built before the failure stay in place, and `mapped` stays false.
  A retry re-inserts equal field descriptors (new instances in Java), which leaves the table equal, and appends the earlier methods a second time (`DiscoverFailure`, `RetryAfterFailure`).
  The code does not roll back, so these partial results are visible to callers.
- `parameterizedTypes` is declared but never written, so `resolveGenericType` always returns `null` (`ResolveGenericType`).
  The type map built by the specialising constructor is local to that constructor and is not stored in the model.
- The specialising constructor does not check argument count. With fewer arguments than type variables, `parameterTypes.get(i)` throws.
  The model returns `IndexOutOfBounds` at that index. Extra arguments are ignored (`PairUpIgnoresExtra`).

## Model

| member | source | states |
|---|---|---|
| NameOrder.Least | bson/src/main/org/bson/codecs/configuration/mapper/ClassModel.java:44 | The first key a `TreeMap` iterates over is the unique key that sorts before every other key under `String.compareTo`. |
| NameOrder.SortedKeys | bson/src/main/org/bson/codecs/configuration/mapper/ClassModel.java:44 | Iteration order of a `TreeMap`: every key exactly once, strictly ascending. |
| MemberTables.InsertFields | bson/src/main/org/bson/codecs/configuration/mapper/ClassModel.java:145-147 | After `fields.put(f.getName(), f)` for each discovered field, the key set is the old keys plus the inserted names. Every entry is still stored under its own name. |
| MemberTables.InsertFieldsLastWins | bson/src/main/org/bson/codecs/configuration/mapper/ClassModel.java:145-147 | Last write wins: the last inserted field with a given name is the one stored under that name. |
| MemberTables.InsertFieldsKeepsOthers | bson/src/main/org/bson/codecs/configuration/mapper/ClassModel.java:184-186 | A name that no inserted field carries keeps its previous entry, or stays absent. |
| MemberTables.InsertFieldsIdempotent | bson/src/main/org/bson/codecs/configuration/mapper/ClassModel.java:145-147 | Inserting the same discovered fields a second time leaves the table unchanged. |
| MemberTables.FieldsInOrder | bson/src/main/org/bson/codecs/configuration/mapper/ClassModel.java:118-120 | The value list of the field table has one entry per field and contains every stored field. Its names are strictly ascending, and each element is the field stored under its name. |
| MemberTables.SpecializedFieldsMatchTemplate | bson/src/main/org/bson/codecs/configuration/mapper/ClassModel.java:88-91 | If specialising keeps field names, the specialised table has exactly the template's names. Each name is bound to the specialised copy of the template's field. |
| MemberTables.AppendMethods | bson/src/main/org/bson/codecs/configuration/mapper/ClassModel.java:149-151 | Appending built methods adds exactly their names as keys. Every overload list stays non-empty and holds only methods of its own name. |
| MemberTables.AppendMethodsLookup | bson/src/main/org/bson/codecs/configuration/mapper/ClassModel.java:168-172 | The list for a name is the old list followed by every appended method of that name, in order. The list is created on the name's first occurrence. |
| MemberTables.BuildOutcome | bson/src/main/org/bson/codecs/configuration/mapper/ClassModel.java:166-175 | Methods are appended up to the first descriptor that fails to build. That failure's message is the one reported. With no failure, every descriptor is appended. |
| MemberTables.PairUp | bson/src/main/org/bson/codecs/configuration/mapper/ClassModel.java:84-87 | The type map's keys are exactly the template's type-variable names. |
| MemberTables.PairUpAt | bson/src/main/org/bson/codecs/configuration/mapper/ClassModel.java:85-86 | The i-th type variable is bound to the i-th argument. |
| MemberTables.PairUpIgnoresExtra | bson/src/main/org/bson/codecs/configuration/mapper/ClassModel.java:85-86 | Arguments beyond the last type variable do not affect the type map. |
| Mapper.Discover | bson/src/main/org/bson/codecs/configuration/mapper/ClassModel.java:134-154 | The specification of `map()`. It keeps the model well formed: fields stored under their own names, overload lists non-empty and name-consistent. |
| Mapper.DiscoverIdempotent | bson/src/main/org/bson/codecs/configuration/mapper/ClassModel.java:134-135 | After a successful `map()` the model is mapped, and any further `map()` changes nothing and throws nothing. |
| Mapper.DiscoverFailure | bson/src/main/org/bson/codecs/configuration/mapper/ClassModel.java:149-152 | `map()` of an unmapped model throws exactly when some method descriptor fails to build. It reports the first such failure and leaves `mapped` false. |
| Mapper.DiscoveredFieldLastWins | bson/src/main/org/bson/codecs/configuration/mapper/ClassModel.java:145-147 | After `map()`, succeeded or failed, `getField(n)` is the last discovered field named `n`. |
| Mapper.DiscoveredMethodsInOrder | bson/src/main/org/bson/codecs/configuration/mapper/ClassModel.java:149-151 | After a successful `map()`, `getMethods(n)` is the previous list followed by every discovered method named `n`, in discovery order. |
| Mapper.RetryAfterFailure | bson/src/main/org/bson/codecs/configuration/mapper/ClassModel.java:145-152 | Calling `map()` again after a failure gives the same fields. Each method built before the failure is appended a second time. |
| Mapper.ClassModel.constructor | bson/src/main/org/bson/codecs/configuration/mapper/ClassModel.java:61-66 | A new model has empty tables, is not mapped, and has a fresh, empty collection-name holder. |
| Mapper.ClassModel.Specialized | bson/src/main/org/bson/codecs/configuration/mapper/ClassModel.java:76-91 | The new model has the template's class, collaborators and collection-name holder. It has the template's fields specialised in name order and stored under their names, no methods, and is not mapped. |
| Mapper.ClassModel.GetCollectionName | bson/src/main/org/bson/codecs/configuration/mapper/ClassModel.java:99-101 | Returns what the shared holder currently resolves to. |
| Mapper.ClassModel.GetField | bson/src/main/org/bson/codecs/configuration/mapper/ClassModel.java:109-111 | Absent exactly when no field has that name. Otherwise it is the stored field, which carries that name. |
| Mapper.ClassModel.GetFields | bson/src/main/org/bson/codecs/configuration/mapper/ClassModel.java:118-120 | One entry per field, each the field stored under its name, in strictly ascending name order. |
| Mapper.ClassModel.Map | bson/src/main/org/bson/codecs/configuration/mapper/ClassModel.java:134-154 | The new state and the exception thrown are those given by `Discover`. The model stays well formed. |
| Mapper.ClassModel.ResolveGenericType | bson/src/main/org/bson/codecs/configuration/mapper/ClassModel.java:156-158 | Always absent: the parameterised-type table (line 51) is never filled in. |
| Mapper.ClassModel.AddMethod | bson/src/main/org/bson/codecs/configuration/mapper/ClassModel.java:164-176 | A descriptor that fails to build throws `ClassMappingException` with its message and changes nothing. A built one is appended to its name's list. |
| Mapper.ClassModel.AddField | bson/src/main/org/bson/codecs/configuration/mapper/ClassModel.java:184-186 | Single-key overwrite `fields[m.name] := m`. Methods and `mapped` are unchanged. |
| Mapper.ClassModel.GetMethods | bson/src/main/org/bson/codecs/configuration/mapper/ClassModel.java:194-197 | Empty exactly for an unknown name, never absent. Every returned method has that name. |
| Mapper.ClassModel.SetCollectionName | bson/src/main/org/bson/codecs/configuration/mapper/ClassModel.java:206-208 | Passes weight and name straight to the holder, which records them as its latest proposal. |
| Mapper.Create | bson/src/main/org/bson/codecs/configuration/mapper/ClassModel.java:61-72 | Fails with `ClassMappingException` carrying the lookup message when there is no public no-argument constructor; nothing is mapped. Otherwise the model starts empty and unmapped. |
| Mapper.BindTypeVariables | bson/src/main/org/bson/codecs/configuration/mapper/ClassModel.java:83-87 | Too few arguments: `IndexOutOfBounds` at the first missing index. Otherwise the positional pairing `PairUp`. |
| Mapper.Specialize | bson/src/main/org/bson/codecs/configuration/mapper/ClassModel.java:74-92 | Forces `map()` on the template and passes on its exception. Then binds type variables by position and builds the specialised model. That model keeps the template's class, registry and resolver, shares the template's holder, has no methods and is not mapped. |
| Mapper.SpecializedFieldCount | bson/src/main/org/bson/codecs/configuration/mapper/ClassModel.java:88-91 | If specialising keeps names, a specialised model has as many fields as its template. |

## Left out

- Reflection and classmate type resolution are not modelled: `TypeResolver.resolve`, `MemberResolver`, `StdConfiguration`/`AnnotationInclusion`, `getConstructor().setAccessible` and `getTypeParameters`. They are foreign library calls; their results are the `ClassInfo` and the inputs of `Map`. The `memberResolver` field is not kept.
- `typeParameters` and `MappedType.addParameter` (lines 52, 139-143) are left out. `MappedType` is not part of this model, and the list only copies reflection output.
- `getName` (lines 127-129) only returns `getSimpleName()` of the class. `ClassInfo.simpleName` holds it, but there is no accessor.
- `FieldModel`, `MethodModel` and the `CodecRegistry` are opaque. They are not part of this model.
  - Building a `FieldModel` from a discovered field always succeeds here. An exception from that constructor would propagate unwrapped in Java.
  - The specialising `FieldModel(existing, typeMap)` is a function parameter.
- `WeightedValue` is not part of this model. Its priority rule is an abstract function of the recorded proposals, fixed when the holder is created. A `null` weight is not modelled.
- Method lists are values. Java's `getMethods` returns the live list, so a caller that changes it changes the model; that aliasing is not captured.
- `String.compareTo` compares UTF-16 code units, while the model compares Dafny characters (Unicode scalar values). The two orders differ only for characters outside the Basic Multilingual Plane.
- Mapper.MappingFailure: `ClassMappingException(message)` keeps only the message. Java also passes the caught exception as the cause (ClassModel.java lines 70 and 174); exception chaining is not modelled.
- Mapper.MappingFailure: the message is a plain string. In Java `e.getMessage()` may be `null`; that case is not distinguished from a message.
- `FieldModel` and `MethodModel` are values. Each `map()` call in Java builds new `FieldModel` instances (line 161), so a retry replaces each stored descriptor with a new, equal object. The model cannot tell the two apart, so object identity of stored descriptors is not captured.
- Thread safety is not modelled: the class has no synchronisation.
- MemberTables.SpecializedFieldsMatchTemplate: holds only when specialising keeps each field's name. Whether it does is decided inside `FieldModel`, which is not shown.
- Mapper.SpecializedFieldCount: holds only under the same name-preservation assumption.
