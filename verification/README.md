# Spring Data entity processor, modelled in Dafny

The entity processor generates code at build time. For each persistent domain type of an application, it writes a `ConfigurableTypeInformation` subclass, plus a substitution of `ClassTypeInformation.from` that returns those classes instead of reflecting at run time. The generated classes describe a type's constructor, its properties and their accessors and annotations.

This project models that pipeline as pure functions over an explicit description of the Java types involved. It covers both revisions of the code: the older one directly in `org.springframework.data` and the newer one under `entity/processor`.

- `wrappers.dfy` (`Wrappers`): `Option`, `Result` and the Java exceptions the code can throw (`NullPointerException`, `IllegalArgumentException`, `IllegalStateException`, `ClassCastException`).
- `text.dfy` (`Text`): string helpers: joining, decimal digits, prefix tests, replacement.
- `java_types.dfy` (`JavaTypes`): classes and their binary, canonical and simple names, primitive boxing, the table of known simple configured types, and Spring's `ResolvableType` as a datatype (`Unresolved`, type variables, parameterised types, arrays).
- `annotations.dfy` (`Annotations`): annotation values and how the writers spell them (strings quoted, enums qualified, anything else verbatim).
- `properties.dfy` (`Properties`): one record shared by the three revisions of the property model (`PropertyModel`, the older `PropertyInfo`, and the `PropertyInfo` of the model package). The list, map and domain-type subclasses are its shape.
- `registry.dfy` (`Registry`): `ConstructorModel`, `TypeInfo` and the insertion-ordered registry `DomainTypes`.
- `signatures.dfy` (`Signatures`): the newer `TypeSignature`, which gives the Java signature of a field or class and the expression that builds its type information.
- `legacy_signatures.dfy` (`LegacySignatures`): the older `TypeSignature`, `GenericsInfo`, and `initSignatureFrom` of the older writer, each compared with the newer signature.
- `generator.dfy` (`Generator`): `DataModelGenerator`. It builds the memoized registry of type models, registering each class before it is populated, so cyclic types terminate. Termination is measured by the classes not yet registered in a finite universe.
- `scanner.dfy` (`Scanner`): `PersistableEntityScanner`. It is a depth-first walk over field types, guarded by a set of classes already seen, plus the selection of roots among the classes of a package.
- `statements.dfy` (`Statements`): the statement tokens of one property (declaration, getter, setter, wither, annotations, `addField`) and the substitution's dispatch.
- `model_writer.dfy` (`ModelWriter`): the newer `DataModelFileWriter`, covering file builders, naming, the super call, the constructor expression, field statements and the substitution.
- `poet_writer.dfy` (`PoetWriter`): `JavaPoetFileWriter`, shown to emit the same statements as the newer writer.
- `legacy_writer.dfy` (`LegacyWriter`): the older `DataModelFileWriter`, covering `computeTypeInfoInit`, `getConfiguredTypeInformationString`, `addField` with its chained calls, `process` and the substitution.

Reflection is an input. A class carries its names, its kind, its superclass and its arity. A field carries its declared generic type and annotations. A bean property is described by its name, its class and the accessors it has. A class's preferred constructor is given as its parameter list, or as none. Generated code is modelled as strings, or as sequences of statement tokens, never as JavaPoet objects. An exception is modelled as a `Result` failure.

Two behaviours of the code shape the model.

- `isTransientProperty` (maven-plugin/spring-data-entity-processor-maven-plugin/src/main/java/org/springframework/data/DataModelGenerator.java:177-183) keeps every property that has an accessor, whether or not a field backs it. Such a property without a backing field reaches `TypeSignature.fromField` with a null field. Spring's `ResolvableType.forField` rejects it with "Field must not be null", which aborts the build. The model follows the code: see `Generator.ExpectedCarriesFacts`.
- A map property is meant to describe its key and its value (`mapKeyType`, `mapValueType` and their `TypeInfo` variants, maven-plugin/spring-data-entity-processor-maven-plugin/src/main/java/org/springframework/data/PropertyInfo.java:293-316). In all three revisions, `mapKeyType(TypeInfo)` writes the key's type model into the value slots. The model keeps that definition (`Properties.MapOfAsWritten`) and proves the loss. The generator uses the corrected one (see Findings).

A remark on the scanner: every visit in `collectTypes` is preceded by `if (!seen.contains(x))`, but `collectTypes` checks the seen set itself. `Scanner.GuardIsRedundant` proves that the guard never changes the result. The guard on a map's value type compares a `TypeInformation` with classes and therefore always passes; by the same lemma this is harmless.

## Model

| member | source | states |
|---|---|---|
| Annotations.ArgumentValueText | maven-plugin/spring-data-entity-processor-maven-plugin/src/main/java/org/springframework/data/entity/processor/writer/DataModelFileWriter.java:233-247 | the nested value tests give, for every argument value, the reference literal: an enum constant qualified by its type, a string in double quotes, anything else as printed |
| Registry.NewConstructorInfo | maven-plugin/spring-data-entity-processor-maven-plugin/src/main/java/org/springframework/data/ConstructorModel.java:37-61 | the constructor model belongs to its type and lists the discovered constructor's parameters in order, or none when no constructor is found |
| Registry.NoArgConstructorCases | maven-plugin/spring-data-entity-processor-maven-plugin/src/main/java/org/springframework/data/ConstructorModel.java:49-65 | a type is built through its no-argument form exactly when no constructor was found or the one found has no parameters |
| Registry.NewTypeInfo | maven-plugin/spring-data-entity-processor-maven-plugin/src/main/java/org/springframework/data/entity/processor/model/TypeInfo.java:39-44 | a new type model holds its class and no annotations, properties or constructor |
| Registry.AddAll | maven-plugin/spring-data-entity-processor-maven-plugin/src/main/java/org/springframework/data/entity/processor/model/TypeInfo.java:56-59 | adding to an insertion-ordered set keeps what was there as a prefix, ends up holding exactly the old and new elements, and never creates a duplicate |
| Registry.AddAllConcat | maven-plugin/spring-data-entity-processor-maven-plugin/src/main/java/org/springframework/data/entity/processor/model/TypeInfo.java:56-59 | adding two batches one after the other is adding their concatenation once |
| Registry.AddAnnotationsKeeps | maven-plugin/spring-data-entity-processor-maven-plugin/src/main/java/org/springframework/data/entity/processor/model/TypeInfo.java:56-59 | `annotations(set)` keeps the class, properties and constructor, keeps earlier annotations in front and holds exactly the old and the new ones |
| Registry.Lookup | maven-plugin/spring-data-entity-processor-maven-plugin/src/main/java/org/springframework/data/entity/processor/model/DomainTypes.java:49-51 | the lookup finds a model exactly when one is registered for the class, and then it is the first such model in registration order |
| Registry.ContainsIffRegistered | maven-plugin/spring-data-entity-processor-maven-plugin/src/main/java/org/springframework/data/entity/processor/model/DomainTypes.java:45-47 | `containsDomainTypeModelForClass` holds exactly for the registered classes |
| Registry.ContainsMonotone | maven-plugin/spring-data-entity-processor-maven-plugin/src/main/java/org/springframework/data/entity/processor/model/DomainTypes.java:41-51 | registering more types never loses a registered class |
| Registry.SetConstructorReplaces | maven-plugin/spring-data-entity-processor-maven-plugin/src/main/java/org/springframework/data/entity/processor/model/TypeInfo.java:61-63 | `setConstructor` replaces the constructor slot, the last call winning, and keeps the class, annotations and properties |
| Registry.AddPropertyAppends | maven-plugin/spring-data-entity-processor-maven-plugin/src/main/java/org/springframework/data/entity/processor/model/TypeInfo.java:65-69 | `addProperty` puts the property after all earlier ones, so iteration follows insertion order, and changes nothing else |
| Registry.ConstructorArgsAgree | maven-plugin/spring-data-entity-processor-maven-plugin/src/main/java/org/springframework/data/entity/processor/model/TypeInfo.java:46-50 | `getConstructorArgs` reports the parameters the constructor model records, and nothing when no preferred constructor exists |
| Registry.EmptyRegistryHoldsNothing | maven-plugin/spring-data-entity-processor-maven-plugin/src/main/java/org/springframework/data/entity/processor/model/DomainTypes.java:33-39 | the default registry finds no type model for any class and contains none |
| Properties.NewPropertyInfo | maven-plugin/spring-data-entity-processor-maven-plugin/src/main/java/org/springframework/data/PropertyInfo.java:51-61 | the constructor succeeds exactly when the owner declares the field; the record holds owner, name and class, no accessors or annotations, and list and map flags that hold exactly for list and map classes |
| Properties.NewPropertyModel | maven-plugin/spring-data-entity-processor-maven-plugin/src/main/java/org/springframework/data/PropertyModel.java:43-48 | the oldest constructor records owner, name and class only, with every kind flag false |
| Properties.Specialise | maven-plugin/spring-data-entity-processor-maven-plugin/src/main/java/org/springframework/data/PropertyInfo.java:202-205 | the subclass copy constructor keeps revision, owner, name, class and field but no accessors and no annotations |
| Properties.SimpleType | maven-plugin/spring-data-entity-processor-maven-plugin/src/main/java/org/springframework/data/PropertyInfo.java:63-66 | `simpleType()` marks the property simple and changes nothing else |
| Properties.ListOf | maven-plugin/spring-data-entity-processor-maven-plugin/src/main/java/org/springframework/data/PropertyInfo.java:152-158 | `listOf` yields a list-typed property |
| Properties.ListOfRoundTrip | maven-plugin/spring-data-entity-processor-maven-plugin/src/main/java/org/springframework/data/PropertyInfo.java:206-216 | `listOf` stores exactly the element it is given, and `isSimpleValueType()` holds exactly when that element is a plain class |
| Properties.MapOf | maven-plugin/spring-data-entity-processor-maven-plugin/src/main/java/org/springframework/data/PropertyInfo.java:160-174 | the corrected `mapOf` yields a map-typed property |
| Properties.MapOfAsWritten | maven-plugin/spring-data-entity-processor-maven-plugin/src/main/java/org/springframework/data/PropertyInfo.java:160-174 | `mapOf` as written also yields a map-typed property |
| Properties.MapOfRoundTrip | maven-plugin/spring-data-entity-processor-maven-plugin/src/main/java/org/springframework/data/PropertyInfo.java:293-316 | with the key setter corrected, every `mapOf` overload stores exactly its key and its value |
| Properties.MapOfAsWrittenLosesKey | maven-plugin/spring-data-entity-processor-maven-plugin/src/main/java/org/springframework/data/PropertyInfo.java:311-316 | as written, a domain-typed key is not recorded as the key, and with a plain-class value the key's type model sits in the value slot |
| Properties.MapOfAsWrittenAgreesOnClassKeys | maven-plugin/spring-data-entity-processor-maven-plugin/src/main/java/org/springframework/data/PropertyInfo.java:306-316 | the written and corrected `mapOf` agree exactly when the key is a plain class |
| Properties.DomainType | maven-plugin/spring-data-entity-processor-maven-plugin/src/main/java/org/springframework/data/PropertyInfo.java:176-178 | `domainType(typeInfo)` records the type model of the domain class |
| Properties.SpecialisedQueries | maven-plugin/spring-data-entity-processor-maven-plugin/src/main/java/org/springframework/data/PropertyInfo.java:98-108 | list, map and domain-typed subclasses answer `isListType`, `isMapType` and `isSimpleType` by subclass, not by the declared class |
| Properties.SimpleMarkNotCopied | maven-plugin/spring-data-entity-processor-maven-plugin/src/main/java/org/springframework/data/PropertyInfo.java:56-66 | marking a property simple and then making it a list loses the mark, since the copy recomputes the flag from the declared class |
| Properties.AccessorSettersKeep | maven-plugin/spring-data-entity-processor-maven-plugin/src/main/java/org/springframework/data/entity/processor/model/PropertyInfo.java:94-110 | `getter`, `setter` and `wither` each fill only their own slot, keep everything else, and leave the property with accessor methods |
| Properties.SpecialisedCopies | maven-plugin/spring-data-entity-processor-maven-plugin/src/main/java/org/springframework/data/entity/processor/model/PropertyInfo.java:136-162 | `listOf`, `mapOf` and `domainType` return a new record with the original's owner, name, declared class and field, but none of its accessors or annotations |
| Signatures.FromField | maven-plugin/spring-data-entity-processor-maven-plugin/src/main/java/org/springframework/data/entity/processor/model/TypeSignature.java:47-49 | a field-based signature reads the field's declared generic type and remembers that a field backs it |
| Signatures.FromClass | maven-plugin/spring-data-entity-processor-maven-plugin/src/main/java/org/springframework/data/entity/processor/model/TypeSignature.java:51-53 | a class-based signature resolves to that very class and has no field |
| Signatures.From | maven-plugin/spring-data-entity-processor-maven-plugin/src/main/java/org/springframework/data/entity/processor/model/TypeSignature.java:55-57 | looking a signature up by owner and field name succeeds exactly when the field exists, and then it is that field's signature |
| Signatures.PackageNameOf | maven-plugin/spring-data-entity-processor-maven-plugin/src/main/java/org/springframework/data/entity/processor/model/TypeSignature.java:59-61 | the package name is defined exactly when the type resolves to a class that has a package; otherwise the call dereferences null |
| Signatures.SimpleNameOf | maven-plugin/spring-data-entity-processor-maven-plugin/src/main/java/org/springframework/data/entity/processor/model/TypeSignature.java:63-65 | the simple name is defined exactly when the type resolves |
| Signatures.CanonicalConfigurableTypeName | maven-plugin/spring-data-entity-processor-maven-plugin/src/main/java/org/springframework/data/entity/processor/model/TypeSignature.java:67-69 | the generated class's canonical name is defined exactly when the type resolves |
| Signatures.CanonicalSuperConfigurableTypeName | maven-plugin/spring-data-entity-processor-maven-plugin/src/main/java/org/springframework/data/entity/processor/model/TypeSignature.java:71-77 | the super name is defined exactly when the type resolves, and is null exactly when the class has no superclass |
| Signatures.SimpleConfigurableTypeName | maven-plugin/spring-data-entity-processor-maven-plugin/src/main/java/org/springframework/data/entity/processor/model/TypeSignature.java:79-81 | the generated class's simple name is defined exactly when the type resolves |
| Signatures.JavaSignature | maven-plugin/spring-data-entity-processor-maven-plugin/src/main/java/org/springframework/data/entity/processor/model/TypeSignature.java:95-117 | the Java spelling of a type fails only through a null dereference |
| Signatures.JavaSignatures | maven-plugin/spring-data-entity-processor-maven-plugin/src/main/java/org/springframework/data/entity/processor/model/TypeSignature.java:107-115 | the spelling of the generic arguments has one entry per argument and fails only through a null dereference |
| Signatures.InitSignature | maven-plugin/spring-data-entity-processor-maven-plugin/src/main/java/org/springframework/data/entity/processor/model/TypeSignature.java:119-175 | the configurable-type expression fails only through a null dereference |
| Signatures.InitSignatures | maven-plugin/spring-data-entity-processor-maven-plugin/src/main/java/org/springframework/data/entity/processor/model/TypeSignature.java:162-170 | the expressions of the generic arguments have one entry per argument and fail only through a null dereference |
| Signatures.InitSignaturesEach | maven-plugin/spring-data-entity-processor-maven-plugin/src/main/java/org/springframework/data/entity/processor/model/TypeSignature.java:162-170 | the argument expressions exist exactly when each argument's does, and the i-th is the i-th argument's |
| Signatures.ObjectIsObject | maven-plugin/spring-data-entity-processor-maven-plugin/src/main/java/org/springframework/data/entity/processor/model/TypeSignature.java:135-137 | a field-backed unregistered `Object` becomes `SimpleConfiguredTypes.object()` |
| Signatures.TypeVariableIsNamed | maven-plugin/spring-data-entity-processor-maven-plugin/src/main/java/org/springframework/data/entity/processor/model/TypeSignature.java:158-161 | a field-backed type variable whose bound is no registered class, list, map or `Object` is written as its own name |
| Signatures.GenericClassJoinsArguments | maven-plugin/spring-data-entity-processor-maven-plugin/src/main/java/org/springframework/data/entity/processor/model/TypeSignature.java:162-170 | an unregistered generic class other than a list, a map or `Object` becomes its canonical name with the argument expressions joined by `, ` in angle brackets, and exists exactly when every argument's does |
| Signatures.InitSignatureTotal | maven-plugin/spring-data-entity-processor-maven-plugin/src/main/java/org/springframework/data/entity/processor/model/TypeSignature.java:119-175 | for a field-backed signature whose array components all resolve, the expression always exists |
| Signatures.InitSignaturesTotal | maven-plugin/spring-data-entity-processor-maven-plugin/src/main/java/org/springframework/data/entity/processor/model/TypeSignature.java:162-170 | the same for a list of generic arguments |
| Signatures.JavaSignatureTotal | maven-plugin/spring-data-entity-processor-maven-plugin/src/main/java/org/springframework/data/entity/processor/model/TypeSignature.java:95-117 | the Java spelling always exists when array components resolve |
| Signatures.JavaSignaturesTotal | maven-plugin/spring-data-entity-processor-maven-plugin/src/main/java/org/springframework/data/entity/processor/model/TypeSignature.java:107-115 | the same for a list of generic arguments |
| Signatures.ClassSignatureRefersToGeneratedType | maven-plugin/spring-data-entity-processor-maven-plugin/src/main/java/org/springframework/data/entity/processor/model/TypeSignature.java:119-123 | a class-based signature always refers to the singleton of the generated class named by `getCanonicalConfigurableTypeName()`, registered or not |
| Signatures.UnbackedSignatureNeedsResolution | maven-plugin/spring-data-entity-processor-maven-plugin/src/main/java/org/springframework/data/entity/processor/model/TypeSignature.java:119-123 | without a field, the expression exists exactly when the type resolves |
| Signatures.RegisteredTypeIsReferenced | maven-plugin/spring-data-entity-processor-maven-plugin/src/main/java/org/springframework/data/entity/processor/model/TypeSignature.java:121-123 | a registered domain type is always referenced through its generated singleton |
| Signatures.PrimitiveAndWrapperAgree | maven-plugin/spring-data-entity-processor-maven-plugin/src/test/java/org/springframework/data/entity/processor/model/TypeSignatureUnitTests.java:54-60 | a primitive and its wrapper get the same expression and the same Java spelling, the wrapper's |
| Signatures.UnresolvableCollectionsAreRaw | maven-plugin/spring-data-entity-processor-maven-plugin/src/test/java/org/springframework/data/entity/processor/model/TypeSignatureUnitTests.java:103-118 | a raw, wildcard or type-variable list is the untyped list, and a map with any unresolvable argument is the untyped map |
| Signatures.ListsRecurse | maven-plugin/spring-data-entity-processor-maven-plugin/src/main/java/org/springframework/data/entity/processor/model/TypeSignature.java:139-147 | a list of a resolvable argument is `listOf` around that argument's expression, and exists exactly when it does |
| Signatures.MapsRecurse | maven-plugin/spring-data-entity-processor-maven-plugin/src/main/java/org/springframework/data/entity/processor/model/TypeSignature.java:148-156 | a map of two resolvable arguments is `mapOf` around the key's and the value's expressions, key first, and exists exactly when both do |
| Signatures.NestedListsRecurse | maven-plugin/spring-data-entity-processor-maven-plugin/src/test/java/org/springframework/data/entity/processor/model/TypeSignatureUnitTests.java:157-163 | `List<List<String>>` becomes `listOf(listOf(get(String.class)))` |
| LegacySignatures.LegacyInitSignature | maven-plugin/spring-data-entity-processor-maven-plugin/src/main/java/org/springframework/data/TypeSignature.java:86-142 | the old expression builder fails only through a null dereference |
| LegacySignatures.LegacyInitSignatures | maven-plugin/spring-data-entity-processor-maven-plugin/src/main/java/org/springframework/data/TypeSignature.java:129-137 | the old expressions of the generic arguments have one entry per argument and fail only through a null dereference |
| LegacySignatures.LegacyInitSignaturesEach | maven-plugin/spring-data-entity-processor-maven-plugin/src/main/java/org/springframework/data/TypeSignature.java:129-137 | the old argument expressions exist exactly when each argument's does, and the i-th is the i-th argument's |
| LegacySignatures.LegacyObjectIsObject | maven-plugin/spring-data-entity-processor-maven-plugin/src/main/java/org/springframework/data/TypeSignature.java:102-104 | an unregistered `Object` becomes `SimpleConfiguredTypes.object()` |
| LegacySignatures.LegacyTypeVariableIsNamed | maven-plugin/spring-data-entity-processor-maven-plugin/src/main/java/org/springframework/data/TypeSignature.java:125-128 | a type variable whose bound is no registered class, list, map or `Object` is written as its own name |
| LegacySignatures.LegacyGenericClassJoinsArguments | maven-plugin/spring-data-entity-processor-maven-plugin/src/main/java/org/springframework/data/TypeSignature.java:129-137 | an unregistered generic class other than a list, a map or `Object` becomes its canonical name with the argument expressions joined by `, ` in angle brackets, and exists exactly when every argument's does |
| LegacySignatures.RevisionsAgree | maven-plugin/spring-data-entity-processor-maven-plugin/src/main/java/org/springframework/data/TypeSignature.java:86-142 | for every field-backed type and registry, the old and the model package's `initSignatureFrom` build the same expression |
| LegacySignatures.RevisionsAgreeAll | maven-plugin/spring-data-entity-processor-maven-plugin/src/main/java/org/springframework/data/TypeSignature.java:129-137 | the same for lists of generic arguments |
| LegacySignatures.DefaultRegistryFallsThrough | maven-plugin/spring-data-entity-processor-maven-plugin/src/main/java/org/springframework/data/TypeSignature.java:58-60 | with the default empty registry a plain class is spelled as a simple configured type, and once registered it is spelled through its generated singleton |
| LegacySignatures.MapOfListOfDomain | maven-plugin/spring-data-entity-processor-maven-plugin/src/test/java/org/springframework/data/TypeSignatureUnitTests.java:240-246 | `Map<String, List<Domain>>` with `Domain` registered becomes `mapOf` of the key's simple type and `listOf` of the domain singleton |
| LegacySignatures.Describe | maven-plugin/spring-data-entity-processor-maven-plugin/src/main/java/org/springframework/data/GenericsInfo.java:48-50 | Spring's rendering of a type prints `?` for a type that does not resolve |
| LegacySignatures.DescribeAll | maven-plugin/spring-data-entity-processor-maven-plugin/src/main/java/org/springframework/data/GenericsInfo.java:58-66 | one rendering per argument |
| LegacySignatures.GenericsSignature | maven-plugin/spring-data-entity-processor-maven-plugin/src/main/java/org/springframework/data/GenericsInfo.java:46-68 | the generics signature prints `?` for an unresolved type and the variable's name for a type variable |
| LegacySignatures.GenericsSignatures | maven-plugin/spring-data-entity-processor-maven-plugin/src/main/java/org/springframework/data/GenericsInfo.java:58-66 | one signature per generic argument |
| LegacySignatures.WriterInitSignature | maven-plugin/spring-data-entity-processor-maven-plugin/src/main/java/org/springframework/data/DataModelFileWriter.java:254-306 | the old writer's expression prints `?` for an unresolved type |
| LegacySignatures.WriterInitSignatures | maven-plugin/spring-data-entity-processor-maven-plugin/src/main/java/org/springframework/data/DataModelFileWriter.java:292-300 | one expression per generic argument |
| LegacySignatures.WriterAgreesWithoutArrays | maven-plugin/spring-data-entity-processor-maven-plugin/src/main/java/org/springframework/data/DataModelFileWriter.java:254-306 | away from arrays, the old writer builds exactly what the old `TypeSignature` builds with the empty registry |
| LegacySignatures.WriterAgreesWithoutArraysAll | maven-plugin/spring-data-entity-processor-maven-plugin/src/main/java/org/springframework/data/DataModelFileWriter.java:292-300 | the same for lists of generic arguments |
| LegacySignatures.SpellAll | maven-plugin/spring-data-entity-processor-maven-plugin/src/main/java/org/springframework/data/TypeSignature.java:74-82 | one spelling per argument |
| LegacySignatures.JavaSignatureSpells | maven-plugin/spring-data-entity-processor-maven-plugin/src/main/java/org/springframework/data/entity/processor/model/TypeSignature.java:95-117 | the model package's Java signature of an array-free type is the reference spelling with a bare comma between arguments |
| LegacySignatures.JavaSignaturesSpell | maven-plugin/spring-data-entity-processor-maven-plugin/src/main/java/org/springframework/data/entity/processor/model/TypeSignature.java:107-115 | the same for lists of arguments |
| LegacySignatures.GenericsSignatureSpells | maven-plugin/spring-data-entity-processor-maven-plugin/src/main/java/org/springframework/data/GenericsInfo.java:46-68 | `GenericsInfo` spells an array-free type like the reference, with a comma and a space between arguments |
| LegacySignatures.GenericsSignaturesSpell | maven-plugin/spring-data-entity-processor-maven-plugin/src/main/java/org/springframework/data/GenericsInfo.java:58-66 | the same for lists of arguments |
| LegacySignatures.ArraySpellings | maven-plugin/spring-data-entity-processor-maven-plugin/src/main/java/org/springframework/data/DataModelFileWriter.java:256-258 | for an array of a plain class, the old `TypeSignature` wraps the component's expression in `arrayOf`, the Java signature uses the canonical name, and `GenericsInfo` and the old writer print Spring's rendering of the component, its binary name |
| Statements.AccessorStatements | maven-plugin/spring-data-entity-processor-maven-plugin/src/main/java/org/springframework/data/entity/processor/writer/DataModelFileWriter.java:198-206 | a getter, setter and wither call each appear exactly when the property has that accessor, all on the property's variable and owner, and none at all for a property without accessors |
| Statements.AnnotationStatements | maven-plugin/spring-data-entity-processor-maven-plugin/src/main/java/org/springframework/data/entity/processor/writer/DataModelFileWriter.java:208-214 | one statement per annotation, in the annotations' order, with `@Id` written as `annotatedWithAtId()` |
| Statements.AnnotationMethods | maven-plugin/spring-data-entity-processor-maven-plugin/src/main/java/org/springframework/data/entity/processor/writer/DataModelFileWriter.java:225-249 | the anonymous annotation class has `annotationType()` first and then one method per argument, in order, named after the member and returning the argument's literal |
| Statements.FieldStatements | maven-plugin/spring-data-entity-processor-maven-plugin/src/main/java/org/springframework/data/entity/processor/writer/DataModelFileWriter.java:183-218 | a property's statements exist exactly when it has a field and an annotation set and both its Java signature and its type expression exist; the only failure is a null dereference |
| Statements.FieldStatementsShape | maven-plugin/spring-data-entity-processor-maven-plugin/src/main/java/org/springframework/data/entity/processor/writer/DataModelFileWriter.java:183-218 | the statements form one block for the property's variable: the declaration first, then exactly its accessor calls, then its annotations in order, then `addField` last |
| Statements.FieldStatementsAll | maven-plugin/spring-data-entity-processor-maven-plugin/src/main/java/org/springframework/data/entity/processor/writer/DataModelFileWriter.java:176-181 | the statements of a type's properties exist exactly when each property's do, and the only failure is a null dereference |
| Statements.OneAddFieldPerProperty | maven-plugin/spring-data-entity-processor-maven-plugin/src/main/java/org/springframework/data/entity/processor/writer/DataModelFileWriter.java:176-181 | each property is added exactly once, by its own name, in property order |
| Statements.OneDeclarationPerProperty | maven-plugin/spring-data-entity-processor-maven-plugin/src/main/java/org/springframework/data/entity/processor/writer/DataModelFileWriter.java:176-181 | each property's variable is declared exactly once, in property order |
| Statements.DispatchFirst | maven-plugin/spring-data-entity-processor-maven-plugin/src/main/java/org/springframework/data/entity/processor/writer/DataModelFileWriter.java:108-115 | in the substituted `from(type)`, the first branch testing a class decides what that class gets |
| Statements.DispatchMiss | maven-plugin/spring-data-entity-processor-maven-plugin/src/main/java/org/springframework/data/entity/processor/writer/DataModelFileWriter.java:108-115 | a class that no branch tests gets the cached `ClassTypeInformation` |
| ModelWriter.SuperCall | maven-plugin/spring-data-entity-processor-maven-plugin/src/main/java/org/springframework/data/entity/processor/writer/DataModelFileWriter.java:299-307 | the super call names the domain class alone when its superclass is `Object` or absent, and otherwise also the singleton of the superclass's generated class |
| ModelWriter.NewFileBuilder | maven-plugin/spring-data-entity-processor-maven-plugin/src/main/java/org/springframework/data/entity/processor/writer/DataModelFileWriter.java:286-297 | a builder exists exactly when the class has a package; a new one holds the type, its package and generated name, no constructor expression and no statements |
| ModelWriter.GeneratedNameSplits | maven-plugin/spring-data-entity-processor-maven-plugin/src/main/java/org/springframework/data/entity/processor/writer/DataModelFileWriter.java:286-291 | for a top-level class `pkg.Simple` the simple name is `Simple` plus the postfix, and package and simple name together give back the generated name |
| ModelWriter.UnnamedPackageKeepsName | maven-plugin/spring-data-entity-processor-maven-plugin/src/main/java/org/springframework/data/entity/processor/writer/DataModelFileWriter.java:289-291 | a class in the unnamed package keeps its whole generated name as the simple name |
| ModelWriter.SuperCallNamesSuperBuilder | maven-plugin/spring-data-entity-processor-maven-plugin/src/main/java/org/springframework/data/entity/processor/writer/DataModelFileWriter.java:299-307 | the super call of a class whose superclass is a domain type names the very class the superclass's builder generates |
| ModelWriter.NewInstanceText | maven-plugin/spring-data-entity-processor-maven-plugin/src/main/java/org/springframework/data/entity/processor/writer/DataModelFileWriter.java:145-174 | the constructor expression exists exactly when the type has a constructor model; otherwise the call dereferences null |
| ModelWriter.NewInstanceTextAsWritten | maven-plugin/spring-data-entity-processor-maven-plugin/src/main/java/org/springframework/data/entity/processor/writer/DataModelFileWriter.java:145-174 | the expression as written exists exactly when the type has a constructor model, and otherwise fails with a null dereference |
| ModelWriter.BuildNewInstance | maven-plugin/spring-data-entity-processor-maven-plugin/src/main/java/org/springframework/data/entity/processor/writer/DataModelFileWriter.java:145-174 | the loop collecting argument names and casts side by side builds exactly the constructor expression whose shape `ModelWriter.NewInstanceTextShape` states |
| ModelWriter.NewInstanceTextShape | maven-plugin/spring-data-entity-processor-maven-plugin/src/main/java/org/springframework/data/entity/processor/writer/DataModelFileWriter.java:145-174 | the expression is `ConfigurableTypeConstructor.<T>` followed by `noArgsConstructor(T::new)` exactly when there are no parameters, and otherwise by `builder().args(..).newInstanceFunction((args) -> new T(..))` whose arguments are the quoted parameter names joined by `,` and whose i-th cast is `(C_i)args[i]`, with `i` in decimal digits that read back as `i` |
| ModelWriter.NewInstanceTextAsWrittenShape | maven-plugin/spring-data-entity-processor-maven-plugin/src/main/java/org/springframework/data/entity/processor/writer/DataModelFileWriter.java:145-174 | the same shape for the expression as written, whose i-th cast names the parameter's binary class name |
| ModelWriter.NewInstanceTextsAgree | maven-plugin/spring-data-entity-processor-maven-plugin/src/main/java/org/springframework/data/entity/processor/writer/DataModelFileWriter.java:165 | when every constructor parameter's binary name is its canonical name, the expression as written and the corrected one are the same text |
| ModelWriter.ArrayConstructorTextsDiffer | maven-plugin/spring-data-entity-processor-maven-plugin/src/main/java/org/springframework/data/entity/processor/writer/DataModelFileWriter.java:165 | for a constructor with one `String[]` parameter both expressions exist and differ, the one as written being one character longer |
| ModelWriter.CastReadsItsArgument | maven-plugin/spring-data-entity-processor-maven-plugin/src/main/java/org/springframework/data/entity/processor/writer/DataModelFileWriter.java:162-166 | the cast at position `i` reads `args[i]`, its index written in decimal digits that read back as `i` |
| ModelWriter.CastsAgreeOnPlainClasses | maven-plugin/spring-data-entity-processor-maven-plugin/src/main/java/org/springframework/data/entity/processor/writer/DataModelFileWriter.java:165 | the casts as written and corrected agree on every parameter class whose binary name is its canonical name |
| ModelWriter.ArrayParameterCast | maven-plugin/spring-data-entity-processor-maven-plugin/src/main/java/org/springframework/data/entity/processor/writer/DataModelFileWriter.java:165 | for a `String[]` parameter the cast as written is `([Ljava.lang.String;)args[0]`, not a Java type, where the corrected one is `(java.lang.String[])args[0]` |
| ModelWriter.RenderedCallUsesVariable | maven-plugin/spring-data-entity-processor-maven-plugin/src/main/java/org/springframework/data/entity/processor/writer/DataModelFileWriter.java:198-214 | every accessor and annotation statement is a call on its property's variable |
| ModelWriter.RenderedBlockUsesVariable | maven-plugin/spring-data-entity-processor-maven-plugin/src/main/java/org/springframework/data/entity/processor/writer/DataModelFileWriter.java:183-218 | in a property's block every statement between the declaration and the end is a call on the variable, and the last one is `addField` of the variable |
| ModelWriter.GetFileBuilder | maven-plugin/spring-data-entity-processor-maven-plugin/src/main/java/org/springframework/data/entity/processor/writer/DataModelFileWriter.java:266-268 | `computeIfAbsent`: the builder already there for the class is returned unchanged, otherwise a new one is appended; the key order is first-insertion order and fails only for a class without a package |
| ModelWriter.Process | maven-plugin/spring-data-entity-processor-maven-plugin/src/main/java/org/springframework/data/entity/processor/writer/DataModelFileWriter.java:135-142 | processing a type succeeds exactly when it is in a named package, has a constructor model and every property has a field and annotations; a type met for the first time appends its complete builder |
| ModelWriter.ProcessAll | maven-plugin/spring-data-entity-processor-maven-plugin/src/main/java/org/springframework/data/entity/processor/writer/DataModelFileWriter.java:73-78 | processing a list of types succeeds exactly when each is processable, and the builders are keyed by the types' classes in first-occurrence order |
| ModelWriter.ProcessFiles | maven-plugin/spring-data-entity-processor-maven-plugin/src/main/java/org/springframework/data/entity/processor/writer/DataModelFileWriter.java:73-78 | `processFiles()` succeeds exactly when every registered type is processable and leaves one builder per registered class, in registration order |
| ModelWriter.ProcessAllFresh | maven-plugin/spring-data-entity-processor-maven-plugin/src/main/java/org/springframework/data/entity/processor/writer/DataModelFileWriter.java:135-142 | types whose classes are met for the first time each append their own builder, in order |
| ModelWriter.ProcessFilesContents | maven-plugin/spring-data-entity-processor-maven-plugin/src/main/java/org/springframework/data/entity/processor/writer/DataModelFileWriter.java:135-181 | for distinct registered classes, builder `i` is for type `i`, generates its class, calls the matching super constructor, holds its constructor expression and adds each property once, by name, in order |
| ModelWriter.ConstructorBody | maven-plugin/spring-data-entity-processor-maven-plugin/src/main/java/org/springframework/data/entity/processor/writer/DataModelFileWriter.java:361-386 | the generated constructor calls super first, then writes the `PERSISTENCE CONSTRUCTOR` comment, `setConstructor(...)` with the builder's constructor expression and the `FIELDS` comment, followed by every field statement in order |
| ModelWriter.GeneratedConstructor | maven-plugin/spring-data-entity-processor-maven-plugin/src/main/java/org/springframework/data/entity/processor/writer/DataModelFileWriter.java:135-181 | for distinct registered classes that process, the constructor generated for type `i` calls the type's super constructor, passes the type's constructor expression to `setConstructor`, and then writes the type's property statements in property order |
| ModelWriter.Branches | maven-plugin/spring-data-entity-processor-maven-plugin/src/main/java/org/springframework/data/entity/processor/writer/DataModelFileWriter.java:108-113 | the substitution has one branch per builder, in builder order |
| ModelWriter.BuildersDispatch | maven-plugin/spring-data-entity-processor-maven-plugin/src/main/java/org/springframework/data/entity/processor/writer/DataModelFileWriter.java:108-115 | on well-keyed builders the substitution returns, for a class with a builder, the singleton of the class that builder generates, and the cached value for any other class |
| ModelWriter.SubstitutionDispatches | maven-plugin/spring-data-entity-processor-maven-plugin/src/main/java/org/springframework/data/entity/processor/writer/DataModelFileWriter.java:92-133 | after `processFiles()`, the substituted `from(type)` returns the generated singleton for each registered class and the cached type information for every other class |
| PoetWriter.SuperCallBlock | maven-plugin/spring-data-entity-processor-maven-plugin/src/main/java/org/springframework/data/entity/processor/writer/JavaPoetFileWriter.java:191-199 | the super call names the domain class alone when its superclass is `Object` or absent, and otherwise also the singleton named by the superclass's configurable type name |
| PoetWriter.SuperCallsAgree | maven-plugin/spring-data-entity-processor-maven-plugin/src/main/java/org/springframework/data/entity/processor/writer/JavaPoetFileWriter.java:191-199 | for top-level classes the JavaPoet writer and the model-package writer make the same super call |
| PoetWriter.CastList | maven-plugin/spring-data-entity-processor-maven-plugin/src/main/java/org/springframework/data/entity/processor/writer/JavaPoetFileWriter.java:219-232 | the loop that writes each cast followed by `", "` unless it is the last builds exactly the casts joined by `", "` |
| PoetWriter.NewInstanceBlock | maven-plugin/spring-data-entity-processor-maven-plugin/src/main/java/org/springframework/data/entity/processor/writer/JavaPoetFileWriter.java:202-239 | the constructor expression exists exactly when the type has a constructor model; otherwise the call dereferences null |
| PoetWriter.CastsMatchCorrected | maven-plugin/spring-data-entity-processor-maven-plugin/src/main/java/org/springframework/data/entity/processor/writer/JavaPoetFileWriter.java:226 | each cast this writer emits, spelled through `$T`, is the corrected cast of the model-package writer |
| PoetWriter.FieldStatementsAgree | maven-plugin/spring-data-entity-processor-maven-plugin/src/main/java/org/springframework/data/entity/processor/writer/JavaPoetFileWriter.java:242-251 | for every property both writers emit the same statements and fail on the same properties; the `hasAccessorMethods()` guard changes nothing |
| PoetWriter.RenderingsAgree | maven-plugin/spring-data-entity-processor-maven-plugin/src/main/java/org/springframework/data/entity/processor/writer/JavaPoetFileWriter.java:262-318 | accessor calls, `@Id` and `addField` are spelled identically by both writers |
| PoetWriter.FieldBlocks | maven-plugin/spring-data-entity-processor-maven-plugin/src/main/java/org/springframework/data/entity/processor/writer/JavaPoetFileWriter.java:177-182 | one block of statements per property |
| PoetWriter.FieldComments | maven-plugin/spring-data-entity-processor-maven-plugin/src/main/java/org/springframework/data/entity/processor/writer/JavaPoetFileWriter.java:177-178 | one comment line per property |
| PoetWriter.ComputeTypeSpec | maven-plugin/spring-data-entity-processor-maven-plugin/src/main/java/org/springframework/data/entity/processor/writer/JavaPoetFileWriter.java:114-189 | a class is built only for a type with a package and a constructor model |
| PoetWriter.FieldBlocksAgree | maven-plugin/spring-data-entity-processor-maven-plugin/src/main/java/org/springframework/data/entity/processor/writer/JavaPoetFileWriter.java:177-182 | the blocks exist exactly when the model-package writer's statements do, and laid end to end they are those statements |
| PoetWriter.TypeSpecFields | maven-plugin/spring-data-entity-processor-maven-plugin/src/main/java/org/springframework/data/entity/processor/writer/JavaPoetFileWriter.java:114-189 | the class exists exactly when the model-package writer can process the type, and it adds every property once, by name, in property order |
| PoetWriter.FieldCommentsSucceed | maven-plugin/spring-data-entity-processor-maven-plugin/src/main/java/org/springframework/data/entity/processor/writer/JavaPoetFileWriter.java:177-178 | the comments exist whenever the statements do |
| PoetWriter.DeclaredNameMatchesReferences | maven-plugin/spring-data-entity-processor-maven-plugin/src/main/java/org/springframework/data/entity/processor/writer/JavaPoetFileWriter.java:116 | for a top-level class the class declared is the one every reference to the generated type names |
| PoetWriter.Substitution | maven-plugin/spring-data-entity-processor-maven-plugin/src/main/java/org/springframework/data/entity/processor/writer/JavaPoetFileWriter.java:80-87 | the substitution has one branch per registered type followed by the cache lookup |
| PoetWriter.ConstructorBody | maven-plugin/spring-data-entity-processor-maven-plugin/src/main/java/org/springframework/data/entity/processor/writer/JavaPoetFileWriter.java:140-185 | the constructor starts with the super call and puts `setConstructor(...)` right after the `PERSISTENCE CONSTRUCTOR` comment; its comments are `ANNOTATIONS`, `PERSISTENCE CONSTRUCTOR`, `FIELDS` and then one per property, and its statements are the super call, the annotations, `setConstructor(...)` and every property's statements in order |
| PoetWriter.FieldLines | maven-plugin/spring-data-entity-processor-maven-plugin/src/main/java/org/springframework/data/entity/processor/writer/JavaPoetFileWriter.java:177-182 | per property, its comment and then its statements: the comments are the properties' comments and the statements are all blocks' statements, in order |
| PoetWriter.GeneratedConstructor | maven-plugin/spring-data-entity-processor-maven-plugin/src/main/java/org/springframework/data/entity/processor/writer/JavaPoetFileWriter.java:140-185 | for a type the writer can build, the constructor holds the type's super call, one `addAnnotation` per type annotation, `setConstructor` with the type's constructor expression and the statements of every property in order, each property under its own comment |
| PoetWriter.SubstitutionDispatches | maven-plugin/spring-data-entity-processor-maven-plugin/src/main/java/org/springframework/data/entity/processor/writer/JavaPoetFileWriter.java:64-106 | the substituted `from(type)` returns the generated singleton for each registered class and the cached type information for every other class |
| PoetWriter.SubstitutionsAgree | maven-plugin/spring-data-entity-processor-maven-plugin/src/main/java/org/springframework/data/entity/processor/writer/JavaPoetFileWriter.java:80-87 | both writers map a registered top-level class to the same generated singleton |
| Generator.SlotOf | maven-plugin/spring-data-entity-processor-maven-plugin/src/main/java/org/springframework/data/DataModelGenerator.java:116-135 | a map or list slot records the type's class, and keeps it as a plain class exactly when the type is simple |
| Generator.ShapedKeeps | maven-plugin/spring-data-entity-processor-maven-plugin/src/main/java/org/springframework/data/DataModelGenerator.java:109-141 | the branch for a property keeps its name, owner and field, adds no accessors, gives it the shape the decision names and refers to exactly the type models the decision asked for |
| Generator.WithAccessorsSets | maven-plugin/spring-data-entity-processor-maven-plugin/src/main/java/org/springframework/data/DataModelGenerator.java:143-151 | getter, setter and wither are set exactly to the methods the bean property has |
| Generator.FinishSets | maven-plugin/spring-data-entity-processor-maven-plugin/src/main/java/org/springframework/data/DataModelGenerator.java:143-159 | finishing sets exactly the present accessors, and for a field-backed property its field and the field's annotations, leaving name, owner, shape and simple mark alone |
| Generator.ExpectedCarriesFacts | maven-plugin/spring-data-entity-processor-maven-plugin/src/main/java/org/springframework/data/DataModelGenerator.java:104-161 | a kept property's model carries its name, owner and exactly its accessors, at least one of them, plus the field and its annotations; construction fails with "Field must not be null" exactly when there is no field |
| Generator.ExpectedClassification | maven-plugin/spring-data-entity-processor-maven-plugin/src/main/java/org/springframework/data/DataModelGenerator.java:108-141 | the first matching rule decides: a simple type stays plain and is marked simple, a map stores its key and value, a collection stores the actual type of its actual type, and anything else refers to the type model of its own class |
| Generator.RefsAreTargets | maven-plugin/spring-data-entity-processor-maven-plugin/src/main/java/org/springframework/data/DataModelGenerator.java:108-141 | the type models a property refers to are exactly the ones its branch asked `computeTypeModel` for |
| Generator.ExpectedPropertyNames | maven-plugin/spring-data-entity-processor-maven-plugin/src/main/java/org/springframework/data/DataModelGenerator.java:86-102 | a type model's properties are its kept bean properties, in descriptor order |
| Generator.ExpectedPropertiesSucceed | maven-plugin/spring-data-entity-processor-maven-plugin/src/main/java/org/springframework/data/DataModelGenerator.java:91-106 | building a type's property models fails exactly when a kept property has no field |
| Generator.ExpectedTypeInfoShape | maven-plugin/spring-data-entity-processor-maven-plugin/src/main/java/org/springframework/data/DataModelGenerator.java:66-84 | the finished model of a class holds the class, its preferred constructor, exactly its annotations and its kept properties in order |
| Generator.ComputeTypeModel | maven-plugin/spring-data-entity-processor-maven-plugin/src/main/java/org/springframework/data/DataModelGenerator.java:66-84 | `computeTypeModel` returns the registry unchanged for a registered class; otherwise it registers the class's model first, and every model built on the way is finished, the registry stays valid and only grows; it fails only for a property without a field |
| Generator.AddPropertyModels | maven-plugin/spring-data-entity-processor-maven-plugin/src/main/java/org/springframework/data/DataModelGenerator.java:86-102 | the loop over bean properties gives the owner exactly its kept properties' models in order, leaves earlier models alone and finishes every model built on the way |
| Generator.AddPropertyModel | maven-plugin/spring-data-entity-processor-maven-plugin/src/main/java/org/springframework/data/DataModelGenerator.java:104-162 | one kept property's model is appended to its owner, after the models it refers to are built, and no other existing model changes |
| Generator.EnsureModel | maven-plugin/spring-data-entity-processor-maven-plugin/src/main/java/org/springframework/data/DataModelGenerator.java:120-139 | after `computeTypeModel` for a referred class, that class has a model and the registry keeps growing validly |
| Generator.Process | maven-plugin/spring-data-entity-processor-maven-plugin/src/main/java/org/springframework/data/DataModelGenerator.java:57-64 | `process()` yields a valid registry of finished models, one per class, containing every root, the first root first, and every model a property refers to; it fails only for a property without a field |
| Scanner.Contributions | maven-plugin/spring-data-entity-processor-maven-plugin/src/main/java/org/springframework/data/entity/processor/PersistableEntityScanner.java:145-160 | a field hands on one class, or two for a map |
| Scanner.CollectTypes | maven-plugin/spring-data-entity-processor-maven-plugin/src/main/java/org/springframework/data/entity/processor/PersistableEntityScanner.java:128-164 | `collectTypes(Class)` returns nothing, and marks nothing, exactly for a seen or refused class; otherwise it returns the class first and then only classes new to the scanner, all distinct, each with every class its fields hand on seen or refused |
| Scanner.CollectFields | maven-plugin/spring-data-entity-processor-maven-plugin/src/main/java/org/springframework/data/entity/processor/PersistableEntityScanner.java:141-161 | walking the fields in order leaves every class any of them hands on seen or refused, and only extends the walk |
| Scanner.Contribute | maven-plugin/spring-data-entity-processor-maven-plugin/src/main/java/org/springframework/data/entity/processor/PersistableEntityScanner.java:143-160 | one field leaves the classes it hands on (component, key and value, or actual type) seen or refused |
| Scanner.Guarded | maven-plugin/spring-data-entity-processor-maven-plugin/src/main/java/org/springframework/data/entity/processor/PersistableEntityScanner.java:146-148 | a guarded visit leaves the class seen or refused |
| Scanner.Visit | maven-plugin/spring-data-entity-processor-maven-plugin/src/main/java/org/springframework/data/entity/processor/PersistableEntityScanner.java:153-155 | an unguarded visit leaves the class seen or refused |
| Scanner.AddAllDisjoint | maven-plugin/spring-data-entity-processor-maven-plugin/src/main/java/org/springframework/data/entity/processor/PersistableEntityScanner.java:147 | `addAll` of new, distinct classes into a linked set appends them in order |
| Scanner.Chain | maven-plugin/spring-data-entity-processor-maven-plugin/src/main/java/org/springframework/data/entity/processor/PersistableEntityScanner.java:141-161 | two walks one after the other extend the first state |
| Scanner.Appended | maven-plugin/spring-data-entity-processor-maven-plugin/src/main/java/org/springframework/data/entity/processor/PersistableEntityScanner.java:147-158 | adding the result of a nested `collectTypes` call keeps the collected classes distinct and seen |
| Scanner.Rooted | maven-plugin/spring-data-entity-processor-maven-plugin/src/main/java/org/springframework/data/entity/processor/PersistableEntityScanner.java:134-163 | marking a class seen, adding it first and walking its fields is one `collectTypes` step |
| Scanner.GuardIsRedundant | maven-plugin/spring-data-entity-processor-maven-plugin/src/main/java/org/springframework/data/entity/processor/PersistableEntityScanner.java:146-158 | the `!seen.contains` guard in front of each visit never changes the result, since `collectTypes` checks the seen set itself |
| Scanner.CollectedOnce | maven-plugin/spring-data-entity-processor-maven-plugin/src/main/java/org/springframework/data/entity/processor/PersistableEntityScanner.java:130-134 | a class collected once is refused by the next call on the same scanner, and it is seen afterwards exactly when it was seen before or is not refused |
| Scanner.RepoContribute | maven-plugin/spring-data-entity-processor-maven-plugin/src/main/java/org/springframework/data/entity/processor/PersistableEntityScanner.java:102-122 | a repository method's return type only extends the walk |
| Scanner.RepoContributeAgrees | maven-plugin/spring-data-entity-processor-maven-plugin/src/main/java/org/springframework/data/entity/processor/PersistableEntityScanner.java:100-123 | a repository method's return type is walked exactly like a field of that type: the extra guard on a map's value and the primitive-or-wrapper skip change nothing |
| Scanner.CollectReturns | maven-plugin/spring-data-entity-processor-maven-plugin/src/main/java/org/springframework/data/entity/processor/PersistableEntityScanner.java:100-123 | walking the return types in order only extends the walk |
| Scanner.CollectReturnsAgree | maven-plugin/spring-data-entity-processor-maven-plugin/src/main/java/org/springframework/data/entity/processor/PersistableEntityScanner.java:100-123 | the return types of a repository are walked exactly like fields with those types |
| Scanner.CollectForRepository | maven-plugin/spring-data-entity-processor-maven-plugin/src/main/java/org/springframework/data/entity/processor/PersistableEntityScanner.java:95-126 | `collectTypesForRepositiory` leaves the domain type and every class a return type hands on seen or refused |
| Scanner.ScanEntries | maven-plugin/spring-data-entity-processor-maven-plugin/src/main/java/org/springframework/data/entity/processor/PersistableEntityScanner.java:70-87 | after the resources, every persistent class found is seen or refused, and the collected classes stay distinct and new |
| Scanner.ScanEntry | maven-plugin/spring-data-entity-processor-maven-plugin/src/main/java/org/springframework/data/entity/processor/PersistableEntityScanner.java:73-86 | a persistent class found ends up seen or refused, and so does the domain type of an unseen repository interface |
| Scanner.Root | maven-plugin/spring-data-entity-processor-maven-plugin/src/main/java/org/springframework/data/entity/processor/PersistableEntityScanner.java:79-83 | `domainTypes.addAll` of a root's walk appends it and keeps the scanner's seen set |
| Scanner.Scan | maven-plugin/spring-data-entity-processor-maven-plugin/src/main/java/org/springframework/data/entity/processor/PersistableEntityScanner.java:50-93 | a scan fails with "Cannot locate resources in package: " and the package name exactly when the listing fails; otherwise it returns distinct classes new to the scanner and never refused, exactly the newly seen ones, with their fields' classes covered and every persistent class found seen or refused |
| Scanner.BookAfterAuthor | maven-plugin/spring-data-entity-processor-maven-plugin/src/main/java/org/springframework/data/entity/processor/PersistableEntityScanner.java:128-164 | reached from an author already seen, a book is collected alone and its field back to the author stops the walk |
| Scanner.CycleTerminates | maven-plugin/spring-data-entity-processor-maven-plugin/src/main/java/org/springframework/data/entity/processor/PersistableEntityScanner.java:128-164 | two classes that refer to each other are each collected once, the root first |
| LegacyWriter.FileBuilderFor | maven-plugin/spring-data-entity-processor-maven-plugin/src/main/java/org/springframework/data/DataModelFileWriter.java:450-452 | `getFileBuilder` keeps every existing builder, reuses the one for the type or appends a new one, so the builders stay keyed by distinct registered classes; it fails only for a type without a package |
| LegacyWriter.ClassInit | maven-plugin/spring-data-entity-processor-maven-plugin/src/main/java/org/springframework/data/DataModelFileWriter.java:377-392 | a null class is rejected with "Class must not be null"; after boxing, a known simple type is spelled through the simple-types table, a registered class refers to its generated singleton (creating its builder), and any other class becomes a new configurable type |
| LegacyWriter.PropertyInit | maven-plugin/spring-data-entity-processor-maven-plugin/src/main/java/org/springframework/data/DataModelFileWriter.java:394-407 | a list property is cast to a list shape and spelled by its value class, a map property is cast to a map shape and spelled by its key and value classes, and any other property by its own class; the wrong shape is a `ClassCastException` and a missing value class is rejected |
| LegacyWriter.TypeInfoInit | maven-plugin/spring-data-entity-processor-maven-plugin/src/main/java/org/springframework/data/DataModelFileWriter.java:241-252 | a simple property is spelled by its generic signature through the simple-types table, a list property by its resolvable type, each without touching the builders, and anything else as `getConfiguredTypeInformationString` spells it |
| LegacyWriter.ClassInitAgreesWithSignature | maven-plugin/spring-data-entity-processor-maven-plugin/src/main/java/org/springframework/data/DataModelFileWriter.java:254-306 | for a known simple unregistered class, or a registered class outside the simple types, the class spelling and `initSignatureFrom` of its raw type agree word for word |
| LegacyWriter.FallbackAddsClassLiteral | maven-plugin/spring-data-entity-processor-maven-plugin/src/main/java/org/springframework/data/DataModelFileWriter.java:391 | the fallback as written and as corrected differ for every class: the corrected one passes the class literal |
| LegacyWriter.FallbackPassesTypeName | maven-plugin/spring-data-entity-processor-maven-plugin/src/main/java/org/springframework/data/DataModelFileWriter.java:377-392 | for an unregistered domain class the corrected fallback is what the writer emits, and the text as written, the bare type name, differs from it |
| LegacyWriter.SimpleTypeInfoExample | maven-plugin/spring-data-entity-processor-maven-plugin/src/test/java/org/springframework/data/DataModelFileWriterUnitTest.java:36-41 | a `String` property is spelled as the simple type `java.lang.String` |
| LegacyWriter.PrimitiveTypeInfoExample | maven-plugin/spring-data-entity-processor-maven-plugin/src/test/java/org/springframework/data/DataModelFileWriterUnitTest.java:43-48 | an `int` property is spelled as the simple type of its wrapper `java.lang.Integer` |
| LegacyWriter.RawListTypeInfoExample | maven-plugin/spring-data-entity-processor-maven-plugin/src/test/java/org/springframework/data/DataModelFileWriterUnitTest.java:50-55 | a raw `List` property is spelled as the raw list |
| LegacyWriter.ListTypeInfoExample | maven-plugin/spring-data-entity-processor-maven-plugin/src/test/java/org/springframework/data/DataModelFileWriterUnitTest.java:57-62 | a `List<String>` property is spelled as a list of the simple type `String` |
| LegacyWriter.MapTypeInfoExample | maven-plugin/spring-data-entity-processor-maven-plugin/src/test/java/org/springframework/data/DataModelFileWriterUnitTest.java:64-69 | a property whose field is a `Map<String, String>` is spelled as a map of two simple `String` types |
| LegacyWriter.TypeCall | maven-plugin/spring-data-entity-processor-maven-plugin/src/main/java/org/springframework/data/DataModelFileWriter.java:313-353 | every head starts with the `Field` type call on the owner's canonical name |
| LegacyWriter.SimpleHead | maven-plugin/spring-data-entity-processor-maven-plugin/src/main/java/org/springframework/data/DataModelFileWriter.java:313-317 | a simple property's head names its boxed class and wraps the property's spelling; it fails exactly when that spelling fails |
| LegacyWriter.MapHead | maven-plugin/spring-data-entity-processor-maven-plugin/src/main/java/org/springframework/data/DataModelFileWriter.java:337-341 | a map property's head names the declared class with its key and value classes; it fails exactly when the spelling fails or the property is not map-shaped |
| LegacyWriter.ListHead | maven-plugin/spring-data-entity-processor-maven-plugin/src/main/java/org/springframework/data/DataModelFileWriter.java:342-347 | a list property's head names the declared class with its value class; it fails exactly when the spelling fails |
| LegacyWriter.ClassHead | maven-plugin/spring-data-entity-processor-maven-plugin/src/main/java/org/springframework/data/DataModelFileWriter.java:348-353 | a registered property type refers to its generated singleton and gets a builder, failing only without a package; any other class wraps its class spelling |
| LegacyWriter.FieldHead | maven-plugin/spring-data-entity-processor-maven-plugin/src/main/java/org/springframework/data/DataModelFileWriter.java:308-353 | the head for the first rule that applies starts with the owner's `Field` type call and only grows the builders |
| LegacyWriter.Calls | maven-plugin/spring-data-entity-processor-maven-plugin/src/main/java/org/springframework/data/DataModelFileWriter.java:356-372 | one call per present accessor, then one per annotation |
| LegacyWriter.FieldStatement | maven-plugin/spring-data-entity-processor-maven-plugin/src/main/java/org/springframework/data/DataModelFileWriter.java:308-375 | the statement is the head followed by the chained calls; a null annotation set fails once the head has succeeded |
| LegacyWriter.ChainAppend | maven-plugin/spring-data-entity-processor-maven-plugin/src/main/java/org/springframework/data/DataModelFileWriter.java:356-372 | chaining two runs of calls is chaining their joined run |
| LegacyWriter.RenderIsNameThenSuffix | maven-plugin/spring-data-entity-processor-maven-plugin/src/main/java/org/springframework/data/DataModelFileWriter.java:356-372 | a call rendered on a variable is the variable followed by the chained call |
| LegacyWriter.ChainedCallsMatchModelWriter | maven-plugin/spring-data-entity-processor-maven-plugin/src/main/java/org/springframework/data/DataModelFileWriter.java:356-372 | each chained call is, word for word, the call the newer writer makes on the property's variable |
| LegacyWriter.DomainFieldReferencesSingleton | maven-plugin/spring-data-entity-processor-maven-plugin/src/main/java/org/springframework/data/DataModelFileWriter.java:348-350 | a registered domain-typed property refers to the generated singleton of its type, whose builder exists once the statement is written |
| LegacyWriter.FieldStatementText | maven-plugin/spring-data-entity-processor-maven-plugin/src/main/java/org/springframework/data/DataModelFileWriter.java:308-375 | the statement's text does not depend on the builders it is computed against: from any builders that stay keyed by registered classes it succeeds exactly when `FieldText` does, with the same text |
| LegacyWriter.FieldTextsEach | maven-plugin/spring-data-entity-processor-maven-plugin/src/main/java/org/springframework/data/DataModelFileWriter.java:180-185 | the property statements succeed together exactly when each property's statement succeeds, and the i-th is the i-th property's text |
| LegacyWriter.AddField | maven-plugin/spring-data-entity-processor-maven-plugin/src/main/java/org/springframework/data/DataModelFileWriter.java:308-375 | `addField` appends exactly the property's `FieldText` to the given builder and leaves every other builder alone; any builder it creates on the way is blank; it fails exactly when that text fails |
| LegacyWriter.AddFields | maven-plugin/spring-data-entity-processor-maven-plugin/src/main/java/org/springframework/data/DataModelFileWriter.java:180-185 | `addFields` succeeds exactly when every property has a statement; the builder's statements become its earlier ones followed by the properties' texts in property order, its constructor expression is kept, every other earlier builder is unchanged and every created builder is blank |
| LegacyWriter.ConstructedKept | maven-plugin/spring-data-entity-processor-maven-plugin/src/main/java/org/springframework/data/DataModelFileWriter.java:139-146 | a builder with a constructor expression keeps it while the builders grow |
| LegacyWriter.ConstructedAt | maven-plugin/spring-data-entity-processor-maven-plugin/src/main/java/org/springframework/data/DataModelFileWriter.java:149-178 | a builder given a constructor expression is the one builder for its class |
| LegacyWriter.WithConstructor | maven-plugin/spring-data-entity-processor-maven-plugin/src/main/java/org/springframework/data/DataModelFileWriter.java:149-178 | `newDomainTypeInstance` sets exactly the constructor expression of the one builder |
| LegacyWriter.Process | maven-plugin/spring-data-entity-processor-maven-plugin/src/main/java/org/springframework/data/DataModelFileWriter.java:139-146 | `process` fails with a null dereference for a type without a package or constructor, and succeeds exactly when the type has both and all its property statements succeed; then no builder is lost and the type's builder has a constructor expression |
| LegacyWriter.ProcessWrites | maven-plugin/spring-data-entity-processor-maven-plugin/src/main/java/org/springframework/data/DataModelFileWriter.java:139-185 | after `process`, the type's builder holds the type's constructor expression and its earlier statements followed by its properties' texts; every other earlier builder is unchanged and every created builder is blank |
| LegacyWriter.ProcessAll | maven-plugin/spring-data-entity-processor-maven-plugin/src/main/java/org/springframework/data/DataModelFileWriter.java:75-80 | processing the types in order keeps the builders keyed by registered classes, loses no builder and leaves every processed type's builder with a constructor expression |
| LegacyWriter.ProcessAllSucceeds | maven-plugin/spring-data-entity-processor-maven-plugin/src/main/java/org/springframework/data/DataModelFileWriter.java:75-80 | the loop fails exactly when some type in it cannot be processed |
| LegacyWriter.ProcessAllContents | maven-plugin/spring-data-entity-processor-maven-plugin/src/main/java/org/springframework/data/DataModelFileWriter.java:75-80 | for types of distinct classes whose builders are still blank, each type's builder ends up holding exactly that type's constructor expression and property texts; other earlier builders are unchanged and created ones blank |
| LegacyWriter.ProcessFiles | maven-plugin/spring-data-entity-processor-maven-plugin/src/main/java/org/springframework/data/DataModelFileWriter.java:75-80 | `processFiles` leaves a constructed builder for every registered type |
| LegacyWriter.ProcessFilesSucceeds | maven-plugin/spring-data-entity-processor-maven-plugin/src/main/java/org/springframework/data/DataModelFileWriter.java:75-80 | `processFiles` fails exactly when some registered type lacks a package or a constructor model, or has a property without a statement |
| LegacyWriter.ProcessFilesContents | maven-plugin/spring-data-entity-processor-maven-plugin/src/main/java/org/springframework/data/DataModelFileWriter.java:75-80 | for a registry of distinct classes, the builder for each registered class belongs to that type and holds exactly its constructor expression and its properties' texts in property order |
| LegacyWriter.ProcessFilesKeys | maven-plugin/spring-data-entity-processor-maven-plugin/src/main/java/org/springframework/data/DataModelFileWriter.java:75-80 | afterwards the builders are keyed by exactly the registered classes, with no duplicates, and every builder holds a constructor expression |
| LegacyWriter.ConstructorBody | maven-plugin/spring-data-entity-processor-maven-plugin/src/main/java/org/springframework/data/DataModelFileWriter.java:545-564 | the generated constructor calls super first, then `setConstructor(...)` with the builder's constructor expression, then one `addField` per statement in the order they were collected |
| LegacyWriter.GeneratedConstructor | maven-plugin/spring-data-entity-processor-maven-plugin/src/main/java/org/springframework/data/DataModelFileWriter.java:75-80 | for distinct registered classes that process, the constructor generated for a registered class passes that type's constructor expression to `setConstructor` and then adds one field per property, with that property's statement, in property order |
| LegacyWriter.TraceIsTransparent | maven-plugin/spring-data-entity-processor-maven-plugin/src/main/java/org/springframework/data/DataModelFileWriter.java:110 | the trace line in front of the substitution does not change what it returns |
| LegacyWriter.SubstitutionDispatches | maven-plugin/spring-data-entity-processor-maven-plugin/src/main/java/org/springframework/data/DataModelFileWriter.java:94-137 | once the files are processed, the substituted `ClassTypeInformation.from` returns the generated singleton for each registered class and the cached type information for any other |

## Left out

- File and console output: `writeTo`, `JavaFile.writeTo`, the `System.out` lines of the writers and the scanner, and the two `CodeGeneratorApplication` entry points with the `ConfigurableTypeWriter` interface. They are I/O and command-line glue. The substitution's trace line is kept as a statement that `LegacyWriter.TraceIsTransparent` shows to be inert.
- The classpath resource scan of `PersistableEntityScanner` (resolving `classpath*:` patterns and turning resource paths into class names). `Scanner.Scan` takes the listing as input: either the resources, each resolved to a class (when one is present), or a failed listing.
- The selection predicate that `scan` passes to `collectTypes(String, Set, Predicate)` (not abstract, not static). The code never consults it, so the model has none.
- Reflection itself: `ResolvableType`, `BeanUtils`, `ClassTypeInformation`, `PreferredConstructorDiscoverer`, `ReflectionUtils`, `AnnotatedElementUtils` and `AbstractRepositoryMetadata` are replaced by the datatypes they are read from.
- `ResolvableType.hasUnresolvableGenerics` is modelled on the type's own arguments only. Spring also inspects the generic superclass and interfaces, which the datatype does not carry.
- `ResolvableType.toString`, used for arrays by `GenericsInfo` and by the older writer's `initSignatureFrom`, is reconstructed as Spring's own rendering. Its source is not part of this model.
- JavaPoet rendering: `$T`/`$L`/`$S` substitution, import shortening and the `TypeSpec` structure. Each `$T` is written out as the class's canonical name.
- `AnnotationModel` is left out: its only logic is the match against `@Id`, which the statement rules model directly. Annotation values are not escaped, because the code does not escape them.
- `computeFieldStatement(PropertyInfo, JavaFileBuilder)` of the older writer (maven-plugin/spring-data-entity-processor-maven-plugin/src/main/java/org/springframework/data/DataModelFileWriter.java:187-239) is left out: nothing calls it. The builder's `methodStatements` and `annotationStatements` maps are left out too, because they are filled but never written.
- The older writer calls `PropertyInfo.getGenericsInfo()` (maven-plugin/spring-data-entity-processor-maven-plugin/src/main/java/org/springframework/data/DataModelFileWriter.java:243), which is not part of this model. `LegacyWriter.TypeInfoInit` takes the property's generic type as an argument.
- `TypeInfo.getSignature()`, used by `JavaPoetFileWriter`, is not part of this model either. It is modelled as the signature of the type's class.
- The older package's own `TypeInfo` and `DomainTypes` are not part of this model. The older writer and generator are modelled over the records of the model package, which hold the same data.
- `JavaPoetFileWriterUnitTests` refers to `AccessorMethodsType` and `computeFile`, and `DataModelGeneratorUnitTests` expects a `Set<TypeModel>`. None of these exist in the code, so they are not modelled.
- A class that `ClassUtils.isPresent` cannot load is not modelled, beyond being skipped. The listing simply omits it.
- Null canonical names (anonymous and local classes) and `computeGeneratedTypeName`'s fallback for them are left out. Every class in the model has a canonical name.
- Generator.AddPropertyModel: a raw list or map property is modelled with `Object` as its element, key and value. The element types come from Spring Data's `TypeInformation.getComponentType`, `getMapValueType` and `getActualType` (maven-plugin/spring-data-entity-processor-maven-plugin/src/main/java/org/springframework/data/DataModelGenerator.java:113-116,131), which is not part of this model; where it reports none, the code would dereference null, and the model does not promise that failure.
- Scanner.Contribute: the same for the field walk of `collectTypes` (maven-plugin/spring-data-entity-processor-maven-plugin/src/main/java/org/springframework/data/entity/processor/PersistableEntityScanner.java:146-158): a raw collection or map contributes `Object`, where Spring Data may report no component or value type and the code would dereference null.
- ModelWriter.NewInstanceText: it casts each constructor argument to the parameter's canonical name, where the code uses the binary name (maven-plugin/spring-data-entity-processor-maven-plugin/src/main/java/org/springframework/data/entity/processor/writer/DataModelFileWriter.java:165; see Findings). `ModelWriter.NewInstanceTextsAgree` shows the two texts are identical when no parameter is an array or a nested class; `ModelWriter.ArrayConstructorTextsDiffer` shows they differ otherwise.
- ModelWriter.Process: built on `ModelWriter.NewInstanceText`, so it stores the corrected constructor expression; the code's differs exactly as described for that member.
- ModelWriter.ProcessAllFresh: the same; the constructor expressions it promises are the corrected ones.
- ModelWriter.ProcessFilesContents: the same; the constructor expressions it promises are the corrected ones.
- ModelWriter.GeneratedConstructor: the same; the `setConstructor` argument it pins is the corrected constructor expression.
- Generator.ShapedKeeps: states the map shape through `Properties.MapOf`, which keeps a non-simple key's model in the key slots. The code writes that model into the value slots and leaves the key unset (maven-plugin/spring-data-entity-processor-maven-plugin/src/main/java/org/springframework/data/PropertyInfo.java:311-316; see Findings). `Properties.MapOfAsWrittenAgreesOnClassKeys` shows the two agree when the key is simple.
- Generator.ExpectedClassification: the expected property uses the corrected map shape; for a non-simple key the code's property differs as described for `Generator.ShapedKeeps`.
- Generator.RefsAreTargets: the referenced classes are exactly the computed ones only for the corrected map shape. In the code a non-simple key's model is still computed and registered, but the property no longer refers to it.
- Generator.ComputeTypeModel: registers properties with the corrected map shape; which types are registered is the same as in the code, because the key's model is computed in both.
- Generator.AddPropertyModels: the same as `Generator.ComputeTypeModel`.
- Generator.AddPropertyModel: the same as `Generator.ComputeTypeModel`.
- Generator.Process: the same as `Generator.ComputeTypeModel`.
- LegacyWriter.ClassInit: the fallback for a class that is neither simple nor registered passes the class literal `X.class`. The code passes the bare type name, which does not compile (maven-plugin/spring-data-entity-processor-maven-plugin/src/main/java/org/springframework/data/DataModelFileWriter.java:391; see Findings). `LegacyWriter.FallbackPassesTypeName` models the text as written.
- LegacyWriter.Process: it stores `ModelWriter.NewInstanceText`'s constructor expression, with canonical-name casts. The older writer casts with the binary name (maven-plugin/spring-data-entity-processor-maven-plugin/src/main/java/org/springframework/data/DataModelFileWriter.java:169), so its text differs for array and nested-class parameters as described for `ModelWriter.NewInstanceText`.
- LegacyWriter.ProcessWrites: the constructor expression it pins is `ModelWriter.NewInstanceText`'s, with canonical-name casts, where the older writer casts with the binary name (maven-plugin/spring-data-entity-processor-maven-plugin/src/main/java/org/springframework/data/DataModelFileWriter.java:169).
- LegacyWriter.ProcessAllContents: the same; through `LegacyWriter.Holds` every processed type's builder is said to hold the canonical-name constructor expression, which differs from the code's for array and nested-class parameters.
- LegacyWriter.ProcessFilesContents: the same; the constructor expressions it pins are the canonical-name ones.
- LegacyWriter.GeneratedConstructor: the same; the `setConstructor` argument it pins is the canonical-name constructor expression.
- `toString` of every record: it is diagnostic text that nothing reads back.

## Findings

| source | as written | input that shows it | evidently intended | confidence | as-written member | corrected member |
|---|---|---|---|---|---|---|
| maven-plugin/spring-data-entity-processor-maven-plugin/src/main/java/org/springframework/data/PropertyInfo.java:311-316 | `mapKeyType(TypeInfo)` stores the key's type model into `mapValueType`/`mapValueTypeInfo` and leaves the key unset; the same body appears in `PropertyModel` and in the model package's `PropertyInfo` | a property `Map<Address, String>` with `Address` registered: the key is lost, and the value slot holds `Address` | store it into `mapKeyType`/`mapKeyTypeInfo` | high (not executed) | Properties.MapOfAsWrittenLosesKey | Properties.MapOfRoundTrip |
| maven-plugin/spring-data-entity-processor-maven-plugin/src/main/java/org/springframework/data/entity/processor/writer/DataModelFileWriter.java:165 | each constructor argument is cast with `getType().getName()`, the binary name | a constructor with one `String[]` parameter: the cast reads `([Ljava.lang.String;)args[0]`, which does not compile | cast with the canonical name, `(java.lang.String[])args[0]`, as `JavaPoetFileWriter` does with `$T` | high (not executed) | ModelWriter.ArrayParameterCast | ModelWriter.NewInstanceTextShape |
| maven-plugin/spring-data-entity-processor-maven-plugin/src/main/java/org/springframework/data/DataModelFileWriter.java:391 | the fallback for a class that is neither simple nor registered is `new ConfigurableTypeInformation(%s)` filled with `getTypeName()`, a bare type name where a `Class` is expected | an unregistered domain class `com.example.Address`: the expression reads `new ...ConfigurableTypeInformation(com.example.Address)`, which does not compile | pass the class literal `com.example.Address.class` | medium (not executed) | LegacyWriter.FallbackPassesTypeName | LegacyWriter.ClassInit |
