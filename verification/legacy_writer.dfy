/** The file writer of the older package (`org.springframework.data.DataModelFileWriter`). It
    shares the file builder, the super call, the constructor expression, the annotation
    instances and the substitution table with the model package's writer (`ModelWriter`), but
    writes each property as one chained expression and works out its configurable type itself,
    creating the builder of every registered class it meets on the way. A builder can
    therefore come into being before its own type is processed, so the builders are keyed in
    first-reference order rather than in registry order. */
module LegacyWriter {
  import opened Wrappers
  import opened Text
  import opened JavaTypes
  import opened Annotations
  import opened Properties
  import opened Registry
  import opened Signatures
  import opened LegacySignatures
  import opened Statements
  import ModelWriter

  /** A builder of this writer keeps its field statements as finished strings. */
  type Builder = ModelWriter.FileBuilder<string>
  type Builders = seq<Builder>

  const TRACE: string := "hello from substitution!"
  const CLASS_NOT_NULL: string := "Class must not be null"

  /** The builder map the writer holds: well keyed, every builder for a registered type. */
  predicate Sound(bs: Builders, reg: DomainTypes) {
    ModelWriter.WellKeyed(bs) && forall i :: 0 <= i < |bs| ==> bs[i].typeInfo in reg
  }

  /** `bs2` keeps every builder of `bs` in its place, for the same type, and loses no
      constructor expression. */
  predicate Grows(bs: Builders, bs2: Builders) {
    && |bs| <= |bs2|
    && forall i :: 0 <= i < |bs| ==>
      bs2[i].typeInfo == bs[i].typeInfo && (bs[i].newInstance.Some? ==> bs2[i].newInstance.Some?)
  }

  /** A builder as `getFileBuilder` creates it: no constructor expression, no statements. */
  predicate Blank(b: Builder) {
    b.newInstance.None? && b.fieldStatements == []
  }

  /** `bs2` keeps `bs` unchanged and appends only blank builders. */
  predicate AppendsBlank(bs: Builders, bs2: Builders) {
    bs <= bs2 && forall i :: |bs| <= i < |bs2| ==> Blank(bs2[i])
  }

  /** In well-keyed builders a class has at most one builder. */
  lemma OneBuilderPerClass(bs: Builders, i: nat, j: nat)
    requires ModelWriter.WellKeyed(bs) && i < |bs| && j < |bs|
    requires bs[i].typeInfo.typeClass == bs[j].typeInfo.typeClass
    ensures i == j
  {
    assert ModelWriter.Keys(bs)[i] == ModelWriter.Keys(bs)[j];
  }

  /** Generated text, with the builders as they stand once it is computed. */
  datatype Emitted = Emitted(builders: Builders, text: string)

  /** `getFileBuilder(typeInfo)` for a registered type: an existing builder is untouched and a
      new one is appended. */
  function FileBuilderFor(bs: Builders, reg: DomainTypes, t: TypeInfo): (r: Result<(Builders, nat)>)
    requires Sound(bs, reg) && t in reg
    ensures r.Success? <==> PackageName(t.typeClass).Some?
    ensures r.Failure? ==> r.error == NullPointer
    ensures r.Success? ==> Sound(r.value.0, reg) && AppendsBlank(bs, r.value.0)
    ensures r.Success? ==> ModelWriter.Keys(r.value.0) == AddAll(ModelWriter.Keys(bs), [t.typeClass])
    ensures r.Success? ==>
      && r.value.1 < |r.value.0|
      && r.value.0[r.value.1].typeInfo.typeClass == t.typeClass
      && r.value.0[r.value.1].generatedTypeName == ModelWriter.GeneratedTypeName(t.typeClass)
  {
    ModelWriter.GetFileBuilder(bs, t)
  }

  // ---------------------------------------------------------------------------------
  // The configurable type of a class and of a property

  /** The fallback for a class that is neither a known simple type nor registered: a new
      `ConfigurableTypeInformation` of the class, passed as a class literal. */
  function NewConfigurable(c: JClass): string {
    "new " + MODEL_PACKAGE + "ConfigurableTypeInformation(" + TypeName(c) + ".class)"
  }

  /** The fallback as the source writes it: the bare type name, which is not an expression. */
  function NewConfigurableAsWritten(c: JClass): string {
    "new " + MODEL_PACKAGE + "ConfigurableTypeInformation(" + TypeName(c) + ")"
  }

  /** `getConfiguredTypeInformationString(Class)`, after boxing a primitive: a known simple
      type, else the singleton of the registered class's generated type (creating its builder
      when it has none), else a new configurable type. A null class is rejected. */
  function ClassInit(bs: Builders, reg: DomainTypes, c: Option<JClass>): (r: Result<Emitted>)
    requires Sound(bs, reg)
    ensures c.None? ==> r == Failure(IllegalArgument(CLASS_NOT_NULL))
    ensures c.Some? && r.Failure? ==> r.error == NullPointer
    ensures r.Success? ==> Sound(r.value.builders, reg) && AppendsBlank(bs, r.value.builders)
    ensures c.Some? ==> var b := Box(c.value);
      && (r.Success? <==> IsKnownSimple(b) || Lookup(reg, b).None? || PackageName(b).Some?)
      && (IsKnownSimple(b) ==> r == Success(Emitted(bs, SimpleTypeOf(TypeName(b)))))
      && (!IsKnownSimple(b) && Lookup(reg, b).None? ==> r == Success(Emitted(bs, NewConfigurable(b))))
      && (!IsKnownSimple(b) && r.Success? && Lookup(reg, b).Some? ==>
            && r.value.text == ModelWriter.InstanceOfGenerated(b)
            && ModelWriter.Keys(r.value.builders) == AddAll(ModelWriter.Keys(bs), [b]))
  {
    if c.None? then Failure(IllegalArgument(CLASS_NOT_NULL))
    else
      var b := Box(c.value);
      if IsKnownSimple(b) then Success(Emitted(bs, SimpleTypeOf(TypeName(b))))
      else
        match Lookup(reg, b)
        case Some(t) =>
          var (bs1, k) :- FileBuilderFor(bs, reg, t);
          Success(Emitted(bs1, bs1[k].generatedTypeName + ".instance()"))
        case None => Success(Emitted(bs, NewConfigurable(b)))
  }

  /** `getConfiguredTypeInformationString(PropertyInfo)`: a list property is cast to the list
      subclass and spelled by its value class, a map property is cast to the map subclass and
      spelled by its key and value classes, any other by its own class. */
  function PropertyInit(bs: Builders, reg: DomainTypes, p: PropertyInfo): (r: Result<Emitted>)
    requires Sound(bs, reg)
    ensures r.Success? ==> Sound(r.value.builders, reg) && AppendsBlank(bs, r.value.builders)
    ensures IsListType(p) && !p.shape.ListShape? ==> r == Failure(ClassCast)
    ensures !IsListType(p) && IsMapType(p) && !p.shape.MapShape? ==> r == Failure(ClassCast)
    ensures IsListType(p) && p.shape.ListShape? && p.shape.valueType.None? ==> r == Failure(IllegalArgument(CLASS_NOT_NULL))
    ensures r.Success? && IsListType(p) ==>
      && p.shape.ListShape? && p.shape.valueType.Some? && ClassInit(bs, reg, p.shape.valueType).Success?
      && r.value.text == ListOfText(ClassInit(bs, reg, p.shape.valueType).value.text)
    ensures r.Success? && !IsListType(p) && IsMapType(p) ==>
      && p.shape.MapShape? && p.shape.keyType.Some? && p.shape.valueType.Some?
      && var key := ClassInit(bs, reg, p.shape.keyType);
         && key.Success?
         && var value := ClassInit(key.value.builders, reg, p.shape.valueType);
            && value.Success?
            && r.value.text == MapOfText(key.value.text, value.value.text)
    ensures !IsListType(p) && !IsMapType(p) ==> r == ClassInit(bs, reg, Some(p.propertyType))
  {
    if IsListType(p) then
      if !p.shape.ListShape? then Failure(ClassCast)
      else
        var value :- ClassInit(bs, reg, p.shape.valueType);
        Success(Emitted(value.builders, ListOfText(value.text)))
    else if IsMapType(p) then
      if !p.shape.MapShape? then Failure(ClassCast)
      else
        var key :- ClassInit(bs, reg, p.shape.keyType);
        var value :- ClassInit(key.builders, reg, p.shape.valueType);
        Success(Emitted(value.builders, MapOfText(key.text, value.text)))
    else ClassInit(bs, reg, Some(p.propertyType))
  }

  /** `computeTypeInfoInit(property)`, with the property's generic type `g` given (the record
      of this package has no such accessor): a simple property is spelled through
      `GenericsInfo`, a list property through the writer's own `initSignatureFrom`, any other
      through `PropertyInit`. */
  function TypeInfoInit(bs: Builders, reg: DomainTypes, p: PropertyInfo, g: RType): (r: Result<Emitted>)
    requires Sound(bs, reg)
    ensures r.Success? ==> Sound(r.value.builders, reg) && AppendsBlank(bs, r.value.builders)
    ensures IsSimpleType(p) || IsListType(p) ==> r.Success? && r.value.builders == bs
    ensures IsSimpleType(p) ==> r.value.text == SimpleTypeOf(GenericsSignature(g))
    ensures !IsSimpleType(p) && IsListType(p) ==> r.value.text == WriterInitSignature(g)
    ensures !IsSimpleType(p) && !IsListType(p) ==> r == PropertyInit(bs, reg, p)
  {
    if IsSimpleType(p) then Success(Emitted(bs, SimpleTypeOf(GenericsSignature(g))))
    else if IsListType(p) then Success(Emitted(bs, WriterInitSignature(g)))
    else PropertyInit(bs, reg, p)
  }

  /** For a plain class that is a known simple type and not registered, or a registered class
      that is not simple, the writer spells the class as the old `TypeSignature` does with the
      same registry, provided the class's binary and canonical names agree. The two differ in
      the order of their tests: the signature looks at the registry first, the writer at the
      table of simple types. */
  lemma ClassInitAgreesWithSignature(bs: Builders, reg: DomainTypes, c: JClass)
    requires Sound(bs, reg) && PlainClass(c) && TypeName(Box(c)) == Canonical(Box(c))
    requires || (IsKnownSimple(Box(c)) && Lookup(reg, c).None?)
             || (!IsPrimitive(c) && !IsKnownSimple(c) && Lookup(reg, c).Some? && PackageName(c).Some?)
    ensures ClassInit(bs, reg, Some(c)).Success? && LegacyInitSignature(Raw(c), reg).Success?
    ensures ClassInit(bs, reg, Some(c)).value.text == LegacyInitSignature(Raw(c), reg).value
  {
    assert !IsArray(Raw(c)) && Resolve(Raw(c)) == Some(c) && !HasGenerics(Raw(c));
    if IsKnownSimple(Box(c)) {
      assert !Contains(reg, Some(c));
      assert LegacyInitSignature(Raw(c), reg) == Success(SimpleTypeOf(Canonical(Box(c))));
    } else {
      assert Box(c) == c && Contains(reg, Some(c));
      assert LegacyInitSignature(Raw(c), reg) == Success(InstanceOf(Canonical(c)));
    }
  }

  const AddressClass: JClass :=
    Cls("com.example.Address", "com.example.Address", "Address", Some("com.example"), OtherKind,
        Some(ObjectClass), false, 0, false, false)

  /** The fallback as written and as corrected differ for every class: the corrected one
      passes the class literal, six characters longer than the bare name. */
  lemma FallbackAddsClassLiteral(c: JClass)
    ensures |NewConfigurable(c)| == |NewConfigurableAsWritten(c)| + 6
    ensures NewConfigurable(c) != NewConfigurableAsWritten(c)
  {
  }

  /** An unregistered domain class `com.example.Address` reaches the fallback: the writer as
      written passes the bare type name, which is not a Java expression, where the constructor
      of `ConfigurableTypeInformation` takes the class. */
  lemma FallbackPassesTypeName(bs: Builders)
    requires Sound(bs, [])
    ensures ClassInit(bs, [], Some(AddressClass)) == Success(Emitted(bs, NewConfigurable(AddressClass)))
    ensures TypeName(AddressClass) == "com.example.Address"
    ensures NewConfigurableAsWritten(AddressClass) != ClassInit(bs, [], Some(AddressClass)).value.text
  {
    assert Lookup([], AddressClass).None?;
    FallbackAddsClassLiteral(AddressClass);
  }

  const JustSimpleTypes: JClass :=
    Cls("org.springframework.data.DataModelFileWriterUnitTest$JustSimpleTypes",
        "org.springframework.data.DataModelFileWriterUnitTest.JustSimpleTypes", "JustSimpleTypes",
        Some("org.springframework.data"), OtherKind, Some(ObjectClass), false, 0, false, false)

  /** `computeTypeInfoInit` on a fresh `String` property: a simple type spelled by its class. */
  lemma SimpleTypeInfoExample(bs: Builders, reg: DomainTypes, f: FieldRef)
    requires Sound(bs, reg)
    ensures var p := NewPropertyInfo(JustSimpleTypes, "stringValue", StringClass, Some(f)).value;
      TypeInfoInit(bs, reg, p, Raw(StringClass)) == Success(Emitted(bs, SimpleTypeOf(TypeName(StringClass))))
  {
  }

  /** `computeTypeInfoInit` on a fresh `int` property: spelled by its wrapper class. */
  lemma PrimitiveTypeInfoExample(bs: Builders, reg: DomainTypes, f: FieldRef)
    requires Sound(bs, reg)
    ensures var p := NewPropertyInfo(JustSimpleTypes, "intValue", PrimitiveClass(PInt), Some(f)).value;
      TypeInfoInit(bs, reg, p, Raw(PrimitiveClass(PInt)))
        == Success(Emitted(bs, SimpleTypeOf(TypeName(WrapperClass(PInt)))))
  {
  }

  /** `computeTypeInfoInit` on a fresh property declared as a raw `List`: `list()`. */
  lemma RawListTypeInfoExample(bs: Builders, reg: DomainTypes, f: FieldRef)
    requires Sound(bs, reg)
    ensures var p := NewPropertyInfo(JustSimpleTypes, "rawList", ListClass, Some(f)).value;
      TypeInfoInit(bs, reg, p, Raw(ListClass)) == Success(Emitted(bs, RAW_LIST))
  {
    assert IsUnresolvableArg(Generics(Raw(ListClass))[0]);
  }

  /** `computeTypeInfoInit` on a fresh `List<String>` property: `listOf(...)` of its element. */
  lemma ListTypeInfoExample(bs: Builders, reg: DomainTypes, f: FieldRef)
    requires Sound(bs, reg)
    ensures var p := NewPropertyInfo(JustSimpleTypes, "listOfString", ListClass, Some(f)).value;
      TypeInfoInit(bs, reg, p, Ty(ListClass, [Raw(StringClass)]))
        == Success(Emitted(bs, ListOfText(SimpleTypeOf(TypeName(StringClass)))))
  {
    var list := Ty(ListClass, [Raw(StringClass)]);
    assert !IsUnresolvableArg(Generics(list)[0]);
    assert !HasUnresolvableGenerics(list);
    assert WriterInitSignatures(Generics(list)) == [SimpleTypeOf(TypeName(StringClass))];
  }

  /** `computeTypeInfoInit` on a property whose field's generic type is `Map<String, String>`
      while the property is taken to be a list: the writer spells the field's type,
      `mapOf(...)`. */
  lemma MapTypeInfoExample(bs: Builders, reg: DomainTypes, f: FieldRef)
    requires Sound(bs, reg)
    ensures var p := NewPropertyInfo(JustSimpleTypes, "mapOfString", ListClass, Some(f)).value;
      TypeInfoInit(bs, reg, p, Ty(MapClass, [Raw(StringClass), Raw(StringClass)]))
        == Success(Emitted(bs, MapOfText(SimpleTypeOf(TypeName(StringClass)), SimpleTypeOf(TypeName(StringClass)))))
  {
    var mapType := Ty(MapClass, [Raw(StringClass), Raw(StringClass)]);
    assert !IsUnresolvableArg(Generics(mapType)[0]) && !IsUnresolvableArg(Generics(mapType)[1]);
    assert !HasUnresolvableGenerics(mapType);
    var simple := SimpleTypeOf(TypeName(StringClass));
    assert WriterInitSignatures(Generics(mapType)) == [simple, simple];
  }

  // ---------------------------------------------------------------------------------
  // The statement of one property

  /** `Field.<Owner, T>type("name", info)`. JavaPoet replaces the `$T` placeholder by the
      `Field` class; it is written out here. */
  function TypeCall(p: PropertyInfo, sep: string, typeArg: string, info: string): (r: string)
    ensures StartsWith(r, FIELD_TYPE + ".<" + Canonical(p.owner))
  {
    var prefix := FIELD_TYPE + ".<" + Canonical(p.owner);
    assert (prefix + sep + typeArg + ">type(\"" + p.name + "\", " + info + ")")[..|prefix|] == prefix;
    FIELD_TYPE + ".<" + Canonical(p.owner) + sep + typeArg + ">type(\"" + p.name + "\", " + info + ")"
  }

  /** The head for a property of a known simple type (after boxing). */
  function SimpleHead(bs: Builders, reg: DomainTypes, p: PropertyInfo): (r: Result<Emitted>)
    requires Sound(bs, reg)
    ensures r.Success? ==> Sound(r.value.builders, reg) && AppendsBlank(bs, r.value.builders)
    ensures r.Success? <==> PropertyInit(bs, reg, p).Success?
    ensures r.Success? ==> r.value.text == TypeCall(p, ",", Name(Box(p.propertyType)), PropertyInit(bs, reg, p).value.text)
  {
    var info :- PropertyInit(bs, reg, p);
    Success(Emitted(info.builders, TypeCall(p, ",", Name(Box(p.propertyType)), info.text)))
  }

  /** The head for a map property: the declared class with the key and value classes as its
      type arguments. */
  function MapHead(bs: Builders, reg: DomainTypes, p: PropertyInfo): (r: Result<Emitted>)
    requires Sound(bs, reg) && IsMapType(p)
    ensures r.Success? ==> Sound(r.value.builders, reg) && AppendsBlank(bs, r.value.builders)
    ensures r.Success? <==> PropertyInit(bs, reg, p).Success? && p.shape.MapShape?
    ensures r.Success? ==>
      && p.shape.keyType.Some? && p.shape.valueType.Some?
      && var args := TypeName(p.shape.keyType.value) + "," + TypeName(p.shape.valueType.value);
         r.value.text == TypeCall(p, ", ", TypeName(p.propertyType) + "<" + args + ">", PropertyInit(bs, reg, p).value.text)
  {
    var info :- PropertyInit(bs, reg, p);
    if !p.shape.MapShape? then Failure(ClassCast)
    else
      var args := TypeName(p.shape.keyType.value) + "," + TypeName(p.shape.valueType.value);
      Success(Emitted(info.builders, TypeCall(p, ", ", TypeName(p.propertyType) + "<" + args + ">", info.text)))
  }

  /** The head for a list property: the declared class with the value class as its type
      argument. */
  function ListHead(bs: Builders, reg: DomainTypes, p: PropertyInfo): (r: Result<Emitted>)
    requires Sound(bs, reg) && IsListType(p)
    ensures r.Success? ==> Sound(r.value.builders, reg) && AppendsBlank(bs, r.value.builders)
    ensures r.Success? <==> PropertyInit(bs, reg, p).Success?
    ensures r.Success? ==>
      && p.shape.ListShape? && p.shape.valueType.Some?
      && var arg := TypeName(p.shape.valueType.value);
         r.value.text == TypeCall(p, ", ", TypeName(p.propertyType) + "<" + arg + ">", PropertyInit(bs, reg, p).value.text)
  {
    var info :- PropertyInit(bs, reg, p);
    Success(Emitted(info.builders, TypeCall(p, ", ", TypeName(p.propertyType) + "<" + TypeName(p.shape.valueType.value) + ">", info.text)))
  }

  /** The head for any other property: a registered type refers to its generated singleton
      (creating the builder when needed), any other class to its configurable type. */
  function ClassHead(bs: Builders, reg: DomainTypes, p: PropertyInfo): (r: Result<Emitted>)
    requires Sound(bs, reg)
    ensures r.Success? ==> Sound(r.value.builders, reg) && AppendsBlank(bs, r.value.builders)
    ensures Lookup(reg, p.propertyType).Some? ==>
      && (r.Success? <==> PackageName(p.propertyType).Some?)
      && (r.Success? ==>
        && r.value.text == TypeCall(p, ", ", Name(p.propertyType), ModelWriter.InstanceOfGenerated(p.propertyType))
        && ModelWriter.Keys(r.value.builders) == AddAll(ModelWriter.Keys(bs), [p.propertyType]))
    ensures Lookup(reg, p.propertyType).None? ==>
      && ClassInit(bs, reg, Some(p.propertyType)).Success? && r.Success?
      && r.value.text == TypeCall(p, ", ", Name(p.propertyType), ClassInit(bs, reg, Some(p.propertyType)).value.text)
  {
    match Lookup(reg, p.propertyType)
    case Some(t) =>
      var (bs1, k) :- FileBuilderFor(bs, reg, t);
      Success(Emitted(bs1, TypeCall(p, ", ", Name(p.propertyType), bs1[k].generatedTypeName + ".instance()")))
    case None =>
      var info := ClassInit(bs, reg, Some(p.propertyType)).value;
      Success(Emitted(info.builders, TypeCall(p, ", ", Name(p.propertyType), info.text)))
  }

  /** The head of `addField`'s statement, by the first rule that applies: a known simple type,
      a map, a list, anything else. */
  function FieldHead(bs: Builders, reg: DomainTypes, p: PropertyInfo): (r: Result<Emitted>)
    requires Sound(bs, reg)
    ensures r.Success? ==> Sound(r.value.builders, reg) && AppendsBlank(bs, r.value.builders)
    ensures r.Success? ==> StartsWith(r.value.text, FIELD_TYPE + ".<" + Canonical(p.owner))
  {
    if IsKnownSimple(Box(p.propertyType)) then SimpleHead(bs, reg, p)
    else if IsMapType(p) then MapHead(bs, reg, p)
    else if IsListType(p) then ListHead(bs, reg, p)
    else ClassHead(bs, reg, p)
  }

  /** The call a statement token stands for, chained onto the field expression instead of
      made on a variable. */
  function Suffix(s: FieldStmt): string
    requires 1 <= Rank(s) <= 4
  {
    match s
    case GetterCall(_, owner, m) => ".getter(" + Canonical(owner) + "::" + m + ")"
    case SetterCall(_, owner, m) => ".setter(" + Canonical(owner) + "::" + m + ")"
    case WitherCall(_, owner, m) => ".wither(" + Canonical(owner) + "::" + m + ")"
    case AtId(_) => ".annotatedWithAtId()"
    case Annotate(_, a) => ".annotation(" + ModelWriter.AnnotationFrom(a) + ")"
  }

  predicate Chainable(ss: seq<FieldStmt>) {
    forall i :: 0 <= i < |ss| ==> 1 <= Rank(ss[i]) <= 4
  }

  /** The suffixes of a run of calls, in order. */
  function Chain(ss: seq<FieldStmt>): string
    requires Chainable(ss)
  {
    Concat(Suffixes(ss))
  }

  /** The suffix of each call of a run. */
  function Suffixes(ss: seq<FieldStmt>): (r: seq<string>)
    requires Chainable(ss)
    ensures |r| == |ss| && forall i :: 0 <= i < |ss| ==> r[i] == Suffix(ss[i])
  {
    seq(|ss|, i requires 0 <= i < |ss| => Suffix(ss[i]))
  }

  /** The calls on a property: getter, setter and wither when present, then one per
      annotation. */
  function Calls(p: PropertyInfo, anns: seq<AnnotationInfo>): (r: seq<FieldStmt>)
    ensures Chainable(r)
    ensures |r| == |AccessorStatements(p)| + |anns|
  {
    var accessors := AccessorStatements(p);
    var annotations := AnnotationStatements(p.name, anns);
    assert forall i :: 0 <= i < |accessors| ==> 1 <= Rank(accessors[i]) <= 3;
    assert forall i :: 0 <= i < |annotations| ==> Rank(annotations[i]) == 4;
    accessors + annotations
  }

  /** `addField`'s statement: the head, then the chained calls. A null annotation set fails
      when it is iterated. */
  function FieldStatement(bs: Builders, reg: DomainTypes, p: PropertyInfo): (r: Result<Emitted>)
    requires Sound(bs, reg)
    ensures r.Success? ==> Sound(r.value.builders, reg) && AppendsBlank(bs, r.value.builders)
    ensures r.Success? ==> p.annotations.Some? && FieldHead(bs, reg, p).Success?
    ensures r.Success? ==>
      r.value.text == FieldHead(bs, reg, p).value.text + Chain(Calls(p, p.annotations.value))
    ensures FieldHead(bs, reg, p).Success? && p.annotations.None? ==> r == Failure(NullPointer)
  {
    var head :- FieldHead(bs, reg, p);
    var anns :- Deref(p.annotations);
    Success(Emitted(head.builders, head.text + Chain(Calls(p, anns))))
  }

  /** Two outcomes agree on success and, when they succeed, on the generated text. */
  predicate SameText(a: Result<Emitted>, b: Result<Emitted>) {
    a.Success? == b.Success? && (a.Success? ==> a.value.text == b.value.text)
  }

  /** The text of `addField`'s statement. It does not depend on the builders the writer
      already holds (`FieldStatementText`): they only decide whether the builder of a
      referenced registered type has to be created. */
  function FieldText(reg: DomainTypes, p: PropertyInfo): Result<string> {
    var e :- FieldStatement([], reg, p);
    Success(e.text)
  }

  /** `f` applied to each element in order; the first failure aborts the run. */
  function Collect<T, U>(f: T -> Result<U>, xs: seq<T>): Result<seq<U>>
    decreases |xs|
  {
    if |xs| == 0 then Success([])
    else
      var head :- f(xs[0]);
      var tail :- Collect(f, xs[1..]);
      Success([head] + tail)
  }

  /** A run succeeds exactly when each element does, and its i-th result is element i's. */
  lemma {:induction false} CollectEach<T, U>(f: T -> Result<U>, xs: seq<T>)
    ensures Collect(f, xs).Success? <==> forall i :: 0 <= i < |xs| ==> f(xs[i]).Success?
    ensures Collect(f, xs).Success? ==>
      && |Collect(f, xs).value| == |xs|
      && forall i :: 0 <= i < |xs| ==> f(xs[i]).Success? && Collect(f, xs).value[i] == f(xs[i]).value
    decreases |xs|
  {
    if |xs| > 0 {
      CollectEach(f, xs[1..]);
      assert forall i :: 1 <= i < |xs| ==> xs[i] == xs[1..][i - 1];
    }
  }

  /** The statements of a run of properties, in order. */
  function FieldTexts(reg: DomainTypes, ps: seq<PropertyInfo>): Result<seq<string>> {
    Collect(p => FieldText(reg, p), ps)
  }

  /** The statements of a run exist exactly when each property's does, and the i-th is
      property i's. */
  lemma FieldTextsEach(reg: DomainTypes, ps: seq<PropertyInfo>)
    ensures FieldTexts(reg, ps).Success? <==> forall i :: 0 <= i < |ps| ==> FieldText(reg, ps[i]).Success?
    ensures FieldTexts(reg, ps).Success? ==>
      && |FieldTexts(reg, ps).value| == |ps|
      && forall i :: 0 <= i < |ps| ==> FieldText(reg, ps[i]).Success? && FieldTexts(reg, ps).value[i] == FieldText(reg, ps[i]).value
  {
    CollectEach(p => FieldText(reg, p), ps);
  }

  lemma ClassInitSame(bs1: Builders, bs2: Builders, reg: DomainTypes, c: Option<JClass>)
    requires Sound(bs1, reg) && Sound(bs2, reg)
    ensures SameText(ClassInit(bs1, reg, c), ClassInit(bs2, reg, c))
  {
  }

  lemma PropertyInitSame(bs1: Builders, bs2: Builders, reg: DomainTypes, p: PropertyInfo)
    requires Sound(bs1, reg) && Sound(bs2, reg)
    ensures SameText(PropertyInit(bs1, reg, p), PropertyInit(bs2, reg, p))
  {
    if IsListType(p) {
      if p.shape.ListShape? {
        ClassInitSame(bs1, bs2, reg, p.shape.valueType);
      }
    } else if IsMapType(p) && p.shape.MapShape? {
      var k1 := ClassInit(bs1, reg, p.shape.keyType);
      var k2 := ClassInit(bs2, reg, p.shape.keyType);
      ClassInitSame(bs1, bs2, reg, p.shape.keyType);
      if k1.Success? {
        ClassInitSame(k1.value.builders, k2.value.builders, reg, p.shape.valueType);
      }
    } else {
      ClassInitSame(bs1, bs2, reg, Some(p.propertyType));
    }
  }

  lemma FieldHeadSame(bs1: Builders, bs2: Builders, reg: DomainTypes, p: PropertyInfo)
    requires Sound(bs1, reg) && Sound(bs2, reg)
    ensures SameText(FieldHead(bs1, reg, p), FieldHead(bs2, reg, p))
  {
    PropertyInitSame(bs1, bs2, reg, p);
    ClassInitSame(bs1, bs2, reg, Some(p.propertyType));
  }

  /** The statement written for a property is the same, and fails alike, whatever builders
      the writer holds at that point. */
  lemma FieldStatementText(bs: Builders, reg: DomainTypes, p: PropertyInfo)
    requires Sound(bs, reg)
    ensures FieldStatement(bs, reg, p).Success? <==> FieldText(reg, p).Success?
    ensures FieldStatement(bs, reg, p).Success? ==> FieldStatement(bs, reg, p).value.text == FieldText(reg, p).value
  {
    FieldHeadSame(bs, [], reg, p);
  }

  /** The suffixes of two runs of calls, one after the other, are the suffixes of the
      joined run. */
  lemma ChainAppend(a: seq<FieldStmt>, b: seq<FieldStmt>)
    requires Chainable(a) && Chainable(b)
    ensures Chainable(a + b) && Chain(a + b) == Chain(a) + Chain(b)
  {
    ChainableAppend(a, b);
    assert Suffixes(a + b) == Suffixes(a) + Suffixes(b);
    ConcatAppend(Suffixes(a), Suffixes(b));
  }

  lemma ChainableAppend(a: seq<FieldStmt>, b: seq<FieldStmt>)
    requires Chainable(a) && Chainable(b)
    ensures Chainable(a + b)
  {
    forall i | 0 <= i < |a + b| ensures 1 <= Rank((a + b)[i]) <= 4 {
      if i < |a| { assert (a + b)[i] == a[i]; } else { assert (a + b)[i] == b[i - |a|]; }
    }
  }

  /** A call rendered by the model package's writer is its variable followed by the suffix. */
  lemma RenderIsNameThenSuffix(s: FieldStmt)
    requires 1 <= Rank(s) <= 4
    ensures ModelWriter.Render(s) == s.name + Suffix(s)
  {
    match s
    case GetterCall(n, o, m) => RenderGetter(n, o, m);
    case SetterCall(n, o, m) => RenderSetter(n, o, m);
    case WitherCall(n, o, m) => RenderWither(n, o, m);
    case AtId(n) =>
    case Annotate(n, a) => RenderAnnotate(n, a);
  }

  lemma RenderGetter(n: string, o: JClass, m: string)
    ensures ModelWriter.Render(GetterCall(n, o, m)) == n + Suffix(GetterCall(n, o, m))
  {
    assert n + ".getter(" + Canonical(o) + "::" + m + ")" == n + (".getter(" + Canonical(o) + "::" + m + ")");
  }

  lemma RenderSetter(n: string, o: JClass, m: string)
    ensures ModelWriter.Render(SetterCall(n, o, m)) == n + Suffix(SetterCall(n, o, m))
  {
    assert n + ".setter(" + Canonical(o) + "::" + m + ")" == n + (".setter(" + Canonical(o) + "::" + m + ")");
  }

  lemma RenderWither(n: string, o: JClass, m: string)
    ensures ModelWriter.Render(WitherCall(n, o, m)) == n + Suffix(WitherCall(n, o, m))
  {
    assert n + ".wither(" + Canonical(o) + "::" + m + ")" == n + (".wither(" + Canonical(o) + "::" + m + ")");
  }

  lemma RenderAnnotate(n: string, a: AnnotationInfo)
    ensures ModelWriter.Render(Annotate(n, a)) == n + Suffix(Annotate(n, a))
  {
    assert n + ".annotation(" + ModelWriter.AnnotationFrom(a) + ")" == n + (".annotation(" + ModelWriter.AnnotationFrom(a) + ")");
  }

  /** Each call chained onto the statement is, word for word, the call the model package's
      writer makes on the property's variable: the same accessors in the same order, the
      `@Id` shorthand and the same annotation instances. */
  lemma ChainedCallsMatchModelWriter(p: PropertyInfo, anns: seq<AnnotationInfo>)
    ensures forall i :: 0 <= i < |Calls(p, anns)| ==>
      ModelWriter.Render(Calls(p, anns)[i]) == p.name + Suffix(Calls(p, anns)[i])
  {
    var calls := Calls(p, anns);
    var accessors := AccessorStatements(p);
    var annotations := AnnotationStatements(p.name, anns);
    assert calls == accessors + annotations;
    forall i | 0 <= i < |calls|
      ensures ModelWriter.Render(calls[i]) == p.name + Suffix(calls[i])
    {
      if i < |accessors| {
        assert calls[i] == accessors[i];
      } else {
        assert calls[i] == annotations[i - |accessors|] == AnnotationStatement(p.name, anns[i - |accessors|]);
      }
      RenderIsNameThenSuffix(calls[i]);
    }
  }

  /** A property whose class is registered, and is not a simple type, a map or a list, refers
      to the singleton of its generated class, and the builder of that class exists once the
      statement is written, whether or not its own type was processed yet. */
  lemma DomainFieldReferencesSingleton(bs: Builders, reg: DomainTypes, p: PropertyInfo)
    requires Sound(bs, reg) && Lookup(reg, p.propertyType).Some?
    requires !IsKnownSimple(Box(p.propertyType)) && !IsMapType(p) && !IsListType(p)
    requires PackageName(p.propertyType).Some? && p.annotations.Some?
    ensures FieldStatement(bs, reg, p).Success?
    ensures FieldStatement(bs, reg, p).value.text
      == TypeCall(p, ", ", Name(p.propertyType), ModelWriter.InstanceOfGenerated(p.propertyType))
         + Chain(Calls(p, p.annotations.value))
    ensures p.propertyType in ModelWriter.Keys(FieldStatement(bs, reg, p).value.builders)
  {
    assert FieldHead(bs, reg, p) == ClassHead(bs, reg, p);
  }

  /** `addField(property, fileBuilder)`: the statement goes to the end of builder `k`. */
  function AddField(bs: Builders, k: nat, reg: DomainTypes, p: PropertyInfo): (r: Result<Builders>)
    requires Sound(bs, reg) && k < |bs|
    ensures r.Success? <==> FieldStatement(bs, reg, p).Success?
    ensures r.Success? <==> FieldText(reg, p).Success?
    ensures r.Success? ==> Sound(r.value, reg) && Grows(bs, r.value) && k < |r.value|
    ensures r.Success? ==> r.value[k].fieldStatements == bs[k].fieldStatements + [FieldStatement(bs, reg, p).value.text]
    ensures r.Success? ==> r.value[k].fieldStatements == bs[k].fieldStatements + [FieldText(reg, p).value]
    ensures r.Success? ==> forall i :: 0 <= i < |bs| && i != k ==> r.value[i] == bs[i]
    ensures r.Success? ==> forall i :: |bs| <= i < |r.value| ==> Blank(r.value[i])
  {
    FieldStatementText(bs, reg, p);
    var e :- FieldStatement(bs, reg, p);
    AppendStatement(bs, e.builders, reg, k, e.text);
    Success(e.builders[k := e.builders[k].(fieldStatements := e.builders[k].fieldStatements + [e.text])])
  }

  /** Appending a statement to builder `k` of builders that extend `bs`. */
  lemma AppendStatement(bs: Builders, e: Builders, reg: DomainTypes, k: nat, text: string)
    requires Sound(e, reg) && AppendsBlank(bs, e) && k < |bs|
    ensures var r := e[k := e[k].(fieldStatements := e[k].fieldStatements + [text])];
      && Sound(r, reg) && Grows(bs, r) && k < |r|
      && r[k].fieldStatements == bs[k].fieldStatements + [text]
      && (forall i :: 0 <= i < |bs| && i != k ==> r[i] == bs[i])
      && forall i :: |bs| <= i < |r| ==> Blank(r[i])
  {
    var r := e[k := e[k].(fieldStatements := e[k].fieldStatements + [text])];
    assert e[k] == bs[k];
    assert ModelWriter.Keys(r) == ModelWriter.Keys(e);
    assert forall i :: 0 <= i < |bs| ==> e[i] == bs[i];
  }

  /** `addFields`: one statement per property, in property order, all to builder `k`. */
  function AddFields(bs: Builders, k: nat, reg: DomainTypes, ps: seq<PropertyInfo>): (r: Result<Builders>)
    requires Sound(bs, reg) && k < |bs|
    ensures r.Success? ==> Sound(r.value, reg) && Grows(bs, r.value) && k < |r.value|
    ensures r.Success? ==> |r.value[k].fieldStatements| == |bs[k].fieldStatements| + |ps|
    ensures r.Success? ==> r.value[k].fieldStatements[..|bs[k].fieldStatements|] == bs[k].fieldStatements
    ensures r.Success? ==> r.value[k].newInstance == bs[k].newInstance
    ensures r.Success? <==> FieldTexts(reg, ps).Success?
    ensures r.Success? ==> r.value[k].fieldStatements == bs[k].fieldStatements + FieldTexts(reg, ps).value
    ensures r.Success? ==> forall i :: 0 <= i < |bs| && i != k ==> r.value[i] == bs[i]
    ensures r.Success? ==> forall i :: |bs| <= i < |r.value| ==> Blank(r.value[i])
    decreases |ps|
  {
    if |ps| == 0 then
      assert bs[k].fieldStatements + [] == bs[k].fieldStatements;
      Success(bs)
    else
      FieldStatementText(bs, reg, ps[0]);
      var bs1 :- AddField(bs, k, reg, ps[0]);
      var r := AddFields(bs1, k, reg, ps[1..]);
      if r.Success? then
        AddFieldsStep(bs, bs1, r.value, k, reg, ps);
        r
      else
        assert !FieldTexts(reg, ps[1..]).Success?;
        assert ps[1..] == ps[1..];
        AddFieldsFails(reg, ps);
        r
  }

  /** A run of statements fails when the statements after the first do. */
  lemma AddFieldsFails(reg: DomainTypes, ps: seq<PropertyInfo>)
    requires |ps| > 0 && !FieldTexts(reg, ps[1..]).Success?
    ensures !FieldTexts(reg, ps).Success?
  {
  }

  /** One step of `AddFields`: the first statement, then the rest. */
  lemma AddFieldsStep(bs: Builders, bs1: Builders, r: Builders, k: nat, reg: DomainTypes, ps: seq<PropertyInfo>)
    requires |ps| > 0 && k < |bs| && |bs| <= |bs1| <= |r|
    requires FieldText(reg, ps[0]).Success? && FieldTexts(reg, ps[1..]).Success?
    requires bs1[k].fieldStatements == bs[k].fieldStatements + [FieldText(reg, ps[0]).value]
    requires r[k].fieldStatements == bs1[k].fieldStatements + FieldTexts(reg, ps[1..]).value
    requires forall i :: 0 <= i < |bs| && i != k ==> bs1[i] == bs[i]
    requires forall i :: |bs| <= i < |bs1| ==> Blank(bs1[i])
    requires forall i :: 0 <= i < |bs1| && i != k ==> r[i] == bs1[i]
    requires forall i :: |bs1| <= i < |r| ==> Blank(r[i])
    ensures FieldTexts(reg, ps).Success?
    ensures r[k].fieldStatements == bs[k].fieldStatements + FieldTexts(reg, ps).value
    ensures r[k].fieldStatements[..|bs[k].fieldStatements|] == bs[k].fieldStatements
    ensures forall i :: 0 <= i < |bs| && i != k ==> r[i] == bs[i]
    ensures forall i :: |bs| <= i < |r| ==> Blank(r[i])
  {
    var head := FieldText(reg, ps[0]).value;
    var tail := FieldTexts(reg, ps[1..]).value;
    FieldTextsCons(reg, ps);
    AppendTexts(bs[k].fieldStatements, head, tail, r[k].fieldStatements);
    forall i | |bs| <= i < |r| ensures Blank(r[i]) {
      if i < |bs1| { assert i != k; }
    }
  }

  /** Kept apart from `AddFieldsStep`, whose context makes this step too costly inline. */
  lemma AppendTexts(before: seq<string>, head: string, tail: seq<string>, after: seq<string>)
    requires after == before + [head] + tail
    ensures after == before + ([head] + tail) && after[..|before|] == before
  {
    assert before + [head] + tail == before + ([head] + tail);
  }

  lemma FieldTextsCons(reg: DomainTypes, ps: seq<PropertyInfo>)
    requires |ps| > 0 && FieldText(reg, ps[0]).Success? && FieldTexts(reg, ps[1..]).Success?
    ensures FieldTexts(reg, ps) == Success([FieldText(reg, ps[0]).value] + FieldTexts(reg, ps[1..]).value)
  {
  }

  // ---------------------------------------------------------------------------------
  // Processing the registered types

  /** The builder for class `c` exists and holds a constructor expression. */
  predicate Constructed(bs: Builders, c: JClass) {
    && c in ModelWriter.Keys(bs)
    && forall i :: 0 <= i < |bs| && bs[i].typeInfo.typeClass == c ==> bs[i].newInstance.Some?
  }

  /** A constructed builder stays constructed while the builders grow. */
  lemma ConstructedKept(bs: Builders, bs2: Builders, c: JClass)
    requires Constructed(bs, c) && Grows(bs, bs2) && ModelWriter.WellKeyed(bs2)
    ensures Constructed(bs2, c)
  {
    var j :| 0 <= j < |bs| && ModelWriter.Keys(bs)[j] == c;
    assert ModelWriter.Keys(bs2)[j] == c;
    forall i | 0 <= i < |bs2| && bs2[i].typeInfo.typeClass == c ensures bs2[i].newInstance.Some? {
      assert ModelWriter.Keys(bs2)[i] == ModelWriter.Keys(bs2)[j];
    }
  }

  /** Builder `k` for class `c` holds a constructor expression; in well-keyed builders it is
      the only builder for `c`. */
  lemma ConstructedAt(bs: Builders, k: nat, c: JClass)
    requires ModelWriter.WellKeyed(bs) && k < |bs| && bs[k].typeInfo.typeClass == c && bs[k].newInstance.Some?
    ensures Constructed(bs, c)
  {
    assert ModelWriter.Keys(bs)[k] == c;
    forall i | 0 <= i < |bs| && bs[i].typeInfo.typeClass == c ensures bs[i].newInstance.Some? {
      assert ModelWriter.Keys(bs)[i] == ModelWriter.Keys(bs)[k];
    }
  }

  /** `fileBuilder.newDomainTypeInstance(statement)` on builder `k`. */
  function WithConstructor(bs: Builders, reg: DomainTypes, k: nat, statement: string): (r: Builders)
    requires Sound(bs, reg) && k < |bs|
    ensures Sound(r, reg) && Grows(bs, r) && |r| == |bs|
    ensures r[k] == bs[k].(newInstance := Some(statement))
    ensures forall i :: 0 <= i < |bs| && i != k ==> r[i] == bs[i]
  {
    var r := bs[k := bs[k].(newInstance := Some(statement))];
    assert ModelWriter.Keys(r) == ModelWriter.Keys(bs);
    r
  }

  /** A type `process` accepts: it is in a named package, it has a constructor model and
      each of its properties has a statement. */
  predicate Processable(reg: DomainTypes, t: TypeInfo) {
    PackageName(t.typeClass).Some? && t.persistenceConstructor.Some? && FieldTexts(reg, t.properties).Success?
  }

  /** The statements the builder for `c` already holds, none when it has no builder yet. */
  function StatementsOf(bs: Builders, c: JClass): seq<string> {
    match ModelWriter.IndexOf(bs, c)
    case Some(k) => bs[k].fieldStatements
    case None => []
  }

  /** `process(typeInfo)`: the type's builder (found or created) gets the constructor
      expression, then one statement per property. Every other builder is left as it was, and
      builders created on the way for referenced types are blank. */
  function Process(bs: Builders, reg: DomainTypes, t: TypeInfo): (r: Result<Builders>)
    requires Sound(bs, reg) && t in reg
    ensures PackageName(t.typeClass).None? || t.persistenceConstructor.None? ==> r == Failure(NullPointer)
    ensures r.Success? <==> Processable(reg, t)
    ensures r.Success? ==> Sound(r.value, reg) && Grows(bs, r.value) && Constructed(r.value, t.typeClass)
  {
    var (bs1, k) :- FileBuilderFor(bs, reg, t);
    var statement :- ModelWriter.NewInstanceText(t);
    var bs2 := WithConstructor(bs1, reg, k, statement);
    var r := AddFields(bs2, k, reg, t.properties);
    if r.Success? then
      ConstructedAt(r.value, k, t.typeClass);
      assert Grows(bs, bs2);
      assert Grows(bs, r.value);
      r
    else r
  }

  /** What `process` writes: the type's builder gets the type's constructor expression and,
      after the statements it already held, one statement per property. Every other builder
      is left as it was, and builders created on the way for referenced types are blank. */
  lemma ProcessWrites(bs: Builders, reg: DomainTypes, t: TypeInfo)
    requires Sound(bs, reg) && t in reg && Process(bs, reg, t).Success?
    ensures var r := Process(bs, reg, t).value;
      forall i :: 0 <= i < |r| && r[i].typeInfo.typeClass == t.typeClass ==>
        && r[i].newInstance == Some(ModelWriter.NewInstanceText(t).value)
        && r[i].fieldStatements == StatementsOf(bs, t.typeClass) + FieldTexts(reg, t.properties).value
    ensures var r := Process(bs, reg, t).value;
      forall i :: 0 <= i < |r| && r[i].typeInfo.typeClass != t.typeClass ==>
        (i < |bs| ==> r[i] == bs[i]) && (|bs| <= i ==> Blank(r[i]))
  {
    var (bs1, k) := FileBuilderFor(bs, reg, t).value;
    var statement := ModelWriter.NewInstanceText(t).value;
    var bs2 := WithConstructor(bs1, reg, k, statement);
    var r := AddFields(bs2, k, reg, t.properties).value;
    assert Process(bs, reg, t).value == r;
    PriorStatements(bs, bs1, k, t.typeClass);
    OnlyBuilderFor(r, k, t.typeClass);
    ProcessFrame(bs, bs1, bs2, r, k, t.typeClass);
  }

  /** The builder `getFileBuilder` hands out holds the statements the type's builder held
      before, none when it is new. */
  lemma PriorStatements(bs: Builders, bs1: Builders, k: nat, c: JClass)
    requires ModelWriter.WellKeyed(bs1) && AppendsBlank(bs, bs1) && k < |bs1| && bs1[k].typeInfo.typeClass == c
    ensures bs1[k].fieldStatements == StatementsOf(bs, c)
  {
    if k < |bs| {
      KeyAt(bs, k);
    }
    match ModelWriter.IndexOf(bs, c)
    case Some(j) =>
      OneBuilderPerClass(bs1, j, k);
    case None =>
      assert StatementsOf(bs, c) == [];
      if |bs| <= k {
        assert Blank(bs1[k]);
      }
  }

  lemma KeyAt(bs: Builders, k: nat)
    requires k < |bs|
    ensures bs[k].typeInfo.typeClass in ModelWriter.Keys(bs)
  {
    assert ModelWriter.Keys(bs)[k] == bs[k].typeInfo.typeClass;
  }

  /** In well-keyed builders, builder `k` is every builder for its class. */
  lemma OnlyBuilderFor(bs: Builders, k: nat, c: JClass)
    requires ModelWriter.WellKeyed(bs) && k < |bs| && bs[k].typeInfo.typeClass == c
    ensures forall i :: 0 <= i < |bs| && bs[i].typeInfo.typeClass == c ==> bs[i] == bs[k]
  {
    forall i | 0 <= i < |bs| && bs[i].typeInfo.typeClass == c ensures bs[i] == bs[k] {
      OneBuilderPerClass(bs, i, k);
    }
  }

  /** Only builder `k`, the one for `c`, changes in place; all others are kept or blank. */
  lemma ProcessFrame(bs: Builders, bs1: Builders, bs2: Builders, r: Builders, k: nat, c: JClass)
    requires AppendsBlank(bs, bs1) && k < |bs1| && |bs2| == |bs1| <= |r|
    requires r[k].typeInfo.typeClass == c
    requires forall i :: 0 <= i < |bs1| && i != k ==> bs2[i] == bs1[i]
    requires forall i :: 0 <= i < |bs2| && i != k ==> r[i] == bs2[i]
    requires forall i :: |bs2| <= i < |r| ==> Blank(r[i])
    ensures forall i :: 0 <= i < |r| && r[i].typeInfo.typeClass != c ==>
      (i < |bs| ==> r[i] == bs[i]) && (|bs| <= i ==> Blank(r[i]))
  {
    forall i | 0 <= i < |r| && r[i].typeInfo.typeClass != c
      ensures (i < |bs| ==> r[i] == bs[i]) && (|bs| <= i ==> Blank(r[i]))
    {
      assert i != k;
      if i < |bs1| {
        assert r[i] == bs1[i];
      }
    }
  }

  /** `processFiles`' loop over the types, in order. */
  function ProcessAll(bs: Builders, reg: DomainTypes, ts: seq<TypeInfo>): (r: Result<Builders>)
    requires Sound(bs, reg) && forall i :: 0 <= i < |ts| ==> ts[i] in reg
    ensures r.Success? ==> Sound(r.value, reg) && Grows(bs, r.value)
    ensures r.Success? ==> forall i :: 0 <= i < |ts| ==> Constructed(r.value, ts[i].typeClass)
    decreases |ts|
  {
    if |ts| == 0 then Success(bs)
    else
      var bs1 :- Process(bs, reg, ts[0]);
      var r := ProcessAll(bs1, reg, ts[1..]);
      if r.Success? then
        ProcessAllStep(bs, bs1, r.value, reg, ts);
        r
      else r
  }

  /** The loop fails exactly when some type cannot be processed, whatever builders it
      starts from. */
  lemma {:induction false} ProcessAllSucceeds(bs: Builders, reg: DomainTypes, ts: seq<TypeInfo>)
    requires Sound(bs, reg) && forall i :: 0 <= i < |ts| ==> ts[i] in reg
    ensures ProcessAll(bs, reg, ts).Success? <==> forall i :: 0 <= i < |ts| ==> Processable(reg, ts[i])
    decreases |ts|
  {
    if |ts| > 0 {
      ProcessableTail(reg, ts);
      if Process(bs, reg, ts[0]).Success? {
        ProcessAllSucceeds(Process(bs, reg, ts[0]).value, reg, ts[1..]);
      }
    }
  }

  lemma ProcessableTail(reg: DomainTypes, ts: seq<TypeInfo>)
    requires |ts| > 0
    ensures (forall i :: 0 <= i < |ts| ==> Processable(reg, ts[i]))
        <==> Processable(reg, ts[0]) && forall i :: 0 <= i < |ts[1..]| ==> Processable(reg, ts[1..][i])
  {
    assert forall i :: 1 <= i < |ts| ==> ts[i] == ts[1..][i - 1];
  }

  /** One step of `ProcessAll`: the first type's builder stays constructed while the rest
      are processed. */
  lemma ProcessAllStep(bs: Builders, bs1: Builders, r: Builders, reg: DomainTypes, ts: seq<TypeInfo>)
    requires |ts| > 0 && Grows(bs, bs1) && Grows(bs1, r) && Sound(r, reg)
    requires Constructed(bs1, ts[0].typeClass)
    requires forall i :: 0 <= i < |ts[1..]| ==> Constructed(r, ts[1..][i].typeClass)
    ensures Grows(bs, r) && forall i :: 0 <= i < |ts| ==> Constructed(r, ts[i].typeClass)
  {
    assert Grows(bs, r);
    ConstructedKept(bs1, r, ts[0].typeClass);
    forall i | 1 <= i < |ts| ensures Constructed(r, ts[i].typeClass) {
      assert ts[i] == ts[1..][i - 1];
    }
  }

  /** `processFiles()`: every registered type in registry order. */
  function ProcessFiles(reg: DomainTypes): (r: Result<Builders>)
    ensures r.Success? ==> Sound(r.value, reg)
    ensures r.Success? ==> forall i :: 0 <= i < |reg| ==> Constructed(r.value, reg[i].typeClass)
  {
    ProcessAll([], reg, reg)
  }

  /** Builder `b` holds exactly what `process` writes for type `t`: the type's constructor
      expression and one statement per property, in property order. */
  predicate Holds(reg: DomainTypes, b: Builder, t: TypeInfo) {
    && ModelWriter.NewInstanceText(t).Success? && FieldTexts(reg, t.properties).Success?
    && b.newInstance == Some(ModelWriter.NewInstanceText(t).value)
    && b.fieldStatements == FieldTexts(reg, t.properties).value
  }

  /** Processing types of distinct classes, none of whose builders holds anything yet, leaves
      each type's builder holding exactly that type's constructor expression and statements;
      a builder of any other class is kept, or blank when it was created on the way. */
  lemma {:induction false} ProcessAllContents(bs: Builders, reg: DomainTypes, ts: seq<TypeInfo>)
    requires Sound(bs, reg) && (forall i :: 0 <= i < |ts| ==> ts[i] in reg) && Distinct(ts)
    requires ProcessAll(bs, reg, ts).Success?
    requires forall i :: 0 <= i < |bs| && bs[i].typeInfo.typeClass in ModelWriter.ClassesOf(ts) ==> Blank(bs[i])
    ensures var r := ProcessAll(bs, reg, ts).value;
      forall i, j :: 0 <= i < |r| && 0 <= j < |ts| && r[i].typeInfo.typeClass == ts[j].typeClass ==> Holds(reg, r[i], ts[j])
    ensures var r := ProcessAll(bs, reg, ts).value;
      forall i :: 0 <= i < |r| && r[i].typeInfo.typeClass !in ModelWriter.ClassesOf(ts) ==>
        (i < |bs| ==> r[i] == bs[i]) && (|bs| <= i ==> Blank(r[i]))
    decreases |ts|
  {
    if |ts| > 0 {
      var bs1 := Process(bs, reg, ts[0]).value;
      ClassesTail(ts);
      ProcessWrites(bs, reg, ts[0]);
      TailBlank(bs, bs1, ts);
      ProcessAllContents(bs1, reg, ts[1..]);
      var r := ProcessAll(bs1, reg, ts[1..]).value;
      StatementsOfBlank(bs, ts[0].typeClass, ts);
      FirstTypeHolds(bs, bs1, r, reg, ts);
      ContentsStep(bs, bs1, r, reg, ts);
    }
  }

  /** For a registry of distinct classes that processes, the builder for each registered class
      is the one for that type: it holds the type's constructor expression and one statement
      per property, in property order, and nothing else. */
  lemma ProcessFilesContents(reg: DomainTypes)
    requires Distinct(reg) && ProcessFiles(reg).Success?
    ensures var r := ProcessFiles(reg).value;
      forall i, j :: 0 <= i < |r| && 0 <= j < |reg| && r[i].typeInfo.typeClass == reg[j].typeClass ==>
        r[i].typeInfo == reg[j] && Holds(reg, r[i], reg[j])
  {
    var r := ProcessFiles(reg).value;
    ProcessAllContents([], reg, reg);
    forall i, j | 0 <= i < |r| && 0 <= j < |reg| && r[i].typeInfo.typeClass == reg[j].typeClass
      ensures r[i].typeInfo == reg[j]
    {
      var k :| 0 <= k < |reg| && reg[k] == r[i].typeInfo;
      assert reg[k].typeClass == reg[j].typeClass;
    }
  }

  /** One step of `ProcessAllContents`: the first type is processed into `bs1`, the rest into
      `r`, of which the induction hypothesis speaks. */
  lemma ContentsStep(bs: Builders, bs1: Builders, r: Builders, reg: DomainTypes, ts: seq<TypeInfo>)
    requires |ts| > 0 && |bs| <= |bs1|
    requires forall i :: 0 <= i < |bs1| && bs1[i].typeInfo.typeClass != ts[0].typeClass ==>
      (i < |bs| ==> bs1[i] == bs[i]) && (|bs| <= i ==> Blank(bs1[i]))
    requires forall i :: 0 <= i < |r| && r[i].typeInfo.typeClass == ts[0].typeClass ==> Holds(reg, r[i], ts[0])
    requires forall i, j :: 0 <= i < |r| && 0 <= j < |ts[1..]| && r[i].typeInfo.typeClass == ts[1..][j].typeClass ==> Holds(reg, r[i], ts[1..][j])
    requires forall i :: 0 <= i < |r| && r[i].typeInfo.typeClass !in ModelWriter.ClassesOf(ts[1..]) ==>
      (i < |bs1| ==> r[i] == bs1[i]) && (|bs1| <= i ==> Blank(r[i]))
    ensures forall i, j :: 0 <= i < |r| && 0 <= j < |ts| && r[i].typeInfo.typeClass == ts[j].typeClass ==> Holds(reg, r[i], ts[j])
    ensures forall i :: 0 <= i < |r| && r[i].typeInfo.typeClass !in ModelWriter.ClassesOf(ts) ==>
      (i < |bs| ==> r[i] == bs[i]) && (|bs| <= i ==> Blank(r[i]))
  {
    ClassesTail(ts);
    HoldsStep(r, reg, ts);
    FrameStep(bs, bs1, r, ts);
  }

  /** After the first type is processed, the builders of the remaining classes are still blank. */
  lemma TailBlank(bs: Builders, bs1: Builders, ts: seq<TypeInfo>)
    requires |ts| > 0 && ts[0].typeClass !in ModelWriter.ClassesOf(ts[1..])
    requires forall x :: x in ModelWriter.ClassesOf(ts[1..]) ==> x in ModelWriter.ClassesOf(ts)
    requires forall i :: 0 <= i < |bs| && bs[i].typeInfo.typeClass in ModelWriter.ClassesOf(ts) ==> Blank(bs[i])
    requires forall i :: 0 <= i < |bs1| && bs1[i].typeInfo.typeClass != ts[0].typeClass ==>
      (i < |bs| ==> bs1[i] == bs[i]) && (|bs| <= i ==> Blank(bs1[i]))
    ensures forall i :: 0 <= i < |bs1| && bs1[i].typeInfo.typeClass in ModelWriter.ClassesOf(ts[1..]) ==> Blank(bs1[i])
  {
  }

  /** The types after the first hold by the induction, the first by `FirstTypeHolds`. */
  lemma HoldsStep(r: Builders, reg: DomainTypes, ts: seq<TypeInfo>)
    requires |ts| > 0
    requires forall i :: 0 <= i < |r| && r[i].typeInfo.typeClass == ts[0].typeClass ==> Holds(reg, r[i], ts[0])
    requires forall i, j :: 0 <= i < |r| && 0 <= j < |ts[1..]| && r[i].typeInfo.typeClass == ts[1..][j].typeClass ==> Holds(reg, r[i], ts[1..][j])
    ensures forall i, j :: 0 <= i < |r| && 0 <= j < |ts| && r[i].typeInfo.typeClass == ts[j].typeClass ==> Holds(reg, r[i], ts[j])
  {
    forall i, j | 0 <= i < |r| && 0 <= j < |ts| && r[i].typeInfo.typeClass == ts[j].typeClass
      ensures Holds(reg, r[i], ts[j])
    {
      if j > 0 {
        assert ts[j] == ts[1..][j - 1];
      }
    }
  }

  /** A builder of a class outside all the types passes through both steps untouched or blank. */
  lemma FrameStep(bs: Builders, bs1: Builders, r: Builders, ts: seq<TypeInfo>)
    requires |ts| > 0
    requires forall x :: x in ModelWriter.ClassesOf(ts) <==> x == ts[0].typeClass || x in ModelWriter.ClassesOf(ts[1..])
    requires forall i :: 0 <= i < |bs1| && bs1[i].typeInfo.typeClass != ts[0].typeClass ==>
      (i < |bs| ==> bs1[i] == bs[i]) && (|bs| <= i ==> Blank(bs1[i]))
    requires forall i :: 0 <= i < |r| && r[i].typeInfo.typeClass !in ModelWriter.ClassesOf(ts[1..]) ==>
      (i < |bs1| ==> r[i] == bs1[i]) && (|bs1| <= i ==> Blank(r[i]))
    requires |bs| <= |bs1|
    ensures forall i :: 0 <= i < |r| && r[i].typeInfo.typeClass !in ModelWriter.ClassesOf(ts) ==>
      (i < |bs| ==> r[i] == bs[i]) && (|bs| <= i ==> Blank(r[i]))
  {
    forall i | 0 <= i < |r| && r[i].typeInfo.typeClass !in ModelWriter.ClassesOf(ts)
      ensures (i < |bs| ==> r[i] == bs[i]) && (|bs| <= i ==> Blank(r[i]))
    {
      if i < |bs1| {
        assert r[i] == bs1[i];
      }
    }
  }

  /** The classes of a list of types are the first type's class and the classes of the rest;
      for distinct classes the first is not among the rest, which are distinct too. */
  lemma ClassesTail(ts: seq<TypeInfo>)
    requires |ts| > 0
    ensures forall x :: x in ModelWriter.ClassesOf(ts) <==> x == ts[0].typeClass || x in ModelWriter.ClassesOf(ts[1..])
    ensures Distinct(ts) ==> ts[0].typeClass !in ModelWriter.ClassesOf(ts[1..]) && Distinct(ts[1..])
  {
    var cs := ModelWriter.ClassesOf(ts);
    var rest := ModelWriter.ClassesOf(ts[1..]);
    assert cs == [ts[0].typeClass] + rest;
  }

  /** A class whose builders are all blank has no statements yet. */
  lemma StatementsOfBlank(bs: Builders, c: JClass, ts: seq<TypeInfo>)
    requires |ts| > 0 && c == ts[0].typeClass
    requires forall i :: 0 <= i < |bs| && bs[i].typeInfo.typeClass in ModelWriter.ClassesOf(ts) ==> Blank(bs[i])
    ensures StatementsOf(bs, c) == []
  {
    assert ModelWriter.ClassesOf(ts)[0] == c;
  }

  /** The first type's builder, filled by `process`, is left alone by the rest of the loop. */
  lemma FirstTypeHolds(bs: Builders, bs1: Builders, r: Builders, reg: DomainTypes, ts: seq<TypeInfo>)
    requires |ts| > 0 && Sound(bs, reg) && ts[0] in reg
    requires Process(bs, reg, ts[0]) == Success(bs1) && StatementsOf(bs, ts[0].typeClass) == []
    requires Sound(r, reg) && Grows(bs1, r) && ts[0].typeClass !in ModelWriter.ClassesOf(ts[1..])
    requires forall i :: 0 <= i < |r| && r[i].typeInfo.typeClass !in ModelWriter.ClassesOf(ts[1..]) ==>
      (i < |bs1| ==> r[i] == bs1[i]) && (|bs1| <= i ==> Blank(r[i]))
    ensures forall i :: 0 <= i < |r| && r[i].typeInfo.typeClass == ts[0].typeClass ==> Holds(reg, r[i], ts[0])
  {
    ProcessWrites(bs, reg, ts[0]);
    var c := ts[0].typeClass;
    var m :| 0 <= m < |bs1| && ModelWriter.Keys(bs1)[m] == c;
    assert r[m].typeInfo == bs1[m].typeInfo;
    forall i | 0 <= i < |r| && r[i].typeInfo.typeClass == c ensures Holds(reg, r[i], ts[0]) {
      OneBuilderPerClass(r, i, m);
      assert r[i] == bs1[i];
      assert FieldTexts(reg, ts[0].properties).value == [] + FieldTexts(reg, ts[0].properties).value;
    }
  }

  /** `processFiles()` fails exactly when some registered type cannot be processed: it lacks
      a package or a constructor model, or one of its properties has no statement. */
  lemma ProcessFilesSucceeds(reg: DomainTypes)
    ensures ProcessFiles(reg).Success? <==> forall i :: 0 <= i < |reg| ==> Processable(reg, reg[i])
  {
    ProcessAllSucceeds([], reg, reg);
  }

  /** Once the files are processed, the builders are keyed by exactly the registered classes,
      each once, and no builder is left without a constructor expression, although builders of
      types referenced by earlier types were created before their own type was processed. */
  lemma ProcessFilesKeys(reg: DomainTypes)
    requires ProcessFiles(reg).Success?
    ensures NoDuplicates(ModelWriter.Keys(ProcessFiles(reg).value))
    ensures forall c :: c in ModelWriter.Keys(ProcessFiles(reg).value) <==> c in ModelWriter.ClassesOf(reg)
    ensures forall i :: 0 <= i < |ProcessFiles(reg).value| ==> ProcessFiles(reg).value[i].newInstance.Some?
  {
    BuildersCoverRegistry(ProcessFiles(reg).value, reg);
  }

  /** Sound builders in which every registered class is constructed are keyed by exactly the
      registered classes, and each holds a constructor expression. */
  lemma BuildersCoverRegistry(bs: Builders, reg: DomainTypes)
    requires Sound(bs, reg) && forall i :: 0 <= i < |reg| ==> Constructed(bs, reg[i].typeClass)
    ensures NoDuplicates(ModelWriter.Keys(bs))
    ensures forall c :: c in ModelWriter.Keys(bs) <==> c in ModelWriter.ClassesOf(reg)
    ensures forall i :: 0 <= i < |bs| ==> bs[i].newInstance.Some?
  {
    var keys := ModelWriter.Keys(bs);
    forall c ensures c in keys <==> c in ModelWriter.ClassesOf(reg) {
      if c in keys {
        var i :| 0 <= i < |bs| && keys[i] == c;
        var j :| 0 <= j < |reg| && reg[j] == bs[i].typeInfo;
        assert ModelWriter.ClassesOf(reg)[j] == c;
      }
      if c in ModelWriter.ClassesOf(reg) {
        var j :| 0 <= j < |reg| && ModelWriter.ClassesOf(reg)[j] == c;
        assert Constructed(bs, reg[j].typeClass);
      }
    }
    forall i | 0 <= i < |bs| ensures bs[i].newInstance.Some? {
      var j :| 0 <= j < |reg| && reg[j] == bs[i].typeInfo;
      assert Constructed(bs, reg[j].typeClass);
    }
  }

  // ---------------------------------------------------------------------------------
  // The generated class and the substitution

  /** The constructor body `build()` writes: the super call, the constructor expression, then
      one `addField` per statement. */
  function ConstructorBody(b: Builder): (r: seq<string>)
    ensures |r| == 2 + |b.fieldStatements|
    ensures r[0] == b.initSuper
    ensures r[1] == "setConstructor(" + b.newInstance.GetOr("null") + ")"
    ensures forall i :: 0 <= i < |b.fieldStatements| ==> r[2 + i] == "addField(" + b.fieldStatements[i] + ")"
  {
    [b.initSuper, "setConstructor(" + b.newInstance.GetOr("null") + ")"]
    + seq(|b.fieldStatements|, i requires 0 <= i < |b.fieldStatements| => "addField(" + b.fieldStatements[i] + ")")
  }

  /** For a registry of distinct classes that processes, the constructor generated for a
      registered class hands the type's constructor expression to `setConstructor` and then
      adds one field per property, in property order, with that property's statement. */
  lemma GeneratedConstructor(reg: DomainTypes, i: nat, j: nat)
    requires Distinct(reg) && ProcessFiles(reg).Success?
    requires i < |ProcessFiles(reg).value| && j < |reg|
    requires ProcessFiles(reg).value[i].typeInfo.typeClass == reg[j].typeClass
    ensures ModelWriter.NewInstanceText(reg[j]).Success? && FieldTexts(reg, reg[j].properties).Success?
    ensures var body := ConstructorBody(ProcessFiles(reg).value[i]);
      var texts := FieldTexts(reg, reg[j].properties).value;
      && body[1] == "setConstructor(" + ModelWriter.NewInstanceText(reg[j]).value + ")"
      && |body| == 2 + |texts|
      && forall k :: 0 <= k < |texts| ==> body[2 + k] == "addField(" + texts[k] + ")"
  {
    ProcessFilesContents(reg);
  }

  /** The substituted `ClassTypeInformation.from`: a trace line, one branch per builder in key
      order, then the cache. */
  function Substitution(bs: Builders): seq<SubstStmt> {
    [Trace(TRACE)] + ModelWriter.Branches(bs) + [CacheFallback]
  }

  /** A trace line in front changes nothing about what the method returns. */
  lemma TraceIsTransparent(text: string, ss: seq<SubstStmt>, c: JClass)
    ensures Dispatch([Trace(text)] + ss, c) == Dispatch(ss, c)
  {
    assert ([Trace(text)] + ss)[1..] == ss;
  }

  /** Once the files are processed, the substitution returns the generated singleton for each
      registered class and the cached type information for any other class. */
  lemma SubstitutionDispatches(reg: DomainTypes, c: JClass)
    requires ProcessFiles(reg).Success?
    ensures Dispatch(Substitution(ProcessFiles(reg).value), c)
      == if c in ModelWriter.ClassesOf(reg) then Instance(ModelWriter.GeneratedTypeName(c)) else Cached
  {
    ProcessFilesKeys(reg);
    BuildersDispatchTraced(ProcessFiles(reg).value, c);
  }

  /** The legacy table dispatches like the generated one: the trace line changes nothing. */
  lemma BuildersDispatchTraced(bs: Builders, c: JClass)
    requires ModelWriter.WellKeyed(bs)
    ensures Dispatch(Substitution(bs), c)
      == if c in ModelWriter.Keys(bs) then Instance(ModelWriter.GeneratedTypeName(c)) else Cached
  {
    assert Substitution(bs) == [Trace(TRACE)] + (ModelWriter.Branches(bs) + [CacheFallback]);
    TraceIsTransparent(TRACE, ModelWriter.Branches(bs) + [CacheFallback], c);
    assert ModelWriter.Substitution(bs) == ModelWriter.Branches(bs) + [CacheFallback];
    ModelWriter.BuildersDispatch(bs, c);
  }
}
