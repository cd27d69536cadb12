/** The writer of the model package (`DataModelFileWriter` in `entity.processor.writer`): one
    file builder per registered domain type, holding the statements of the generated class's
    constructor, and the GraalVM substitution that maps each domain class to the singleton of
    its generated class. Statements are kept as tokens (`Statements.FieldStmt`) and spelled by
    `Render`. */
module ModelWriter {
  import opened Wrappers
  import opened Text
  import opened JavaTypes
  import opened Annotations
  import opened Properties
  import opened Registry
  import opened Signatures
  import opened Statements

  const CONSTRUCTOR_TYPE: string := "org.springframework.data.mapping.model.ConfigurableTypeConstructor"
  const CTI_CAST: string := "(org.springframework.data.util.ClassTypeInformation<S>) "
  const CACHE_LOOKUP: string :=
    "return (org.springframework.data.util.ClassTypeInformation<S>) cache.computeIfAbsent(type, org.springframework.data.util.ClassTypeInformation::new)"

  /** `computeGeneratedTypeName(c)`: the generated class's name, written from `getTypeName()`. */
  function GeneratedTypeName(c: JClass): string {
    TypeName(c) + TYPE_POSTFIX
  }

  /** A `JavaFileBuilder`: the type it is for, the names of the class it generates, and the
      constructor's parts. The constructor expression is absent until it is set. */
  datatype FileBuilder<S> = FileBuilder(
    typeInfo: TypeInfo,
    packageName: string,
    generatedTypeName: string,
    simpleTypeName: string,
    initSuper: string,
    newInstance: Option<string>,
    fieldStatements: seq<S>)

  /** The super constructor call: the domain class alone when its superclass is `Object` or
      absent, otherwise also the singleton of the superclass's generated class. */
  function SuperCall(c: JClass): (r: string)
    ensures Superclass(c).Some? && !IsObject(Superclass(c).value) ==>
      r == "super(" + Name(c) + ".class, " + InstanceOfGenerated(Superclass(c).value) + ")"
    ensures Superclass(c).None? || IsObject(Superclass(c).value) ==> r == "super(" + Name(c) + ".class)"
  {
    match Superclass(c)
    case Some(sup) =>
      if IsObject(sup) then "super(" + Name(c) + ".class)"
      else "super(" + Name(c) + ".class, " + GeneratedTypeName(sup) + ".instance())"
    case None => "super(" + Name(c) + ".class)"
  }

  function InstanceOfGenerated(c: JClass): string {
    GeneratedTypeName(c) + ".instance()"
  }

  /** `new JavaFileBuilder(typeInfo)`; a class without a package fails on `getPackage().getName()`. */
  function NewFileBuilder<S>(t: TypeInfo): (r: Result<FileBuilder<S>>)
    ensures r.Success? <==> PackageName(t.typeClass).Some?
    ensures r.Failure? ==> r.error == NullPointer
    ensures r.Success? ==>
      && r.value.typeInfo == t && r.value.packageName == PackageName(t.typeClass).value
      && r.value.generatedTypeName == GeneratedTypeName(t.typeClass)
      && r.value.newInstance.None? && r.value.fieldStatements == []
  {
    var pkg :- Deref(PackageName(t.typeClass));
    var generated := GeneratedTypeName(t.typeClass);
    Success(FileBuilder(t, pkg, generated, ReplaceAll(generated, pkg + ".", ""), SuperCall(t.typeClass), None, []))
  }

  /** For a class `pkg.Simple` in a named package, the builder's simple name is `Simple` plus the
      postfix, and package and simple name together give back the generated type's name. */
  lemma GeneratedNameSplits<S>(t: TypeInfo, pkg: string, simple: string)
    requires PackageName(t.typeClass) == Some(pkg) && t.typeClass.Cls?
    requires Name(t.typeClass) == pkg + "." + simple && '.' !in simple
    ensures NewFileBuilder<S>(t).Success?
    ensures NewFileBuilder<S>(t).value.simpleTypeName == simple + TYPE_POSTFIX
    ensures NewFileBuilder<S>(t).value.packageName + "." + NewFileBuilder<S>(t).value.simpleTypeName
      == NewFileBuilder<S>(t).value.generatedTypeName
  {
    assert '.' !in TYPE_POSTFIX;
    assert GeneratedTypeName(t.typeClass) == (pkg + ".") + (simple + TYPE_POSTFIX);
    StripPrefix(pkg + ".", simple + TYPE_POSTFIX, '.');
  }

  /** A class in the unnamed package (package name "", no dot in its name) keeps its whole
      generated name as the simple name. */
  lemma UnnamedPackageKeepsName<S>(t: TypeInfo)
    requires PackageName(t.typeClass) == Some("") && t.typeClass.Cls? && '.' !in Name(t.typeClass)
    ensures NewFileBuilder<S>(t).Success?
    ensures NewFileBuilder<S>(t).value.simpleTypeName == NewFileBuilder<S>(t).value.generatedTypeName
  {
    assert '.' !in TYPE_POSTFIX;
    assert "" + "." == ".";
    ReplaceAllAbsent(GeneratedTypeName(t.typeClass), ".", "", '.');
  }

  /** The super call of a class whose superclass is a domain type refers to the very class the
      superclass's builder generates. */
  lemma SuperCallNamesSuperBuilder<S>(t: TypeInfo, st: TypeInfo)
    requires Superclass(t.typeClass) == Some(st.typeClass) && !IsObject(st.typeClass)
    requires NewFileBuilder<S>(t).Success? && NewFileBuilder<S>(st).Success?
    ensures NewFileBuilder<S>(t).value.initSuper
      == "super(" + Name(t.typeClass) + ".class, " + NewFileBuilder<S>(st).value.generatedTypeName + ".instance())"
  {
  }

  // ---------------------------------------------------------------------------------
  // The persistence constructor

  /** `"name"`, one argument name of the builder form. */
  function ArgumentName(p: ParameterInfo): string {
    "\"" + p.name + "\""
  }

  /** The cast reading argument `i`, spelling the parameter class as Java source does. */
  function Cast(p: ParameterInfo, i: nat): string {
    "(" + Canonical(p.rawType) + ")args[" + NatToString(i) + "]"
  }

  /** The cast as the source writes it, with `getName()`. */
  function CastAsWritten(p: ParameterInfo, i: nat): string {
    "(" + Name(p.rawType) + ")args[" + NatToString(i) + "]"
  }

  function ArgumentNames(ps: seq<ParameterInfo>): (r: seq<string>)
    ensures |r| == |ps|
  {
    seq(|ps|, i requires 0 <= i < |ps| => ArgumentName(ps[i]))
  }

  function Casts(ps: seq<ParameterInfo>): (r: seq<string>)
    ensures |r| == |ps|
  {
    seq(|ps|, i requires 0 <= i < |ps| => Cast(ps[i], i))
  }

  function CastsAsWritten(ps: seq<ParameterInfo>): (r: seq<string>)
    ensures |r| == |ps|
  {
    seq(|ps|, i requires 0 <= i < |ps| => CastAsWritten(ps[i], i))
  }

  /** The constructor expression given the spelled casts: the no-argument form, or the builder
      form naming every parameter and passing argument `i` to parameter `i`. */
  function ConstructorExpression(c: JClass, ci: ConstructorInfo, casts: seq<string>): string {
    var names := ArgumentNames(ci.parameters);
    var prefix := CONSTRUCTOR_TYPE + ".<" + Name(c) + ">";
    var builder := "builder()" + ".args(" + Join(",", names) + ")"
      + ".newInstanceFunction((args) -> new " + Name(c) + "(" + Join(",", casts) + "))";
    if IsNoArgConstructor(ci) then prefix + "noArgsConstructor(" + Name(c) + "::new)" else prefix + builder
  }

  /** `addPersistenceConstructor`; a type without a constructor model fails on
      `constructor.isNoArgConstructor()`. */
  function NewInstanceText(t: TypeInfo): (r: Result<string>)
    ensures r.Success? <==> t.persistenceConstructor.Some?
    ensures r.Failure? ==> r.error == NullPointer
  {
    var ci :- Deref(t.persistenceConstructor);
    Success(ConstructorExpression(t.typeClass, ci, Casts(ci.parameters)))
  }

  /** `addPersistenceConstructor` as the source writes it, casting with `getName()`. */
  function NewInstanceTextAsWritten(t: TypeInfo): (r: Result<string>)
    ensures r.Success? <==> t.persistenceConstructor.Some?
    ensures r.Failure? ==> r.error == NullPointer
  {
    var ci :- Deref(t.persistenceConstructor);
    Success(ConstructorExpression(t.typeClass, ci, CastsAsWritten(ci.parameters)))
  }

  /** The loop of `addPersistenceConstructor`: it collects the argument names and the casts
      side by side, counting the parameters, and joins them with commas. */
  method BuildNewInstance(t: TypeInfo) returns (r: Result<string>)
    ensures r == NewInstanceText(t)
  {
    if t.persistenceConstructor.None? {
      return Failure(NullPointer);
    }
    var ci := t.persistenceConstructor.value;
    var prefix := CONSTRUCTOR_TYPE + ".<" + Name(t.typeClass) + ">";
    if IsNoArgConstructor(ci) {
      return Success(prefix + "noArgsConstructor(" + Name(t.typeClass) + "::new)");
    }
    var args: seq<string> := [];
    var ctor: seq<string> := [];
    var i := 0;
    while i < |ci.parameters|
      invariant 0 <= i <= |ci.parameters|
      invariant |args| == i && |ctor| == i
      invariant forall k :: 0 <= k < i ==> args[k] == ArgumentName(ci.parameters[k])
      invariant forall k :: 0 <= k < i ==> ctor[k] == Cast(ci.parameters[k], k)
    {
      args := args + [ArgumentName(ci.parameters[i])];
      ctor := ctor + [Cast(ci.parameters[i], i)];
      i := i + 1;
    }
    assert args == ArgumentNames(ci.parameters);
    assert ctor == Casts(ci.parameters);
    var builder := "builder()" + ".args(" + Join(",", args) + ")"
      + ".newInstanceFunction((args) -> new " + Name(t.typeClass) + "(" + Join(",", ctor) + "))";
    return Success(prefix + builder);
  }

  /** The cast at position `i` reads `args[i]`: its index text is decimal and reads back as `i`. */
  lemma CastReadsItsArgument(p: ParameterInfo, i: nat)
    ensures exists d: string ::
      && Cast(p, i) == "(" + Canonical(p.rawType) + ")args[" + d + "]"
      && (forall k :: 0 <= k < |d| ==> '0' <= d[k] <= '9') && ParseNat(d) == i
  {
    ParseNatToString(i);
    var d := NatToString(i);
    assert Cast(p, i) == "(" + Canonical(p.rawType) + ")args[" + d + "]";
  }

  /** The casts as written and corrected agree on every class whose binary name is its
      canonical name (top-level, non-array classes). */
  lemma CastsAgreeOnPlainClasses(ps: seq<ParameterInfo>)
    requires forall i :: 0 <= i < |ps| ==> Name(ps[i].rawType) == Canonical(ps[i].rawType)
    ensures CastsAsWritten(ps) == Casts(ps)
  {
  }

  /** What `addPersistenceConstructor` writes: `ConfigurableTypeConstructor.<T>` followed by
      the no-argument form exactly when the constructor has no parameters, and otherwise by the
      builder form whose `.args(...)` are the quoted parameter names, comma-separated, and whose
      constructor call passes, comma-separated, cast `i`: argument `i` read as the canonical
      name of parameter `i`'s class, with `i` in decimal. */
  lemma NewInstanceTextShape(t: TypeInfo)
    requires t.persistenceConstructor.Some?
    ensures var ps := t.persistenceConstructor.value.parameters; var n := Name(t.typeClass);
      |ps| == 0 ==> NewInstanceText(t) == Success(CONSTRUCTOR_TYPE + ".<" + n + ">" + "noArgsConstructor(" + n + "::new)")
    ensures var ps := t.persistenceConstructor.value.parameters; var n := Name(t.typeClass);
      |ps| > 0 ==> NewInstanceText(t) == Success(CONSTRUCTOR_TYPE + ".<" + n + ">"
        + ("builder()" + ".args(" + Join(",", ArgumentNames(ps)) + ")"
           + ".newInstanceFunction((args) -> new " + n + "(" + Join(",", Casts(ps)) + "))"))
    ensures var ps := t.persistenceConstructor.value.parameters;
      |Casts(ps)| == |ps| && forall i :: 0 <= i < |ps| ==>
        && ArgumentNames(ps)[i] == "\"" + ps[i].name + "\""
        && Casts(ps)[i] == "(" + Canonical(ps[i].rawType) + ")args[" + NatToString(i) + "]"
        && ParseNat(NatToString(i)) == i
  {
    var ps := t.persistenceConstructor.value.parameters;
    forall i | 0 <= i < |ps| ensures ParseNat(NatToString(i)) == i {
      ParseNatToString(i);
    }
  }

  /** The same text as the source writes it: only the casts differ, spelling parameter `i`'s
      class by its binary name. */
  lemma NewInstanceTextAsWrittenShape(t: TypeInfo)
    requires t.persistenceConstructor.Some?
    ensures var ps := t.persistenceConstructor.value.parameters; var n := Name(t.typeClass);
      |ps| == 0 ==> NewInstanceTextAsWritten(t) == Success(CONSTRUCTOR_TYPE + ".<" + n + ">" + "noArgsConstructor(" + n + "::new)")
    ensures var ps := t.persistenceConstructor.value.parameters; var n := Name(t.typeClass);
      |ps| > 0 ==> NewInstanceTextAsWritten(t) == Success(CONSTRUCTOR_TYPE + ".<" + n + ">"
        + ("builder()" + ".args(" + Join(",", ArgumentNames(ps)) + ")"
           + ".newInstanceFunction((args) -> new " + n + "(" + Join(",", CastsAsWritten(ps)) + "))"))
    ensures var ps := t.persistenceConstructor.value.parameters;
      |CastsAsWritten(ps)| == |ps| && forall i :: 0 <= i < |ps| ==>
        CastsAsWritten(ps)[i] == "(" + Name(ps[i].rawType) + ")args[" + NatToString(i) + "]"
  {
  }

  /** On a constructor none of whose parameters is an array or nested class, the text as
      written and the corrected text are the same. */
  lemma NewInstanceTextsAgree(t: TypeInfo)
    requires t.persistenceConstructor.Some?
    requires var ps := t.persistenceConstructor.value.parameters;
      forall i :: 0 <= i < |ps| ==> Name(ps[i].rawType) == Canonical(ps[i].rawType)
    ensures NewInstanceTextAsWritten(t) == NewInstanceText(t)
  {
    CastsAgreeOnPlainClasses(t.persistenceConstructor.value.parameters);
  }

  /** A constructor taking one `String[]`: the text as written differs from the corrected one
      (its cast is one character longer). */
  lemma ArrayConstructorTextsDiffer(t: TypeInfo)
    requires t.persistenceConstructor.Some? && t.persistenceConstructor.value.parameters == [StringArrayParameter]
    ensures NewInstanceTextAsWritten(t).Success? && NewInstanceText(t).Success?
    ensures |NewInstanceTextAsWritten(t).value| == |NewInstanceText(t).value| + 1
    ensures NewInstanceTextAsWritten(t) != NewInstanceText(t)
  {
    var ps := t.persistenceConstructor.value.parameters;
    ArrayParameterCast();
    assert CastsAsWritten(ps) == [CastAsWritten(StringArrayParameter, 0)];
    assert Casts(ps) == [Cast(StringArrayParameter, 0)];
  }

  const StringArrayParameter: ParameterInfo := ParameterInfo("tags", ArrayCls(StringClass))

  /** A `String[]` constructor parameter: the cast as written reads `([Ljava.lang.String;)args[0]`,
      which is not a Java type, while the corrected cast reads `(java.lang.String[])args[0]`. */
  lemma ArrayParameterCast()
    ensures CastAsWritten(StringArrayParameter, 0) == "([Ljava.lang.String;)args[0]"
    ensures Cast(StringArrayParameter, 0) == "(java.lang.String[])args[0]"
    ensures CastAsWritten(StringArrayParameter, 0) != Cast(StringArrayParameter, 0)
  {
    ArrayCastAsWritten();
    ArrayCastCorrected();
    assert CastAsWritten(StringArrayParameter, 0)[1] == '[' != Cast(StringArrayParameter, 0)[1];
  }

  lemma ArrayCastAsWritten()
    ensures CastAsWritten(StringArrayParameter, 0) == "([Ljava.lang.String;)args[0]"
  {
    assert NatToString(0) == "0";
    StringArrayName();
    assert CastAsWritten(StringArrayParameter, 0) == "(" + "[Ljava.lang.String;" + ")args[" + "0" + "]";
    AsWrittenText();
  }

  lemma AsWrittenText()
    ensures "(" + "[Ljava.lang.String;" + ")args[" + "0" + "]" == "([Ljava.lang.String;)args[0]"
  {
  }

  lemma StringArrayName()
    ensures Name(ArrayCls(StringClass)) == "[Ljava.lang.String;"
  {
    assert Descriptor(StringClass) == "L" + "java.lang.String" + ";";
  }

  lemma ArrayCastCorrected()
    ensures Cast(StringArrayParameter, 0) == "(java.lang.String[])args[0]"
  {
    assert NatToString(0) == "0";
    assert Canonical(ArrayCls(StringClass)) == "java.lang.String" + "[]";
  }

  // ---------------------------------------------------------------------------------
  // Field statements

  /** How this writer spells a class in an annotation instance and an enum type (both with
      `getName()`/`getTypeName()`), and what separates the methods. */
  function AnnotationFrom(a: AnnotationInfo): string {
    "new " + Name(a.annotation) + "() {" + Join("\n", AnnotationMethods(a, TypeName, TypeName)) + "}"
  }

  /** The source text of one statement. */
  function Render(s: FieldStmt): string {
    match s
    case Declare(name, owner, javaSignature, typeInit) =>
      FIELD_TYPE + "<" + Canonical(owner) + "," + javaSignature + "> " + name + " = "
        + FIELD_TYPE + ".type" + "(\"" + name + "\"," + typeInit + ")"
    case GetterCall(name, owner, m) => name + ".getter(" + Canonical(owner) + "::" + m + ")"
    case SetterCall(name, owner, m) => name + ".setter(" + Canonical(owner) + "::" + m + ")"
    case WitherCall(name, owner, m) => name + ".wither(" + Canonical(owner) + "::" + m + ")"
    case AtId(name) => name + ".annotatedWithAtId()"
    case Annotate(name, a) => name + ".annotation(" + AnnotationFrom(a) + ")"
    case AddField(name) => "addField(" + name + ")"
  }

  /** An accessor or annotation statement is a call on its variable. */
  lemma RenderedCallUsesVariable(s: FieldStmt)
    requires 1 <= Rank(s) <= 4
    ensures StartsWith(Render(s), s.name + ".")
  {
    match s
    case GetterCall(n, o, m) => AccessorCallUsesVariable(n, ".getter(", o, m, Render(s));
    case SetterCall(n, o, m) => AccessorCallUsesVariable(n, ".setter(", o, m, Render(s));
    case WitherCall(n, o, m) => AccessorCallUsesVariable(n, ".wither(", o, m, Render(s));
    case AtId(n) => CallOn(n, ".annotatedWithAtId()", Render(s));
    case Annotate(n, a) => AnnotateUsesVariable(n, a);
  }

  lemma AccessorCallUsesVariable(n: string, call: string, o: JClass, m: string, r: string)
    requires |call| > 0 && call[0] == '.' && r == n + call + Canonical(o) + "::" + m + ")"
    ensures StartsWith(r, n + ".")
  {
    PrefixOf4(n + call, Canonical(o), "::", m, ")");
    CallOn(n, call, r);
  }

  lemma AnnotateUsesVariable(n: string, a: AnnotationInfo)
    ensures StartsWith(Render(Annotate(n, a)), n + ".")
  {
    PrefixOf2(n + ".annotation(", AnnotationFrom(a), ")");
    CallOn(n, ".annotation(", Render(Annotate(n, a)));
  }

  lemma PrefixOf4(x: string, a: string, b: string, c: string, d: string)
    ensures StartsWith(x + a + b + c + d, x)
  {
    assert x + a + b + c + d == x + (a + b + c + d);
  }

  lemma PrefixOf2(x: string, a: string, b: string)
    ensures StartsWith(x + a + b, x)
  {
    assert x + a + b == x + (a + b);
  }

  /** Text that starts with a variable and a call on it starts with the variable and a dot. */
  lemma CallOn(n: string, call: string, r: string)
    requires |call| > 0 && call[0] == '.' && StartsWith(r, n + call)
    ensures StartsWith(r, n + ".")
  {
    assert r[..|n| + 1] == (n + call)[..|n| + 1];
  }

  /** Every statement of a property's block after the declaration and before `addField` is a
      call on the property's variable; the last one registers that variable. */
  lemma RenderedBlockUsesVariable(p: PropertyInfo, reg: DomainTypes)
    requires FieldStatements(p, reg).Success?
    ensures var ss := FieldStatements(p, reg).value;
      forall i :: 0 < i < |ss| - 1 ==> StartsWith(Render(ss[i]), p.name + ".")
    ensures var ss := FieldStatements(p, reg).value; Render(ss[|ss| - 1]) == "addField(" + p.name + ")"
  {
    FieldStatementsShape(p, reg);
    BlockUsesVariable(FieldStatements(p, reg).value, p.name);
  }

  lemma BlockUsesVariable(ss: seq<FieldStmt>, name: string)
    requires FieldBlock(ss, name)
    ensures forall i :: 0 < i < |ss| - 1 ==> StartsWith(Render(ss[i]), name + ".")
    ensures Render(ss[|ss| - 1]) == "addField(" + name + ")"
  {
    forall i | 0 < i < |ss| - 1 ensures StartsWith(Render(ss[i]), name + ".") {
      assert ss[i].name == name && 1 <= Rank(ss[i]) <= 4;
      RenderedCallUsesVariable(ss[i]);
    }
    assert ss[|ss| - 1] == AddField(name);
  }

  // ---------------------------------------------------------------------------------
  // Processing the registered types

  type Builders = seq<FileBuilder<FieldStmt>>

  /** The classes the builders are for, in insertion order (the map's key order). */
  function Keys<S>(bs: seq<FileBuilder<S>>): seq<JClass> {
    seq(|bs|, i requires 0 <= i < |bs| => bs[i].typeInfo.typeClass)
  }

  function ClassesOf(ts: seq<TypeInfo>): seq<JClass> {
    seq(|ts|, i requires 0 <= i < |ts| => ts[i].typeClass)
  }

  /** The builders are keyed by distinct classes, each in a named package and generating the
      class named after its key. */
  predicate WellKeyed<S>(bs: seq<FileBuilder<S>>) {
    && NoDuplicates(Keys(bs))
    && forall i :: 0 <= i < |bs| ==>
      && PackageName(bs[i].typeInfo.typeClass).Some?
      && bs[i].generatedTypeName == GeneratedTypeName(bs[i].typeInfo.typeClass)
  }

  lemma KeyHasPackage<S>(bs: seq<FileBuilder<S>>, c: JClass)
    requires WellKeyed(bs) && c in Keys(bs)
    ensures PackageName(c).Some?
  {
    var j :| 0 <= j < |bs| && Keys(bs)[j] == c;
  }

  function IndexOf<S>(bs: seq<FileBuilder<S>>, c: JClass): (r: Option<nat>)
    ensures r.Some? ==> r.value < |bs| && bs[r.value].typeInfo.typeClass == c
    ensures r.None? <==> c !in Keys(bs)
    decreases |bs|
  {
    if |bs| == 0 then None
    else if bs[|bs| - 1].typeInfo.typeClass == c then
      assert Keys(bs)[|bs| - 1] == c;
      Some(|bs| - 1)
    else
      assert Keys(bs) == Keys(bs[..|bs| - 1]) + [bs[|bs| - 1].typeInfo.typeClass];
      IndexOf(bs[..|bs| - 1], c)
  }

  /** `getFileBuilder` (`computeIfAbsent`): the builder already there for the class, or a new one
      appended. */
  function GetFileBuilder<S>(bs: seq<FileBuilder<S>>, t: TypeInfo): (r: Result<(seq<FileBuilder<S>>, nat)>)
    requires WellKeyed(bs)
    ensures r.Success? <==> PackageName(t.typeClass).Some?
    ensures r.Failure? ==> r.error == NullPointer
    ensures r.Success? ==> r.value.1 < |r.value.0| && r.value.0[r.value.1].typeInfo.typeClass == t.typeClass
    ensures r.Success? ==> Keys(r.value.0) == AddAll(Keys(bs), [t.typeClass]) && WellKeyed(r.value.0)
    ensures r.Success? && t.typeClass in Keys(bs) ==> r.value.0 == bs
    ensures r.Success? && t.typeClass !in Keys(bs) ==> r.value == (bs + [NewFileBuilder<S>(t).value], |bs|)
  {
    match IndexOf(bs, t.typeClass)
    case Some(k) =>
      KeyHasPackage(bs, t.typeClass);
      Success((bs, k))
    case None =>
      var b :- NewFileBuilder<S>(t);
      assert Keys(bs + [b]) == Keys(bs) + [t.typeClass];
      Success((bs + [b], |bs|))
  }

  /** A type the writer can process: it is in a named package, it has a constructor model and
      each of its properties has a field and annotations. */
  predicate Writable(t: TypeInfo, reg: DomainTypes) {
    PackageName(t.typeClass).Some? && t.persistenceConstructor.Some? && FieldStatementsAll(t.properties, reg).Success?
  }

  /** The builder the writer makes for a type met for the first time. */
  function BuilderFor(t: TypeInfo, reg: DomainTypes): FileBuilder<FieldStmt>
    requires Writable(t, reg)
  {
    NewFileBuilder<FieldStmt>(t).value.(newInstance := Some(NewInstanceText(t).value),
                             fieldStatements := FieldStatementsAll(t.properties, reg).value)
  }

  /** `process(typeInfo)`: the builder gets the type's constructor expression and, after the
      statements it already has, the statements of the type's properties. */
  function Process(bs: Builders, t: TypeInfo, reg: DomainTypes): (r: Result<Builders>)
    requires WellKeyed(bs)
    ensures r.Success? <==> Writable(t, reg)
    ensures r.Failure? ==> r.error == NullPointer
    ensures r.Success? ==> Keys(r.value) == AddAll(Keys(bs), [t.typeClass]) && WellKeyed(r.value)
    ensures r.Success? && t.typeClass !in Keys(bs) ==> r.value == bs + [BuilderFor(t, reg)]
  {
    var (bs1, k) :- GetFileBuilder(bs, t);
    var statement :- NewInstanceText(t);
    var fields :- FieldStatementsAll(t.properties, reg);
    var b := bs1[k].(newInstance := Some(statement), fieldStatements := bs1[k].fieldStatements + fields);
    FillKeeps(bs1, k, b);
    if t.typeClass !in Keys(bs) then FillFresh(bs, t, reg, bs1[k := b]); Success(bs1[k := b])
    else Success(bs1[k := b])
  }

  /** Filling in a builder keeps its key and the builders well keyed. */
  lemma FillKeeps(bs: Builders, k: nat, b: FileBuilder<FieldStmt>)
    requires WellKeyed(bs) && k < |bs|
    requires b.typeInfo == bs[k].typeInfo && b.generatedTypeName == bs[k].generatedTypeName
    ensures Keys(bs[k := b]) == Keys(bs) && WellKeyed(bs[k := b])
  {
    assert Keys(bs[k := b]) == Keys(bs);
  }

  /** A builder created for the type and then filled in is the builder made for it. */
  lemma FillFresh(bs: Builders, t: TypeInfo, reg: DomainTypes, r: Builders)
    requires WellKeyed(bs) && Writable(t, reg)
    requires var nb := NewFileBuilder<FieldStmt>(t).value;
      r == (bs + [nb])[|bs| := nb.(newInstance := Some(NewInstanceText(t).value),
                                   fieldStatements := nb.fieldStatements + FieldStatementsAll(t.properties, reg).value)]
    ensures r == bs + [BuilderFor(t, reg)]
  {
    var fields := FieldStatementsAll(t.properties, reg).value;
    assert [] + fields == fields;
  }

  function ProcessAll(bs: Builders, ts: seq<TypeInfo>, reg: DomainTypes): (r: Result<Builders>)
    requires WellKeyed(bs)
    ensures r.Success? <==> forall i :: 0 <= i < |ts| ==> Writable(ts[i], reg)
    ensures r.Failure? ==> r.error == NullPointer
    ensures r.Success? ==> WellKeyed(r.value) && Keys(r.value) == AddAll(Keys(bs), ClassesOf(ts))
    decreases |ts|
  {
    if |ts| == 0 then Success(bs)
    else
      var bs1 :- Process(bs, ts[0], reg);
      var r := ProcessAll(bs1, ts[1..], reg);
      KeysStep(Keys(bs), ts);
      WritableStep(ts, reg);
      r
  }

  lemma KeysStep(keys: seq<JClass>, ts: seq<TypeInfo>)
    requires |ts| > 0
    ensures AddAll(AddAll(keys, [ts[0].typeClass]), ClassesOf(ts[1..])) == AddAll(keys, ClassesOf(ts))
  {
    assert ClassesOf(ts) == [ts[0].typeClass] + ClassesOf(ts[1..]);
    AddAllConcat(keys, [ts[0].typeClass], ClassesOf(ts[1..]));
  }

  lemma WritableStep(ts: seq<TypeInfo>, reg: DomainTypes)
    requires |ts| > 0
    ensures (forall i :: 0 <= i < |ts| ==> Writable(ts[i], reg))
      <==> Writable(ts[0], reg) && forall i :: 0 <= i < |ts[1..]| ==> Writable(ts[1..][i], reg)
  {
    var rest := ts[1..];
    if forall i :: 0 <= i < |ts| ==> Writable(ts[i], reg) {
      assert Writable(ts[0], reg);
      forall i | 0 <= i < |rest| ensures Writable(rest[i], reg) {
        assert rest[i] == ts[i + 1];
      }
    }
    if Writable(ts[0], reg) && forall i :: 0 <= i < |rest| ==> Writable(rest[i], reg) {
      forall i | 0 <= i < |ts| ensures Writable(ts[i], reg) {
        if i > 0 { assert ts[i] == rest[i - 1]; }
      }
    }
  }

  /** `processFiles()`: every registered type, in registry order. Processing succeeds exactly
      when every registered type is writable; the builders are then keyed by the registered
      classes in first-registration order. */
  function ProcessFiles(reg: DomainTypes): (r: Result<Builders>)
    ensures r.Success? <==> forall i :: 0 <= i < |reg| ==> Writable(reg[i], reg)
    ensures r.Failure? ==> r.error == NullPointer
    ensures r.Success? ==> WellKeyed(r.value) && Keys(r.value) == AddAll([], ClassesOf(reg))
  {
    ProcessAll([], reg, reg)
  }

  function BuildersFor(ts: seq<TypeInfo>, reg: DomainTypes): Builders
    requires forall i :: 0 <= i < |ts| ==> Writable(ts[i], reg)
  {
    seq(|ts|, i requires 0 <= i < |ts| => BuilderFor(ts[i], reg))
  }

  lemma FreshStep(keys: seq<JClass>, ts: seq<TypeInfo>, reg: DomainTypes)
    requires |ts| > 0 && Distinct(ts)
    requires forall i :: 0 <= i < |ts| ==> ts[i].typeClass !in keys && Writable(ts[i], reg)
    ensures Distinct(ts[1..])
    ensures forall i :: 0 <= i < |ts[1..]| ==> ts[1..][i].typeClass !in keys + [ts[0].typeClass] && Writable(ts[1..][i], reg)
  {
    forall i | 0 <= i < |ts[1..]|
      ensures ts[1..][i].typeClass !in keys + [ts[0].typeClass] && Writable(ts[1..][i], reg)
    {
      assert ts[1..][i] == ts[i + 1];
    }
  }

  lemma BuildersForCons(ts: seq<TypeInfo>, reg: DomainTypes)
    requires |ts| > 0 && forall i :: 0 <= i < |ts| ==> Writable(ts[i], reg)
    ensures forall i :: 0 <= i < |ts[1..]| ==> Writable(ts[1..][i], reg)
    ensures BuildersFor(ts, reg) == [BuilderFor(ts[0], reg)] + BuildersFor(ts[1..], reg)
  {
    assert forall i :: 0 <= i < |ts[1..]| ==> ts[1..][i] == ts[i + 1];
  }

  /** Kept apart from `ProcessAllFresh`, whose context makes this step too costly inline. */
  lemma Associative<T>(a: seq<T>, b: seq<T>, c: seq<T>)
    ensures a + (b + c) == (a + b) + c
  {
  }

  /** Types met for the first time each add their own builder, in order. */
  lemma {:induction false} ProcessAllFresh(bs: Builders, ts: seq<TypeInfo>, reg: DomainTypes)
    requires WellKeyed(bs) && Distinct(ts)
    requires forall i :: 0 <= i < |ts| ==> ts[i].typeClass !in Keys(bs) && Writable(ts[i], reg)
    ensures ProcessAll(bs, ts, reg) == Success(bs + BuildersFor(ts, reg))
    decreases |ts|
  {
    if |ts| > 0 {
      var bs1 := bs + [BuilderFor(ts[0], reg)];
      assert Process(bs, ts[0], reg) == Success(bs1);
      assert Keys(bs1) == Keys(bs) + [ts[0].typeClass];
      FreshStep(Keys(bs), ts, reg);
      ProcessAllFresh(bs1, ts[1..], reg);
      BuildersForCons(ts, reg);
      Associative(bs, [BuilderFor(ts[0], reg)], BuildersFor(ts[1..], reg));
    } else {
      assert bs + BuildersFor(ts, reg) == bs;
    }
  }

  /** For a registry of distinct classes that processes, builder `i` is the one for type `i`: it
      generates the class named after type `i`, calls the matching super constructor, holds the
      type's constructor expression and its properties' statements, and registers each property
      once, by name, in property order. */
  lemma ProcessFilesContents(reg: DomainTypes)
    requires Distinct(reg) && ProcessFiles(reg).Success?
    ensures ProcessFiles(reg).value == BuildersFor(reg, reg)
    ensures forall i :: 0 <= i < |reg| ==>
      && ProcessFiles(reg).value[i].typeInfo == reg[i]
      && ProcessFiles(reg).value[i].generatedTypeName == GeneratedTypeName(reg[i].typeClass)
      && ProcessFiles(reg).value[i].initSuper == SuperCall(reg[i].typeClass)
      && ProcessFiles(reg).value[i].newInstance == Some(NewInstanceText(reg[i]).value)
      && Part(ProcessFiles(reg).value[i].fieldStatements, 5, 5) == AddFields(reg[i].properties)
  {
    ProcessAllFresh([], reg, reg);
    assert [] + BuildersFor(reg, reg) == BuildersFor(reg, reg);
    var bs := ProcessFiles(reg).value;
    forall i | 0 <= i < |reg|
      ensures && bs[i].typeInfo == reg[i]
              && bs[i].generatedTypeName == GeneratedTypeName(reg[i].typeClass)
              && bs[i].initSuper == SuperCall(reg[i].typeClass)
              && bs[i].newInstance == Some(NewInstanceText(reg[i]).value)
              && Part(bs[i].fieldStatements, 5, 5) == AddFields(reg[i].properties)
    {
      assert bs[i] == BuilderFor(reg[i], reg);
      OneAddFieldPerProperty(reg[i].properties, reg);
    }
  }

  // ---------------------------------------------------------------------------------
  // The generated class and the substitution

  datatype Line = Comment(text: string) | Statement(text: string)

  /** The constructor body `build()` writes: the super call, the constructor expression, then
      the field statements in order. */
  function ConstructorBody(b: FileBuilder<FieldStmt>): (r: seq<Line>)
    ensures |r| == 4 + |b.fieldStatements|
    ensures r[0] == Statement(b.initSuper)
    ensures r[1] == Comment("PERSISTENCE CONSTRUCTOR")
    ensures r[2] == Statement("setConstructor(" + b.newInstance.GetOr("null") + ")")
    ensures r[3] == Comment("FIELDS")
    ensures forall i :: 0 <= i < |b.fieldStatements| ==> r[4 + i] == Statement(Render(b.fieldStatements[i]))
  {
    [Statement(b.initSuper),
     Comment("PERSISTENCE CONSTRUCTOR"),
     Statement("setConstructor(" + b.newInstance.GetOr("null") + ")"),
     Comment("FIELDS")]
    + seq(|b.fieldStatements|, i requires 0 <= i < |b.fieldStatements| => Statement(Render(b.fieldStatements[i])))
  }

  /** For a registry of distinct classes that processes, the constructor generated for type `i`
      calls the type's super constructor, hands the type's constructor expression to
      `setConstructor`, and then writes its properties' statements in property order. */
  lemma GeneratedConstructor(reg: DomainTypes, i: nat)
    requires Distinct(reg) && ProcessFiles(reg).Success? && i < |reg|
    ensures |ProcessFiles(reg).value| == |reg|
    ensures var body := ConstructorBody(ProcessFiles(reg).value[i]);
      var statements := FieldStatementsAll(reg[i].properties, reg).value;
      && body[0] == Statement(SuperCall(reg[i].typeClass))
      && body[2] == Statement("setConstructor(" + NewInstanceText(reg[i]).value + ")")
      && |body| == 4 + |statements|
      && forall k :: 0 <= k < |statements| ==> body[4 + k] == Statement(Render(statements[k]))
  {
    ProcessFilesContents(reg);
    assert ProcessFiles(reg).value[i] == BuilderFor(reg[i], reg);
  }

  /** The branch testing for builder `b`'s class. */
  function BranchFor<S>(b: FileBuilder<S>): SubstStmt {
    Branch(b.typeInfo.typeClass, "if(type == " + Name(b.typeInfo.typeClass) + ".class)", b.generatedTypeName)
  }

  function Branches<S>(bs: seq<FileBuilder<S>>): (r: seq<SubstStmt>)
    ensures |r| == |bs|
    ensures forall i :: 0 <= i < |bs| ==> r[i] == BranchFor(bs[i])
  {
    seq(|bs|, i requires 0 <= i < |bs| => BranchFor(bs[i]))
  }

  /** The body of the substituted `ClassTypeInformation.from`: one branch per builder, in key
      order, then the cache. */
  function Substitution<S>(bs: seq<FileBuilder<S>>): seq<SubstStmt> {
    Branches(bs) + [CacheFallback]
  }

  /** The text of one statement of the substitution. */
  function RenderSubst(s: SubstStmt): string {
    match s
    case Trace(text) => "System.out.println(\"" + text + "\")"
    case Branch(_, condition, target) => condition + " { return " + CTI_CAST + target + ".instance(); }"
    case CacheFallback => CACHE_LOOKUP
  }

  /** On well-keyed builders the substitution returns, for a class with a builder, the
      singleton of the class that builder generates, and the cached value for any other. */
  lemma BuildersDispatch<S>(bs: seq<FileBuilder<S>>, c: JClass)
    requires WellKeyed(bs)
    ensures Dispatch(Substitution(bs), c) == if c in Keys(bs) then Instance(GeneratedTypeName(c)) else Cached
  {
    var branches := Branches(bs);
    assert Substitution(bs) == [] + branches + [CacheFallback];
    assert Table([], branches);
    if c in Keys(bs) {
      var j :| 0 <= j < |bs| && Keys(bs)[j] == c;
      forall k | 0 <= k < j ensures branches[k].cls != c {
        assert branches[k].cls == Keys(bs)[k];
      }
      DispatchFirst([], branches, c, j);
    } else {
      forall k | 0 <= k < |branches| ensures branches[k].cls != c {
        assert branches[k].cls == Keys(bs)[k];
      }
      DispatchMiss([], branches, c);
    }
  }

  /** Once the files are processed, the substitution returns the generated singleton for each
      registered class and the cached type information for every other class; it never falls
      off the end. */
  lemma SubstitutionDispatches(reg: DomainTypes, c: JClass)
    requires ProcessFiles(reg).Success?
    ensures Dispatch(Substitution(ProcessFiles(reg).value), c)
      == if c in ClassesOf(reg) then Instance(GeneratedTypeName(c)) else Cached
  {
    BuildersDispatch(ProcessFiles(reg).value, c);
  }
}
