/** `TypeSignature` of the model package: how a property's declared type is spelled in the
    generated source, both as a Java type (`getJavaSignatureString`) and as the expression
    that builds its configurable type information (`getConfigurableTypeSignatureString`). */
module Signatures {
  import opened Wrappers
  import opened Text
  import opened JavaTypes
  import opened Properties
  import opened Registry

  /** Appended to a domain type's name to name its generated type information class. */
  const TYPE_POSTFIX: string := "ConfigurableTypeInformation"

  const MODEL_PACKAGE: string := "org.springframework.data.mapping.model."

  // ---------------------------------------------------------------------------------
  // The expressions the generated code is made of.

  /** The singleton of the generated class for a domain type. */
  function InstanceOf(canonical: string): string {
    canonical + TYPE_POSTFIX + ".instance()"
  }

  function ArrayOf(inner: string): string {
    MODEL_PACKAGE + "ArrayTypeInformation.arrayOf(" + inner + ")"
  }

  const OBJECT_TYPE: string := MODEL_PACKAGE + "SimpleConfiguredTypes.object()"

  const RAW_LIST: string := MODEL_PACKAGE + "ListTypeInformation.list()"

  function ListOfText(inner: string): string {
    MODEL_PACKAGE + "ListTypeInformation.listOf(" + inner + ")"
  }

  const RAW_MAP: string := MODEL_PACKAGE + "MapTypeInformation.map()"

  function MapOfText(key: string, value: string): string {
    MODEL_PACKAGE + "MapTypeInformation.mapOf(" + key + "," + value + ")"
  }

  function SimpleTypeOf(canonical: string): string {
    MODEL_PACKAGE + "SimpleConfiguredTypes.get(" + canonical + ".class)"
  }

  // ---------------------------------------------------------------------------------

  /** A resolvable type and whether it came from a field (`fromField`) or a class
      (`fromClass`, where the field is null). */
  datatype TypeSignature = TypeSignature(resolvableType: RType, fieldBacked: bool)

  function FromField(f: FieldRef): (s: TypeSignature)
    ensures s.fieldBacked && s.resolvableType == f.declared
  {
    TypeSignature(f.declared, true)
  }

  function FromClass(c: JClass): (s: TypeSignature)
    ensures !s.fieldBacked && Resolve(s.resolvableType) == Some(c)
  {
    TypeSignature(Raw(c), false)
  }

  /** `from(owner, name)`: `found` is the field lookup; a missing field is rejected by
      `ResolvableType.forField`. */
  function From(found: Option<FieldRef>): (r: Result<TypeSignature>)
    ensures r.Success? <==> found.Some?
    ensures r.Success? ==> r.value == FromField(found.value)
  {
    if found.None? then Failure(IllegalArgument("Field must not be null")) else Success(FromField(found.value))
  }

  function ResolvedClass(s: TypeSignature): Result<JClass> {
    Deref(Resolve(s.resolvableType))
  }

  /** `getPackageName()`; arrays and primitives have no package. */
  function PackageNameOf(s: TypeSignature): (r: Result<string>)
    ensures r.Success? <==> Resolve(s.resolvableType).Some? && PackageName(Resolve(s.resolvableType).value).Some?
  {
    var c :- ResolvedClass(s);
    Deref(PackageName(c))
  }

  /** `getSimpleName()`. */
  function SimpleNameOf(s: TypeSignature): (r: Result<string>)
    ensures r.Success? <==> Resolve(s.resolvableType).Some?
  {
    var c :- ResolvedClass(s);
    Success(SimpleName(c))
  }

  /** `getCanonicalConfigurableTypeName()`: the generated class for this type. */
  function CanonicalConfigurableTypeName(s: TypeSignature): (r: Result<string>)
    ensures r.Success? <==> Resolve(s.resolvableType).Some?
  {
    var c :- ResolvedClass(s);
    Success(Canonical(c) + TYPE_POSTFIX)
  }

  /** `getCanonicalSuperConfigurableTypeName()`: the generated class of the superclass, null
      when there is no superclass. */
  function CanonicalSuperConfigurableTypeName(s: TypeSignature): (r: Result<Option<string>>)
    ensures r.Success? <==> Resolve(s.resolvableType).Some?
    ensures r.Success? ==> (r.value.Some? <==> Superclass(Resolve(s.resolvableType).value).Some?)
  {
    var c :- ResolvedClass(s);
    match Superclass(c)
    case None => Success(None)
    case Some(sup) => Success(Some(Canonical(sup) + TYPE_POSTFIX))
  }

  /** `getSimpleConfigurableTypeName()`. */
  function SimpleConfigurableTypeName(s: TypeSignature): (r: Result<string>)
    ensures r.Success? <==> Resolve(s.resolvableType).Some?
  {
    var n :- SimpleNameOf(s);
    Success(n + TYPE_POSTFIX)
  }

  /** `getJavaSignature(type)`: the Java source spelling of the type. Arguments are
      separated by a bare comma; an unresolvable argument prints `?`. The only failure is the
      null dereference of an array whose component does not resolve. */
  function JavaSignature(t: RType): (r: Result<string>)
    ensures r.Failure? ==> r.error == NullPointer
    decreases Depth(t), Size(t), 1
  {
    if IsArray(t) then
      var c :- Deref(Resolve(ComponentType(t)));
      Success(Canonical(c) + "[]")
    else if Resolve(t).None? then Success("?")
    else if t.Var? then Success(t.varName)
    else if HasGenerics(t) then
      GenericsMeasure(t);
      var args :- JavaSignatures(Generics(t));
      Success(Canonical(Resolve(t).value) + "<" + Join(",", args) + ">")
    else Success(Canonical(Box(Resolve(t).value)))
  }

  /** The Java signatures of a list of generic arguments, left to right. */
  function JavaSignatures(ts: seq<RType>): (r: Result<seq<string>>)
    ensures r.Success? ==> |r.value| == |ts|
    ensures r.Failure? ==> r.error == NullPointer
    decreases DepthAll(ts), SizeAll(ts), 2
  {
    if |ts| == 0 then Success([])
    else
      ElementMeasure(ts, 0);
      var head :- JavaSignature(ts[0]);
      var tail :- JavaSignatures(ts[1..]);
      Success([head] + tail)
  }

  /** `initSignatureFrom(type, domainTypes)`: the expression building the configurable type
      information. A registered domain type, and every type of a class-based signature, is
      referenced through its generated singleton; otherwise arrays, `Object`, lists, maps,
      type variables, other generic types and plain classes each have their own form. The
      only failure is a null dereference. */
  function InitSignature(t: RType, reg: DomainTypes, fieldBacked: bool): (r: Result<string>)
    ensures r.Failure? ==> r.error == NullPointer
    decreases Depth(t), Size(t), 1
  {
    var resolved := Resolve(t);
    if Contains(reg, resolved) || !fieldBacked then
      var c :- Deref(resolved);
      Success(InstanceOf(Canonical(c)))
    else if IsArray(t) then
      var c :- Deref(resolved);
      ArrayComponentDepth(t);
      var inner :- InitSignature(Raw(c.component), reg, fieldBacked);
      Success(ArrayOf(inner))
    else if resolved.None? then Success("?")
    else if IsObject(resolved.value) then Success(OBJECT_TYPE)
    else if IsListClass(resolved.value) then
      if !HasGenerics(t) || HasUnresolvableGenerics(t) then Success(RAW_LIST)
      else
        GenericAtMeasure(t, 0);
        var inner :- InitSignature(GenericAt(t, 0), reg, fieldBacked);
        Success(ListOfText(inner))
    else if IsMapClass(resolved.value) then
      if !HasGenerics(t) || HasUnresolvableGenerics(t) then Success(RAW_MAP)
      else
        GenericAtMeasure(t, 0);
        GenericAtMeasure(t, 1);
        var key :- InitSignature(GenericAt(t, 0), reg, fieldBacked);
        var value :- InitSignature(GenericAt(t, 1), reg, fieldBacked);
        Success(MapOfText(key, value))
    else if t.Var? then Success(t.varName)
    else if HasGenerics(t) then
      GenericsMeasure(t);
      var args :- InitSignatures(Generics(t), reg, fieldBacked);
      Success(Canonical(resolved.value) + "<" + Join(", ", args) + ">")
    else Success(SimpleTypeOf(Canonical(Box(resolved.value))))
  }

  function InitSignatures(ts: seq<RType>, reg: DomainTypes, fieldBacked: bool): (r: Result<seq<string>>)
    ensures r.Success? ==> |r.value| == |ts|
    ensures r.Failure? ==> r.error == NullPointer
    decreases DepthAll(ts), SizeAll(ts), 2
  {
    if |ts| == 0 then Success([])
    else
      ElementMeasure(ts, 0);
      var head :- InitSignature(ts[0], reg, fieldBacked);
      var tail :- InitSignatures(ts[1..], reg, fieldBacked);
      Success([head] + tail)
  }

  /** `getJavaSignatureString()`. */
  function JavaSignatureString(s: TypeSignature): Result<string> {
    JavaSignature(s.resolvableType)
  }

  /** `getConfigurableTypeSignatureString(domainTypes)`. */
  function ConfigurableTypeSignatureString(s: TypeSignature, reg: DomainTypes): Result<string> {
    InitSignature(s.resolvableType, reg, s.fieldBacked)
  }

  // ---------------------------------------------------------------------------------
  // Laws

  /** Every array in the type, at any depth, has a component that resolves. */
  predicate ArraysResolve(t: RType)
    decreases t
  {
    match t
    case Unresolved => true
    case Var(_, b) => ArraysResolve(b)
    case Ty(_, args) => AllArraysResolve(args)
    case Arr(x) => Resolve(x).Some? && ArraysResolve(x)
  }

  predicate AllArraysResolve(ts: seq<RType>)
    decreases ts
  {
    |ts| == 0 || (ArraysResolve(ts[0]) && AllArraysResolve(ts[1..]))
  }

  lemma {:induction false} AllArraysResolveAt(ts: seq<RType>, i: nat)
    requires AllArraysResolve(ts) && i < |ts|
    ensures ArraysResolve(ts[i])
    decreases i
  {
    if i > 0 {
      AllArraysResolveAt(ts[1..], i - 1);
    }
  }

  lemma {:induction false} AllUnresolvedArraysResolve(ts: seq<RType>)
    requires forall i :: 0 <= i < |ts| ==> ts[i] == Unresolved
    ensures AllArraysResolve(ts)
    decreases |ts|
  {
    if |ts| > 0 {
      AllUnresolvedArraysResolve(ts[1..]);
    }
  }

  lemma {:induction false} GenericsArraysResolve(t: RType)
    requires ArraysResolve(t)
    ensures AllArraysResolve(Generics(t))
  {
    match t
    case Unresolved =>
    case Var(_, b) => GenericsArraysResolve(b);
    case Ty(_, _) =>
    case Arr(_) =>
  }

  lemma {:induction false} GenericAtArraysResolve(t: RType, i: nat)
    requires ArraysResolve(t)
    ensures ArraysResolve(GenericAt(t, i))
  {
    GenericsArraysResolve(t);
    if i < |Generics(t)| {
      AllArraysResolveAt(Generics(t), i);
    }
  }

  lemma {:induction false} ArraysResolveResolves(t: RType)
    requires ArraysResolve(t) && IsArray(t)
    ensures Resolve(t).Some?
  {
    match t
    case Var(_, b) => ArraysResolveResolves(b);
    case Ty(_, _) =>
    case Arr(_) =>
  }

  /** For a field, building the configurable type information succeeds whenever every array
      in the declared type has a resolvable component. */
  lemma {:induction false} InitSignatureTotal(t: RType, reg: DomainTypes)
    requires ArraysResolve(t)
    ensures InitSignature(t, reg, true).Success?
    decreases Depth(t), Size(t), 1
  {
    var resolved := Resolve(t);
    if Contains(reg, resolved) {
    } else if IsArray(t) {
      ArraysResolveResolves(t);
      ArrayComponentDepth(t);
      var e := resolved.value.component;
      AllUnresolvedArraysResolve(Raw(e).args);
      InitSignatureTotal(Raw(e), reg);
    } else if resolved.None? || IsObject(resolved.value) {
    } else if IsListClass(resolved.value) {
      if HasGenerics(t) && !HasUnresolvableGenerics(t) {
        GenericAtMeasure(t, 0);
        GenericAtArraysResolve(t, 0);
        InitSignatureTotal(GenericAt(t, 0), reg);
      }
    } else if IsMapClass(resolved.value) {
      if HasGenerics(t) && !HasUnresolvableGenerics(t) {
        GenericAtMeasure(t, 0);
        GenericAtMeasure(t, 1);
        GenericAtArraysResolve(t, 0);
        GenericAtArraysResolve(t, 1);
        InitSignatureTotal(GenericAt(t, 0), reg);
        InitSignatureTotal(GenericAt(t, 1), reg);
      }
    } else if !t.Var? && HasGenerics(t) {
      GenericsMeasure(t);
      GenericsArraysResolve(t);
      InitSignaturesTotal(Generics(t), reg);
    }
  }

  lemma {:induction false} InitSignaturesTotal(ts: seq<RType>, reg: DomainTypes)
    requires AllArraysResolve(ts)
    ensures InitSignatures(ts, reg, true).Success?
    decreases DepthAll(ts), SizeAll(ts), 2
  {
    if |ts| > 0 {
      ElementMeasure(ts, 0);
      InitSignatureTotal(ts[0], reg);
      InitSignaturesTotal(ts[1..], reg);
    }
  }

  /** The Java signature likewise exists whenever every array component resolves. */
  lemma {:induction false} JavaSignatureTotal(t: RType)
    requires ArraysResolve(t)
    ensures JavaSignature(t).Success?
    decreases Depth(t), Size(t), 1
  {
    if IsArray(t) {
      ArraysResolveResolves(t);
      ResolveArray(t);
    } else if Resolve(t).Some? && !t.Var? && HasGenerics(t) {
      GenericsMeasure(t);
      GenericsArraysResolve(t);
      JavaSignaturesTotal(Generics(t));
    }
  }

  lemma {:induction false} JavaSignaturesTotal(ts: seq<RType>)
    requires AllArraysResolve(ts)
    ensures JavaSignatures(ts).Success?
    decreases DepthAll(ts), SizeAll(ts), 2
  {
    if |ts| > 0 {
      ElementMeasure(ts, 0);
      JavaSignatureTotal(ts[0]);
      JavaSignaturesTotal(ts[1..]);
    }
  }

  /** A class-based signature (no field) always refers to the generated class of the type,
      whether or not the type is registered, and the name it refers to is the one
      `getCanonicalConfigurableTypeName()` gives. */
  lemma ClassSignatureRefersToGeneratedType(c: JClass, reg: DomainTypes)
    ensures CanonicalConfigurableTypeName(FromClass(c)).Success?
    ensures ConfigurableTypeSignatureString(FromClass(c), reg)
         == Success(CanonicalConfigurableTypeName(FromClass(c)).value + ".instance()")
  {
  }

  /** Without a field, the expression exists exactly when the type resolves. */
  lemma UnbackedSignatureNeedsResolution(t: RType, reg: DomainTypes)
    ensures InitSignature(t, reg, false).Success? <==> Resolve(t).Some?
  {
  }

  /** A registered domain type is always referenced through its generated singleton, however
      the property declares it. */
  lemma RegisteredTypeIsReferenced(t: RType, reg: DomainTypes, fieldBacked: bool)
    requires Resolve(t).Some? && Resolve(t).value in Classes(reg)
    ensures InitSignature(t, reg, fieldBacked) == Success(InstanceOf(Canonical(Resolve(t).value)))
  {
    ContainsIffRegistered(reg, Resolve(t).value);
  }

  /** A primitive property and one of its wrapper type get the same expression (the wrapper's
      simple configured type) and the same Java signature. */
  lemma PrimitiveAndWrapperAgree(p: PrimKind, reg: DomainTypes)
    requires PrimitiveClass(p) !in Classes(reg) && WrapperClass(p) !in Classes(reg)
    ensures InitSignature(Raw(PrimitiveClass(p)), reg, true)
         == InitSignature(Raw(WrapperClass(p)), reg, true)
         == Success(SimpleTypeOf("java.lang." + WrapperSimpleName(p)))
    ensures JavaSignature(Raw(PrimitiveClass(p))) == JavaSignature(Raw(WrapperClass(p)))
         == Success("java.lang." + WrapperSimpleName(p))
  {
    ContainsIffRegistered(reg, PrimitiveClass(p));
    ContainsIffRegistered(reg, WrapperClass(p));
  }

  /** A raw list, a list of `?` and a list of an unbound type variable all become the untyped
      list; likewise for maps as soon as one argument is unresolvable. */
  lemma UnresolvableCollectionsAreRaw(reg: DomainTypes, x: RType, n: string)
    requires ListClass !in Classes(reg) && MapClass !in Classes(reg)
    ensures InitSignature(Raw(ListClass), reg, true) == Success(RAW_LIST)
    ensures InitSignature(Ty(ListClass, [Var(n, Unresolved)]), reg, true) == Success(RAW_LIST)
    ensures InitSignature(Raw(MapClass), reg, true) == Success(RAW_MAP)
    ensures InitSignature(Ty(MapClass, [x, Unresolved]), reg, true) == Success(RAW_MAP)
    ensures InitSignature(Ty(MapClass, [Unresolved, x]), reg, true) == Success(RAW_MAP)
  {
    ContainsIffRegistered(reg, ListClass);
    ContainsIffRegistered(reg, MapClass);
    assert IsUnresolvableArg(Generics(Raw(ListClass))[0]);
    assert IsUnresolvableArg(Generics(Ty(ListClass, [Var(n, Unresolved)]))[0]);
    assert IsUnresolvableArg(Generics(Raw(MapClass))[0]);
    assert IsUnresolvableArg(Generics(Ty(MapClass, [x, Unresolved]))[1]);
    assert IsUnresolvableArg(Generics(Ty(MapClass, [Unresolved, x]))[0]);
  }
  /** A list of a resolvable argument is the list form around the argument's own expression. */
  lemma ListsRecurse(g: RType, reg: DomainTypes)
    requires ListClass !in Classes(reg) && !IsUnresolvableArg(g)
    ensures InitSignature(Ty(ListClass, [g]), reg, true).Success? <==> InitSignature(g, reg, true).Success?
    ensures InitSignature(g, reg, true).Success? ==>
      InitSignature(Ty(ListClass, [g]), reg, true) == Success(ListOfText(InitSignature(g, reg, true).value))
  {
    ContainsIffRegistered(reg, ListClass);
    assert !HasUnresolvableGenerics(Ty(ListClass, [g]));
  }

  /** A map of two resolvable arguments is the map form around the key's and the value's
      expressions, key first. */
  lemma MapsRecurse(k: RType, v: RType, reg: DomainTypes)
    requires MapClass !in Classes(reg) && !IsUnresolvableArg(k) && !IsUnresolvableArg(v)
    ensures InitSignature(Ty(MapClass, [k, v]), reg, true).Success?
        <==> InitSignature(k, reg, true).Success? && InitSignature(v, reg, true).Success?
    ensures InitSignature(k, reg, true).Success? && InitSignature(v, reg, true).Success? ==>
      InitSignature(Ty(MapClass, [k, v]), reg, true)
        == Success(MapOfText(InitSignature(k, reg, true).value, InitSignature(v, reg, true).value))
  {
    ContainsIffRegistered(reg, MapClass);
    assert !HasUnresolvableGenerics(Ty(MapClass, [k, v]));
  }

  /** `List<List<String>>` becomes `listOf(listOf(get(String.class)))`. */
  lemma NestedListsRecurse(reg: DomainTypes)
    requires ListClass !in Classes(reg) && StringClass !in Classes(reg)
    ensures InitSignature(Ty(ListClass, [Ty(ListClass, [Raw(StringClass)])]), reg, true)
         == Success(ListOfText(ListOfText(SimpleTypeOf("java.lang.String"))))
  {
    ContainsIffRegistered(reg, StringClass);
    assert InitSignature(Raw(StringClass), reg, true) == Success(SimpleTypeOf("java.lang.String"));
    ListsRecurse(Raw(StringClass), reg);
    ListsRecurse(Ty(ListClass, [Raw(StringClass)]), reg);
  }

  /** The expressions of an argument list are the arguments' own expressions, in order; the
      list fails exactly when one argument does. */
  lemma {:induction false} InitSignaturesEach(ts: seq<RType>, reg: DomainTypes, fieldBacked: bool)
    ensures InitSignatures(ts, reg, fieldBacked).Success?
        <==> forall i :: 0 <= i < |ts| ==> InitSignature(ts[i], reg, fieldBacked).Success?
    ensures InitSignatures(ts, reg, fieldBacked).Success? ==> forall i :: 0 <= i < |ts| ==>
      InitSignatures(ts, reg, fieldBacked).value[i] == InitSignature(ts[i], reg, fieldBacked).value
    decreases |ts|
  {
    if |ts| > 0 {
      InitSignaturesEach(ts[1..], reg, fieldBacked);
      assert forall i :: 1 <= i < |ts| ==> ts[i] == ts[1..][i - 1];
    }
  }

  /** `Object`, and so an unbounded type variable, which resolves to `Object`, is built by
      `SimpleConfiguredTypes.object()` unless `Object` itself is registered. */
  lemma ObjectIsObject(t: RType, reg: DomainTypes)
    requires Resolve(t).Some? && IsObject(Resolve(t).value) && Resolve(t).value !in Classes(reg)
    ensures InitSignature(t, reg, true) == Success(OBJECT_TYPE)
  {
    ContainsIffRegistered(reg, Resolve(t).value);
    if IsArray(t) {
      ResolveArray(t);
    }
  }

  /** A bounded type variable whose bound is an unregistered class other than `Object`, a list
      or a map is written as the variable's name. */
  lemma TypeVariableIsNamed(n: string, b: RType, reg: DomainTypes)
    requires Resolve(b).Some? && Resolve(b).value.Cls? && Resolve(b).value !in Classes(reg)
    requires !IsObject(Resolve(b).value) && !IsListClass(Resolve(b).value) && !IsMapClass(Resolve(b).value)
    ensures InitSignature(Var(n, b), reg, true) == Success(n)
  {
    ContainsIffRegistered(reg, Resolve(b).value);
    if IsArray(Var(n, b)) {
      ResolveArray(Var(n, b));
    }
  }

  /** Any other generic class is its canonical name with the arguments' expressions between
      angle brackets, separated by ", "; it fails exactly when one argument does. */
  lemma GenericClassJoinsArguments(c: JClass, args: seq<RType>, reg: DomainTypes)
    requires c.Cls? && c !in Classes(reg) && |args| > 0
    requires !IsObject(c) && !IsListClass(c) && !IsMapClass(c)
    ensures InitSignature(Ty(c, args), reg, true).Success?
        <==> forall i :: 0 <= i < |args| ==> InitSignature(args[i], reg, true).Success?
    ensures InitSignature(Ty(c, args), reg, true).Success? ==>
      && InitSignature(Ty(c, args), reg, true).value
         == Canonical(c) + "<" + Join(", ", InitSignatures(args, reg, true).value) + ">"
      && forall i :: 0 <= i < |args| ==>
           InitSignatures(args, reg, true).value[i] == InitSignature(args[i], reg, true).value
  {
    ContainsIffRegistered(reg, c);
    InitSignaturesEach(args, reg, true);
  }
}
