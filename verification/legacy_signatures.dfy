/** The older package's three spellings of a property type: `TypeSignature` (always field
    based, with an optional registry), `GenericsInfo.getSignature` (the Java source spelling)
    and the old file writer's own `initSignatureFrom` (no registry at all). Each is related
    to the model package's `TypeSignature` or to an independent reference spelling. */
module LegacySignatures {
  import opened Wrappers
  import opened Text
  import opened JavaTypes
  import opened Registry
  import opened Signatures

  // ---------------------------------------------------------------------------------
  // The old TypeSignature

  /** Old `initSignatureFrom(type, domainTypes)`: the registry check comes first, and there is
      no class-based short-circuit. */
  function LegacyInitSignature(t: RType, reg: DomainTypes): (r: Result<string>)
    ensures r.Failure? ==> r.error == NullPointer
    decreases Depth(t), Size(t), 1
  {
    var resolved := Resolve(t);
    if Contains(reg, resolved) then
      Success(InstanceOf(Canonical(resolved.value)))
    else if IsArray(t) then
      var c :- Deref(resolved);
      ArrayComponentDepth(t);
      var inner :- LegacyInitSignature(Raw(c.component), reg);
      Success(ArrayOf(inner))
    else if resolved.None? then Success("?")
    else if IsObject(resolved.value) then Success(OBJECT_TYPE)
    else if IsListClass(resolved.value) then
      if !HasGenerics(t) || HasUnresolvableGenerics(t) then Success(RAW_LIST)
      else
        GenericAtMeasure(t, 0);
        var inner :- LegacyInitSignature(GenericAt(t, 0), reg);
        Success(ListOfText(inner))
    else if IsMapClass(resolved.value) then
      if !HasGenerics(t) || HasUnresolvableGenerics(t) then Success(RAW_MAP)
      else
        GenericAtMeasure(t, 0);
        GenericAtMeasure(t, 1);
        var key :- LegacyInitSignature(GenericAt(t, 0), reg);
        var value :- LegacyInitSignature(GenericAt(t, 1), reg);
        Success(MapOfText(key, value))
    else if t.Var? then Success(t.varName)
    else if HasGenerics(t) then
      GenericsMeasure(t);
      var args :- LegacyInitSignatures(Generics(t), reg);
      Success(Canonical(resolved.value) + "<" + Join(", ", args) + ">")
    else Success(SimpleTypeOf(Canonical(Box(resolved.value))))
  }

  function LegacyInitSignatures(ts: seq<RType>, reg: DomainTypes): (r: Result<seq<string>>)
    ensures r.Success? ==> |r.value| == |ts|
    ensures r.Failure? ==> r.error == NullPointer
    decreases DepthAll(ts), SizeAll(ts), 2
  {
    if |ts| == 0 then Success([])
    else
      ElementMeasure(ts, 0);
      var head :- LegacyInitSignature(ts[0], reg);
      var tail :- LegacyInitSignatures(ts[1..], reg);
      Success([head] + tail)
  }

  /** The old no-argument `getConfigurableTypeSignatureString()`: an empty registry. */
  function LegacyConfigurableTypeSignatureString(t: RType): Result<string> {
    LegacyInitSignature(t, EmptyDomainTypes)
  }

  /** The two revisions build the same expression for every field-backed type and registry:
      the model package only added the class-based short-circuit. */
  lemma {:induction false} RevisionsAgree(t: RType, reg: DomainTypes)
    ensures LegacyInitSignature(t, reg) == InitSignature(t, reg, true)
    decreases Depth(t), Size(t), 1
  {
    var resolved := Resolve(t);
    if Contains(reg, resolved) {
    } else if IsArray(t) {
      if resolved.Some? {
        ArrayComponentDepth(t);
        RevisionsAgree(Raw(resolved.value.component), reg);
      }
    } else if resolved.None? || IsObject(resolved.value) {
    } else if IsListClass(resolved.value) {
      if HasGenerics(t) && !HasUnresolvableGenerics(t) {
        GenericAtMeasure(t, 0);
        RevisionsAgree(GenericAt(t, 0), reg);
      }
    } else if IsMapClass(resolved.value) {
      if HasGenerics(t) && !HasUnresolvableGenerics(t) {
        GenericAtMeasure(t, 0);
        GenericAtMeasure(t, 1);
        RevisionsAgree(GenericAt(t, 0), reg);
        RevisionsAgree(GenericAt(t, 1), reg);
      }
    } else if !t.Var? && HasGenerics(t) {
      GenericsMeasure(t);
      RevisionsAgreeAll(Generics(t), reg);
    }
  }

  lemma {:induction false} RevisionsAgreeAll(ts: seq<RType>, reg: DomainTypes)
    ensures LegacyInitSignatures(ts, reg) == InitSignatures(ts, reg, true)
    decreases DepthAll(ts), SizeAll(ts), 2
  {
    if |ts| > 0 {
      ElementMeasure(ts, 0);
      RevisionsAgree(ts[0], reg);
      RevisionsAgreeAll(ts[1..], reg);
    }
  }

  /** A plain class that is neither Object, a list nor a map. */
  predicate PlainClass(c: JClass) {
    c.Cls? && c.arity == 0 && !IsObject(c) && !IsListClass(c) && !IsMapClass(c)
  }

  /** With the default empty registry nothing short-circuits: a domain class is spelled as a
      simple configured type, and a registered one through its generated singleton. */
  lemma DefaultRegistryFallsThrough(c: JClass)
    requires PlainClass(c)
    ensures LegacyConfigurableTypeSignatureString(Raw(c)) == Success(SimpleTypeOf(Canonical(Box(c))))
    ensures LegacyInitSignature(Raw(c), [NewTypeInfo(c)]) == Success(InstanceOf(Canonical(c)))
  {
    assert Lookup([NewTypeInfo(c)], c).Some?;
  }

  /** `Map<String, List<Domain>>` with `Domain` registered: the key is a simple type, the value
      a list of the domain type's singleton. */
  lemma MapOfListOfDomain(d: JClass)
    requires PlainClass(d) && d.kind == OtherKind
    ensures LegacyInitSignature(Ty(MapClass, [Raw(StringClass), Ty(ListClass, [Raw(d)])]), [NewTypeInfo(d)])
         == Success(MapOfText(SimpleTypeOf("java.lang.String"), ListOfText(InstanceOf(Canonical(d)))))
  {
    var reg := [NewTypeInfo(d)];
    var list := Ty(ListClass, [Raw(d)]);
    var t := Ty(MapClass, [Raw(StringClass), list]);
    assert !IsUnresolvableArg(Generics(t)[0]) && !IsUnresolvableArg(Generics(t)[1]);
    assert !HasUnresolvableGenerics(t);
    assert Resolve(t) == Some(MapClass) && !Contains(reg, Resolve(t)) && !IsArray(t);
    assert HasGenerics(t) && GenericAt(t, 0) == Raw(StringClass) && GenericAt(t, 1) == list;
    ListOfDomain(d);
    StringIsSimple(d);
  }

  lemma ListOfDomain(d: JClass)
    requires PlainClass(d) && d.kind == OtherKind
    ensures LegacyInitSignature(Ty(ListClass, [Raw(d)]), [NewTypeInfo(d)]) == Success(ListOfText(InstanceOf(Canonical(d))))
  {
    var reg := [NewTypeInfo(d)];
    var list := Ty(ListClass, [Raw(d)]);
    assert !IsUnresolvableArg(Generics(list)[0]);
    assert !HasUnresolvableGenerics(list);
    assert Lookup(reg, d).Some?;
    assert LegacyInitSignature(Raw(d), reg) == Success(InstanceOf(Canonical(d)));
  }

  lemma StringIsSimple(d: JClass)
    requires PlainClass(d) && d.kind == OtherKind
    ensures LegacyInitSignature(Raw(StringClass), [NewTypeInfo(d)]) == Success(SimpleTypeOf("java.lang.String"))
  {
    assert !Contains([NewTypeInfo(d)], Resolve(Raw(StringClass)));
  }

  /** The expressions of an argument list are the arguments' own expressions, in order; the
      list fails exactly when one argument does. */
  lemma {:induction false} LegacyInitSignaturesEach(ts: seq<RType>, reg: DomainTypes)
    ensures LegacyInitSignatures(ts, reg).Success?
        <==> forall i :: 0 <= i < |ts| ==> LegacyInitSignature(ts[i], reg).Success?
    ensures LegacyInitSignatures(ts, reg).Success? ==> forall i :: 0 <= i < |ts| ==>
      LegacyInitSignatures(ts, reg).value[i] == LegacyInitSignature(ts[i], reg).value
    decreases |ts|
  {
    if |ts| > 0 {
      LegacyInitSignaturesEach(ts[1..], reg);
      assert forall i :: 1 <= i < |ts| ==> ts[i] == ts[1..][i - 1];
    }
  }

  /** `Object`, and so an unbounded type variable, is built by `SimpleConfiguredTypes.object()`
      unless `Object` itself is registered. */
  lemma LegacyObjectIsObject(t: RType, reg: DomainTypes)
    requires Resolve(t).Some? && IsObject(Resolve(t).value) && Resolve(t).value !in Classes(reg)
    ensures LegacyInitSignature(t, reg) == Success(OBJECT_TYPE)
  {
    ContainsIffRegistered(reg, Resolve(t).value);
    if IsArray(t) {
      ResolveArray(t);
    }
  }

  /** A bounded type variable whose bound is an unregistered class other than `Object`, a list
      or a map is written as the variable's name. */
  lemma LegacyTypeVariableIsNamed(n: string, b: RType, reg: DomainTypes)
    requires Resolve(b).Some? && Resolve(b).value.Cls? && Resolve(b).value !in Classes(reg)
    requires !IsObject(Resolve(b).value) && !IsListClass(Resolve(b).value) && !IsMapClass(Resolve(b).value)
    ensures LegacyInitSignature(Var(n, b), reg) == Success(n)
  {
    ContainsIffRegistered(reg, Resolve(b).value);
    if IsArray(Var(n, b)) {
      ResolveArray(Var(n, b));
    }
  }

  /** Any other generic class is its canonical name with the arguments' expressions between
      angle brackets, separated by ", "; it fails exactly when one argument does. */
  lemma LegacyGenericClassJoinsArguments(c: JClass, args: seq<RType>, reg: DomainTypes)
    requires c.Cls? && c !in Classes(reg) && |args| > 0
    requires !IsObject(c) && !IsListClass(c) && !IsMapClass(c)
    ensures LegacyInitSignature(Ty(c, args), reg).Success?
        <==> forall i :: 0 <= i < |args| ==> LegacyInitSignature(args[i], reg).Success?
    ensures LegacyInitSignature(Ty(c, args), reg).Success? ==>
      && LegacyInitSignature(Ty(c, args), reg).value
         == Canonical(c) + "<" + Join(", ", LegacyInitSignatures(args, reg).value) + ">"
      && forall i :: 0 <= i < |args| ==>
           LegacyInitSignatures(args, reg).value[i] == LegacyInitSignature(args[i], reg).value
  {
    ContainsIffRegistered(reg, c);
    LegacyInitSignaturesEach(args, reg);
  }

  // ---------------------------------------------------------------------------------
  // Spring's rendering of a ResolvableType, which the older spellings print for arrays

  /** No array anywhere in the type. */
  predicate NoArrays(t: RType)
    decreases t
  {
    match t
    case Unresolved => true
    case Var(_, b) => NoArrays(b)
    case Ty(c, args) => c.Cls? && AllNoArrays(args)
    case Arr(_) => false
  }

  predicate AllNoArrays(ts: seq<RType>)
    decreases ts
  {
    |ts| == 0 || (NoArrays(ts[0]) && AllNoArrays(ts[1..]))
  }

  lemma {:induction false} NoArraysNotArray(t: RType)
    requires NoArrays(t)
    ensures !IsArray(t)
  {
    match t
    case Unresolved =>
    case Var(_, b) => NoArraysNotArray(b);
    case Ty(_, _) =>
  }

  lemma {:induction false} NoArraysGenerics(t: RType)
    requires NoArrays(t)
    ensures AllNoArrays(Generics(t))
  {
    match t
    case Unresolved =>
    case Var(_, b) => NoArraysGenerics(b);
    case Ty(_, _) =>
  }

  lemma {:induction false} AllNoArraysAt(ts: seq<RType>, i: nat)
    requires AllNoArrays(ts) && i < |ts|
    ensures NoArrays(ts[i])
    decreases i
  {
    if i > 0 {
      AllNoArraysAt(ts[1..], i - 1);
    }
  }

  /** The component of an array type is less deeply nested than the array. */
  lemma {:induction false} ComponentDepth(t: RType)
    requires IsArray(t)
    ensures Depth(ComponentType(t)) < Depth(t)
  {
    match t
    case Var(_, b) => ComponentDepth(b);
    case Ty(c, _) => RawDepth(c.component);
    case Arr(_) =>
  }

  /** `ResolvableType.toString()`: binary class names, `?` for anything unresolved (a type
      variable included), arguments separated by `", "`. */
  function Describe(t: RType): (r: string)
    ensures !IsArray(t) && Resolve(t).None? ==> r == "?"
    decreases Depth(t), Size(t), 1
  {
    if IsArray(t) then
      ComponentDepth(t);
      Describe(ComponentType(t)) + "[]"
    else if Resolve(t).None? || t.Var? then "?"
    else if HasGenerics(t) then
      GenericsMeasure(t);
      Name(Resolve(t).value) + "<" + Join(", ", DescribeAll(Generics(t))) + ">"
    else Name(Resolve(t).value)
  }

  function DescribeAll(ts: seq<RType>): (r: seq<string>)
    ensures |r| == |ts|
    decreases DepthAll(ts), SizeAll(ts), 2
  {
    if |ts| == 0 then []
    else
      ElementMeasure(ts, 0);
      [Describe(ts[0])] + DescribeAll(ts[1..])
  }

  // ---------------------------------------------------------------------------------
  // GenericsInfo

  /** `GenericsInfo.getSignature(type)`: the Java spelling with `", "` between arguments, an
      array printed through Spring's rendering of its component. Never fails. */
  function GenericsSignature(t: RType): (r: string)
    ensures !IsArray(t) && Resolve(t).None? ==> r == "?"
    ensures !IsArray(t) && t.Var? && Resolve(t).Some? ==> r == t.varName
    decreases Depth(t), Size(t), 1
  {
    if IsArray(t) then Describe(ComponentType(t)) + "[]"
    else if Resolve(t).None? then "?"
    else if t.Var? then t.varName
    else if HasGenerics(t) then
      GenericsMeasure(t);
      Canonical(Resolve(t).value) + "<" + Join(", ", GenericsSignatures(Generics(t))) + ">"
    else Canonical(Box(Resolve(t).value))
  }

  function GenericsSignatures(ts: seq<RType>): (r: seq<string>)
    ensures |r| == |ts|
    decreases DepthAll(ts), SizeAll(ts), 2
  {
    if |ts| == 0 then []
    else
      ElementMeasure(ts, 0);
      [GenericsSignature(ts[0])] + GenericsSignatures(ts[1..])
  }

  // ---------------------------------------------------------------------------------
  // The old file writer's initSignatureFrom

  /** The old writer's `initSignatureFrom(type)`: the old `TypeSignature` rules without a
      registry, except that an array is printed as Spring renders its component plus `[]`
      instead of through `arrayOf`. Never fails. */
  function WriterInitSignature(t: RType): (r: string)
    ensures !IsArray(t) && Resolve(t).None? ==> r == "?"
    decreases Depth(t), Size(t), 1
  {
    var resolved := Resolve(t);
    if IsArray(t) then Describe(ComponentType(t)) + "[]"
    else if resolved.None? then "?"
    else if IsObject(resolved.value) then OBJECT_TYPE
    else if IsListClass(resolved.value) then
      if !HasGenerics(t) || HasUnresolvableGenerics(t) then RAW_LIST
      else
        GenericAtMeasure(t, 0);
        ListOfText(WriterInitSignature(GenericAt(t, 0)))
    else if IsMapClass(resolved.value) then
      if !HasGenerics(t) || HasUnresolvableGenerics(t) then RAW_MAP
      else
        GenericAtMeasure(t, 0);
        GenericAtMeasure(t, 1);
        MapOfText(WriterInitSignature(GenericAt(t, 0)), WriterInitSignature(GenericAt(t, 1)))
    else if t.Var? then t.varName
    else if HasGenerics(t) then
      GenericsMeasure(t);
      Canonical(resolved.value) + "<" + Join(", ", WriterInitSignatures(Generics(t))) + ">"
    else SimpleTypeOf(Canonical(Box(resolved.value)))
  }

  function WriterInitSignatures(ts: seq<RType>): (r: seq<string>)
    ensures |r| == |ts|
    decreases DepthAll(ts), SizeAll(ts), 2
  {
    if |ts| == 0 then []
    else
      ElementMeasure(ts, 0);
      [WriterInitSignature(ts[0])] + WriterInitSignatures(ts[1..])
  }

  /** Away from arrays, the old writer builds exactly what the old `TypeSignature` builds with
      the default empty registry. */
  lemma {:induction false} WriterAgreesWithoutArrays(t: RType)
    requires NoArrays(t)
    ensures LegacyConfigurableTypeSignatureString(t) == Success(WriterInitSignature(t))
    decreases Depth(t), Size(t), 1
  {
    NoArraysNotArray(t);
    var resolved := Resolve(t);
    if resolved.None? || IsObject(resolved.value) {
    } else if IsListClass(resolved.value) {
      if HasGenerics(t) && !HasUnresolvableGenerics(t) {
        GenericAtMeasure(t, 0);
        NoArraysGenerics(t);
        AllNoArraysAt(Generics(t), 0);
        WriterAgreesWithoutArrays(GenericAt(t, 0));
      }
    } else if IsMapClass(resolved.value) {
      if HasGenerics(t) && !HasUnresolvableGenerics(t) {
        GenericAtMeasure(t, 0);
        GenericAtMeasure(t, 1);
        NoArraysGenerics(t);
        AllNoArraysAt(Generics(t), 0);
        WriterAgreesWithoutArrays(GenericAt(t, 0));
        if 1 < |Generics(t)| {
          AllNoArraysAt(Generics(t), 1);
        }
        WriterAgreesWithoutArrays(GenericAt(t, 1));
      }
    } else if !t.Var? && HasGenerics(t) {
      GenericsMeasure(t);
      NoArraysGenerics(t);
      WriterAgreesWithoutArraysAll(Generics(t));
    }
  }

  lemma {:induction false} WriterAgreesWithoutArraysAll(ts: seq<RType>)
    requires AllNoArrays(ts)
    ensures LegacyInitSignatures(ts, EmptyDomainTypes) == Success(WriterInitSignatures(ts))
    decreases DepthAll(ts), SizeAll(ts), 2
  {
    if |ts| > 0 {
      ElementMeasure(ts, 0);
      WriterAgreesWithoutArrays(ts[0]);
      WriterAgreesWithoutArraysAll(ts[1..]);
    }
  }

  // ---------------------------------------------------------------------------------
  // A reference spelling of array-free types

  /** The Java source spelling of an array-free type with a chosen argument separator:
      `?` when unresolved, a type variable by name, a generic type as its canonical name
      with its arguments, any other class by its boxed canonical name. */
  function Spell(t: RType, sep: string): (r: string)
    decreases Size(t), 1
  {
    match Resolve(t)
    case None => "?"
    case Some(c) =>
      if t.Var? then t.varName
      else if HasGenerics(t) then
        GenericsMeasure(t);
        Canonical(c) + "<" + Join(sep, SpellAll(Generics(t), sep)) + ">"
      else Canonical(Box(c))
  }

  function SpellAll(ts: seq<RType>, sep: string): (r: seq<string>)
    ensures |r| == |ts|
    decreases SizeAll(ts), 2
  {
    if |ts| == 0 then []
    else
      ElementMeasure(ts, 0);
      [Spell(ts[0], sep)] + SpellAll(ts[1..], sep)
  }

  /** The model package's Java signature of an array-free type is the reference spelling with
      a bare comma. */
  lemma {:induction false} JavaSignatureSpells(t: RType)
    requires NoArrays(t)
    ensures JavaSignature(t) == Success(Spell(t, ","))
    decreases Depth(t), Size(t), 1
  {
    NoArraysNotArray(t);
    if Resolve(t).Some? && !t.Var? && HasGenerics(t) {
      GenericsMeasure(t);
      NoArraysGenerics(t);
      JavaSignaturesSpell(Generics(t));
    }
  }

  lemma {:induction false} JavaSignaturesSpell(ts: seq<RType>)
    requires AllNoArrays(ts)
    ensures JavaSignatures(ts) == Success(SpellAll(ts, ","))
    decreases DepthAll(ts), SizeAll(ts), 2
  {
    if |ts| > 0 {
      ElementMeasure(ts, 0);
      JavaSignatureSpells(ts[0]);
      JavaSignaturesSpell(ts[1..]);
    }
  }

  /** `GenericsInfo` spells an array-free type like the reference, with `", "`. */
  lemma {:induction false} GenericsSignatureSpells(t: RType)
    requires NoArrays(t)
    ensures GenericsSignature(t) == Spell(t, ", ")
    decreases Depth(t), Size(t), 1
  {
    NoArraysNotArray(t);
    if Resolve(t).Some? && !t.Var? && HasGenerics(t) {
      GenericsMeasure(t);
      NoArraysGenerics(t);
      GenericsSignaturesSpell(Generics(t));
    }
  }

  lemma {:induction false} GenericsSignaturesSpell(ts: seq<RType>)
    requires AllNoArrays(ts)
    ensures GenericsSignatures(ts) == SpellAll(ts, ", ")
    decreases DepthAll(ts), SizeAll(ts), 2
  {
    if |ts| > 0 {
      ElementMeasure(ts, 0);
      GenericsSignatureSpells(ts[0]);
      GenericsSignaturesSpell(ts[1..]);
    }
  }

  /** The three old spellings of an array of a plain class `E[]`: the old `TypeSignature`
      wraps the component's expression in `arrayOf`, the old `getJavaSignature` prints the
      canonical name, while `GenericsInfo` and the old writer print the binary name (which
      differs for a member class, `a.Outer$Inner[]`). */
  lemma ArraySpellings(e: JClass)
    requires PlainClass(e) && !IsPrimitive(e)
    ensures LegacyConfigurableTypeSignatureString(Raw(ArrayCls(e))) == Success(ArrayOf(SimpleTypeOf(Canonical(e))))
    ensures JavaSignature(Raw(ArrayCls(e))) == Success(Canonical(e) + "[]")
    ensures GenericsSignature(Raw(ArrayCls(e))) == Name(e) + "[]"
    ensures WriterInitSignature(Raw(ArrayCls(e))) == Name(e) + "[]"
  {
    assert ComponentType(Raw(ArrayCls(e))) == Raw(e);
    assert !Contains(EmptyDomainTypes, Some(ArrayCls(e)));
    assert LegacyInitSignature(Raw(e), EmptyDomainTypes) == Success(SimpleTypeOf(Canonical(e)));
  }
}
