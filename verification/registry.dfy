/** Type models and the registry of domain types: `TypeInfo`, `ConstructorModel` and
    `DomainTypes`. Java's insertion-ordered sets become sequences. */
module Registry {
  import opened Wrappers
  import opened JavaTypes
  import opened Annotations
  import opened Properties

  /** A constructor parameter: its name and raw class. */
  datatype ParameterInfo = ParameterInfo(name: string, rawType: JClass)

  /** The persistence constructor of a domain type. */
  datatype ConstructorInfo = ConstructorInfo(owner: JClass, parameters: seq<ParameterInfo>)

  /** `new ConstructorModel(type)`: `preferred` is what `PreferredConstructorDiscoverer.discover`
      finds (absent when the type has no usable constructor); its parameters are kept in
      declaration order. */
  function NewConstructorInfo(c: JClass, preferred: Option<seq<ParameterInfo>>): (r: ConstructorInfo)
    ensures r.owner == c
    ensures preferred.None? ==> r.parameters == []
    ensures preferred.Some? ==> r.parameters == preferred.value
  {
    ConstructorInfo(c, if preferred.Some? then preferred.value else [])
  }

  /** `isNoArgConstructor()`. */
  predicate IsNoArgConstructor(ci: ConstructorInfo) {
    |ci.parameters| == 0
  }

  /** A type is built through its no-argument form exactly when no constructor was found or
      the one found takes no parameters. */
  lemma NoArgConstructorCases(c: JClass, preferred: Option<seq<ParameterInfo>>)
    ensures IsNoArgConstructor(NewConstructorInfo(c, preferred)) <==> preferred.None? || preferred.value == []
  {
  }

  /** The model of one domain type. */
  datatype TypeInfo = TypeInfo(
    typeClass: JClass,
    annotations: seq<AnnotationInfo>,
    properties: seq<PropertyInfo>,
    persistenceConstructor: Option<ConstructorInfo>)

  /** `new TypeInfo(type)`. */
  function NewTypeInfo(c: JClass): (r: TypeInfo)
    ensures r.typeClass == c && r.annotations == [] && r.properties == [] && r.persistenceConstructor.None?
  {
    TypeInfo(c, [], [], None)
  }

  predicate NoDuplicates<T(==)>(s: seq<T>) {
    forall i, j :: 0 <= i < j < |s| ==> s[i] != s[j]
  }

  /** `LinkedHashSet.addAll`: each new element not yet present is appended, in order. */
  function AddAll<T(==,!new)>(s: seq<T>, xs: seq<T>): (r: seq<T>)
    ensures |s| <= |r| && r[..|s|] == s
    ensures forall x :: x in r <==> x in s || x in xs
    ensures NoDuplicates(s) ==> NoDuplicates(r)
    decreases |xs|
  {
    if |xs| == 0 then s
    else AddAll(if xs[0] in s then s else s + [xs[0]], xs[1..])
  }

  /** Adding two lists one after the other is adding their concatenation. */
  lemma {:induction false} AddAllConcat<T(!new)>(s: seq<T>, xs: seq<T>, ys: seq<T>)
    ensures AddAll(AddAll(s, xs), ys) == AddAll(s, xs + ys)
    decreases |xs|
  {
    if |xs| > 0 {
      assert (xs + ys)[1..] == xs[1..] + ys;
      AddAllConcat(if xs[0] in s then s else s + [xs[0]], xs[1..], ys);
    } else {
      assert xs + ys == ys;
    }
  }

  /** `annotations(set)`: adds to the annotations already present. */
  function AddAnnotations(t: TypeInfo, anns: seq<AnnotationInfo>): TypeInfo {
    t.(annotations := AddAll(t.annotations, anns))
  }

  /** Adding annotations keeps the class, properties and constructor, keeps the annotations
      already present in front, and leaves exactly the old and the new ones. */
  lemma AddAnnotationsKeeps(t: TypeInfo, anns: seq<AnnotationInfo>)
    ensures var r := AddAnnotations(t, anns);
      && r.typeClass == t.typeClass && r.properties == t.properties
      && r.persistenceConstructor == t.persistenceConstructor
      && t.annotations <= r.annotations
      && forall a :: a in r.annotations <==> a in t.annotations || a in anns
  {
  }

  /** `setConstructor(ctor)`. */
  function SetConstructor(t: TypeInfo, ci: ConstructorInfo): TypeInfo {
    t.(persistenceConstructor := Some(ci))
  }

  /** `addProperty(p)`: every property object is distinct, so it is appended. */
  function AddProperty(t: TypeInfo, p: PropertyInfo): TypeInfo {
    t.(properties := t.properties + [p])
  }

  /** `getTypeName()` (the class's binary name). */
  function TypeInfoName(t: TypeInfo): string {
    Name(t.typeClass)
  }

  /** `getConstructorArgs()`. */
  function ConstructorArgs(preferred: Option<seq<ParameterInfo>>): seq<ParameterInfo> {
    if preferred.Some? then preferred.value else []
  }

  /** `setConstructor` replaces the constructor slot, the last call winning, and touches
      nothing else. */
  lemma SetConstructorReplaces(t: TypeInfo, a: ConstructorInfo, b: ConstructorInfo)
    ensures SetConstructor(t, a).persistenceConstructor == Some(a)
    ensures SetConstructor(SetConstructor(t, a), b) == SetConstructor(t, b)
    ensures var r := SetConstructor(t, a);
      r.typeClass == t.typeClass && r.annotations == t.annotations && r.properties == t.properties
  {
  }

  /** `addProperty` puts the property last, so iteration follows insertion order. */
  lemma AddPropertyAppends(t: TypeInfo, p: PropertyInfo)
    ensures var r := AddProperty(t, p);
      && |r.properties| == |t.properties| + 1 && r.properties[..|t.properties|] == t.properties
      && r.properties[|t.properties|] == p
      && r.typeClass == t.typeClass && r.annotations == t.annotations
      && r.persistenceConstructor == t.persistenceConstructor
  {
  }

  /** The constructor arguments a type reports are the parameters its constructor model
      records: none when no preferred constructor exists. */
  lemma ConstructorArgsAgree(c: JClass, preferred: Option<seq<ParameterInfo>>)
    ensures ConstructorArgs(preferred) == NewConstructorInfo(c, preferred).parameters
    ensures preferred.None? ==> ConstructorArgs(preferred) == []
  {
  }

  /** `DomainTypes`: the registered type models in insertion order. */
  type DomainTypes = seq<TypeInfo>

  /** `DomainTypes.empty()` / `new DomainTypes()`. */
  const EmptyDomainTypes: DomainTypes := []

  /** `getDomainTypeModelForClass(c)`: the first registered model whose class is `c`. */
  function Lookup(d: DomainTypes, c: JClass): (r: Option<TypeInfo>)
    ensures r.Some? <==> exists i :: 0 <= i < |d| && d[i].typeClass == c
    ensures r.Some? ==> r.value.typeClass == c && r.value in d
    ensures r.Some? ==> exists i :: 0 <= i < |d| && d[i] == r.value && forall j :: 0 <= j < i ==> d[j].typeClass != c
    decreases |d|
  {
    if |d| == 0 then None
    else if d[0].typeClass == c then Some(d[0])
    else
      var r := Lookup(d[1..], c);
      if r.Some? then
        assert forall i :: 0 <= i < |d| - 1 ==> d[1..][i] == d[i + 1];
        r
      else r
  }

  /** Each class has at most one type model. */
  predicate Distinct(reg: DomainTypes) {
    forall i, j :: 0 <= i < j < |reg| ==> reg[i].typeClass != reg[j].typeClass
  }

  /** `containsDomainTypeModelForClass(c)`; a null class is never contained. */
  predicate Contains(d: DomainTypes, c: Option<JClass>) {
    c.Some? && Lookup(d, c.value).Some?
  }

  /** The default registry finds nothing. */
  lemma EmptyRegistryHoldsNothing(c: JClass)
    ensures Lookup(EmptyDomainTypes, c) == None && !Contains(EmptyDomainTypes, Some(c))
  {
  }

  /** The classes registered in `d`. */
  function Classes(d: DomainTypes): set<JClass> {
    set i | 0 <= i < |d| :: d[i].typeClass
  }

  /** Membership is exactly registration of the class. */
  lemma ContainsIffRegistered(d: DomainTypes, c: JClass)
    ensures Contains(d, Some(c)) <==> c in Classes(d)
  {
    if c in Classes(d) {
      var i :| 0 <= i < |d| && d[i].typeClass == c;
    }
  }

  /** Registering more types never loses one. */
  lemma ContainsMonotone(d: DomainTypes, more: DomainTypes, c: JClass)
    requires Contains(d, Some(c))
    ensures Contains(d + more, Some(c))
  {
    var i :| 0 <= i < |d| && d[i].typeClass == c;
    assert (d + more)[i].typeClass == c;
  }

  /** A subset is no larger than its superset. */
  lemma {:induction false} SubsetCard<T>(a: set<T>, b: set<T>)
    requires a <= b
    ensures |a| <= |b|
    decreases |a|
  {
    if a != {} {
      var x :| x in a;
      SubsetCard(a - {x}, b - {x});
    }
  }
}
