/** `DataModelGenerator`: builds the type model of every domain type reachable from a set of
    root classes. A type model is registered before its properties are computed, so a
    property that refers back to a type under construction finds it and the walk ends even
    on cyclic types. Reflection is an input: a finite `Universe` maps each class to what
    `BeanUtils`, `ReflectionUtils` and `PreferredConstructorDiscoverer` report about it. */
module Generator {
  import opened Wrappers
  import opened JavaTypes
  import opened Annotations
  import opened Properties
  import opened Registry

  // ---------------------------------------------------------------------------------
  // The generator's notion of a simple property

  /** The generator's `isSimpleType`: a simple value type, or `String`. */
  predicate IsSimpleTI(t: RType) {
    var c := TIType(t);
    JavaTypes.IsSimpleValueType(c) || c == StringClass
  }

  // ---------------------------------------------------------------------------------
  // What reflection reports

  /** A bean property: its name, its accessor methods by name, and its backing field. */
  datatype PropertyFacts = PropertyFacts(
    name: string,
    getter: Option<string>,
    setter: Option<string>,
    wither: Option<string>,
    field: Option<FieldRef>)

  /** A class: its bean properties in descriptor order, the parameters of its preferred
      constructor (if one is found) and its annotations. */
  datatype ClassFacts = ClassFacts(
    properties: seq<PropertyFacts>,
    preferred: Option<seq<ParameterInfo>>,
    annotations: seq<AnnotationInfo>)

  type Universe = map<JClass, ClassFacts>

  /** `isTransientProperty`: the `class` pseudo-property, or a property with neither an
      accessor (getter or setter) nor a wither. */
  predicate IsTransient(f: PropertyFacts) {
    f.name == "class" || (f.getter.None? && f.setter.None? && f.wither.None?)
  }

  /** `property.getType()`. */
  function PropertyType(f: PropertyFacts): JClass {
    if f.field.Some? then TIType(f.field.value.declared) else ObjectClass
  }

  // ---------------------------------------------------------------------------------
  // Classification

  /** A list or map slot: a simple class is stored as is, anything else through the type
      model built for it. */
  datatype Slot = SimpleSlot(cls: JClass) | ModelSlot(cls: JClass)

  function SlotOf(t: RType): (s: Slot)
    ensures s.cls == TIType(t)
    ensures s.SimpleSlot? <==> IsSimpleTI(t)
  {
    if IsSimpleTI(t) then SimpleSlot(TIType(t)) else ModelSlot(TIType(t))
  }

  function ElementOf(s: Slot): (e: Element)
    ensures e.ClassElement? <==> s.SimpleSlot?
  {
    if s.SimpleSlot? then ClassElement(s.cls) else InfoElement(s.cls)
  }

  /** The branch `addPropertyModel` takes for a property of declared type `t`. */
  datatype Decision = AsSimple | AsMap(key: Slot, value: Slot) | AsList(value: Slot) | AsDomain(cls: JClass)

  function Decide(t: RType): Decision {
    if IsSimpleTI(t) then AsSimple
    else if IsMapTI(t) then AsMap(SlotOf(ComponentTI(t)), SlotOf(MapValueTI(t)))
    else if IsCollectionLikeTI(t) then AsList(SlotOf(ActualTI(ActualTI(t))))
    else AsDomain(TIType(t))
  }

  function ModelClasses(s: Slot): set<JClass> {
    if s.ModelSlot? then {s.cls} else {}
  }

  /** The classes whose type models a decision needs. */
  function Targets(d: Decision): set<JClass> {
    match d
    case AsSimple => {}
    case AsMap(k, v) => ModelClasses(k) + ModelClasses(v)
    case AsList(v) => ModelClasses(v)
    case AsDomain(c) => {c}
  }

  /** The classes whose type models a property of a class will ask for. */
  function PropertyTargets(f: PropertyFacts): set<JClass> {
    if !IsTransient(f) && f.field.Some? then Targets(Decide(f.field.value.declared)) else {}
  }

  /** The universe holds every class the generator can reach from one of its classes. */
  predicate Closed(u: Universe) {
    forall c :: c in u ==> forall f :: f in u[c].properties ==> PropertyTargets(f) <= u.Keys
  }

  /** No kept property lacks a backing field (so no property construction fails). */
  predicate AllFieldBacked(u: Universe) {
    forall c :: c in u ==> forall f :: f in u[c].properties ==> IsTransient(f) || f.field.Some?
  }

  // ---------------------------------------------------------------------------------
  // The reference: the property and type models the generator is meant to produce

  /** The property after its branch of `addPropertyModel`. */
  function Shaped(p: PropertyInfo, d: Decision): PropertyInfo {
    match d
    case AsSimple => SimpleType(p)
    case AsMap(k, v) => MapOf(p, ElementOf(k), ElementOf(v))
    case AsList(v) => ListOf(p, ElementOf(v))
    case AsDomain(c) => DomainType(p, c)
  }

  /** `getter(...)`, `setter(...)`, `wither(...)`, each only when the method is present. */
  function WithAccessors(p: PropertyInfo, f: PropertyFacts): PropertyInfo {
    var g := if f.getter.Some? then WithGetter(p, f.getter.value) else p;
    var s := if f.setter.Some? then WithSetter(g, f.setter.value) else g;
    if f.wither.Some? then WithWither(s, f.wither.value) else s
  }

  /** The annotations and the field of a field-backed property. */
  function AttachField(p: PropertyInfo, f: PropertyFacts): PropertyInfo {
    if f.field.Some? then WithField(WithAnnotations(p, f.field.value.annotations), f.field.value) else p
  }

  /** Accessors, then annotations and field. */
  function Finish(p: PropertyInfo, f: PropertyFacts): PropertyInfo {
    AttachField(WithAccessors(p, f), f)
  }

  /** The property model for one kept property of `owner`. */
  function Expected(owner: JClass, f: PropertyFacts): Result<PropertyInfo> {
    var p :- NewPropertyInfo(owner, f.name, PropertyType(f), f.field);
    Success(Finish(Shaped(p, Decide(f.field.value.declared)), f))
  }

  /** The property models of `owner`, transient properties skipped, in descriptor order. */
  function ExpectedProperties(owner: JClass, fs: seq<PropertyFacts>): Result<seq<PropertyInfo>>
    decreases |fs|
  {
    if |fs| == 0 then Success([])
    else
      var init :- ExpectedProperties(owner, fs[..|fs| - 1]);
      var last := fs[|fs| - 1];
      if IsTransient(last) then Success(init)
      else
        var p :- Expected(owner, last);
        Success(init + [p])
  }

  /** The complete type model of `c`. */
  function ExpectedTypeInfo(u: Universe, c: JClass): Result<TypeInfo>
    requires c in u
  {
    var props :- ExpectedProperties(c, u[c].properties);
    Success(AddAnnotations(TypeInfo(c, [], props, Some(NewConstructorInfo(c, u[c].preferred))), u[c].annotations))
  }

  /** The classes whose type models a property model refers to. */
  function Refs(p: PropertyInfo): set<JClass> {
    match p.shape
    case Plain => {}
    case ListShape(_, vi) => if vi.Some? then {vi.value} else {}
    case MapShape(_, ki, _, vi) => (if ki.Some? then {ki.value} else {}) + (if vi.Some? then {vi.value} else {})
    case DomainShape(i) => if i.Some? then {i.value} else {}
  }

  // ---------------------------------------------------------------------------------
  // Laws of the reference

  /** The branch keeps the name, owner and field, adds no accessors, and sets the shape the
      decision names. */
  lemma ShapedKeeps(p: PropertyInfo, d: Decision)
    requires !HasAccessorMethods(p) && p.shape == Plain
    ensures var q := Shaped(p, d);
      && q.name == p.name && q.owner == p.owner && q.field == p.field && !HasAccessorMethods(q)
      && (q.shape.Plain? <==> d.AsSimple?) && (d.AsSimple? ==> q.isSimpleFlag)
      && (q.shape.MapShape? <==> d.AsMap?) && (q.shape.ListShape? <==> d.AsList?)
      && (q.shape.DomainShape? <==> d.AsDomain?)
      && Refs(q) == Targets(d)
  {
  }

  /** Only the accessors that are present are set, in the slots of their own kind. */
  lemma WithAccessorsSets(p: PropertyInfo, f: PropertyFacts)
    requires !HasAccessorMethods(p)
    ensures var q := WithAccessors(p, f);
      && q == p.(getter := f.getter, setter := f.setter, wither := f.wither)
  {
  }

  /** Finishing sets exactly the accessors that are present, then annotations and field of a
      field-backed property, and leaves everything else alone. */
  lemma FinishSets(p: PropertyInfo, f: PropertyFacts)
    requires !HasAccessorMethods(p)
    ensures var q := Finish(p, f);
      && q.name == p.name && q.owner == p.owner && q.shape == p.shape && q.isSimpleFlag == p.isSimpleFlag
      && q.getter == f.getter && q.setter == f.setter && q.wither == f.wither
      && (f.field.Some? ==> q.field == f.field && q.annotations == Some(f.field.value.annotations))
  {
    WithAccessorsSets(p, f);
  }

  /** `Expected` once the property record is constructed. */
  lemma ExpectedOf(owner: JClass, f: PropertyFacts, p: PropertyInfo)
    requires NewPropertyInfo(owner, f.name, PropertyType(f), f.field) == Success(p)
    ensures f.field.Some?
    ensures Expected(owner, f) == Success(Finish(Shaped(p, Decide(f.field.value.declared)), f))
  {
  }

  /** A kept property's model carries the property's name, owner and exactly its accessors,
      of which there is at least one; a field-backed one also carries the field and its
      annotations. Construction fails exactly when there is no field. */
  lemma ExpectedCarriesFacts(owner: JClass, f: PropertyFacts)
    requires !IsTransient(f)
    ensures Expected(owner, f).Success? <==> f.field.Some?
    ensures Expected(owner, f).Failure? ==> Expected(owner, f).error == IllegalArgument("Field must not be null")
    ensures Expected(owner, f).Success? ==>
      var p := Expected(owner, f).value;
      && p.name == f.name && p.owner == owner
      && p.getter == f.getter && p.setter == f.setter && p.wither == f.wither
      && HasAccessorMethods(p)
      && p.field == f.field && p.annotations == Some(f.field.value.annotations)
  {
    var n := NewPropertyInfo(owner, f.name, PropertyType(f), f.field);
    if n.Success? {
      ExpectedOf(owner, f, n.value);
      var d := Decide(f.field.value.declared);
      ShapedKeeps(n.value, d);
      FinishSets(Shaped(n.value, d), f);
    }
  }

  /** The first matching rule decides: a simple type stays plain and is marked simple;
      otherwise a map stores its key and value, each as a simple class or a type model;
      otherwise a collection stores its element (the actual type of the actual type);
      anything else refers to the type model of its own class. */
  lemma ExpectedClassification(owner: JClass, f: PropertyFacts)
    requires f.field.Some?
    ensures Expected(owner, f).Success?
    ensures
      var t := f.field.value.declared;
      var p := Expected(owner, f).value;
      && (p.shape.Plain? <==> IsSimpleTI(t))
      && (p.shape.Plain? ==> IsSimpleType(p))
      && (p.shape.MapShape? <==> !IsSimpleTI(t) && IsMapTI(t))
      && (p.shape.ListShape? <==> !IsSimpleTI(t) && !IsMapTI(t) && IsCollectionLikeTI(t))
      && (p.shape.DomainShape? <==> !IsSimpleTI(t) && !IsMapTI(t) && !IsCollectionLikeTI(t))
      && (p.shape.MapShape? ==>
            && MapKeyElement(p.shape) == Some(ElementOf(SlotOf(ComponentTI(t))))
            && MapValueElement(p.shape) == Some(ElementOf(SlotOf(MapValueTI(t)))))
      && (p.shape.ListShape? ==> ListElement(p.shape) == Some(ElementOf(SlotOf(ActualTI(ActualTI(t))))))
      && (p.shape.DomainShape? ==> p.shape == DomainShape(Some(TIType(t))))
  {
    var t := f.field.value.declared;
    var n := NewPropertyInfo(owner, f.name, PropertyType(f), f.field).value;
    ExpectedOf(owner, f, n);
    var d := Decide(t);
    ShapedKeeps(n, d);
    FinishSets(Shaped(n, d), f);
    match d
    case AsSimple =>
    case AsMap(k, v) => MapOfRoundTrip(n, ElementOf(k), ElementOf(v));
    case AsList(v) => ListOfRoundTrip(n, ElementOf(v));
    case AsDomain(_) =>
  }

  /** The type models a property refers to are exactly the ones its decision asked for. */
  lemma RefsAreTargets(owner: JClass, f: PropertyFacts)
    requires !IsTransient(f) && f.field.Some?
    ensures Expected(owner, f).Success?
    ensures Refs(Expected(owner, f).value) == PropertyTargets(f)
  {
    var n := NewPropertyInfo(owner, f.name, PropertyType(f), f.field).value;
    ExpectedOf(owner, f, n);
    var d := Decide(f.field.value.declared);
    ShapedKeeps(n, d);
    FinishSets(Shaped(n, d), f);
  }

  function Names(ps: seq<PropertyInfo>): seq<string> {
    seq(|ps|, i requires 0 <= i < |ps| => ps[i].name)
  }

  /** The names of the kept properties, in descriptor order. */
  function KeptNames(fs: seq<PropertyFacts>): seq<string>
    decreases |fs|
  {
    if |fs| == 0 then []
    else KeptNames(fs[..|fs| - 1]) + (if IsTransient(fs[|fs| - 1]) then [] else [fs[|fs| - 1].name])
  }

  /** A type model's properties are its kept bean properties, in descriptor order. */
  lemma {:induction false} ExpectedPropertyNames(owner: JClass, fs: seq<PropertyFacts>)
    requires ExpectedProperties(owner, fs).Success?
    ensures Names(ExpectedProperties(owner, fs).value) == KeptNames(fs)
    decreases |fs|
  {
    if |fs| > 0 {
      ExpectedPropertyNames(owner, fs[..|fs| - 1]);
      var last := fs[|fs| - 1];
      if !IsTransient(last) {
        ExpectedCarriesFacts(owner, last);
      }
    }
  }

  /** Property construction fails exactly when a kept property has no field. */
  lemma {:induction false} ExpectedPropertiesSucceed(owner: JClass, fs: seq<PropertyFacts>)
    ensures ExpectedProperties(owner, fs).Success? <==> forall f :: f in fs ==> IsTransient(f) || f.field.Some?
    decreases |fs|
  {
    if |fs| > 0 {
      var init := fs[..|fs| - 1];
      var last := fs[|fs| - 1];
      assert fs == init + [last];
      ExpectedPropertiesSucceed(owner, init);
      if !IsTransient(last) {
        ExpectedCarriesFacts(owner, last);
      }
    }
  }

  /** The complete model of a class: its class, its preferred constructor (the no-argument form
      when none is found), its annotations and its kept properties in order. */
  lemma ExpectedTypeInfoShape(u: Universe, c: JClass)
    requires c in u && ExpectedTypeInfo(u, c).Success?
    ensures
      var t := ExpectedTypeInfo(u, c).value;
      && t.typeClass == c
      && t.persistenceConstructor == Some(NewConstructorInfo(c, u[c].preferred))
      && (forall a :: a in t.annotations <==> a in u[c].annotations)
      && Names(t.properties) == KeptNames(u[c].properties)
  {
    ExpectedPropertyNames(c, u[c].properties);
  }

  // ---------------------------------------------------------------------------------
  // Registry invariants

  /** Every type model a property refers to is registered. */
  predicate RefsClosed(reg: DomainTypes) {
    forall i, k :: 0 <= i < |reg| && 0 <= k < |reg[i].properties| ==> Refs(reg[i].properties[k]) <= Classes(reg)
  }

  predicate Valid(u: Universe, reg: DomainTypes) {
    && Distinct(reg)
    && (forall i :: 0 <= i < |reg| ==> reg[i].typeClass in u)
    && RefsClosed(reg)
  }

  /** The models from position `from` on are finished: each is the reference model of its class. */
  predicate Complete(u: Universe, reg: DomainTypes, from: nat) {
    forall j :: from <= j < |reg| ==> reg[j].typeClass in u && ExpectedTypeInfo(u, reg[j].typeClass) == Success(reg[j])
  }

  predicate Grows(reg: DomainTypes, more: DomainTypes) {
    |reg| <= |more| && more[..|reg|] == reg
  }

  /** The classes of the universe that have no type model yet. */
  function Remaining(u: Universe, reg: DomainTypes): nat {
    |u.Keys - Classes(reg)|
  }

  lemma RemainingMono(u: Universe, reg: DomainTypes, more: DomainTypes)
    requires Classes(reg) <= Classes(more)
    ensures Remaining(u, more) <= Remaining(u, reg)
  {
    SubsetCard(u.Keys - Classes(more), u.Keys - Classes(reg));
  }

  lemma RemainingDrops(u: Universe, reg: DomainTypes, more: DomainTypes, c: JClass)
    requires c in u && c !in Classes(reg) && Classes(reg) + {c} <= Classes(more)
    ensures Remaining(u, more) < Remaining(u, reg)
  {
    var left := u.Keys - Classes(reg);
    assert c in left;
    SubsetCard(u.Keys - Classes(more), left - {c});
  }

  lemma ClassesGrow(reg: DomainTypes, more: DomainTypes)
    requires Grows(reg, more)
    ensures Classes(reg) <= Classes(more)
  {
    forall x | x in Classes(reg)
      ensures x in Classes(more)
    {
      var i :| 0 <= i < |reg| && reg[i].typeClass == x;
      assert more[i] == reg[i];
    }
  }

  lemma ClassesAppend(reg: DomainTypes, t: TypeInfo)
    ensures Classes(reg + [t]) == Classes(reg) + {t.typeClass}
  {
    var r := reg + [t];
    forall x | x in Classes(reg)
      ensures x in Classes(r)
    {
      var i :| 0 <= i < |reg| && reg[i].typeClass == x;
      assert r[i] == reg[i];
    }
    assert r[|reg|] == t;
  }

  lemma ClassesReplace(reg: DomainTypes, idx: nat, t: TypeInfo)
    requires idx < |reg| && t.typeClass == reg[idx].typeClass
    ensures Classes(reg[idx := t]) == Classes(reg)
  {
    var r := reg[idx := t];
    forall x | x in Classes(reg)
      ensures x in Classes(r)
    {
      var i :| 0 <= i < |reg| && reg[i].typeClass == x;
      assert r[i].typeClass == x;
    }
    forall x | x in Classes(r)
      ensures x in Classes(reg)
    {
      var i :| 0 <= i < |r| && r[i].typeClass == x;
      assert reg[i].typeClass == x;
    }
  }

  /** Replacing a model by one of the same class whose references are registered keeps the
      registry valid. */
  lemma ValidReplace(u: Universe, reg: DomainTypes, idx: nat, t: TypeInfo)
    requires Valid(u, reg) && idx < |reg| && t.typeClass == reg[idx].typeClass
    requires forall k :: 0 <= k < |t.properties| ==> Refs(t.properties[k]) <= Classes(reg)
    ensures Valid(u, reg[idx := t]) && Classes(reg[idx := t]) == Classes(reg)
  {
    ClassesReplace(reg, idx, t);
  }

  /** Registering a new, empty model keeps the registry valid. */
  lemma ValidAppend(u: Universe, reg: DomainTypes, t: TypeInfo)
    requires Valid(u, reg) && t.typeClass in u && t.typeClass !in Classes(reg) && t.properties == []
    ensures Valid(u, reg + [t]) && Classes(reg + [t]) == Classes(reg) + {t.typeClass}
  {
    ClassesAppend(reg, t);
    var r := reg + [t];
    forall i, j | 0 <= i < j < |r|
      ensures r[i].typeClass != r[j].typeClass
    {
      if j == |reg| {
        assert r[i].typeClass in Classes(reg);
      }
    }
  }

  lemma ValidGrows(u: Universe, reg: DomainTypes, mid: DomainTypes, more: DomainTypes, from: nat)
    requires Grows(reg, mid) && Grows(mid, more) && from <= |reg|
    requires Complete(u, mid, from) && Complete(u, more, |mid|)
    ensures Grows(reg, more) && Complete(u, more, from)
  {
    assert more[..|reg|] == more[..|mid|][..|reg|];
    forall j | from <= j < |mid|
      ensures more[j] == mid[j]
    {
      assert more[..|mid|][j] == more[j];
    }
  }

  // ---------------------------------------------------------------------------------
  // The generator

  /** `computeTypeModel(type)`: the existing model when the class is registered; otherwise a
      new model is registered first, then given its constructor, its property models and
      its annotations. Every model built along the way is finished when this returns. */
  method ComputeTypeModel(u: Universe, c: JClass, reg: DomainTypes) returns (r: Result<DomainTypes>)
    requires Closed(u) && c in u && Valid(u, reg)
    ensures r.Failure? ==> r.error == IllegalArgument("Field must not be null")
    ensures AllFieldBacked(u) ==> r.Success?
    ensures r.Success? ==> Valid(u, r.value) && Grows(reg, r.value) && c in Classes(r.value)
    ensures r.Success? ==> Complete(u, r.value, |reg|)
    ensures r.Success? && c in Classes(reg) ==> r.value == reg
    ensures r.Success? && c !in Classes(reg) ==> |reg| < |r.value| && r.value[|reg|].typeClass == c
    decreases Remaining(u, reg), 5
  {
    ContainsIffRegistered(reg, c);
    if Lookup(reg, c).Some? {
      return Success(reg);
    }
    // The model is registered, and then given its constructor, before any property is built.
    var idx := |reg|;
    var entry := SetConstructor(NewTypeInfo(c), NewConstructorInfo(c, u[c].preferred));
    var cur := reg + [entry];
    Register(u, reg, entry);
    var filled :- AddPropertyModels(u, c, idx, cur);
    var done := AddAnnotations(filled[idx], u[c].annotations);
    Seal(u, reg, cur, filled, done);
    r := Success(filled[idx := done]);
  }

  /** Registering the entry model of an unregistered class keeps the registry valid and
      leaves one class fewer to register. */
  lemma Register(u: Universe, reg: DomainTypes, entry: TypeInfo)
    requires Valid(u, reg) && entry.typeClass in u && entry.typeClass !in Classes(reg) && entry.properties == []
    ensures Valid(u, reg + [entry]) && Classes(reg + [entry]) == Classes(reg) + {entry.typeClass}
    ensures Remaining(u, reg + [entry]) < Remaining(u, reg)
  {
    ValidAppend(u, reg, entry);
    RemainingDrops(u, reg, reg + [entry], entry.typeClass);
  }

  /** Adding the annotations finishes the model at the end of `reg`. */
  lemma Seal(u: Universe, reg: DomainTypes, cur: DomainTypes, filled: DomainTypes, done: TypeInfo)
    requires |cur| == |reg| + 1 && cur[..|reg|] == reg
    requires var c := cur[|reg|].typeClass;
      && c in u
      && cur[|reg|] == SetConstructor(NewTypeInfo(c), NewConstructorInfo(c, u[c].preferred))
      && Valid(u, filled) && |cur| <= |filled| && Classes(cur) <= Classes(filled)
      && (forall j :: 0 <= j < |reg| ==> filled[j] == cur[j])
      && Complete(u, filled, |cur|)
      && ExpectedProperties(c, u[c].properties).Success?
      && filled[|reg|] == cur[|reg|].(properties := ExpectedProperties(c, u[c].properties).value)
      && done == AddAnnotations(filled[|reg|], u[c].annotations)
    ensures var c := cur[|reg|].typeClass;
      var r := filled[|reg| := done];
      && Valid(u, r) && Grows(reg, r) && c in Classes(r) && Complete(u, r, |reg|)
      && |reg| < |r| && r[|reg|].typeClass == c
  {
    var c := cur[|reg|].typeClass;
    var idx := |reg|;
    assert ExpectedTypeInfo(u, c) == Success(done);
    ValidReplace(u, filled, idx, done);
    var r := filled[idx := done];
    assert r[..idx] == reg by {
      assert forall j :: 0 <= j < idx ==> r[j] == cur[j];
    }
    assert r[idx].typeClass == c;
  }

  /** The loop of `computeAndAddPropertyModels` over the bean properties of the model at
      position `idx`: transient properties are skipped, the others are added in order. */
  method AddPropertyModels(u: Universe, c: JClass, idx: nat, cur: DomainTypes) returns (r: Result<DomainTypes>)
    requires Closed(u) && c in u && Valid(u, cur) && idx + 1 == |cur|
    requires cur[idx].typeClass == c && cur[idx].properties == []
    ensures r.Failure? ==> r.error == IllegalArgument("Field must not be null")
    ensures AllFieldBacked(u) ==> r.Success?
    ensures r.Success? ==> Valid(u, r.value) && |cur| <= |r.value| && Classes(cur) <= Classes(r.value)
    ensures r.Success? ==> forall j :: 0 <= j < idx ==> r.value[j] == cur[j]
    ensures r.Success? ==> Complete(u, r.value, |cur|)
    ensures r.Success? ==> ExpectedProperties(c, u[c].properties).Success?
    ensures r.Success? ==> r.value[idx] == cur[idx].(properties := ExpectedProperties(c, u[c].properties).value)
    decreases Remaining(u, cur) + 1, 4
  {
    var props := u[c].properties;
    var acc := cur;
    var i := 0;
    while i < |props|
      invariant 0 <= i <= |props|
      invariant Valid(u, acc) && |cur| <= |acc| && Classes(cur) <= Classes(acc)
      invariant forall j :: 0 <= j < idx ==> acc[j] == cur[j]
      invariant Complete(u, acc, |cur|)
      invariant ExpectedProperties(c, props[..i]).Success?
      invariant acc[idx] == cur[idx].(properties := ExpectedProperties(c, props[..i]).value)
    {
      var f := props[i];
      ExpectedPropertiesStep(c, props, i);
      if !IsTransient(f) {
        assert f in u[c].properties;
        RemainingMono(u, cur, acc);
        var next :- AddPropertyModel(u, c, idx, f, acc);
        Advance(u, idx, cur, acc, next);
        acc := next;
      }
      i := i + 1;
    }
    assert props[..|props|] == props;
    return Success(acc);
  }

  /** The reference models of a growing prefix of the properties. */
  lemma ExpectedPropertiesStep(owner: JClass, fs: seq<PropertyFacts>, i: nat)
    requires i < |fs| && ExpectedProperties(owner, fs[..i]).Success?
    ensures IsTransient(fs[i]) ==> ExpectedProperties(owner, fs[..i + 1]) == ExpectedProperties(owner, fs[..i])
    ensures !IsTransient(fs[i]) && Expected(owner, fs[i]).Success? ==>
      ExpectedProperties(owner, fs[..i + 1]) == Success(ExpectedProperties(owner, fs[..i]).value + [Expected(owner, fs[i]).value])
  {
    assert fs[..i + 1][..i] == fs[..i];
  }

  /** The loop's frame: models before the owner are untouched and models after it finished. */
  lemma Advance(u: Universe, idx: nat, cur: DomainTypes, acc: DomainTypes, next: DomainTypes)
    requires idx + 1 == |cur| && |cur| <= |acc| && Classes(cur) <= Classes(acc) && Complete(u, acc, |cur|)
    requires forall j :: 0 <= j < idx ==> acc[j] == cur[j]
    requires |acc| <= |next| && Classes(acc) <= Classes(next) && Complete(u, next, |acc|)
    requires forall j :: 0 <= j < |acc| && j != idx ==> next[j] == acc[j]
    ensures |cur| <= |next| && Classes(cur) <= Classes(next) && Complete(u, next, |cur|)
    ensures forall j :: 0 <= j < idx ==> next[j] == cur[j]
  {
  }

  /** `addPropertyModel(owner, ...)` for a kept property of the model at position `idx`:
      builds the property model, computing the type models it refers to first, and appends
      it to the owner's properties. Models built along the way are finished. */
  method AddPropertyModel(u: Universe, c: JClass, idx: nat, f: PropertyFacts, cur: DomainTypes) returns (r: Result<DomainTypes>)
    requires Closed(u) && !IsTransient(f) && PropertyTargets(f) <= u.Keys
    requires Valid(u, cur) && idx < |cur| && cur[idx].typeClass == c
    ensures r.Failure? ==> r.error == IllegalArgument("Field must not be null")
    ensures f.field.Some? && AllFieldBacked(u) ==> r.Success?
    ensures r.Success? ==> Valid(u, r.value) && |cur| <= |r.value| && Classes(cur) <= Classes(r.value)
    ensures r.Success? ==> forall j :: 0 <= j < |cur| && j != idx ==> r.value[j] == cur[j]
    ensures r.Success? ==> Complete(u, r.value, |cur|)
    ensures r.Success? ==> Expected(c, f).Success? && r.value[idx] == AddProperty(cur[idx], Expected(c, f).value)
    decreases Remaining(u, cur) + 1, 3
  {
    var p :- NewPropertyInfo(c, f.name, PropertyType(f), f.field);
    var d := Decide(f.field.value.declared);
    var mid :- EnsureTargets(u, d, cur);
    ExpectedOf(c, f, p);
    RefsAreTargets(c, f);
    var q := Finish(Shaped(p, d), f);
    Attach(u, idx, cur, mid, q);
    r := Success(mid[idx := AddProperty(mid[idx], q)]);
  }

  /** The `computeTypeModel` calls of `addPropertyModel` for the classes a property's
      decision refers to: the map's key and value, the list's element, or the domain type. */
  method EnsureTargets(u: Universe, d: Decision, cur: DomainTypes) returns (r: Result<DomainTypes>)
    requires Closed(u) && Valid(u, cur) && Targets(d) <= u.Keys
    ensures r.Failure? ==> r.error == IllegalArgument("Field must not be null")
    ensures AllFieldBacked(u) ==> r.Success?
    ensures r.Success? ==> Valid(u, r.value) && Grows(cur, r.value) && Complete(u, r.value, |cur|)
    ensures r.Success? ==> Targets(d) <= Classes(r.value)
    decreases Remaining(u, cur) + 1, 2
  {
    match d {
      case AsSimple =>
        return Success(cur);
      case AsMap(k, v) =>
        var mid :- EnsureSlot(u, k, cur, cur);
        RemainingMono(u, cur, mid);
        r := EnsureSlot(u, v, cur, mid);
      case AsList(v) =>
        r := EnsureSlot(u, v, cur, cur);
      case AsDomain(x) =>
        r := EnsureModel(u, x, cur, cur);
    }
  }

  /** One slot of a map or list property: a model slot has its class's model computed. */
  method EnsureSlot(u: Universe, s: Slot, cur: DomainTypes, mid: DomainTypes) returns (r: Result<DomainTypes>)
    requires Closed(u) && ModelClasses(s) <= u.Keys && Valid(u, mid) && Grows(cur, mid) && Complete(u, mid, |cur|)
    ensures r.Failure? ==> r.error == IllegalArgument("Field must not be null")
    ensures AllFieldBacked(u) ==> r.Success?
    ensures r.Success? ==> Valid(u, r.value) && Grows(cur, r.value) && Complete(u, r.value, |cur|)
    ensures r.Success? ==> Classes(mid) <= Classes(r.value) && ModelClasses(s) <= Classes(r.value)
    decreases Remaining(u, mid) + 1, 1
  {
    if s.ModelSlot? {
      r := EnsureModel(u, s.cls, cur, mid);
    } else {
      r := Success(mid);
    }
  }

  /** Appending a property model whose references are registered to a model of `cur`, after
      the registry has grown to `mid`. */
  lemma Attach(u: Universe, idx: nat, cur: DomainTypes, mid: DomainTypes, q: PropertyInfo)
    requires Valid(u, mid) && Grows(cur, mid) && Complete(u, mid, |cur|) && idx < |cur|
    requires Refs(q) <= Classes(mid)
    ensures var r := mid[idx := AddProperty(mid[idx], q)];
      && Valid(u, r) && |cur| <= |r| && Classes(cur) <= Classes(r)
      && (forall j :: 0 <= j < |cur| && j != idx ==> r[j] == cur[j])
      && Complete(u, r, |cur|)
      && r[idx] == AddProperty(cur[idx], q)
  {
    ClassesGrow(cur, mid);
    assert mid[idx] == mid[..|cur|][idx];
    ValidReplace(u, mid, idx, AddProperty(mid[idx], q));
    var r := mid[idx := AddProperty(mid[idx], q)];
    assert forall j :: 0 <= j < |cur| && j != idx ==> r[j] == mid[..|cur|][j];
  }

  /** `computeTypeModel` for a class a property refers to, while the registry has grown from
      `cur` to `mid`: afterwards the class has a model and the growth continues. */
  method EnsureModel(u: Universe, x: JClass, cur: DomainTypes, mid: DomainTypes) returns (r: Result<DomainTypes>)
    requires Closed(u) && x in u && Valid(u, mid) && Grows(cur, mid) && Complete(u, mid, |cur|)
    ensures r.Failure? ==> r.error == IllegalArgument("Field must not be null")
    ensures AllFieldBacked(u) ==> r.Success?
    ensures r.Success? ==> Valid(u, r.value) && Grows(cur, r.value) && Complete(u, r.value, |cur|)
    ensures r.Success? ==> Classes(mid) <= Classes(r.value) && x in Classes(r.value)
    decreases Remaining(u, mid) + 1, 0
  {
    var more :- ComputeTypeModel(u, x, mid);
    ClassesGrow(mid, more);
    ValidGrows(u, cur, mid, more, |cur|);
    return Success(more);
  }

  /** `process()`: computes the model of every root in order and returns all models built, in
      the order they were first created. Every model is the finished reference model of its
      class, each class has one model, and every model a property refers to is present. */
  method Process(u: Universe, roots: seq<JClass>) returns (r: Result<DomainTypes>)
    requires Closed(u) && forall i :: 0 <= i < |roots| ==> roots[i] in u
    ensures r.Failure? ==> r.error == IllegalArgument("Field must not be null")
    ensures AllFieldBacked(u) ==> r.Success?
    ensures r.Success? ==> Valid(u, r.value) && Complete(u, r.value, 0)
    ensures r.Success? ==> forall i :: 0 <= i < |roots| ==> roots[i] in Classes(r.value)
    ensures r.Success? && |roots| > 0 ==> |r.value| > 0 && r.value[0].typeClass == roots[0]
  {
    var reg: DomainTypes := EmptyDomainTypes;
    var i := 0;
    while i < |roots|
      invariant 0 <= i <= |roots|
      invariant Valid(u, reg) && Complete(u, reg, 0)
      invariant forall k :: 0 <= k < i ==> roots[k] in Classes(reg)
      invariant i > 0 ==> |reg| > 0 && reg[0].typeClass == roots[0]
      invariant i == 0 ==> reg == []
    {
      if i == 0 {
        assert Classes(reg) == {};
      }
      var next := ComputeTypeModel(u, roots[i], reg);
      if next.Failure? {
        return Failure(next.error);
      }
      ClassesGrow(reg, next.value);
      assert forall j :: 0 <= j < |reg| ==> next.value[j] == reg[j] by {
        assert forall j :: 0 <= j < |reg| ==> next.value[..|reg|][j] == next.value[j];
      }
      reg := next.value;
      i := i + 1;
    }
    return Success(reg);
  }
}
