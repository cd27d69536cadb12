/** The property model: one record for a persistent property of a domain type, shared by the
    three revisions of the code (`PropertyModel`, the first `PropertyInfo`, and the
    `PropertyInfo` of the model package). The subclasses for list, map and domain-typed
    properties are the `Shape` of the record. */
module Properties {
  import opened Wrappers
  import opened JavaTypes
  import opened Annotations

  /** A field found by `ReflectionUtils.findField(owner, name)`: its name, declared generic
      type and annotations. */
  datatype FieldRef = FieldRef(name: string, declared: RType, annotations: seq<AnnotationInfo>)

  /** Which constructor built the record: both `PropertyInfo` revisions look the field up and
      derive the flags from the declared class; `PropertyModel` leaves them all false. */
  datatype Revision = InfoRevision | ModelRevision

  /** A list or map slot as the generator fills it: a plain class, or the registered type
      model of a domain class (identified by that class). */
  datatype Element = ClassElement(cls: JClass) | InfoElement(info: JClass)

  /** The subclass of the record. Each `...Info` slot names the class of a registered type
      model; each `...Type` slot is a plain class. */
  datatype Shape =
    | Plain
    | ListShape(valueType: Option<JClass>, valueInfo: Option<JClass>)
    | MapShape(keyType: Option<JClass>, keyInfo: Option<JClass>, valueType: Option<JClass>, valueInfo: Option<JClass>)
    | DomainShape(info: Option<JClass>)

  /** Getter, setter and wither are kept by method name; `annotations` is null until set. */
  datatype PropertyInfo = PropertyInfo(
    revision: Revision,
    owner: JClass,
    name: string,
    propertyType: JClass,
    field: Option<FieldRef>,
    annotations: Option<seq<AnnotationInfo>>,
    getter: Option<string>,
    setter: Option<string>,
    wither: Option<string>,
    isSimpleFlag: bool,
    isListFlag: bool,
    isMapFlag: bool,
    shape: Shape)

  /** The record a constructor produces: no accessors, no annotations, flags by revision. */
  function Fresh(rev: Revision, owner: JClass, name: string, t: JClass, field: Option<FieldRef>, shape: Shape): PropertyInfo {
    var derive := rev == InfoRevision;
    PropertyInfo(rev, owner, name, t, field, None, None, None, None,
                 derive && IsKnownSimple(t), derive && IsListClass(t), derive && IsMapClass(t), shape)
  }

  /** `new PropertyInfo(owner, name, type)`: the field is looked up on the owner (`field` is
      the lookup's outcome) and handed to `TypeSignature.fromField`, which rejects null. */
  function NewPropertyInfo(owner: JClass, name: string, t: JClass, field: Option<FieldRef>): (r: Result<PropertyInfo>)
    ensures r.Success? <==> field.Some?
    ensures r.Failure? ==> r.error.IllegalArgument?
    ensures r.Success? ==> r.value.owner == owner && r.value.name == name && r.value.propertyType == t
    ensures r.Success? ==> r.value.shape == Plain && !HasAccessorMethods(r.value) && r.value.annotations.None?
    ensures r.Success? ==> (r.value.isListFlag <==> IsListClass(t)) && (r.value.isMapFlag <==> IsMapClass(t))
  {
    if field.None? then Failure(IllegalArgument("Field must not be null"))
    else Success(Fresh(InfoRevision, owner, name, t, field, Plain))
  }

  /** `new PropertyModel(owner, name, type)`: only the three values are recorded. */
  function NewPropertyModel(owner: JClass, name: string, t: JClass): (r: PropertyInfo)
    ensures r.owner == owner && r.name == name && r.propertyType == t && r.shape == Plain
    ensures !r.isSimpleFlag && !r.isListFlag && !r.isMapFlag
  {
    Fresh(ModelRevision, owner, name, t, None, Plain)
  }

  /** The copy constructor of a subclass (`new ListPropertyInfo(this)` and the others): it calls
      the three-argument constructor again, so flags are recomputed and accessors,
      annotations and an earlier `simpleType()` mark are not carried over. */
  function Specialise(p: PropertyInfo, shape: Shape): (r: PropertyInfo)
    ensures r.revision == p.revision && r.owner == p.owner && r.name == p.name
    ensures r.propertyType == p.propertyType && r.field == p.field && r.shape == shape
    ensures !HasAccessorMethods(r) && r.annotations.None?
  {
    Fresh(p.revision, p.owner, p.name, p.propertyType, p.field, shape)
  }

  /** `simpleType()`: marks the property simple. */
  function SimpleType(p: PropertyInfo): (r: PropertyInfo)
    ensures r.isSimpleFlag && r == p.(isSimpleFlag := true)
  {
    p.(isSimpleFlag := true)
  }

  function WithGetter(p: PropertyInfo, m: string): PropertyInfo { p.(getter := Some(m)) }
  function WithSetter(p: PropertyInfo, m: string): PropertyInfo { p.(setter := Some(m)) }
  function WithWither(p: PropertyInfo, m: string): PropertyInfo { p.(wither := Some(m)) }

  /** `annotations(set)` replaces whatever was there. */
  function WithAnnotations(p: PropertyInfo, anns: seq<AnnotationInfo>): PropertyInfo { p.(annotations := Some(anns)) }

  /** `setField(field)`. */
  function WithField(p: PropertyInfo, f: FieldRef): PropertyInfo { p.(field := Some(f)) }

  predicate HasAccessorMethods(p: PropertyInfo) {
    p.getter.Some? || p.setter.Some? || p.wither.Some?
  }

  /** Each fluent accessor setter fills its own slot only, and afterwards the property has
      accessor methods. */
  lemma AccessorSettersKeep(p: PropertyInfo, m: string)
    ensures var g := WithGetter(p, m);
      g.getter == Some(m) && g.setter == p.setter && g.wither == p.wither && HasAccessorMethods(g)
    ensures var s := WithSetter(p, m);
      s.setter == Some(m) && s.getter == p.getter && s.wither == p.wither && HasAccessorMethods(s)
    ensures var w := WithWither(p, m);
      w.wither == Some(m) && w.getter == p.getter && w.setter == p.setter && HasAccessorMethods(w)
    ensures forall q :: q in [WithGetter(p, m), WithSetter(p, m), WithWither(p, m)] ==>
      q.owner == p.owner && q.name == p.name && q.shape == p.shape && q.annotations == p.annotations
  {
  }

  // ---------------------------------------------------------------------------------
  // List properties

  /** `ListPropertyInfo.listValueType(Class)` / `listValueType(TypeInfo)`; the second also
      records the type model's class as the value type. */
  function ListValue(s: Shape, e: Element): Shape
    requires s.ListShape?
  {
    match e
    case ClassElement(c) => ListShape(Some(c), s.valueInfo)
    case InfoElement(i) => ListShape(Some(i), Some(i))
  }

  /** `listOf(Class)` / `listOf(TypeInfo)`. */
  function ListOf(p: PropertyInfo, e: Element): (r: PropertyInfo)
    ensures r.shape.ListShape?
  {
    var q := Specialise(p, ListShape(None, None));
    q.(shape := ListValue(q.shape, e))
  }

  /** What a list shape holds, read the way `isSimpleValueType()` does: a type model if one
      is set, otherwise the plain value class. */
  function ListElement(s: Shape): Option<Element>
    requires s.ListShape?
  {
    if s.valueInfo.Some? then Some(InfoElement(s.valueInfo.value))
    else if s.valueType.Some? then Some(ClassElement(s.valueType.value))
    else None
  }

  /** `ListPropertyInfo.isSimpleValueType()`. */
  predicate IsSimpleValueType(s: Shape)
    requires s.ListShape?
  {
    s.valueInfo.None?
  }

  /** `listOf` stores exactly the element it was given, and the value is simple exactly when
      it is a plain class. */
  lemma ListOfRoundTrip(p: PropertyInfo, e: Element)
    ensures ListElement(ListOf(p, e).shape) == Some(e)
    ensures IsSimpleValueType(ListOf(p, e).shape) <==> e.ClassElement?
  {
  }

  // ---------------------------------------------------------------------------------
  // Map properties

  /** `mapKeyType(Class)` / `mapKeyType(TypeInfo)` as intended: the key slots. */
  function MapKey(s: Shape, e: Element): Shape
    requires s.MapShape?
  {
    match e
    case ClassElement(c) => MapShape(Some(c), s.keyInfo, s.valueType, s.valueInfo)
    case InfoElement(i) => MapShape(Some(i), Some(i), s.valueType, s.valueInfo)
  }

  /** `mapKeyType(...)` as written in all three revisions: the `TypeInfo` overload assigns the
      VALUE slots. */
  function MapKeyAsWritten(s: Shape, e: Element): Shape
    requires s.MapShape?
  {
    match e
    case ClassElement(c) => MapShape(Some(c), s.keyInfo, s.valueType, s.valueInfo)
    case InfoElement(i) => MapShape(s.keyType, s.keyInfo, Some(i), Some(i))
  }

  /** `mapValueType(Class)` / `mapValueType(TypeInfo)`. */
  function MapValue(s: Shape, e: Element): Shape
    requires s.MapShape?
  {
    match e
    case ClassElement(c) => MapShape(s.keyType, s.keyInfo, Some(c), s.valueInfo)
    case InfoElement(i) => MapShape(s.keyType, s.keyInfo, Some(i), Some(i))
  }

  const EmptyMap: Shape := MapShape(None, None, None, None)

  /** The four `mapOf` overloads with the key setter corrected. */
  function MapOf(p: PropertyInfo, key: Element, value: Element): (r: PropertyInfo)
    ensures r.shape.MapShape?
  {
    var q := Specialise(p, EmptyMap);
    q.(shape := MapValue(MapKey(q.shape, key), value))
  }

  /** The four `mapOf` overloads as written. */
  function MapOfAsWritten(p: PropertyInfo, key: Element, value: Element): (r: PropertyInfo)
    ensures r.shape.MapShape?
  {
    var q := Specialise(p, EmptyMap);
    q.(shape := MapValue(MapKeyAsWritten(q.shape, key), value))
  }

  /** The key a map shape holds, type model first. */
  function MapKeyElement(s: Shape): Option<Element>
    requires s.MapShape?
  {
    if s.keyInfo.Some? then Some(InfoElement(s.keyInfo.value))
    else if s.keyType.Some? then Some(ClassElement(s.keyType.value))
    else None
  }

  /** The value a map shape holds, type model first. */
  function MapValueElement(s: Shape): Option<Element>
    requires s.MapShape?
  {
    if s.valueInfo.Some? then Some(InfoElement(s.valueInfo.value))
    else if s.valueType.Some? then Some(ClassElement(s.valueType.value))
    else None
  }

  /** With the corrected key setter, `mapOf(key, value)` stores exactly its two arguments, for
      all four overloads. */
  lemma MapOfRoundTrip(p: PropertyInfo, key: Element, value: Element)
    ensures MapKeyElement(MapOf(p, key, value).shape) == Some(key)
    ensures MapValueElement(MapOf(p, key, value).shape) == Some(value)
  {
  }

  /** As written, a domain-typed key is lost: no key is recorded, and when the value is a plain
      class the key's type model is left in the value slot. */
  lemma MapOfAsWrittenLosesKey(p: PropertyInfo, key: JClass, value: Element)
    ensures MapKeyElement(MapOfAsWritten(p, InfoElement(key), value).shape) == None
    ensures value.ClassElement? ==>
      MapValueElement(MapOfAsWritten(p, InfoElement(key), value).shape) == Some(InfoElement(key))
  {
  }

  /** The two definitions agree exactly when the key is a plain class. */
  lemma MapOfAsWrittenAgreesOnClassKeys(p: PropertyInfo, key: Element, value: Element)
    ensures MapOfAsWritten(p, key, value) == MapOf(p, key, value) <==> key.ClassElement?
  {
    if key.InfoElement? {
      assert MapKeyElement(MapOf(p, key, value).shape) == Some(key);
      assert MapKeyElement(MapOfAsWritten(p, key, value).shape) == None;
    }
  }

  // ---------------------------------------------------------------------------------
  // Domain-typed properties

  /** `domainType(typeInfo)`. */
  function DomainType(p: PropertyInfo, info: JClass): (r: PropertyInfo)
    ensures r.shape == DomainShape(Some(info))
  {
    Specialise(p, DomainShape(Some(info)))
  }

  // ---------------------------------------------------------------------------------
  // The classification queries of the two older revisions, with the subclass overrides.

  predicate IsSimpleType(p: PropertyInfo) {
    match p.shape
    case Plain => p.isSimpleFlag
    case ListShape(_, _) => p.isSimpleFlag
    case MapShape(_, _, _, _) => false
    case DomainShape(_) => false
  }

  predicate IsListType(p: PropertyInfo) {
    match p.shape
    case Plain => p.isListFlag
    case ListShape(_, _) => true
    case MapShape(_, _, _, _) => false
    case DomainShape(_) => false
  }

  predicate IsMapType(p: PropertyInfo) {
    match p.shape
    case Plain => p.isMapFlag
    case ListShape(_, _) => p.isMapFlag
    case MapShape(_, _, _, _) => true
    case DomainShape(_) => false
  }

  /** `getMapKeyType()` of the older revisions: the plain key class only. */
  function MapKeyClass(p: PropertyInfo): Option<JClass>
    requires p.shape.MapShape?
  {
    p.shape.keyType
  }

  /** `getMapValueType()` of the older revisions. */
  function MapValueClass(p: PropertyInfo): Option<JClass>
    requires p.shape.MapShape?
  {
    p.shape.valueType
  }

  /** A map or domain-typed property answers its kind by subclass, whatever class it was
      declared with; a list property reports being a list and, for a class that is not itself
      a map, nothing else. */
  lemma SpecialisedQueries(p: PropertyInfo, e: Element, k: Element, v: Element, info: JClass)
    requires !IsMapClass(p.propertyType) && !IsKnownSimple(p.propertyType)
    ensures var l := ListOf(p, e); IsListType(l) && !IsMapType(l) && !IsSimpleType(l)
    ensures var m := MapOf(p, k, v); IsMapType(m) && !IsListType(m) && !IsSimpleType(m)
    ensures var d := DomainType(p, info); !IsMapType(d) && !IsListType(d) && !IsSimpleType(d)
  {
  }

  /** After `simpleType()`, turning the property into a list drops the mark again: the copy
      constructor recomputes the flag from the declared class. */
  lemma SimpleMarkNotCopied(p: PropertyInfo, e: Element)
    requires p.revision == InfoRevision
    ensures ListOf(SimpleType(p), e).isSimpleFlag == IsKnownSimple(p.propertyType)
  {
  }

  /** `listOf`, `mapOf` and `domainType` each return a new record of the subclass with the
      owner, name, declared class and field of the original, but none of its accessors or
      annotations. */
  lemma SpecialisedCopies(p: PropertyInfo, e: Element, k: Element, v: Element, info: JClass)
    requires HasAccessorMethods(p)
    ensures forall q :: q in [ListOf(p, e), MapOf(p, k, v), DomainType(p, info)] ==>
      && q.owner == p.owner && q.name == p.name && q.propertyType == p.propertyType && q.field == p.field
      && !HasAccessorMethods(q) && q.annotations.None? && q != p
  {
  }
}
