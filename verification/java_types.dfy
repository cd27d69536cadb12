/** The slice of the Java type system the processor inspects through reflection:
    classes (`java.lang.Class`) with their four kinds of name, primitive boxing, and
    Spring's `ResolvableType` (a possibly generic, possibly unresolved type). */
module JavaTypes {
  import opened Wrappers
  import opened Text

  /** The eight primitive types and `void`. */
  datatype PrimKind = PInt | PLong | PBoolean | PByte | PShort | PChar | PFloat | PDouble | PVoid

  /** What the processor needs to know about a class beyond its names. */
  datatype ClassKind =
    | ObjectKind               // java.lang.Object itself
    | ListKind                 // assignable to java.util.List
    | CollectionKind           // a Collection or Iterable that is not a List (a Set, say)
    | MapKind                  // assignable to java.util.Map
    | PrimitiveKind(p: PrimKind)
    | WrapperKind(p: PrimKind) // java.lang.Integer, ..., java.lang.Void
    | StringKind
    | OtherKind

  /** A `java.lang.Class`.
      - `name` is `getName()` (binary name, `a.b.Outer$Inner`),
      - `canonical` is `getCanonicalName()` (`a.b.Outer.Inner`),
      - `simple` is `getSimpleName()`,
      - `pkg` is the package name, absent for primitives,
      - `arity` is the number of declared type parameters,
      - `simpleValue` is Spring's `BeanUtils.isSimpleValueType`,
      - `knownSimple` is membership in the fixed table of simple configured types.
      Array classes are built from their component class. */
  datatype JClass =
    | Cls(name: string, canonical: string, simple: string, pkg: Option<string>, kind: ClassKind,
          superclass: Option<JClass>, isInterface: bool, arity: nat, simpleValue: bool, knownSimple: bool)
    | ArrayCls(component: JClass)

  const ObjectClass: JClass :=
    Cls("java.lang.Object", "java.lang.Object", "Object", Some("java.lang"), ObjectKind, None, false, 0, false, false)

  const NumberClass: JClass :=
    Cls("java.lang.Number", "java.lang.Number", "Number", Some("java.lang"), OtherKind, Some(ObjectClass), false, 0, true, false)

  const StringClass: JClass :=
    Cls("java.lang.String", "java.lang.String", "String", Some("java.lang"), StringKind, Some(ObjectClass), false, 0, true, true)

  const ListClass: JClass :=
    Cls("java.util.List", "java.util.List", "List", Some("java.util"), ListKind, None, true, 1, false, false)

  const MapClass: JClass :=
    Cls("java.util.Map", "java.util.Map", "Map", Some("java.util"), MapKind, None, true, 2, false, false)

  function PrimitiveName(p: PrimKind): string {
    match p
    case PInt => "int"
    case PLong => "long"
    case PBoolean => "boolean"
    case PByte => "byte"
    case PShort => "short"
    case PChar => "char"
    case PFloat => "float"
    case PDouble => "double"
    case PVoid => "void"
  }

  /** The one-letter JVM descriptor of a primitive. */
  function PrimitiveDescriptor(p: PrimKind): string {
    match p
    case PInt => "I"
    case PLong => "J"
    case PBoolean => "Z"
    case PByte => "B"
    case PShort => "S"
    case PChar => "C"
    case PFloat => "F"
    case PDouble => "D"
    case PVoid => "V"
  }

  function WrapperSimpleName(p: PrimKind): string {
    match p
    case PInt => "Integer"
    case PLong => "Long"
    case PBoolean => "Boolean"
    case PByte => "Byte"
    case PShort => "Short"
    case PChar => "Character"
    case PFloat => "Float"
    case PDouble => "Double"
    case PVoid => "Void"
  }

  function PrimitiveClass(p: PrimKind): JClass {
    var n := PrimitiveName(p);
    Cls(n, n, n, None, PrimitiveKind(p), None, false, 0, p != PVoid, p != PVoid)
  }

  /** `java.lang.Integer` and friends; `Void` is neither a simple value nor a known simple type. */
  function WrapperClass(p: PrimKind): JClass {
    var n := "java.lang." + WrapperSimpleName(p);
    var super := if p in {PBoolean, PChar, PVoid} then ObjectClass else NumberClass;
    Cls(n, n, WrapperSimpleName(p), Some("java.lang"), WrapperKind(p), Some(super), false, 0, p != PVoid, p != PVoid)
  }

  /** `Class.getName()`: arrays use the JVM descriptor form, e.g. `[Ljava.lang.String;`. */
  function Name(c: JClass): string {
    match c
    case Cls(n, _, _, _, _, _, _, _, _, _) => n
    case ArrayCls(e) => "[" + Descriptor(e)
  }

  function Descriptor(c: JClass): string {
    match c
    case ArrayCls(e) => "[" + Descriptor(e)
    case Cls(n, _, _, _, kind, _, _, _, _, _) =>
      if kind.PrimitiveKind? then PrimitiveDescriptor(kind.p) else "L" + n + ";"
  }

  /** `Class.getTypeName()`: like the name, but arrays read `java.lang.String[]`. */
  function TypeName(c: JClass): string {
    match c
    case Cls(n, _, _, _, _, _, _, _, _, _) => n
    case ArrayCls(e) => TypeName(e) + "[]"
  }

  /** `Class.getCanonicalName()`, the spelling Java source code uses. */
  function Canonical(c: JClass): string {
    match c
    case Cls(_, cn, _, _, _, _, _, _, _, _) => cn
    case ArrayCls(e) => Canonical(e) + "[]"
  }

  /** `Class.getSimpleName()`. */
  function SimpleName(c: JClass): string {
    match c
    case Cls(_, _, s, _, _, _, _, _, _, _) => s
    case ArrayCls(e) => SimpleName(e) + "[]"
  }

  /** The package name; arrays and primitives have none. */
  function PackageName(c: JClass): Option<string> {
    match c
    case Cls(_, _, _, p, _, _, _, _, _, _) => p
    case ArrayCls(_) => None
  }

  /** `Class.getSuperclass()`: absent for Object, interfaces and primitives; Object for arrays. */
  function Superclass(c: JClass): Option<JClass> {
    match c
    case Cls(_, _, _, _, _, s, _, _, _, _) => s
    case ArrayCls(_) => Some(ObjectClass)
  }

  predicate IsInterface(c: JClass) {
    c.Cls? && c.isInterface
  }

  predicate IsPrimitive(c: JClass) {
    c.Cls? && c.kind.PrimitiveKind?
  }

  /** `ClassUtils.isPrimitiveOrWrapper` (which counts `void` and `Void`). */
  predicate IsPrimitiveOrWrapper(c: JClass) {
    c.Cls? && (c.kind.PrimitiveKind? || c.kind.WrapperKind?)
  }

  /** `c == Object.class`. */
  predicate IsObject(c: JClass) {
    c.Cls? && c.kind == ObjectKind
  }

  /** `ClassUtils.isAssignable(List.class, c)`. */
  predicate IsListClass(c: JClass) {
    c.Cls? && c.kind == ListKind
  }

  /** `ClassUtils.isAssignable(Map.class, c)`. */
  predicate IsMapClass(c: JClass) {
    c.Cls? && c.kind == MapKind
  }

  /** `BeanUtils.isSimpleValueType`. */
  predicate IsSimpleValueType(c: JClass) {
    c.Cls? && c.simpleValue
  }

  /** Membership in the table of simple configured types. */
  predicate IsKnownSimple(c: JClass) {
    c.Cls? && c.knownSimple
  }

  /** `ClassUtils.resolvePrimitiveIfNecessary`: primitives (and `void`) become their wrapper. */
  function Box(c: JClass): (r: JClass)
    ensures !IsPrimitive(r)
    ensures !IsPrimitive(c) ==> r == c
    ensures IsPrimitive(c) ==> r == WrapperClass(c.kind.p)
  {
    if IsPrimitive(c) then WrapperClass(c.kind.p) else c
  }

  /** Boxing is idempotent. */
  lemma BoxIdempotent(c: JClass)
    ensures Box(Box(c)) == Box(c)
  {
  }

  /** A Spring `ResolvableType`.
      - `Unresolved` resolves to no class: `ResolvableType.NONE`, an unbounded wildcard, or a
        type parameter seen without its binding;
      - `Var(n, bound)` is a type variable, resolved through its bound;
      - `Ty(c, args)` is class `c` with its generic arguments;
      - `Arr(x)` is a generic array type `x[]`.
      A bounded wildcard `? extends X` is represented by `X`. */
  datatype RType =
    | Unresolved
    | Var(varName: string, bound: RType)
    | Ty(cls: JClass, args: seq<RType>)
    | Arr(component: RType)

  /** `ResolvableType.forRawClass(c)` (and `forClass(c)`): the class with its own
      type parameters, none of which resolves. */
  function Raw(c: JClass): (r: RType)
    ensures r.Ty? && r.cls == c
    ensures |r.args| == (if c.Cls? then c.arity else 0)
    ensures forall i :: 0 <= i < |r.args| ==> r.args[i] == Unresolved
  {
    Ty(c, seq(if c.Cls? then c.arity else 0, i => Unresolved))
  }

  /** `ResolvableType.resolve()`. */
  function Resolve(t: RType): Option<JClass> {
    match t
    case Unresolved => None
    case Var(_, b) => Resolve(b)
    case Ty(c, _) => Some(c)
    case Arr(x) =>
      match Resolve(x)
      case None => None
      case Some(e) => Some(ArrayCls(e))
  }

  /** `ResolvableType.isArray()`. */
  predicate IsArray(t: RType) {
    match t
    case Unresolved => false
    case Var(_, b) => IsArray(b)
    case Ty(c, _) => c.ArrayCls?
    case Arr(_) => true
  }

  /** `ResolvableType.getComponentType()`: the element type of an array, otherwise NONE. */
  function ComponentType(t: RType): RType {
    match t
    case Unresolved => Unresolved
    case Var(_, b) => ComponentType(b)
    case Ty(c, _) => if c.ArrayCls? then Raw(c.component) else Unresolved
    case Arr(x) => x
  }

  /** `ResolvableType.getGenerics()`. */
  function Generics(t: RType): seq<RType> {
    match t
    case Unresolved => []
    case Var(_, b) => Generics(b)
    case Ty(_, args) => args
    case Arr(_) => []
  }

  /** `ResolvableType.getGeneric(i)`: NONE when out of range. */
  function GenericAt(t: RType, i: nat): RType {
    var g := Generics(t);
    if i < |g| then g[i] else Unresolved
  }

  predicate HasGenerics(t: RType) {
    |Generics(t)| > 0
  }

  /** An argument that is an unbounded wildcard or a type variable nobody binds. */
  predicate IsUnresolvableArg(g: RType) {
    g.Unresolved? || g.Var?
  }

  /** `ResolvableType.hasUnresolvableGenerics()` on the type's own arguments. */
  predicate HasUnresolvableGenerics(t: RType) {
    exists i :: 0 <= i < |Generics(t)| && IsUnresolvableArg(Generics(t)[i])
  }

  /** Every resolved array type has an array class whose component is the resolved component. */
  lemma {:induction false} ResolveArray(t: RType)
    requires IsArray(t) && Resolve(t).Some?
    ensures Resolve(t).value.ArrayCls?
    ensures Resolve(ComponentType(t)) == Some(Resolve(t).value.component)
  {
    match t
    case Var(_, b) => ResolveArray(b);
    case Ty(c, _) =>
    case Arr(x) =>
  }

  /** A non-array type never resolves to an array class. */
  lemma {:induction false} ResolveNonArray(t: RType)
    requires !IsArray(t) && Resolve(t).Some?
    ensures Resolve(t).value.Cls?
  {
    match t
    case Var(_, b) => ResolveNonArray(b);
    case Ty(c, _) =>
  }

  // ---------------------------------------------------------------------------------
  // Measures used to justify recursion that descends from an array type to the raw
  // class of its component (which is not a syntactic sub-term).

  /** Array nesting of a class. */
  function ClassDepth(c: JClass): nat {
    match c
    case Cls(_, _, _, _, _, _, _, _, _, _) => 0
    case ArrayCls(e) => 1 + ClassDepth(e)
  }

  function Max(a: nat, b: nat): nat {
    if a < b then b else a
  }

  /** The deepest array nesting anywhere in a type. */
  function Depth(t: RType): nat
    decreases t
  {
    match t
    case Unresolved => 0
    case Var(_, b) => Depth(b)
    case Ty(c, args) => Max(ClassDepth(c), DepthAll(args))
    case Arr(x) => 1 + Depth(x)
  }

  function DepthAll(ts: seq<RType>): nat
    decreases ts
  {
    if |ts| == 0 then 0 else Max(Depth(ts[0]), DepthAll(ts[1..]))
  }

  function Size(t: RType): nat
    decreases t
  {
    match t
    case Unresolved => 1
    case Var(_, b) => 1 + Size(b)
    case Ty(_, args) => 1 + SizeAll(args)
    case Arr(x) => 1 + Size(x)
  }

  function SizeAll(ts: seq<RType>): nat
    decreases ts
  {
    if |ts| == 0 then 0 else Size(ts[0]) + SizeAll(ts[1..])
  }

  lemma {:induction false} DepthAllUnresolved(ts: seq<RType>)
    requires forall i :: 0 <= i < |ts| ==> ts[i] == Unresolved
    ensures DepthAll(ts) == 0
    decreases |ts|
  {
    if |ts| > 0 {
      DepthAllUnresolved(ts[1..]);
    }
  }

  /** The raw type of a class is exactly as deep as the class. */
  lemma RawDepth(c: JClass)
    ensures Depth(Raw(c)) == ClassDepth(c)
  {
    DepthAllUnresolved(Raw(c).args);
  }

  /** Resolving never produces a class nested deeper than the type. */
  lemma {:induction false} ResolveDepth(t: RType)
    requires Resolve(t).Some?
    ensures ClassDepth(Resolve(t).value) <= Depth(t)
  {
    match t
    case Var(_, b) => ResolveDepth(b);
    case Ty(c, _) =>
    case Arr(x) => ResolveDepth(x);
  }

  /** Descending from a resolved array type to the raw class of its component strictly
      lowers the depth. */
  lemma ArrayComponentDepth(t: RType)
    requires IsArray(t) && Resolve(t).Some?
    ensures Resolve(t).value.ArrayCls?
    ensures Depth(Raw(Resolve(t).value.component)) < Depth(t)
  {
    ResolveArray(t);
    ResolveDepth(t);
    RawDepth(Resolve(t).value.component);
  }

  /** The generic arguments are smaller than the type and no deeper. */
  lemma {:induction false} GenericsMeasure(t: RType)
    ensures DepthAll(Generics(t)) <= Depth(t)
    ensures SizeAll(Generics(t)) < Size(t)
  {
    match t
    case Unresolved =>
    case Var(_, b) => GenericsMeasure(b);
    case Ty(_, _) =>
    case Arr(_) =>
  }

  /** `getGeneric(i)` of a generic type is smaller than the type and no deeper, even when
      `i` is out of range. */
  lemma GenericAtMeasure(t: RType, i: nat)
    requires HasGenerics(t)
    ensures Depth(GenericAt(t, i)) <= Depth(t)
    ensures Size(GenericAt(t, i)) < Size(t)
  {
    GenericsMeasure(t);
    if i < |Generics(t)| {
      ElementMeasure(Generics(t), i);
    } else {
      ElementMeasure(Generics(t), 0);
    }
  }

  lemma {:induction false} ElementMeasure(ts: seq<RType>, i: nat)
    requires i < |ts|
    ensures Depth(ts[i]) <= DepthAll(ts)
    ensures Size(ts[i]) <= SizeAll(ts)
    decreases i
  {
    if i > 0 {
      ElementMeasure(ts[1..], i - 1);
    }
  }

  // ---------------------------------------------------------------------------------
  // Spring Data's TypeInformation of a declared type

  /** `getType()`: the resolved class, `Object` when nothing resolves. */
  function TIType(t: RType): JClass {
    Resolve(t).GetOr(ObjectClass)
  }

  /** `isMap()`. */
  predicate IsMapTI(t: RType) {
    IsMapClass(TIType(t))
  }

  /** `isCollectionLike()`: an array, a list or another collection. */
  predicate IsCollectionLikeTI(t: RType) {
    var c := TIType(t);
    c.ArrayCls? || (c.Cls? && (c.kind == ListKind || c.kind == CollectionKind))
  }

  /** `getComponentType()`: an array's component, otherwise the first type argument (a map's
      key). */
  function ComponentTI(t: RType): RType {
    if IsArray(t) then ComponentType(t) else GenericAt(t, 0)
  }

  /** `getMapValueType()`. */
  function MapValueTI(t: RType): RType {
    GenericAt(t, 1)
  }

  /** `getActualType()`: a map's value type, a collection's component type, otherwise the
      type itself. */
  function ActualTI(t: RType): RType {
    if IsMapTI(t) then MapValueTI(t)
    else if IsCollectionLikeTI(t) then ComponentTI(t)
    else t
  }
}
