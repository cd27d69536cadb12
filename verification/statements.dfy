/** The statements the writers emit into a generated `...ConfigurableTypeInformation`
    class, as tokens. Both the `DataModelFileWriter` of the model package and the
    `JavaPoetFileWriter` produce the same tokens for a property; they only spell them
    differently (see `ModelWriter.Render` and `PoetWriter.Render`). The same holds for the
    GraalVM substitution of `ClassTypeInformation.from`, whose meaning is given by `Dispatch`. */
module Statements {
  import opened Wrappers
  import opened Text
  import opened JavaTypes
  import opened Annotations
  import opened Properties
  import opened Registry
  import opened Signatures

  const FIELD_TYPE: string := "org.springframework.data.mapping.model.Field"

  /** One statement about the property held in variable `name`. */
  datatype FieldStmt =
    | Declare(name: string, owner: JClass, javaSignature: string, typeInit: string)
    | GetterCall(name: string, owner: JClass, accessor: string)
    | SetterCall(name: string, owner: JClass, accessor: string)
    | WitherCall(name: string, owner: JClass, accessor: string)
    | AtId(name: string)
    | Annotate(name: string, annotation: AnnotationInfo)
    | AddField(name: string)

  /** Getter, then setter, then wither, each only when the property has it. */
  function AccessorStatements(p: PropertyInfo): (r: seq<FieldStmt>)
    ensures |r| == 0 <==> !HasAccessorMethods(p)
    ensures forall m :: GetterCall(p.name, p.owner, m) in r <==> p.getter == Some(m)
    ensures forall m :: SetterCall(p.name, p.owner, m) in r <==> p.setter == Some(m)
    ensures forall m :: WitherCall(p.name, p.owner, m) in r <==> p.wither == Some(m)
    ensures forall i :: 0 <= i < |r| ==>
      r[i].name == p.name && (r[i].GetterCall? || r[i].SetterCall? || r[i].WitherCall?) && r[i].owner == p.owner
  {
    (if p.getter.Some? then [GetterCall(p.name, p.owner, p.getter.value)] else [])
    + (if p.setter.Some? then [SetterCall(p.name, p.owner, p.setter.value)] else [])
    + (if p.wither.Some? then [WitherCall(p.name, p.owner, p.wither.value)] else [])
  }

  /** `@Id` becomes the `annotatedWithAtId()` shorthand; any other annotation is re-emitted. */
  function AnnotationStatement(name: string, a: AnnotationInfo): FieldStmt {
    if IsIdAnnotation(a) then AtId(name) else Annotate(name, a)
  }

  function AnnotationStatements(name: string, anns: seq<AnnotationInfo>): (r: seq<FieldStmt>)
    ensures |r| == |anns|
    ensures forall i :: 0 <= i < |anns| ==> r[i] == AnnotationStatement(name, anns[i])
  {
    seq(|anns|, i requires 0 <= i < |anns| => AnnotationStatement(name, anns[i]))
  }

  /** The methods of the anonymous class that stands for an annotation instance:
      `annotationType()`, then one method per argument, in order, returning the argument's
      literal. `spell` is how a writer writes a class, `enumSpell` how it writes an enum type. */
  function AnnotationMethods(a: AnnotationInfo, spell: JClass -> string, enumSpell: JClass -> string): (r: seq<string>)
    ensures |r| == |a.arguments| + 1
    ensures r[0] == "public Class<? extends java.lang.annotation.Annotation> annotationType() { return " + spell(a.annotation) + ".class; }"
    ensures forall i :: 0 <= i < |a.arguments| ==>
      r[i + 1] == "public " + spell(a.arguments[i].returnType) + " " + a.arguments[i].member
        + "() { return " + Literal(a.arguments[i].value, enumSpell) + "; }"
  {
    ["public Class<? extends java.lang.annotation.Annotation> annotationType() { return " + spell(a.annotation) + ".class; }"]
    + seq(|a.arguments|, i requires 0 <= i < |a.arguments| =>
        "public " + spell(a.arguments[i].returnType) + " " + a.arguments[i].member
        + "() { return " + ArgumentValueText(a.arguments[i].value, enumSpell) + "; }")
  }

  /** `new A() { ... }`, the methods separated by `sep`. */
  function AnnotationExpression(a: AnnotationInfo, spell: JClass -> string, enumSpell: JClass -> string, sep: string): string {
    "new " + spell(a.annotation) + "() {" + Join(sep, AnnotationMethods(a, spell, enumSpell)) + "}"
  }

  /** The statements for one property: the declaration with its Java signature and its
      configurable type expression, the accessors, the annotations, and `addField`. A record
      without a field has no signature and one without annotations has a null set; both fail
      with a null dereference. */
  function FieldStatements(p: PropertyInfo, reg: DomainTypes): (r: Result<seq<FieldStmt>>)
    ensures r.Success? <==> (p.field.Some? && p.annotations.Some?
      && JavaSignatureString(FromField(p.field.value)).Success?
      && ConfigurableTypeSignatureString(FromField(p.field.value), reg).Success?)
    ensures r.Failure? ==> r.error == NullPointer
  {
    var field :- Deref(p.field);
    var signature := FromField(field);
    var javaSignature :- JavaSignatureString(signature);
    var typeInit :- ConfigurableTypeSignatureString(signature, reg);
    var anns :- Deref(p.annotations);
    Success(Assemble(Declare(p.name, p.owner, javaSignature, typeInit),
      AccessorStatements(p), AnnotationStatements(p.name, anns), p.name))
  }

  // ---------------------------------------------------------------------------------
  // The order of a field's statements

  /** Where a statement belongs in a field's block. */
  function Rank(s: FieldStmt): nat {
    match s
    case Declare(_, _, _, _) => 0
    case GetterCall(_, _, _) => 1
    case SetterCall(_, _, _) => 2
    case WitherCall(_, _, _) => 3
    case AtId(_) => 4
    case Annotate(_, _) => 4
    case AddField(_) => 5
  }

  /** A well-formed block for variable `name`: the declaration first and `addField` last, each
      exactly once; in between at most one getter, setter and wither in that order, then the
      annotations; every statement is about `name`. */
  predicate FieldBlock(ss: seq<FieldStmt>, name: string) {
    && |ss| >= 2 && ss[0].Declare? && ss[|ss| - 1].AddField?
    && (forall i :: 0 <= i < |ss| ==> ss[i].name == name)
    && (forall i :: 0 < i < |ss| - 1 ==> 1 <= Rank(ss[i]) <= 4)
    && (forall i, j :: 0 <= i < j < |ss| ==> Rank(ss[i]) <= Rank(ss[j]))
    && (forall i, j :: 0 <= i < j < |ss| && Rank(ss[i]) <= 3 ==> Rank(ss[i]) < Rank(ss[j]))
  }

  /** The statements of a block whose rank lies in `lo..hi`, in order: `Part(ss, 1, 3)` are the
      accessor calls, `Part(ss, 4, 4)` the annotations. */
  function Part(ss: seq<FieldStmt>, lo: nat, hi: nat): seq<FieldStmt>
    decreases |ss|
  {
    if |ss| == 0 then []
    else (if lo <= Rank(ss[0]) <= hi then [ss[0]] else []) + Part(ss[1..], lo, hi)
  }

  lemma {:induction false} PartAppend(a: seq<FieldStmt>, b: seq<FieldStmt>, lo: nat, hi: nat)
    ensures Part(a + b, lo, hi) == Part(a, lo, hi) + Part(b, lo, hi)
    decreases |a|
  {
    if |a| == 0 {
      assert a + b == b;
    } else {
      assert (a + b)[1..] == a[1..] + b;
      PartAppend(a[1..], b, lo, hi);
    }
  }

  lemma {:induction false} PartAll(ss: seq<FieldStmt>, lo: nat, hi: nat)
    requires forall i :: 0 <= i < |ss| ==> lo <= Rank(ss[i]) <= hi
    ensures Part(ss, lo, hi) == ss
    decreases |ss|
  {
    if |ss| > 0 {
      PartAll(ss[1..], lo, hi);
    }
  }

  lemma {:induction false} PartNone(ss: seq<FieldStmt>, lo: nat, hi: nat)
    requires forall i :: 0 <= i < |ss| ==> !(lo <= Rank(ss[i]) <= hi)
    ensures Part(ss, lo, hi) == []
    decreases |ss|
  {
    if |ss| > 0 {
      PartNone(ss[1..], lo, hi);
    }
  }

  /** The declaration, accessor calls, annotation statements and `addField` of one variable. */
  function Assemble(head: FieldStmt, acc: seq<FieldStmt>, anns: seq<FieldStmt>, name: string): seq<FieldStmt> {
    [head] + acc + anns + [AddField(name)]
  }

  predicate AccessorRun(acc: seq<FieldStmt>, name: string) {
    && (forall i :: 0 <= i < |acc| ==> 1 <= Rank(acc[i]) <= 3 && acc[i].name == name)
    && (forall i, j :: 0 <= i < j < |acc| ==> Rank(acc[i]) < Rank(acc[j]))
  }

  predicate AnnotationRun(anns: seq<FieldStmt>, name: string) {
    forall i :: 0 <= i < |anns| ==> Rank(anns[i]) == 4 && anns[i].name == name
  }

  lemma AccessorStatementsRun(p: PropertyInfo)
    ensures AccessorRun(AccessorStatements(p), p.name)
  {
  }

  lemma AnnotationStatementsRun(name: string, anns: seq<AnnotationInfo>)
    ensures AnnotationRun(AnnotationStatements(name, anns), name)
  {
  }

  lemma AssembleIsBlock(head: FieldStmt, acc: seq<FieldStmt>, anns: seq<FieldStmt>, name: string)
    requires head.Declare? && head.name == name
    requires AccessorRun(acc, name) && AnnotationRun(anns, name)
    ensures FieldBlock(Assemble(head, acc, anns, name), name)
  {
    var ss := Assemble(head, acc, anns, name);
    forall i | 0 <= i < |ss|
      ensures ss[i].name == name
      ensures i == 0 ==> Rank(ss[i]) == 0
      ensures 1 <= i < 1 + |acc| ==> ss[i] == acc[i - 1]
      ensures 1 + |acc| <= i < |ss| - 1 ==> Rank(ss[i]) == 4
      ensures i == |ss| - 1 ==> Rank(ss[i]) == 5
    {
      if 1 + |acc| <= i < |ss| - 1 {
        assert ss[i] == anns[i - 1 - |acc|];
      }
    }
  }

  lemma AssembleParts(head: FieldStmt, acc: seq<FieldStmt>, anns: seq<FieldStmt>, name: string)
    requires head.Declare?
    requires AccessorRun(acc, name) && AnnotationRun(anns, name)
    ensures Part(Assemble(head, acc, anns, name), 1, 3) == acc
    ensures Part(Assemble(head, acc, anns, name), 4, 4) == anns
    ensures Part(Assemble(head, acc, anns, name), 0, 0) == [head]
    ensures Part(Assemble(head, acc, anns, name), 5, 5) == [AddField(name)]
  {
    AssembleAccessors(head, acc, anns, name);
    AssembleAnnotations(head, acc, anns, name);
    AssembleEnds(head, acc, anns, name);
  }

  lemma AssembleAccessors(head: FieldStmt, acc: seq<FieldStmt>, anns: seq<FieldStmt>, name: string)
    requires head.Declare?
    requires AccessorRun(acc, name) && AnnotationRun(anns, name)
    ensures Part(Assemble(head, acc, anns, name), 1, 3) == acc
  {
    var tail := [AddField(name)];
    assert Assemble(head, acc, anns, name) == [head] + (acc + (anns + tail));
    PartAppend([head], acc + (anns + tail), 1, 3);
    PartAppend(acc, anns + tail, 1, 3);
    PartAppend(anns, tail, 1, 3);
    PartNone([head], 1, 3);
    PartNone(tail, 1, 3);
    PartAll(acc, 1, 3);
    PartNone(anns, 1, 3);
  }

  lemma AssembleAnnotations(head: FieldStmt, acc: seq<FieldStmt>, anns: seq<FieldStmt>, name: string)
    requires head.Declare?
    requires AccessorRun(acc, name) && AnnotationRun(anns, name)
    ensures Part(Assemble(head, acc, anns, name), 4, 4) == anns
  {
    var tail := [AddField(name)];
    assert Assemble(head, acc, anns, name) == [head] + (acc + (anns + tail));
    PartAppend([head], acc + (anns + tail), 4, 4);
    PartAppend(acc, anns + tail, 4, 4);
    PartAppend(anns, tail, 4, 4);
    PartNone([head], 4, 4);
    PartNone(tail, 4, 4);
    PartNone(acc, 4, 4);
    PartAll(anns, 4, 4);
  }

  lemma AssembleEnds(head: FieldStmt, acc: seq<FieldStmt>, anns: seq<FieldStmt>, name: string)
    requires head.Declare?
    requires AccessorRun(acc, name) && AnnotationRun(anns, name)
    ensures Part(Assemble(head, acc, anns, name), 0, 0) == [head]
    ensures Part(Assemble(head, acc, anns, name), 5, 5) == [AddField(name)]
  {
    var tail := [AddField(name)];
    assert Assemble(head, acc, anns, name) == [head] + (acc + (anns + tail));
    PartAppend([head], acc + (anns + tail), 0, 0);
    PartAppend(acc, anns + tail, 0, 0);
    PartAppend(anns, tail, 0, 0);
    PartAppend([head], acc + (anns + tail), 5, 5);
    PartAppend(acc, anns + tail, 5, 5);
    PartAppend(anns, tail, 5, 5);
    PartAll([head], 0, 0);
    PartNone([head], 5, 5);
    PartNone(tail, 0, 0);
    PartAll(tail, 5, 5);
    PartNone(acc, 0, 0);
    PartNone(acc, 5, 5);
    PartNone(anns, 0, 0);
    PartNone(anns, 5, 5);
  }

  /** A property's statements form a well-ordered block; its accessor calls are exactly the
      property's getter, setter and wither (see `AccessorStatements`); and its annotation
      statements are the property's annotations in order, `@Id` abbreviated. */
  lemma FieldStatementsShape(p: PropertyInfo, reg: DomainTypes)
    requires FieldStatements(p, reg).Success?
    ensures FieldBlock(FieldStatements(p, reg).value, p.name)
    ensures Part(FieldStatements(p, reg).value, 1, 3) == AccessorStatements(p)
    ensures Part(FieldStatements(p, reg).value, 4, 4) == AnnotationStatements(p.name, p.annotations.value)
    ensures Part(FieldStatements(p, reg).value, 0, 0) == [FieldStatements(p, reg).value[0]]
    ensures Part(FieldStatements(p, reg).value, 5, 5) == [AddField(p.name)]
  {
    var head := Declare(p.name, p.owner, JavaSignatureString(FromField(p.field.value)).value,
                        ConfigurableTypeSignatureString(FromField(p.field.value), reg).value);
    var acc := AccessorStatements(p);
    var anns := AnnotationStatements(p.name, p.annotations.value);
    assert FieldStatements(p, reg).value == Assemble(head, acc, anns, p.name);
    AccessorStatementsRun(p);
    AnnotationStatementsRun(p.name, p.annotations.value);
    AssembleIsBlock(head, acc, anns, p.name);
    AssembleParts(head, acc, anns, p.name);
  }

  /** The statements of several properties, one block after another, as the writers emit
      them for the properties of one type in order. */
  function FieldStatementsAll(ps: seq<PropertyInfo>, reg: DomainTypes): (r: Result<seq<FieldStmt>>)
    ensures r.Success? <==> forall i :: 0 <= i < |ps| ==> FieldStatements(ps[i], reg).Success?
    ensures r.Failure? ==> r.error == NullPointer
    decreases |ps|
  {
    if |ps| == 0 then Success([])
    else
      var head :- FieldStatements(ps[0], reg);
      var tail :- FieldStatementsAll(ps[1..], reg);
      assert forall i :: 1 <= i < |ps| ==> ps[i] == ps[1..][i - 1];
      Success(head + tail)
  }

  /** `addField(name)` for each property, in order. */
  function AddFields(ps: seq<PropertyInfo>): seq<FieldStmt> {
    seq(|ps|, i requires 0 <= i < |ps| => AddField(ps[i].name))
  }

  lemma AddFieldsCons(ps: seq<PropertyInfo>)
    requires |ps| > 0
    ensures AddFields(ps) == [AddField(ps[0].name)] + AddFields(ps[1..])
  {
    assert forall i :: 1 <= i < |ps| ==> AddFields(ps)[i] == AddFields(ps[1..])[i - 1];
  }

  /** Each property is registered exactly once, by its own name, in property order. */
  lemma {:induction false} OneAddFieldPerProperty(ps: seq<PropertyInfo>, reg: DomainTypes)
    requires FieldStatementsAll(ps, reg).Success?
    ensures Part(FieldStatementsAll(ps, reg).value, 5, 5) == AddFields(ps)
    decreases |ps|
  {
    if |ps| > 0 {
      var head := FieldStatements(ps[0], reg).value;
      var tail := FieldStatementsAll(ps[1..], reg).value;
      assert FieldStatementsAll(ps, reg).value == head + tail;
      FieldStatementsShape(ps[0], reg);
      OneAddFieldPerProperty(ps[1..], reg);
      PartAppend(head, tail, 5, 5);
      AddFieldsCons(ps);
    }
  }

  /** Each property's variable is declared exactly once, in property order. */
  lemma {:induction false} OneDeclarationPerProperty(ps: seq<PropertyInfo>, reg: DomainTypes)
    requires FieldStatementsAll(ps, reg).Success?
    ensures var decls := Part(FieldStatementsAll(ps, reg).value, 0, 0);
      |decls| == |ps| && forall i :: 0 <= i < |ps| ==> decls[i].Declare? && decls[i].name == ps[i].name
    decreases |ps|
  {
    if |ps| > 0 {
      var head := FieldStatements(ps[0], reg).value;
      var tail := FieldStatementsAll(ps[1..], reg).value;
      assert FieldStatementsAll(ps, reg).value == head + tail;
      FieldStatementsShape(ps[0], reg);
      OneDeclarationPerProperty(ps[1..], reg);
      DeclarationsCons(head, tail, ps);
    }
  }

  /** The declarations of one property's block followed by those of the rest. */
  lemma DeclarationsCons(head: seq<FieldStmt>, tail: seq<FieldStmt>, ps: seq<PropertyInfo>)
    requires |ps| > 0 && FieldBlock(head, ps[0].name) && Part(head, 0, 0) == [head[0]]
    requires var d := Part(tail, 0, 0);
      |d| == |ps| - 1 && forall i :: 0 <= i < |ps| - 1 ==> d[i].Declare? && d[i].name == ps[1..][i].name
    ensures var decls := Part(head + tail, 0, 0);
      |decls| == |ps| && forall i :: 0 <= i < |ps| ==> decls[i].Declare? && decls[i].name == ps[i].name
  {
    PartAppend(head, tail, 0, 0);
    var decls := Part(head + tail, 0, 0);
    assert decls == [head[0]] + Part(tail, 0, 0);
    forall i | 1 <= i < |ps| ensures decls[i].Declare? && decls[i].name == ps[i].name {
      assert decls[i] == Part(tail, 0, 0)[i - 1];
      assert ps[i] == ps[1..][i - 1];
    }
  }

  // ---------------------------------------------------------------------------------
  // The substitution for ClassTypeInformation.from

  /** One statement of the substituted `from(type)` method: a diagnostic line, a branch
      returning the generated singleton when `type` is `cls` (written `condition` in source),
      or the final cache lookup. */
  datatype SubstStmt =
    | Trace(text: string)
    | Branch(cls: JClass, condition: string, target: string)
    | CacheFallback

  /** What the method returns for a class: a generated type's singleton, the cached
      `ClassTypeInformation`, or nothing (it would not compile). */
  datatype Outcome = Instance(generated: string) | Cached | FallsOff

  /** Running the substituted method on `type == c`: the first branch for `c` wins. */
  function Dispatch(ss: seq<SubstStmt>, c: JClass): Outcome
    decreases |ss|
  {
    if |ss| == 0 then FallsOff
    else match ss[0]
      case Trace(_) => Dispatch(ss[1..], c)
      case Branch(k, _, target) => if k == c then Instance(target) else Dispatch(ss[1..], c)
      case CacheFallback => Cached
  }

  /** A dispatch table is traces, then branches, then a single fallback. */
  predicate Table(pre: seq<SubstStmt>, branches: seq<SubstStmt>) {
    && (forall i :: 0 <= i < |pre| ==> pre[i].Trace?)
    && (forall i :: 0 <= i < |branches| ==> branches[i].Branch?)
  }

  /** The first branch for the class decides: `Dispatch` returns its target. */
  lemma {:induction false} DispatchFirst(pre: seq<SubstStmt>, branches: seq<SubstStmt>, c: JClass, j: nat)
    requires Table(pre, branches)
    requires j < |branches| && branches[j].cls == c
    requires forall k :: 0 <= k < j ==> branches[k].cls != c
    ensures Dispatch(pre + branches + [CacheFallback], c) == Instance(branches[j].target)
    decreases |pre| + |branches|
  {
    var ss := pre + branches + [CacheFallback];
    if |pre| > 0 {
      assert ss[1..] == pre[1..] + branches + [CacheFallback];
      DispatchFirst(pre[1..], branches, c, j);
    } else if j > 0 {
      assert ss[1..] == [] + branches[1..] + [CacheFallback];
      DispatchFirst([], branches[1..], c, j - 1);
    } else {
      assert ss[0] == branches[0];
    }
  }

  /** A class no branch tests for gets the cached value. */
  lemma {:induction false} DispatchMiss(pre: seq<SubstStmt>, branches: seq<SubstStmt>, c: JClass)
    requires Table(pre, branches)
    requires forall k :: 0 <= k < |branches| ==> branches[k].cls != c
    ensures Dispatch(pre + branches + [CacheFallback], c) == Cached
    decreases |pre| + |branches|
  {
    var ss := pre + branches + [CacheFallback];
    if |pre| > 0 {
      assert ss[1..] == pre[1..] + branches + [CacheFallback];
      DispatchMiss(pre[1..], branches, c);
    } else if |branches| > 0 {
      assert ss[1..] == [] + branches[1..] + [CacheFallback];
      DispatchMiss([], branches[1..], c);
    } else {
      assert ss == [CacheFallback];
    }
  }
}
