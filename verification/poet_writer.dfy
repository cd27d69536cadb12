/** The JavaPoet-based writer (`JavaPoetFileWriter`): one generated class per registered
    domain type, written straight from the registry, and the GraalVM substitution. JavaPoet's
    `$T` placeholder is spelled with the canonical name (imports are not modelled), `$L` is the
    text itself and `$S` a quoted string. */
module PoetWriter {
  import opened Wrappers
  import opened Text
  import opened JavaTypes
  import opened Annotations
  import opened Properties
  import opened Registry
  import opened Signatures
  import opened Statements
  import ModelWriter

  const CONSTRUCTOR_TYPE: string := "org.springframework.data.mapping.model.ConfigurableTypeConstructor"

  // ---------------------------------------------------------------------------------
  // The super call

  /** `superCallBlock`: the domain class alone when its superclass is `Object` or absent,
      otherwise also the singleton named by `getCanonicalSuperConfigurableTypeName()`. */
  function SuperCallBlock(c: JClass): (r: string)
    ensures Superclass(c).Some? && !IsObject(Superclass(c).value) ==>
      r == "super(" + Canonical(c) + ".class, " + CanonicalConfigurableTypeName(FromClass(Superclass(c).value)).value + ".instance())"
    ensures Superclass(c).None? || IsObject(Superclass(c).value) ==> r == "super(" + Canonical(c) + ".class)"
  {
    match Superclass(c)
    case None => "super(" + Canonical(c) + ".class)"
    case Some(sup) =>
      if IsObject(sup) then "super(" + Canonical(c) + ".class)"
      else
        var name := CanonicalSuperConfigurableTypeName(FromClass(c)).value;
        "super(" + Canonical(c) + ".class, " + name.GetOr("null") + ".instance())"
  }

  /** For classes whose binary and canonical names coincide (top-level classes), both writers
      make the same super call. */
  lemma SuperCallsAgree(c: JClass)
    requires Name(c) == Canonical(c)
    requires Superclass(c).Some? ==> TypeName(Superclass(c).value) == Canonical(Superclass(c).value)
    ensures SuperCallBlock(c) == ModelWriter.SuperCall(c)
  {
  }

  // ---------------------------------------------------------------------------------
  // The persistence constructor

  /** The cast passing argument `i`, written `($T)args[$L]`. */
  function Cast(p: ParameterInfo, i: nat): string {
    "(" + Canonical(p.rawType) + ")args[" + NatToString(i) + "]"
  }

  /** The loop of `newInstanceBlock` building the constructor arguments: each cast followed by
      `", "` unless it is the last. */
  method CastList(ps: seq<ParameterInfo>) returns (r: string)
    ensures r == Join(", ", ModelWriter.Casts(ps))
  {
    var casts := ModelWriter.Casts(ps);
    r := "";
    var i := 0;
    while i < |ps|
      invariant 0 <= i <= |ps|
      invariant i == 0 ==> r == ""
      invariant 0 < i < |ps| ==> r == Join(", ", casts[..i]) + ", "
      invariant 0 < i == |ps| ==> r == Join(", ", casts[..i])
    {
      var arg := Cast(ps[i], i);
      assert arg == casts[i];
      if i > 0 {
        JoinSnoc(", ", casts[..i], casts[i]);
        assert casts[..i] + [casts[i]] == casts[..i + 1];
      } else {
        assert casts[..1] == [casts[0]];
      }
      if i != |ps| - 1 {
        arg := arg + ", ";
      }
      r := r + arg;
      i := i + 1;
    }
    assert casts[..|ps|] == casts;
  }

  /** `newInstanceBlock(ctorInfo)`: the no-argument form, or the builder form with the
      parameter names and the casts, each list separated by `", "`. A type without a constructor
      model fails on `ctorInfo.getType()`. */
  function NewInstanceBlock(ci: Option<ConstructorInfo>): (r: Result<string>)
    ensures r.Success? <==> ci.Some?
    ensures r.Failure? ==> r.error == NullPointer
  {
    var ctor :- Deref(ci);
    var c := ctor.owner;
    var names := seq(|ctor.parameters|, i requires 0 <= i < |ctor.parameters| => ModelWriter.ArgumentName(ctor.parameters[i]));
    var prefix := CONSTRUCTOR_TYPE + ".<" + Canonical(c) + ">";
    var builder := "builder()" + ".args(" + Join(", ", names) + ")"
      + ".newInstanceFunction((args) -> new " + Canonical(c) + "(" + Join(", ", ModelWriter.Casts(ctor.parameters)) + "))";
    Success(if IsNoArgConstructor(ctor) then prefix + "noArgsConstructor(" + Canonical(c) + "::new)" else prefix + builder)
  }

  /** Each cast of this writer is the corrected cast of the model-package writer. */
  lemma CastsMatchCorrected(p: ParameterInfo, i: nat)
    ensures Cast(p, i) == ModelWriter.Cast(p, i)
  {
  }

  // ---------------------------------------------------------------------------------
  // Field statements

  /** `fieldBlock` followed by the `addField` statement of `computeTypeSpec`: the declaration,
      the accessor calls when the property has any accessor, the annotations. */
  function PoetFieldStatements(p: PropertyInfo, reg: DomainTypes): (r: Result<seq<FieldStmt>>)
  {
    var field :- Deref(p.field);
    var signature := FromField(field);
    var javaSignature :- JavaSignatureString(signature);
    var typeInit :- ConfigurableTypeSignatureString(signature, reg);
    var accessors := if HasAccessorMethods(p) then AccessorStatements(p) else [];
    var anns :- Deref(p.annotations);
    Success([Declare(p.name, p.owner, javaSignature, typeInit)] + accessors
      + AnnotationStatements(p.name, anns) + [AddField(p.name)])
  }

  /** Both writers emit the same statements for a property, and fail on the same properties:
      the `hasAccessorMethods()` guard changes nothing. */
  lemma FieldStatementsAgree(p: PropertyInfo, reg: DomainTypes)
    ensures PoetFieldStatements(p, reg) == FieldStatements(p, reg)
  {
  }

  /** How this writer spells an annotation instance: `$T` names, enum constants qualified by the
      enum's simple name, the methods run together. */
  function AnnotationBlock(a: AnnotationInfo): string {
    AnnotationExpression(a, Canonical, SimpleName, "")
  }

  /** The source text of one statement. */
  function Render(s: FieldStmt): string {
    match s
    case Declare(name, owner, javaSignature, typeInit) =>
      FIELD_TYPE + "<" + Canonical(owner) + "," + javaSignature + ">" + " " + name + " = "
        + FIELD_TYPE + ".type(" + "\"" + name + "\"" + ", " + typeInit + ")"
    case GetterCall(name, owner, m) => name + ".getter(" + Canonical(owner) + "::" + m + ")"
    case SetterCall(name, owner, m) => name + ".setter(" + Canonical(owner) + "::" + m + ")"
    case WitherCall(name, owner, m) => name + ".wither(" + Canonical(owner) + "::" + m + ")"
    case AtId(name) => name + ".annotatedWithAtId()"
    case Annotate(name, a) => name + ".annotation(" + AnnotationBlock(a) + ")"
    case AddField(name) => "addField(" + name + ")"
  }

  /** The two writers spell accessor calls, `@Id` and `addField` identically; they differ only
      in the declaration's spacing and in annotation instances. */
  lemma RenderingsAgree(s: FieldStmt)
    requires !s.Declare? && !s.Annotate?
    ensures Render(s) == ModelWriter.Render(s)
  {
  }

  // ---------------------------------------------------------------------------------
  // The generated class

  datatype Line = Comment(text: string) | Statement(text: string) | Blank

  /** The parts of the class `computeTypeSpec` builds: package and simple name, the super call,
      the type's annotations, the constructor expression, and per property its comment and its
      statements. */
  datatype TypeSpec = TypeSpec(
    packageName: string,
    simpleName: string,
    superCall: string,
    annotations: seq<string>,
    newInstance: string,
    fieldComments: seq<string>,
    fieldBlocks: seq<seq<FieldStmt>>)

  function FieldBlocks(ps: seq<PropertyInfo>, reg: DomainTypes): (r: Result<seq<seq<FieldStmt>>>)
    ensures r.Success? ==> |r.value| == |ps|
    decreases |ps|
  {
    if |ps| == 0 then Success([])
    else
      var head :- PoetFieldStatements(ps[0], reg);
      var tail :- FieldBlocks(ps[1..], reg);
      Success([head] + tail)
  }

  function FieldComments(ps: seq<PropertyInfo>): (r: Result<seq<string>>)
    ensures r.Success? ==> |r.value| == |ps|
    decreases |ps|
  {
    if |ps| == 0 then Success([])
    else
      var field :- Deref(ps[0].field);
      var javaSignature :- JavaSignatureString(FromField(field));
      var tail :- FieldComments(ps[1..]);
      Success([javaSignature + " " + ps[0].name] + tail)
  }

  function Flatten<T>(xss: seq<seq<T>>): seq<T>
    decreases |xss|
  {
    if |xss| == 0 then [] else xss[0] + Flatten(xss[1..])
  }

  /** `computeTypeSpec` (with the package of `typeInfoToConfigurableTypeInformation`); a class
      without a package fails in `JavaFile.builder`. */
  function ComputeTypeSpec(t: TypeInfo, reg: DomainTypes): (r: Result<TypeSpec>)
    ensures r.Success? ==> PackageName(t.typeClass).Some? && t.persistenceConstructor.Some?
  {
    var signature := FromClass(t.typeClass);
    var pkg :- PackageNameOf(signature);
    var simple := SimpleConfigurableTypeName(signature).value;
    var annotations := seq(|t.annotations|, i requires 0 <= i < |t.annotations| =>
      "addAnnotation(" + AnnotationBlock(t.annotations[i]) + ")");
    var newInstance :- NewInstanceBlock(t.persistenceConstructor);
    var comments :- FieldComments(t.properties);
    var blocks :- FieldBlocks(t.properties, reg);
    Success(TypeSpec(pkg, simple, SuperCallBlock(t.typeClass), annotations, newInstance, comments, blocks))
  }

  /** The texts of the comments among `lines`, in order. */
  function CommentTexts(lines: seq<Line>): seq<string>
    decreases |lines|
  {
    if |lines| == 0 then []
    else (if lines[0].Comment? then [lines[0].text] else []) + CommentTexts(lines[1..])
  }

  /** The texts of the statements among `lines`, in order. */
  function StatementTexts(lines: seq<Line>): seq<string>
    decreases |lines|
  {
    if |lines| == 0 then []
    else (if lines[0].Statement? then [lines[0].text] else []) + StatementTexts(lines[1..])
  }

  /** Reading the comments and the statements of two runs of lines, one after the other. */
  lemma TextsAppend(a: seq<Line>, b: seq<Line>)
    ensures CommentTexts(a + b) == CommentTexts(a) + CommentTexts(b)
    ensures StatementTexts(a + b) == StatementTexts(a) + StatementTexts(b)
  {
    CommentTextsAppend(a, b);
    StatementTextsAppend(a, b);
  }

  lemma {:induction false} CommentTextsAppend(a: seq<Line>, b: seq<Line>)
    ensures CommentTexts(a + b) == CommentTexts(a) + CommentTexts(b)
    decreases |a|
  {
    if |a| == 0 {
      assert a + b == b;
    } else {
      assert (a + b)[0] == a[0];
      assert (a + b)[1..] == a[1..] + b;
      CommentTextsAppend(a[1..], b);
    }
  }

  lemma {:induction false} StatementTextsAppend(a: seq<Line>, b: seq<Line>)
    ensures StatementTexts(a + b) == StatementTexts(a) + StatementTexts(b)
    decreases |a|
  {
    if |a| == 0 {
      assert a + b == b;
    } else {
      assert (a + b)[0] == a[0];
      assert (a + b)[1..] == a[1..] + b;
      StatementTextsAppend(a[1..], b);
    }
  }

  /** A line appended contributes its own text, if any. */
  lemma TextsSnoc(a: seq<Line>, l: Line)
    ensures CommentTexts(a + [l]) == CommentTexts(a) + (if l.Comment? then [l.text] else [])
    ensures StatementTexts(a + [l]) == StatementTexts(a) + (if l.Statement? then [l.text] else [])
  {
    TextsAppend(a, [l]);
    assert [l][1..] == [];
  }

  /** One statement line per text. */
  function StatementLines(texts: seq<string>): seq<Line> {
    seq(|texts|, i requires 0 <= i < |texts| => Statement(texts[i]))
  }

  lemma {:induction false} StatementLinesTexts(texts: seq<string>)
    ensures CommentTexts(StatementLines(texts)) == []
    ensures StatementTexts(StatementLines(texts)) == texts
    decreases |texts|
  {
    if |texts| > 0 {
      assert StatementLines(texts)[1..] == StatementLines(texts[1..]);
      StatementLinesTexts(texts[1..]);
    }
  }

  /** The source text of each statement, in order. */
  function RenderAll(xs: seq<FieldStmt>): seq<string> {
    seq(|xs|, i requires 0 <= i < |xs| => Render(xs[i]))
  }

  /** The constructor body: super call, annotations, constructor expression, then for each
      property its comment, its statements and a blank line. Read as comments and statements,
      it holds the three section comments and one comment per property; and the super call,
      one `addAnnotation` per annotation, the `setConstructor` call, and every property's
      statements in property order. */
  function ConstructorBody(s: TypeSpec): (r: seq<Line>)
    requires |s.fieldComments| == |s.fieldBlocks|
    ensures |r| > 5 + |s.annotations|
    ensures r[0] == Statement(s.superCall)
    ensures r[4 + |s.annotations|] == Comment("PERSISTENCE CONSTRUCTOR")
    ensures r[5 + |s.annotations|] == Statement("setConstructor(" + s.newInstance + ")")
    ensures CommentTexts(r) == ["ANNOTATIONS", "PERSISTENCE CONSTRUCTOR", "FIELDS"] + s.fieldComments
    ensures StatementTexts(r)
      == [s.superCall] + s.annotations + ["setConstructor(" + s.newInstance + ")"] + RenderAll(Flatten(s.fieldBlocks))
  {
    var head := Header(s.superCall, s.annotations, "setConstructor(" + s.newInstance + ")");
    var fields := FieldLines(s.fieldComments, s.fieldBlocks);
    HeaderTexts(s.superCall, s.annotations, "setConstructor(" + s.newInstance + ")");
    TextsAppend(head, fields);
    head + fields
  }

  /** The lines before the fields: the super call, the annotations, the constructor
      expression and the section comments, with blank lines between the sections. */
  function Header(superCall: string, annotations: seq<string>, setConstructor: string): (r: seq<Line>)
    ensures |r| == 9 + |annotations|
    ensures r[0] == Statement(superCall)
    ensures r[4 + |annotations|] == Comment("PERSISTENCE CONSTRUCTOR")
    ensures r[5 + |annotations|] == Statement(setConstructor)
  {
    [Statement(superCall)] + [Blank] + [Comment("ANNOTATIONS")] + StatementLines(annotations)
    + [Blank] + [Comment("PERSISTENCE CONSTRUCTOR")] + [Statement(setConstructor)] + [Blank]
    + [Comment("FIELDS")] + [Blank]
  }

  lemma HeaderTexts(superCall: string, annotations: seq<string>, setConstructor: string)
    ensures CommentTexts(Header(superCall, annotations, setConstructor)) == ["ANNOTATIONS", "PERSISTENCE CONSTRUCTOR", "FIELDS"]
    ensures StatementTexts(Header(superCall, annotations, setConstructor)) == [superCall] + annotations + [setConstructor]
  {
    var l1 := [Statement(superCall)] + [Blank];
    var l2 := l1 + [Comment("ANNOTATIONS")];
    var l3 := l2 + StatementLines(annotations);
    var l4 := l3 + [Blank];
    var l5 := l4 + [Comment("PERSISTENCE CONSTRUCTOR")];
    var l6 := l5 + [Statement(setConstructor)];
    var l7 := l6 + [Blank];
    var l8 := l7 + [Comment("FIELDS")];
    assert Header(superCall, annotations, setConstructor) == l8 + [Blank];
    TextsSnoc([Statement(superCall)], Blank);
    assert [Statement(superCall)][1..] == [];
    TextsSnoc(l1, Comment("ANNOTATIONS"));
    StatementLinesTexts(annotations);
    TextsAppend(l2, StatementLines(annotations));
    TextsSnoc(l3, Blank);
    TextsSnoc(l4, Comment("PERSISTENCE CONSTRUCTOR"));
    TextsSnoc(l5, Statement(setConstructor));
    TextsSnoc(l6, Blank);
    TextsSnoc(l7, Comment("FIELDS"));
    TextsSnoc(l8, Blank);
  }

  /** A property's comment, statements and blank line contribute the comment and the
      statements. */
  lemma BlockTexts(comment: string, texts: seq<string>, rest: seq<Line>)
    ensures CommentTexts([Comment(comment)] + StatementLines(texts) + [Blank] + rest) == [comment] + CommentTexts(rest)
    ensures StatementTexts([Comment(comment)] + StatementLines(texts) + [Blank] + rest) == texts + StatementTexts(rest)
  {
    var head := [Comment(comment)];
    assert head[1..] == [];
    StatementLinesTexts(texts);
    TextsAppend(head, StatementLines(texts));
    TextsSnoc(head + StatementLines(texts), Blank);
    TextsAppend(head + StatementLines(texts) + [Blank], rest);
  }

  /** Per property: its comment, its statements, a blank line. */
  function FieldLines(comments: seq<string>, blocks: seq<seq<FieldStmt>>): (r: seq<Line>)
    requires |comments| == |blocks|
    ensures CommentTexts(r) == comments
    ensures StatementTexts(r) == RenderAll(Flatten(blocks))
    decreases |blocks|
  {
    if |blocks| == 0 then [] else
    var rest := FieldLines(comments[1..], blocks[1..]);
    BlockTexts(comments[0], RenderAll(blocks[0]), rest);
    assert comments == [comments[0]] + comments[1..];
    assert RenderAll(Flatten(blocks)) == RenderAll(blocks[0]) + RenderAll(Flatten(blocks[1..]));
    [Comment(comments[0])] + StatementLines(RenderAll(blocks[0])) + [Blank] + rest
  }

  lemma {:induction false} FieldBlocksAgree(ps: seq<PropertyInfo>, reg: DomainTypes)
    ensures FieldBlocks(ps, reg).Success? <==> FieldStatementsAll(ps, reg).Success?
    ensures FieldBlocks(ps, reg).Success? ==> Flatten(FieldBlocks(ps, reg).value) == FieldStatementsAll(ps, reg).value
    decreases |ps|
  {
    if |ps| > 0 {
      FieldStatementsAgree(ps[0], reg);
      FieldBlocksAgree(ps[1..], reg);
      if FieldBlocks(ps, reg).Success? {
        var blocks := FieldBlocks(ps, reg).value;
        assert blocks[1..] == FieldBlocks(ps[1..], reg).value;
      }
    }
  }

  /** The generated class holds, property after property, exactly the statements of the
      model-package writer; so it declares and registers every property once, by name, in
      property order. The class exists exactly when the type has a package, a constructor
      model, and every property has a field with a Java signature and a type expression. */
  lemma TypeSpecFields(t: TypeInfo, reg: DomainTypes)
    ensures ComputeTypeSpec(t, reg).Success? <==> ModelWriter.Writable(t, reg)
    ensures ComputeTypeSpec(t, reg).Success? ==>
      && Flatten(ComputeTypeSpec(t, reg).value.fieldBlocks) == FieldStatementsAll(t.properties, reg).value
      && Part(Flatten(ComputeTypeSpec(t, reg).value.fieldBlocks), 5, 5) == AddFields(t.properties)
  {
    FieldBlocksAgree(t.properties, reg);
    if FieldStatementsAll(t.properties, reg).Success? {
      FieldCommentsSucceed(t.properties, reg);
    }
    if ComputeTypeSpec(t, reg).Success? {
      OneAddFieldPerProperty(t.properties, reg);
    }
  }

  /** The constructor JavaPoetFileWriter writes for a type: the type's super call, one
      `addAnnotation` per type annotation, the `setConstructor` call with the type's constructor
      expression, then every property's statements in property order, each property under its
      own comment. */
  lemma GeneratedConstructor(t: TypeInfo, reg: DomainTypes)
    requires ComputeTypeSpec(t, reg).Success?
    ensures FieldStatementsAll(t.properties, reg).Success? && FieldComments(t.properties).Success?
    ensures |ComputeTypeSpec(t, reg).value.fieldComments| == |ComputeTypeSpec(t, reg).value.fieldBlocks|
    ensures var body := ConstructorBody(ComputeTypeSpec(t, reg).value);
      StatementTexts(body)
        == [SuperCallBlock(t.typeClass)]
        + seq(|t.annotations|, i requires 0 <= i < |t.annotations| => "addAnnotation(" + AnnotationBlock(t.annotations[i]) + ")")
        + ["setConstructor(" + NewInstanceBlock(t.persistenceConstructor).value + ")"]
        + RenderAll(FieldStatementsAll(t.properties, reg).value)
    ensures var body := ConstructorBody(ComputeTypeSpec(t, reg).value);
      CommentTexts(body) == ["ANNOTATIONS", "PERSISTENCE CONSTRUCTOR", "FIELDS"] + FieldComments(t.properties).value
  {
    TypeSpecFields(t, reg);
  }

  /** The comments exist whenever the statements do. */
  lemma {:induction false} FieldCommentsSucceed(ps: seq<PropertyInfo>, reg: DomainTypes)
    requires FieldStatementsAll(ps, reg).Success?
    ensures FieldComments(ps).Success?
    decreases |ps|
  {
    if |ps| > 0 {
      assert FieldStatements(ps[0], reg).Success?;
      FieldCommentsSucceed(ps[1..], reg);
    }
  }

  /** For a top-level class `pkg.Simple`, the class declared is the one every reference
      (`getCanonicalConfigurableTypeName()`) names. */
  lemma DeclaredNameMatchesReferences(t: TypeInfo, reg: DomainTypes, pkg: string)
    requires PackageName(t.typeClass) == Some(pkg)
    requires Canonical(t.typeClass) == pkg + "." + SimpleName(t.typeClass)
    requires ComputeTypeSpec(t, reg).Success?
    ensures ComputeTypeSpec(t, reg).value.packageName + "." + ComputeTypeSpec(t, reg).value.simpleName
      == CanonicalConfigurableTypeName(FromClass(t.typeClass)).value
  {
  }

  // ---------------------------------------------------------------------------------
  // The substitution

  function BranchFor(t: TypeInfo): SubstStmt {
    Branch(t.typeClass, "if(type == " + Canonical(t.typeClass) + ".class)",
      CanonicalConfigurableTypeName(FromClass(t.typeClass)).value)
  }

  /** `writeGraalVmConfiguration`: one branch per registered type, in registry order, then the
      cache. */
  function Substitution(reg: DomainTypes): (r: seq<SubstStmt>)
    ensures |r| == |reg| + 1
  {
    seq(|reg|, i requires 0 <= i < |reg| => BranchFor(reg[i])) + [CacheFallback]
  }

  /** The substitution returns, for each registered class, the singleton of its generated class,
      and the cached value for every other class. */
  lemma SubstitutionDispatches(reg: DomainTypes, c: JClass)
    ensures Dispatch(Substitution(reg), c)
      == if c in Classes(reg) then Instance(Canonical(c) + TYPE_POSTFIX) else Cached
  {
    var branches := seq(|reg|, i requires 0 <= i < |reg| => BranchFor(reg[i]));
    assert Substitution(reg) == [] + branches + [CacheFallback];
    assert Table([], branches);
    if c in Classes(reg) {
      var j := FirstIndex(reg, c);
      forall k | 0 <= k < j ensures branches[k].cls != c {
        assert branches[k].cls == reg[k].typeClass;
      }
      DispatchFirst([], branches, c, j);
    } else {
      forall k | 0 <= k < |branches| ensures branches[k].cls != c {
        assert branches[k].cls == reg[k].typeClass;
      }
      DispatchMiss([], branches, c);
    }
  }

  /** The first registered position of a class. */
  function FirstIndex(reg: DomainTypes, c: JClass): (j: nat)
    requires c in Classes(reg)
    ensures j < |reg| && reg[j].typeClass == c
    ensures forall k :: 0 <= k < j ==> reg[k].typeClass != c
    decreases |reg|
  {
    if reg[0].typeClass == c then 0
    else
      assert c in Classes(reg[1..]) by {
        var i :| 0 <= i < |reg| && reg[i].typeClass == c;
        assert reg[1..][i - 1] == reg[i];
      }
      1 + FirstIndex(reg[1..], c)
  }

  /** Both writers map a registered top-level class to the same generated class. */
  lemma SubstitutionsAgree(reg: DomainTypes, c: JClass)
    requires ModelWriter.ProcessFiles(reg).Success?
    requires TypeName(c) == Canonical(c)
    ensures Dispatch(Substitution(reg), c) == Dispatch(ModelWriter.Substitution(ModelWriter.ProcessFiles(reg).value), c)
  {
    SubstitutionDispatches(reg, c);
    ModelWriter.SubstitutionDispatches(reg, c);
    assert c in Classes(reg) <==> c in ModelWriter.ClassesOf(reg) by {
      if c in Classes(reg) {
        var i :| 0 <= i < |reg| && reg[i].typeClass == c;
        assert ModelWriter.ClassesOf(reg)[i] == c;
      }
      if c in ModelWriter.ClassesOf(reg) {
        var i :| 0 <= i < |reg| && ModelWriter.ClassesOf(reg)[i] == c;
      }
    }
  }
}
