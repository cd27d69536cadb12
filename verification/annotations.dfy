/** Annotations read off domain types and their fields, and the literal each annotation
    argument becomes in generated code. */
module Annotations {
  import opened JavaTypes

  /** The runtime value of one annotation argument.
      `OtherValue` carries the value's `toString()` and whether its runtime class is a
      simple property type (`BeanUtils.isSimpleProperty`); a `String` and an enum constant
      always are. */
  datatype AnnotationValue =
    | StringValue(text: string)
    | EnumValue(enumType: JClass, constant: string)
    | OtherValue(text: string, simpleClass: bool)

  /** One argument: the annotation member's name, its declared return type and the value. */
  datatype AnnotationArg = AnnotationArg(member: string, returnType: JClass, value: AnnotationValue)

  /** An annotation present on a type or field, with its arguments in declaration order. */
  datatype AnnotationInfo = AnnotationInfo(annotation: JClass, arguments: seq<AnnotationArg>)

  const ID_ANNOTATION: string := "org.springframework.data.annotation.Id"

  /** `AnnotationInfo.matches(Id.class)`. */
  predicate IsIdAnnotation(a: AnnotationInfo) {
    Name(a.annotation) == ID_ANNOTATION
  }

  /** `BeanUtils.isSimpleProperty(value.getClass())`. */
  predicate IsSimplePropertyValue(v: AnnotationValue) {
    match v
    case StringValue(_) => true
    case EnumValue(_, _) => true
    case OtherValue(_, simple) => simple
  }

  /** `value.toString()`; an enum constant prints its name. */
  function ValueText(v: AnnotationValue): string {
    match v
    case StringValue(s) => s
    case EnumValue(_, constant) => constant
    case OtherValue(text, _) => text
  }

  /** The literal Java source an argument value stands for: an enum constant qualified by
      its type, a string in double quotes, anything else as printed. `qualifier` is how a
      writer spells the enum type. */
  function Literal(v: AnnotationValue, qualifier: JClass -> string): string {
    match v
    case EnumValue(e, constant) => qualifier(e) + "." + constant
    case StringValue(s) => "\"" + s + "\""
    case OtherValue(text, _) => text
  }

  /** The branch structure both writers use to turn a value into source text: the enum and
      string tests are made inside a check on the value's class, and the string test is
      repeated outside it. */
  function ArgumentValueText(v: AnnotationValue, qualifier: JClass -> string): (r: string)
    ensures r == Literal(v, qualifier)
  {
    if IsSimplePropertyValue(v) then
      if v.EnumValue? then qualifier(v.enumType) + "." + ValueText(v)
      else if v.StringValue? then "\"" + ValueText(v) + "\""
      else ValueText(v)
    else if v.StringValue? then "\"" + ValueText(v) + "\""
    else ValueText(v)
  }
}
