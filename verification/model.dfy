/** The entity/type model the generator reads, and the collaborators it consults.

    Model objects are immutable records. A collaborator answer that depends only on the
    object it is asked about (`Filters.isAvailable(routine)`, `Utils.countParameters`,
    `Utils.isPolymorphic(base)`, a `hashCode()` ...) is carried as an attribute of the
    record, which makes it an uninterpreted function of that object. Collaborator
    queries on type expressions (`Filters.needsExtraReferencing`, `Type.formatCpp`,
    `RoutineDeduction.*` ...) are the function-valued fields of `Env`. */
module Model {
  import opened Support

  /** cv-qualifier bits of a type node. */
  type CV = bv8
  const CONST: CV := 1
  const VOLATILE: CV := 2

  /** Object identity, the key of the `uid` map. Native objects come from the analysed
      program; `Made` objects are synthesized by the generator (an interceptor class, its
      scope, clones of routines and fields) and differ from every native object. */
  datatype ObjId = Native(n: nat) | Made(tag: Tag, owner: ObjId)

  datatype Tag =
    | InterceptorClass
    | InterceptorScope
    | InitRoutine
    | PyRoutine
    | DefaultCtor
    | CtorClone(ctor: ObjId)
    | OverrideClone(routine: ObjId)
    | FieldClone(field: ObjId)
    | FieldTypedef(field: ObjId)

  datatype Visibility = Public | Protected | Private
  datatype Virtuality = NonVirtual | Virtual | PureVirtual
  datatype Storage = Normal | Extern | Static

  // ---------------------------------------------------------------------------
  // Type expressions

  /** The entity at the leaf of a type expression. */
  datatype Base =
    | Primitive(name: string)
    | EnumBase(id: ObjId, name: string)
    | AliasBase(id: ObjId, name: string, aliased: Type)
    | ClassBase(id: ObjId, name: string)

  /** A template argument; `UnknownArg` is the Java `null` entry of the argument array. */
  datatype TemplateArg = UnknownArg | TypenameArg(arg: Type) | ValueArg(text: string)

  /** A type expression tree: leaf (with cv bits and optional template arguments),
      pointer (with its own cv bits), reference, array. */
  datatype Type =
    | Leaf(base: Base, cv: CV, templateArgs: Option<seq<TemplateArg>>)
    | Pointer(cv: CV, target: Type)
    | Reference(target: Type)
    | Array(element: Type)

  /** `new Type(new Type.TypeNode(p))`: a bare leaf without qualifiers. */
  function Plain(b: Base): Type { Leaf(b, 0, None) }

  const VOID := Primitive("void")
  const FLOAT := Primitive("float")
  const DOUBLE := Primitive("double")
  const LONGLONG := Primitive("long long")
  const ULONGLONG := Primitive("unsigned long long")
  const CHAR := Primitive("char")
  const SCRIPTING_ELEMENT := Primitive("scripting_element")

  /** The base entity of a type: the leaf reached by descending the tree. */
  function BaseOf(t: Type): Base
  {
    match t
    case Leaf(b, _, _) => b
    case Pointer(_, u) => BaseOf(u)
    case Reference(u) => BaseOf(u)
    case Array(u) => BaseOf(u)
  }

  /** Number of pointer nodes on the way to the leaf. */
  function PointerDegree(t: Type): nat
  {
    match t
    case Leaf(_, _, _) => 0
    case Pointer(_, u) => 1 + PointerDegree(u)
    case Reference(u) => PointerDegree(u)
    case Array(u) => PointerDegree(u)
  }

  /** The template arguments carried by the leaf, if any. */
  function TemplateArgsOf(t: Type): Option<seq<TemplateArg>>
  {
    match t
    case Leaf(_, _, args) => args
    case Pointer(_, u) => TemplateArgsOf(u)
    case Reference(u) => TemplateArgsOf(u)
    case Array(u) => TemplateArgsOf(u)
  }

  predicate IsReference(t: Type) { t.Reference? }
  predicate IsArray(t: Type) { t.Array? }

  /** Size measures used to show that alias resolution terminates. */
  function TypeSize(t: Type): nat
  {
    match t
    case Leaf(b, _, _) => 1 + BaseSize(b)
    case Pointer(_, u) => 1 + TypeSize(u)
    case Reference(u) => 1 + TypeSize(u)
    case Array(u) => 1 + TypeSize(u)
  }

  function BaseSize(b: Base): nat
  {
    match b
    case AliasBase(_, _, t) => 1 + TypeSize(t)
    case _ => 0
  }

  lemma {:induction false} BaseSmallerThanType(t: Type)
    ensures BaseSize(BaseOf(t)) < TypeSize(t)
  {
    match t
    case Leaf(_, _, _) =>
    case Pointer(_, u) => BaseSmallerThanType(u);
    case Reference(u) => BaseSmallerThanType(u);
    case Array(u) => BaseSmallerThanType(u);
  }

  // ---------------------------------------------------------------------------
  // Entities

  /** The container back-reference of an entity, by its full name. */
  datatype Container = NoContainer | InAggregate(fullName: string) | InNamespace(fullName: string)

  /** Declaration site: source file and line of the declaration. */
  datatype Declaration = Declaration(file: string, line: nat)

  /** `isOutput` is `Filters.isOutputParameter(parameter)`. */
  datatype Parameter = Parameter(name: string, ptype: Type, isOutput: bool)

  datatype RoutineKind = PlainRoutine | Constructor(explicit: bool) | Destructor | ConversionOperator

  /** A routine together with its containment attributes. `minArgs`/`maxArgs` are
      `Utils.minimalArgumentCount`/`Utils.countParameters`; `available` is
      `Filters.isAvailable(routine)`; `throwsClause` is `None` when the routine has no
      throw clause, otherwise the full names of the thrown classes. A constructor's
      return type is "nothing" (`None`). */
  datatype Routine = Routine(
    id: ObjId,
    name: string,
    fullName: string,
    cleanName: string,
    container: Container,
    params: seq<Parameter>,
    returnType: Option<Type>,
    kind: RoutineKind,
    isConst: bool,
    staticCallWrapper: bool,
    minArgs: nat,
    maxArgs: nat,
    available: bool,
    vis: Visibility,
    virt: Virtuality,
    throwsClause: Option<seq<string>>)
  {
    predicate IsConstructor() { kind.Constructor? }
    predicate IsDestructor() { kind.Destructor? }
  }

  /** A data member or global variable. `wrapped` marks the field clones the interceptor
      creates (`Field.FieldType.WRAPPED`); `available` is `Filters.isAvailable(field,
      connection)`; `hasSetter` is `Filters.hasSetter(field)`. */
  datatype Field = Field(
    id: ObjId,
    name: string,
    fullName: string,
    cleanName: string,
    container: Container,
    decl: Option<Declaration>,
    ftype: Type,
    wrapped: bool,
    available: bool,
    hasSetter: bool,
    vis: Visibility,
    storage: Storage)

  /** One inheritance connection of a class: visibility, the base's scope, the name
      `Utils.actualBaseName(connection)` gives it, its clean full name, whether it is a
      template (then the upcast uses `templateExpr`, `Utils.templateCppExpression`), and
      `Utils.isPolymorphic(base)`. */
  datatype Inheritance = Inheritance(
    vis: Visibility,
    baseScope: ObjId,
    actualName: string,
    baseCleanName: string,
    baseTemplated: bool,
    templateExpr: string,
    basePolymorphic: bool)

  /** Collaborator answers about a class. `abstractCheck`/`polymorphicCheck` are the
      one-argument `Utils.isAbstract`/`Utils.isPolymorphic`, `None` when they throw
      `MissingInformationException`. */
  datatype ClassTraits = ClassTraits(
    available: bool,
    isAbstract: bool,
    mustHaveCtor: bool,
    assignable: bool,
    cloneable: bool,
    hasOutput: bool,
    hasVirtuals: bool,
    extendible: bool,
    abstractCheck: Option<bool>,
    polymorphicCheck: Option<bool>)

  /** A class (`Aggregate`) with its scope. `scopeTag` is the scope's `hashCode()`,
      an opaque identifier; `virtuals` is `Utils.virtualMethods(subject, instances,
      false)`, `accessibleFields` is `Utils.accessibleFields(subject, instances,
      PROTECTED)` and `operators` is `Utils.findGloballyScopedOperators`. */
  datatype Aggregate = Aggregate(
    id: ObjId,
    scope: ObjId,
    scopeTag: string,
    name: string,
    fullName: string,
    cleanName: string,
    routines: seq<Routine>,
    fields: seq<Field>,
    bases: seq<Inheritance>,
    templated: bool,
    specialized: bool,
    traits: ClassTraits,
    virtuals: seq<Routine>,
    accessibleFields: seq<Field>,
    operators: seq<Routine>)

  /** An enumerated type; `tag` is its `hashCode()`. */
  datatype EnumType = EnumType(id: ObjId, cleanName: string, tag: string)

  /** A typedef. `declared` is `Filters.isDeclared`, `encapsulated` is
      `Filters.needsEncapsulation(alias, false)`. */
  datatype Typedef = Typedef(
    id: ObjId,
    cleanName: string,
    aliased: Type,
    declared: bool,
    encapsulated: bool)

  // ---------------------------------------------------------------------------
  // Collaborators on type expressions

  /** `RoutineDeduction.ParameterTransformer`: the type as it appears in the flat
      signature, the body conversion (a function from a source expression to a target
      expression) and the registration type string. */
  datatype Transformer = Transformer(protoType: Type, body: string -> string, regType: string)

  /** Collaborators that answer questions about type expressions and format them:
      `Filters.needsExtraReferencing/isSmallPrimitive/isPrimitive/getTouchup/isArray`,
      `TypeToolbox.getOriginalType(Shallow)`, `Type.isFlat`, `Type.formatCpp(name)`
      (`declare`) and `formatCpp()` (`spell`), `Utils.cleanFullName` on a base
      (`cleanName`), `Utils.cleanFormatCpp`, `Utils.actualBaseName`, the `RoutineDeduction`
      deductions, the `Formatters` overloads the generator calls but which are not part of
      this model (`formatDeclaration` with four and five arguments, `formatParameters`,
      `formatArguments`, `formatSimpleType`, `formatMember(field, bool)`), and `Entity.getFullName` on a base. */
  datatype Env = Env(
    needsExtraReferencing: Type -> bool,
    isSmallPrimitive: Base -> bool,
    isPrimitive: Base -> bool,
    touchup: Type -> Option<Type>,
    isArrayType: Type -> bool,
    originalType: Type -> Type,
    originalTypeShallow: Type -> Type,
    isFlat: Type -> bool,
    declare: (Type, string) -> string,
    spell: Type -> string,
    cleanName: Base -> string,
    cleanFormat: Type -> string,
    actualBaseName: Type -> string,
    deduceParameters: (seq<Parameter>, int) -> Result<seq<Transformer>>,
    deduceReturn: Routine -> Result<Transformer>,
    deduceVariable: Type -> Result<Transformer>,
    deduceParameter: Type -> Result<Transformer>,
    formatReturnDeclaration: (Option<Type>, string) -> string,
    formatParameters: seq<Transformer> -> string,
    formatArguments: seq<Transformer> -> string,
    formatFieldAccess: (Field, bool) -> string,
    formatVariableDeclaration: (Type, string, bool) -> string,
    formatSimpleType: string -> string,
    baseFullName: Base -> string)

  // ---------------------------------------------------------------------------
  // Registration records

  /** A `RegData` initializer: name, type signature, parameter-descriptor array (or
      `"0"`), implementation symbol (or `"0"`). `EndOfList` is `{ 0,0,0,0 }`. */
  datatype RegLine = Entry(name: string, rtype: string, proto: string, sym: string) | EndOfList

  const NULL_SYMBOL := "0"
}
