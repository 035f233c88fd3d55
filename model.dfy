/**
 * The semantic model's data: compilation units owning trees of type
 * declarations, members, type parameters and type uses (primitive, object,
 * array, wildcard). Back-references to parents are not stored: a declared
 * type is addressed by a `Container` (unit index plus nested-type positions),
 * see module TypeTree.
 */
module Model {
  import opened Wrappers
  import opened Common
  import opened PrimitiveTypes

  /** The kinds of type declaration: class, interface, enum, record, annotation. */
  datatype Kind = ClassKind | InterfaceKind | EnumKind | RecordKind | AnnotationKind

  /**
   * A type container: the compilation unit `unit` itself when `path` is empty,
   * otherwise the declared type reached from that unit's top-level types by
   * taking the nested type at each position of `path` in turn.
   */
  datatype Container = Container(unit: nat, path: seq<nat>)

  datatype ConstraintKind = Super | Extends

  /**
   * A use of a type. `Wildcard` only occurs as a type argument; the component
   * of an `Array` is a primitive or an object type.
   */
  datatype Type =
    | Primitive(primitive: PrimitiveType)
    | Object(object: ObjectType)
    | Array(component: Type, dimension: nat)
    | Wildcard(constraint: Option<Constraint>)

  /** A non-primitive type such as `List<T>`, resolved lazily against `container`. */
  datatype ObjectType = ObjectType(container: Container, qualifier: Option<ObjectType>,
                                   name: string, arguments: seq<Type>)

  /** The bound of a wildcard, `? extends T` or `? super T`. */
  datatype Constraint = Constraint(kind: ConstraintKind, bound: ObjectType)

  datatype TypeParameter = TypeParameter(name: string, constraints: seq<ObjectType>)

  datatype Parameter = Parameter(name: string, declaredType: Type)

  datatype Method = Method(name: string, modifiers: seq<string>, returnType: Type,
                           parameters: seq<Parameter>)

  datatype Field = Field(name: string, modifiers: seq<string>, declaredType: Type)

  /** A class, interface, enum, record or annotation declaration and its nested types. */
  datatype TypeDeclaration = TypeDeclaration(
    kind: Kind,
    name: string,
    modifiers: seq<string>,
    parameters: seq<TypeParameter>,
    methods: seq<Method>,
    fields: seq<Field>,
    types: seq<TypeDeclaration>)

  /** One source file: optional package, import names in order, top-level types in order. */
  datatype CompilationUnit = CompilationUnit(packageName: Option<string>, imports: seq<string>,
                                             types: seq<TypeDeclaration>)

  function DeclName(d: TypeDeclaration): string { d.name }

  function ParamName(p: TypeParameter): string { p.name }

  /** `TypeMember.isPublic`: interface members are public unless private or protected. */
  predicate IsPublic(modifiers: seq<string>, owner: Kind)
    ensures "public" in modifiers && "private" !in modifiers && "protected" !in modifiers ==> IsPublic(modifiers, owner)
  {
    if owner == InterfaceKind then "private" !in modifiers && "protected" !in modifiers
    else "public" in modifiers
  }

  /** A member written without modifiers is public exactly when it belongs to an interface. */
  lemma NoModifiersPublicOnlyInInterface(owner: Kind)
    ensures IsPublic([], owner) <==> owner == InterfaceKind
  {
  }

  /** The `name` of each shape of type; an array's name appends one `[]` per dimension. */
  function TypeName(t: Type): (r: string)
    ensures t.Array? ==> EndsWith(r, Repeat("[]", t.dimension))
  {
    match t
    case Primitive(p) => p.name
    case Object(o) => o.name
    case Array(c, d) => TypeName(c) + Repeat("[]", d)
    case Wildcard(_) => "?"
  }

  /** `ObjectType.qualifiedName`: the qualifier's qualified name, a '.', then the name. */
  function ObjectQualifiedName(o: ObjectType): (r: string)
    ensures EndsWith(r, o.name)
  {
    var q := match o.qualifier
      case None => None
      case Some(outer) => Some(ObjectQualifiedName(outer));
    QualifiedName(q, o.name)
  }

  /**
   * `qualifiedName` of each shape; a primitive's is taken to be its name and
   * a wildcard's to be "?", since neither shape defines one.
   */
  function TypeQualifiedName(t: Type): (r: string)
    ensures match t
            case Object(o) => EndsWith(r, o.name)
            case _ => true
    ensures t.Array? ==> EndsWith(r, Repeat("[]", t.dimension))
  {
    match t
    case Primitive(p) => p.name
    case Object(o) => ObjectQualifiedName(o)
    case Array(c, d) => TypeQualifiedName(c) + Repeat("[]", d)
    case Wildcard(_) => "?"
  }

  /** Each extra dimension appends exactly one `[]` to an array's name and qualified name. */
  lemma ArrayDimensionAppends(c: Type, d: nat)
    ensures TypeName(Array(c, d + 1)) == TypeName(Array(c, d)) + "[]"
    ensures TypeQualifiedName(Array(c, d + 1)) == TypeQualifiedName(Array(c, d)) + "[]"
  {
    RepeatSucc("[]", d);
  }
}
