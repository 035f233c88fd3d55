/**
 * `createTypeMapper`: turns a type into a string by dispatching on its shape
 * to the caller's mapping, with default renderings for arrays and wildcards.
 */
module TypeMapper {
  import opened Wrappers
  import opened Common
  import opened PrimitiveTypes
  import opened Model

  /** A size that every component, argument and bound of a type is below. */
  function TypeSize(t: Type): (r: nat)
    ensures r > 0
  {
    match t
    case Primitive(_) => 1
    case Object(o) => 1 + ObjectSize(o)
    case Array(c, _) => 1 + TypeSize(c)
    case Wildcard(None) => 1
    case Wildcard(Some(c)) => 2 + ObjectSize(c.bound)
  }

  function ObjectSize(o: ObjectType): nat {
    1 + (match o.qualifier case None => 0 case Some(q) => ObjectSize(q)) + ArgumentsSize(o.arguments)
  }

  function ArgumentsSize(args: seq<Type>): (r: nat)
    ensures forall i :: 0 <= i < |args| ==> TypeSize(args[i]) <= r
  {
    if args == [] then 0 else TypeSize(args[0]) + ArgumentsSize(args[1..])
  }

  /**
   * What a callback gets to map the parts of its type with: the mapper
   * itself, for any type smaller than the one being mapped.
   */
  type SubMapper = Type --> Result<string, string>

  /**
   * A caller-supplied mapping for one shape: an error it throws, `undefined`
   * (`None`), or the string.
   */
  type Callback = (Type, SubMapper) -> Result<Option<string>, string>

  /** The optional callbacks of a `Mapping`. */
  datatype Mapping = Mapping(onPrimitive: Option<Callback>, onObject: Option<Callback>,
                             onArray: Option<Callback>, onWildcard: Option<Callback>)

  /** `type.constructor.name` of each shape. */
  function ClassName(t: Type): string {
    match t
    case Primitive(_) => "PrimitiveType"
    case Object(_) => "ObjectType"
    case Array(_, _) => "ArrayType"
    case Wildcard(_) => "Wildcard"
  }

  function ConstraintKindName(k: ConstraintKind): string {
    match k
    case Super => "super"
    case Extends => "extends"
  }

  /** The mapper as a callback sees it while `t` is being mapped. */
  function Sub(mapping: Mapping, t: Type): SubMapper
    decreases TypeSize(t), 0
  {
    (u: Type) requires TypeSize(u) < TypeSize(t) => Map(mapping, u)
  }

  /** `defaultMapping.array`: the mapped component followed by one `[]` per dimension. */
  function DefaultArray(t: Type, sub: SubMapper): Result<Option<string>, string>
    requires t.Array? && sub.requires(t.component)
  {
    match sub(t.component)
    case Failure(e) => Failure(e)
    case Success(s) => Success(Some(s + Repeat("[]", t.dimension)))
  }

  /** `defaultMapping.wildcard`: `?`, or `? extends B` / `? super B` with the bound mapped. */
  function DefaultWildcard(t: Type, sub: SubMapper): Result<Option<string>, string>
    requires t.Wildcard? && (t.constraint.Some? ==> sub.requires(Object(t.constraint.value.bound)))
  {
    match t.constraint
    case None => Success(Some("?"))
    case Some(c) =>
      match sub(Object(c.bound))
      case Failure(e) => Failure(e)
      case Success(s) => Success(Some("? " + ConstraintKindName(c.kind) + " " + s))
  }

  /**
   * `map(type)`: the callback for the type's shape (the default one for an
   * array or a wildcard without one); a missing callback or an `undefined`
   * result is "no mapping for <name> (<class>)".
   */
  function Map(mapping: Mapping, t: Type): (r: Result<string, string>)
    ensures t.Primitive? && mapping.onPrimitive.None? ==> r.Failure?
    ensures t.Object? && mapping.onObject.None? ==> r.Failure?
    ensures t == Wildcard(None) && mapping.onWildcard.None? ==> r == Success("?")
    decreases TypeSize(t), 1
  {
    var sub := Sub(mapping, t);
    var outcome :=
      match t
      case Primitive(_) => if mapping.onPrimitive.Some? then mapping.onPrimitive.value(t, sub) else Success(None)
      case Object(_) => if mapping.onObject.Some? then mapping.onObject.value(t, sub) else Success(None)
      case Array(c, _) =>
        if mapping.onArray.Some? then mapping.onArray.value(t, sub)
        else assert TypeSize(c) < TypeSize(t); DefaultArray(t, sub)
      case Wildcard(w) =>
        if mapping.onWildcard.Some? then mapping.onWildcard.value(t, sub)
        else assert w.Some? ==> sub.requires(Object(w.value.bound)); DefaultWildcard(t, sub);
    match outcome
    case Failure(e) => Failure(e)
    case Success(None) => Failure("no mapping for " + TypeName(t) + " (" + ClassName(t) + ")")
    case Success(Some(s)) => Success(s)
  }

  /** The mapper a callback gets is `map` itself, on every type below the one being mapped. */
  lemma SubIsMap(mapping: Mapping, t: Type, u: Type)
    requires TypeSize(u) < TypeSize(t)
    ensures Sub(mapping, t).requires(u) && Sub(mapping, t)(u) == Map(mapping, u)
  {
  }

  /** The component of an array, the arguments of an object type and a wildcard's bound are below it. */
  lemma PartsAreSmaller(c: Type, d: nat, o: ObjectType, k: ConstraintKind)
    ensures TypeSize(c) < TypeSize(Array(c, d))
    ensures forall i :: 0 <= i < |o.arguments| ==> TypeSize(o.arguments[i]) < TypeSize(Object(o))
    ensures o.qualifier.Some? ==> TypeSize(Object(o.qualifier.value)) < TypeSize(Object(o))
    ensures TypeSize(Object(o)) < TypeSize(Wildcard(Some(Constraint(k, o))))
  {
  }

  /**
   * Without an array callback, an array maps to its mapped component
   * followed by `[]` once per dimension, and fails when the component does.
   */
  lemma DefaultArrayMapping(mapping: Mapping, c: Type, d: nat)
    requires mapping.onArray.None?
    ensures var r := Map(mapping, Array(c, d));
            (r.Success? <==> Map(mapping, c).Success?) &&
            (r.Success? ==> r.value == Map(mapping, c).value + Repeat("[]", d)) &&
            (r.Failure? ==> r == Map(mapping, c))
  {
    SubIsMap(mapping, Array(c, d), c);
  }

  /**
   * Without a wildcard callback, a wildcard maps to `?` when it has no
   * bound, and to `? <kind> <mapped bound>` otherwise.
   */
  lemma DefaultWildcardMapping(mapping: Mapping, constraint: Option<Constraint>)
    requires mapping.onWildcard.None?
    ensures constraint.None? ==> Map(mapping, Wildcard(constraint)) == Success("?")
    ensures constraint.Some? ==>
              var b := Map(mapping, Object(constraint.value.bound));
              Map(mapping, Wildcard(constraint)) ==
                if b.Success? then Success("? " + ConstraintKindName(constraint.value.kind) + " " + b.value) else b
  {
    if constraint.Some? {
      SubIsMap(mapping, Wildcard(constraint), Object(constraint.value.bound));
    }
  }

  /** The callback of a type's shape, if the caller supplied one. */
  function CallbackFor(mapping: Mapping, t: Type): Option<Callback> {
    match t
    case Primitive(_) => mapping.onPrimitive
    case Object(_) => mapping.onObject
    case Array(_, _) => mapping.onArray
    case Wildcard(_) => mapping.onWildcard
  }

  /**
   * A supplied callback decides: its string is the result, its error is
   * passed on, and `undefined` is "no mapping for" the type; for an array or
   * a wildcard it replaces the default.
   */
  lemma CallbackUsed(mapping: Mapping, t: Type)
    requires CallbackFor(mapping, t).Some?
    ensures var outcome := CallbackFor(mapping, t).value(t, Sub(mapping, t));
            Map(mapping, t) ==
              match outcome
              case Failure(e) => Failure(e)
              case Success(None) => Failure("no mapping for " + TypeName(t) + " (" + ClassName(t) + ")")
              case Success(Some(s)) => Success(s)
  {
  }

  /**
   * An array callback that does not consult its mapper replaces the default
   * outright: the array's mapping then does not depend on how the component,
   * or anything else, would be mapped.
   */
  lemma ArrayCallbackIgnoresComponent(mapping: Mapping, other: Mapping, c: Type, d: nat)
    requires mapping.onArray.Some? && other.onArray == mapping.onArray
    requires forall sub: SubMapper :: mapping.onArray.value(Array(c, d), sub) == mapping.onArray.value(Array(c, d), Sub(other, Array(c, d)))
    ensures Map(mapping, Array(c, d)) == Map(other, Array(c, d))
  {
  }

  /**
   * A primitive or object type fails with "no mapping for <name> (<class>)"
   * exactly when no callback is supplied for it or its callback gives
   * `undefined`.
   */
  lemma NoMappingFor(mapping: Mapping, t: Type)
    requires t.Primitive? || t.Object?
    ensures var message := "no mapping for " + TypeName(t) + " (" + ClassName(t) + ")";
            Map(mapping, t) == Failure(message) <==>
              CallbackFor(mapping, t).None? ||
              CallbackFor(mapping, t).value(t, Sub(mapping, t)) in {Success(None), Failure(message)}
  {
  }

  /** With the default array and wildcard renderings, only primitive and object types need callbacks. */
  lemma DefaultsNeverUndefined(mapping: Mapping, t: Type)
    requires mapping.onArray.None? && mapping.onWildcard.None? && (t.Array? || t.Wildcard?)
    ensures Map(mapping, t).Failure? ==>
              (t.Array? && Map(mapping, t) == Map(mapping, t.component)) ||
              (t.Wildcard? && t.constraint.Some? && Map(mapping, t) == Map(mapping, Object(t.constraint.value.bound)))
  {
    if t.Array? {
      DefaultArrayMapping(mapping, t.component, t.dimension);
    } else {
      DefaultWildcardMapping(mapping, t.constraint);
    }
  }

  /** A callback that renders a type by its `name`. */
  function NameCallback(t: Type, sub: SubMapper): Result<Option<string>, string> {
    Success(Some(TypeName(t)))
  }

  /** A mapping that renders primitive and object types by name and keeps the default array and wildcard renderings. */
  const ByName := Mapping(Some(NameCallback), Some(NameCallback), None, None)

  /**
   * The default array rendering agrees with `ArrayType.name` whenever the
   * component renders as its own name.
   */
  lemma DefaultArrayIsName(c: Type, d: nat)
    requires c.Primitive? || c.Object?
    ensures Map(ByName, Array(c, d)) == Success(TypeName(Array(c, d)))
  {
    DefaultArrayMapping(ByName, c, d);
  }

  /** Under the same mapping a bounded wildcard reads `? extends B` or `? super B` with the bound's name. */
  lemma DefaultWildcardByName(k: ConstraintKind, b: ObjectType)
    ensures Map(ByName, Wildcard(Some(Constraint(k, b)))) == Success("? " + ConstraintKindName(k) + " " + b.name)
  {
    DefaultWildcardMapping(ByName, Some(Constraint(k, b)));
  }
}
