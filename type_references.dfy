/**
 * External type references (a bare qualified name), the box table and the
 * box/unbox conversions between primitives and their wrapper classes.
 */
module TypeReferences {
  import opened Wrappers
  import opened PrimitiveTypes

  /** Each wrapper class's qualified name with the primitive it unboxes to. */
  const BoxTable: map<string, string> := map[
    "java.lang.Boolean" := "boolean",
    "java.lang.Byte" := "byte",
    "java.lang.Character" := "char",
    "java.lang.Double" := "double",
    "java.lang.Float" := "float",
    "java.lang.Integer" := "int",
    "java.lang.Long" := "long",
    "java.lang.Short" := "short",
    "java.lang.Void" := "void"
  ]

  /** The nine wrapper names, spelled out. */
  predicate IsWrapperName(name: string) {
    name == "java.lang.Boolean" || name == "java.lang.Byte" || name == "java.lang.Character" ||
    name == "java.lang.Double" || name == "java.lang.Float" || name == "java.lang.Integer" ||
    name == "java.lang.Long" || name == "java.lang.Short" || name == "java.lang.Void"
  }

  /** A fully qualified reference to a type outside the modelled sources. */
  datatype TypeReference = TypeReference(name: string) {

    /** `qualifiedName()` gives back the name the reference was built with. */
    function QualifiedName(): (r: string)
      ensures TypeReference(r) == this
    {
      name
    }

    /** `boxed()`: the name is one of the wrapper classes. */
    predicate Boxed()
      ensures Boxed() <==> IsWrapperName(name)
    {
      name in BoxTable
    }

    /**
     * `unbox()`: the primitive the wrapper stands for, built through the
     * validating `PrimitiveType` constructor; any other name is an error.
     */
    function Unbox(): (r: Result<PrimitiveType, string>)
      ensures r.Success? <==> IsWrapperName(name)
      ensures r.Failure? ==> r.error == "not a box type: " + name
    {
      if Boxed() then NewPrimitiveType(BoxTable[name])
      else Failure("not a box type: " + name)
    }
  }

  /** `PrimitiveType.box()`: the wrapper class of a primitive. */
  function Box(p: PrimitiveType): (r: TypeReference)
    ensures r.Boxed()
  {
    TypeReference(PrimitiveTable[p.name])
  }

  /** `boxed()` holds exactly for the nine `java.lang` wrapper names. */
  lemma BoxedIffWrapper(t: TypeReference)
    ensures t.Boxed() <==> IsWrapperName(t.name)
  {
  }

  /** `int` boxes to `java.lang.Integer`, `char` to `java.lang.Character`, `void` to `java.lang.Void`. */
  lemma BoxExamples()
    ensures Box(PrimitiveType("int")).name == "java.lang.Integer"
    ensures Box(PrimitiveType("char")).name == "java.lang.Character"
    ensures Void.name == "void" && Box(Void).name == "java.lang.Void"
  {
  }

  /** Unboxing the box of a primitive gives the primitive back. */
  lemma UnboxBox(p: PrimitiveType)
    ensures Box(p).Unbox() == Success(p)
  {
  }

  /** Boxing the primitive of a wrapper gives a reference with the wrapper's name. */
  lemma BoxUnbox(t: TypeReference)
    requires t.Boxed()
    ensures t.Unbox().Success? && Box(t.Unbox().value).name == t.name
  {
  }

  /** Distinct primitives box to distinct wrappers. */
  lemma BoxInjective(p: PrimitiveType, q: PrimitiveType)
    requires p != q
    ensures Box(p) != Box(q)
  {
    if Box(p) == Box(q) {
      UnboxBox(p);
      UnboxBox(q);
    }
  }
}
