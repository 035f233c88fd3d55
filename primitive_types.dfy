/** The closed table of Java primitive type names and their `java.lang` wrappers. */
module PrimitiveTypes {
  import opened Wrappers

  /** Each primitive name with the qualified name of the class that boxes it. */
  const PrimitiveTable: map<string, string> := map[
    "boolean" := "java.lang.Boolean",
    "byte" := "java.lang.Byte",
    "char" := "java.lang.Character",
    "double" := "java.lang.Double",
    "float" := "java.lang.Float",
    "int" := "java.lang.Integer",
    "long" := "java.lang.Long",
    "short" := "java.lang.Short",
    "void" := "java.lang.Void"
  ]

  /** `isPrimitiveType`: the name is a key of the table. */
  predicate IsPrimitiveType(name: string)
    ensures IsPrimitiveType(name) <==>
              name in ["boolean", "byte", "char", "double", "float", "int", "long", "short", "void"]
  {
    name in PrimitiveTable
  }

  type PrimitiveName = s: string | IsPrimitiveType(s) witness "void"

  /** A primitive type, e.g. `int` or `void`; its name is always one of the table's keys. */
  datatype PrimitiveType = PrimitiveType(name: PrimitiveName)

  /** `PrimitiveType.VOID` */
  const Void: PrimitiveType := PrimitiveType("void")

  /** The nine names the table accepts, spelled out. */
  predicate IsJavaPrimitiveName(name: string) {
    name == "boolean" || name == "byte" || name == "char" || name == "double" || name == "float" ||
    name == "int" || name == "long" || name == "short" || name == "void"
  }

  /**
   * The `PrimitiveType` constructor: it accepts exactly the nine primitive
   * names and rejects every other name with an error.
   */
  function NewPrimitiveType(name: string): (r: Result<PrimitiveType, string>)
    ensures r.Success? <==> IsJavaPrimitiveName(name)
    ensures r.Success? ==> r.value.name == name
    ensures r.Failure? ==> r.error == "invalid primitive type name: " + name
  {
    if IsPrimitiveType(name) then Success(PrimitiveType(name))
    else Failure("invalid primitive type name: " + name)
  }
}
