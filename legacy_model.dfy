/**
 * The older model: compilation units holding interfaces, classes and enums
 * that refer back to their parent. As in module Model, a type is addressed by
 * its path of nested-type positions from the unit's top-level types, and its
 * parent is the unit (path of length one) or the type at the shorter path.
 * Each operation is defined here as the older code does it and shown to agree
 * with the current model's.
 */
module LegacyModel {
  import opened Wrappers
  import opened Common
  import opened Model
  import opened TypeTree
  import Projects

  datatype LegacyKind = InterfaceType | ClassType | EnumType

  /** A declared type with its nested types; members are not needed here. */
  datatype LegacyType = LegacyType(kind: LegacyKind, name: string, types: seq<LegacyType>)

  datatype LegacyUnit = LegacyUnit(packageName: Option<string>, imports: seq<string>, types: seq<LegacyType>)

  // ----- the correspondence with the current model -----

  function KindOf(k: LegacyKind): Kind {
    match k
    case InterfaceType => InterfaceKind
    case ClassType => ClassKind
    case EnumType => EnumKind
  }

  /** The current model's declaration for a type of the older one (no members, same nested types). */
  function Convert(t: LegacyType): (r: TypeDeclaration)
    ensures r.name == t.name && r.kind == KindOf(t.kind) && |r.types| == |t.types|
    decreases t
  {
    TypeDeclaration(KindOf(t.kind), t.name, [], [], [], [], ConvertAll(t.types))
  }

  function ConvertAll(ts: seq<LegacyType>): (r: seq<TypeDeclaration>)
    ensures |r| == |ts|
    ensures forall i :: 0 <= i < |ts| ==> r[i] == Convert(ts[i])
    decreases ts
  {
    seq(|ts|, i requires 0 <= i < |ts| => Convert(ts[i]))
  }

  function ConvertUnit(u: LegacyUnit): CompilationUnit {
    CompilationUnit(u.packageName, u.imports, ConvertAll(u.types))
  }

  // ----- following `parent` -----

  /** The nested types of the type at `path` (the unit's types for the empty path), if the path exists. */
  function Children(types: seq<LegacyType>, path: seq<nat>): Option<seq<LegacyType>>
    decreases |path|
  {
    if path == [] then Some(types)
    else match Children(types, Parent(path))
      case None => None
      case Some(cs) => if Last(path) < |cs| then Some(cs[Last(path)].types) else None
  }

  predicate IsLegacyTypePath(types: seq<LegacyType>, path: seq<nat>) {
    path != [] && Children(types, path).Some?
  }

  function TypeAt(types: seq<LegacyType>, path: seq<nat>): LegacyType
    requires IsLegacyTypePath(types, path)
  {
    Children(types, Parent(path)).value[Last(path)]
  }

  lemma ParentIsType(types: seq<LegacyType>, path: seq<nat>)
    requires IsLegacyTypePath(types, path) && |path| > 1
    ensures IsLegacyTypePath(types, Parent(path))
  {
  }

  /** The same paths exist in both models, with the converted nested types. */
  lemma {:induction false} ChildrenAgree(types: seq<LegacyType>, path: seq<nat>)
    ensures Children(types, path).Some? <==> ChildrenAt(ConvertAll(types), path).Some?
    ensures Children(types, path).Some? ==> ChildrenAt(ConvertAll(types), path).value == ConvertAll(Children(types, path).value)
    decreases |path|
  {
    if path != [] {
      ChildrenAgree(types, Parent(path));
    }
  }

  lemma TypeAtAgrees(types: seq<LegacyType>, path: seq<nat>)
    requires IsLegacyTypePath(types, path)
    ensures IsTypePath(ConvertAll(types), path)
    ensures DeclAt(ConvertAll(types), path) == Convert(TypeAt(types, path))
  {
    ChildrenAgree(types, path);
    ChildrenAgree(types, Parent(path));
  }

  // ----- Type.qualifiedName -----

  /**
   * `Type.qualifiedName()`: the parent's name (the package for a top-level
   * type, the enclosing type's qualified name otherwise), a '.', and the
   * type's name; just the name when the parent has none.
   */
  function LegacyQualifiedName(u: LegacyUnit, path: seq<nat>): (r: string)
    requires IsLegacyTypePath(u.types, path)
    ensures EndsWith(r, TypeAt(u.types, path).name)
    decreases |path|
  {
    var parentName :=
      if |path| == 1 then u.packageName
      else Some(LegacyQualifiedName(u, Parent(path)));
    if parentName.None? then TypeAt(u.types, path).name
    else parentName.value + "." + TypeAt(u.types, path).name
  }

  /** The older `qualifiedName()` is the current model's `qualifiedName` of the same type. */
  lemma {:induction false} QualifiedNameAgrees(u: LegacyUnit, path: seq<nat>)
    requires IsLegacyTypePath(u.types, path)
    ensures IsTypePath(ConvertUnit(u).types, path)
    ensures LegacyQualifiedName(u, path) == TypeTree.TypeQualifiedName(ConvertUnit(u), path)
    decreases |path|
  {
    TypeAtAgrees(u.types, path);
    if |path| > 1 {
      QualifiedNameAgrees(u, Parent(path));
    }
  }

  /**
   * So a qualified name is the package (if any) and the names along the path
   * joined by '.': `p.Outer.Inner`, or `Outer.Inner` without a package.
   */
  lemma LegacyQualifiedNameJoins(u: LegacyUnit, path: seq<nat>)
    requires IsLegacyTypePath(u.types, path)
    ensures IsTypePath(ConvertUnit(u).types, path)
    ensures LegacyQualifiedName(u, path) ==
            QualifiedName(u.packageName, JoinDots(PathNames(ConvertUnit(u).types, path)))
  {
    QualifiedNameAgrees(u, path);
    QualifiedNameJoinsPath(ConvertUnit(u), path);
  }

  // ----- CompilationUnit.visitTypes -----

  /** `visit(type)`: the type itself, then each of its nested types' visits in order. */
  function Visit(t: LegacyType, path: seq<nat>): seq<seq<nat>>
    decreases t, 0
  {
    [path] + VisitEach(t.types, path, 0)
  }

  /** `visit` applied to `types[i..]`, the nested types at `prefix`, one after another. */
  function VisitEach(types: seq<LegacyType>, prefix: seq<nat>, i: nat): seq<seq<nat>>
    decreases types, |types| - i
  {
    if i >= |types| then [] else Visit(types[i], prefix + [i]) + VisitEach(types, prefix, i + 1)
  }

  /** `CompilationUnit.visitTypes`: the paths of the types in the order the callback receives them. */
  function LegacyVisitTypes(u: LegacyUnit): (r: seq<seq<nat>>)
    ensures r == VisitTypes(ConvertUnit(u).types)
  {
    VisitEachAgrees(u.types, [], 0);
    VisitEach(u.types, [], 0)
  }

  lemma {:induction false} VisitEachAgrees(types: seq<LegacyType>, prefix: seq<nat>, i: nat)
    ensures VisitEach(types, prefix, i) == VisitFrom(ConvertAll(types), prefix, i)
    decreases types, |types| - i
  {
    if i < |types| {
      VisitEachAgrees(types[i].types, prefix + [i], 0);
      VisitEachAgrees(types, prefix, i + 1);
    }
  }

  /**
   * The older `visitTypes` visits every type of the unit exactly once, each
   * before its nested types and after its earlier siblings, in the same order
   * as the current model's.
   */
  lemma LegacyVisitOrder(u: LegacyUnit)
    ensures LegacyVisitTypes(u) == VisitTypes(ConvertUnit(u).types)
    ensures forall q :: q in LegacyVisitTypes(u) <==> IsLegacyTypePath(u.types, q)
    ensures StrictlySorted(LegacyVisitTypes(u))
  {
    VisitEachAgrees(u.types, [], 0);
    VisitTypesOrder(ConvertUnit(u).types);
    forall q
      ensures IsLegacyTypePath(u.types, q) <==> IsTypePath(ConvertUnit(u).types, q)
    {
      ChildrenAgree(u.types, q);
    }
  }

  // ----- CompilationUnit.findImport -----

  /** The position of the first of `imports[i..]` ending in `suffix`. */
  function FirstEnding(imports: seq<string>, suffix: string, i: nat): (r: Option<nat>)
    ensures r.Some? ==> i <= r.value < |imports| && EndsWith(imports[r.value], suffix) &&
                        forall j :: i <= j < r.value ==> !EndsWith(imports[j], suffix)
    ensures r.None? ==> forall j :: i <= j < |imports| ==> !EndsWith(imports[j], suffix)
    decreases |imports| - i
  {
    if i >= |imports| then None
    else if EndsWith(imports[i], suffix) then Some(i)
    else FirstEnding(imports, suffix, i + 1)
  }

  /** `findImport(name)`: the first import ending in `.name`. */
  function LegacyFindImport(u: LegacyUnit, name: string): (r: Option<string>)
    ensures r.Some? ==> r.value in u.imports && EndsWith(r.value, "." + name)
    ensures r.None? <==> forall s :: s in u.imports ==> !EndsWith(s, "." + name)
  {
    match FirstEnding(u.imports, "." + name, 0)
    case None => None
    case Some(i) => Some(u.imports[i])
  }

  /**
   * The older `findImport` is the current one: the first import ending in
   * `.name`, so a later import with the same ending is never returned.
   */
  lemma FindImportAgrees(u: LegacyUnit, name: string)
    ensures LegacyFindImport(u, name) == Projects.FindImport(u.imports, name)
  {
    var r := Projects.FindImport(u.imports, name);
    var f := FirstEnding(u.imports, "." + name, 0);
    if r.Some? {
      var i :| 0 <= i < |u.imports| && u.imports[i] == r.value &&
               forall j :: 0 <= j < i ==> !EndsWith(u.imports[j], "." + name);
      assert f == Some(i);
    }
  }

  // ----- Type.toJSON -----

  /** What `toJSON` makes of a type: its own fields, with `parent` replaced by a marker string. */
  datatype TypeJson = TypeJson(kind: LegacyKind, name: string, types: seq<LegacyType>, parent: string)

  const UnitMarker := "*(<compilation unit>)"

  /**
   * `Type.toJSON`: a copy of the type whose `parent` is `*(<compilation unit>)`
   * for a top-level type and `*(<parent name>)` for a nested one, so that
   * serialising does not follow the back-reference.
   */
  function ToJson(u: LegacyUnit, path: seq<nat>): (r: TypeJson)
    requires IsLegacyTypePath(u.types, path)
    ensures r.kind == TypeAt(u.types, path).kind
    ensures r.name == TypeAt(u.types, path).name
    ensures r.types == TypeAt(u.types, path).types
  {
    var t := TypeAt(u.types, path);
    var parent := if |path| == 1 then UnitMarker else "*(" + TypeAt(u.types, Parent(path)).name + ")";
    TypeJson(t.kind, t.name, t.types, parent)
  }

  /**
   * The marker tells a top-level type from a nested one, and names a nested
   * type's parent, as long as that name is a Java identifier (which never
   * contains '<').
   */
  lemma ParentMarker(u: LegacyUnit, path: seq<nat>)
    requires IsLegacyTypePath(u.types, path)
    requires |path| > 1 ==> '<' !in TypeAt(u.types, Parent(path)).name
    ensures ToJson(u, path).parent == UnitMarker <==> |path| == 1
    ensures |path| > 1 ==> ToJson(u, path).parent == "*(" + TypeAt(u.types, Parent(path)).name + ")"
  {
    if |path| > 1 {
      var n := TypeAt(u.types, Parent(path)).name;
      var m := "*(" + n + ")";
      if n == [] {
        assert |m| < |UnitMarker|;
      } else {
        assert m[2] == n[0] != UnitMarker[2];
      }
    }
  }
}
