/**
 * `resolve`: the prioritised lookup that turns a type name used inside a
 * container (a compilation unit or a declared type) into a declared type of
 * the project, a type parameter of an enclosing type, or an external
 * reference, or fails with a `ResolveError`.
 */
module Resolution {
  import opened Wrappers
  import opened Common
  import opened Model
  import opened TypeTree
  import opened TypeReferences
  import opened Projects

  /** `ResolvedType`: a declared type, a type parameter (owner and position), or an external reference. */
  datatype Resolved =
    | Declared(decl: Container)
    | Param(owner: Container, index: nat)
    | Reference(ref: TypeReference)

  /** `ResolveError`: the container the name was used in, and the name that could not be resolved. */
  datatype ResolveError = ResolveError(context: Container, typeName: string) {
    function Message(): (r: string)
      ensures EndsWith(r, typeName) && StartsWith(r, "cannot resolve type: ")
    {
      "cannot resolve type: " + typeName
    }
  }

  /** `JAVA_LANG_TYPES`: the `java.lang` names usable without an import. */
  const JavaLangTypes: seq<string> := [
    "Appendable", "AutoCloseable", "Boolean", "Byte", "Character", "CharSequence", "Class",
    "ClassLoader", "Cloneable", "Comparable", "Deprecated", "Double", "Enum", "Error", "Exception",
    "Float", "FunctionalInterface", "Integer", "Iterable", "Long", "Math", "Number", "Object",
    "Override", "Package", "Process", "ProcessBuilder", "Readable", "Runnable", "Runtime",
    "SafeVarargs", "Short", "StackTraceElement", "String", "StringBuffer", "StringBuilder",
    "SuppressWarnings", "Thread", "ThreadGroup", "ThreadLocal", "Throwable", "Void"
  ]

  // ----- the enclosing scopes of a declared type -----

  /** The enclosing type at nesting level `k` of a declared type (level `|c.path|` is the type itself). */
  function EnclosingDecl(units: seq<CompilationUnit>, c: Container, k: nat): TypeDeclaration
    requires IsTypeContainer(units, c) && 1 <= k <= |c.path|
  {
    PrefixValid(units[c.unit].types, c.path, k);
    DeclAt(units[c.unit].types, c.path[..k])
  }

  /** The declaration has a type parameter named `name`. */
  predicate DeclaresParameter(d: TypeDeclaration, name: string) {
    exists t :: t in d.parameters && t.name == name
  }

  /** The declaration is named `name` or has a direct nested type named `name`. */
  predicate NamesType(d: TypeDeclaration, name: string) {
    d.name == name || exists t :: t in d.types && t.name == name
  }

  /** `o` is the container itself or one of its enclosing types. */
  predicate Encloses(c: Container, o: Container) {
    o.unit == c.unit && 1 <= |o.path| <= |c.path| && o.path == c.path[..|o.path|]
  }

  /** The answer of the type-parameter search at one level: the first parameter named `name`. */
  function ParameterAt(u: nat, name: string): (seq<nat>, TypeDeclaration) -> Option<Resolved> {
    (path: seq<nat>, d: TypeDeclaration) =>
      match FindIndex(d.parameters, ParamName, name)
      case Some(i) => Some(Param(Container(u, path), i))
      case None => None
  }

  /** The answer of the declared-type search at one level: the type itself, else its first nested type named `name`. */
  function DeclaredAt(u: nat, name: string): (seq<nat>, TypeDeclaration) -> Option<Resolved> {
    (path: seq<nat>, d: TypeDeclaration) =>
      if d.name == name then Some(Declared(Container(u, path)))
      else match FindIndex(d.types, DeclName, name)
        case Some(i) => Some(Declared(Container(u, path + [i])))
        case None => None
  }

  /** What the type-parameter search finds at level `k`. */
  lemma ParameterLevel(units: seq<CompilationUnit>, c: Container, name: string, k: nat)
    requires IsTypeContainer(units, c) && 1 <= k <= |c.path|
    ensures ValidPath(units[c.unit].types, c.path)
    ensures LevelAnswer(units[c.unit].types, c.path, k, ParameterAt(c.unit, name)).Some? <==>
            DeclaresParameter(EnclosingDecl(units, c, k), name)
    ensures LevelAnswer(units[c.unit].types, c.path, k, ParameterAt(c.unit, name)).Some? ==>
              var r := LevelAnswer(units[c.unit].types, c.path, k, ParameterAt(c.unit, name)).value;
              r.Param? && r.owner == Container(c.unit, c.path[..k]) && Encloses(c, r.owner) &&
              IsTypeContainer(units, r.owner) && ContainerDecl(units, r.owner) == EnclosingDecl(units, c, k) &&
              r.index < |EnclosingDecl(units, c, k).parameters| &&
              EnclosingDecl(units, c, k).parameters[r.index].name == name &&
              forall j :: 0 <= j < r.index ==> EnclosingDecl(units, c, k).parameters[j].name != name
  {
    PrefixValid(units[c.unit].types, c.path, k);
    var d := EnclosingDecl(units, c, k);
    var found := FindIndex(d.parameters, ParamName, name);
    if DeclaresParameter(d, name) {
      var t :| t in d.parameters && t.name == name;
    }
  }

  /** What the declared-type search finds at level `k`. */
  lemma DeclaredLevel(units: seq<CompilationUnit>, c: Container, name: string, k: nat)
    requires IsTypeContainer(units, c) && 1 <= k <= |c.path|
    ensures ValidPath(units[c.unit].types, c.path)
    ensures LevelAnswer(units[c.unit].types, c.path, k, DeclaredAt(c.unit, name)).Some? <==>
            NamesType(EnclosingDecl(units, c, k), name)
    ensures LevelAnswer(units[c.unit].types, c.path, k, DeclaredAt(c.unit, name)).Some? ==>
              var r := LevelAnswer(units[c.unit].types, c.path, k, DeclaredAt(c.unit, name)).value;
              r.Declared? && r.decl.unit == c.unit && IsTypeContainer(units, r.decl) &&
              ContainerDecl(units, r.decl).name == name &&
              (r.decl.path == c.path[..k] || Parent(r.decl.path) == c.path[..k])
  {
    var types := units[c.unit].types;
    var q := c.path[..k];
    PrefixValid(types, c.path, k);
    var d := EnclosingDecl(units, c, k);
    if d.name != name {
      var found := FindIndex(d.types, DeclName, name);
      if NamesType(d, name) {
        var t :| t in d.types && t.name == name;
      }
      if found.Some? {
        ChildrenOfDecl(types, q);
        ChildPath(types, q, found.value);
        assert Parent(q + [found.value]) == q;
      }
    }
  }

  /**
   * `container.findObject(...)` over type parameters: the first answer,
   * from the container outward, of an enclosing type declaring a type
   * parameter named `name`.
   */
  function ParameterInScope(units: seq<CompilationUnit>, c: Container, name: string): Option<Resolved>
    requires IsTypeContainer(units, c)
  {
    FindOutward(units[c.unit].types, c.path, ParameterAt(c.unit, name))
  }

  /**
   * The type-parameter search finds the innermost enclosing type (the
   * container first) that declares a parameter named `name`, and that
   * parameter; it finds nothing exactly when no enclosing type declares one.
   */
  lemma ParameterInScopeInnermost(units: seq<CompilationUnit>, c: Container, name: string)
    requires IsTypeContainer(units, c)
    ensures var r := ParameterInScope(units, c, name);
            r.Some? ==>
              r.value.Param? && Encloses(c, r.value.owner) && IsTypeContainer(units, r.value.owner) &&
              r.value.index < |ContainerDecl(units, r.value.owner).parameters| &&
              ContainerDecl(units, r.value.owner).parameters[r.value.index].name == name &&
              (forall j :: 0 <= j < r.value.index ==> ContainerDecl(units, r.value.owner).parameters[j].name != name) &&
              DeclaresParameter(EnclosingDecl(units, c, |r.value.owner.path|), name) &&
              forall j :: |r.value.owner.path| < j <= |c.path| ==> !DeclaresParameter(EnclosingDecl(units, c, j), name)
    ensures ParameterInScope(units, c, name).None? <==>
              forall k :: 1 <= k <= |c.path| ==> !DeclaresParameter(EnclosingDecl(units, c, k), name)
  {
    var types := units[c.unit].types;
    var f := ParameterAt(c.unit, name);
    var r := FindOutward(types, c.path, f);
    FindOutwardInnermost(types, c.path, f);
    forall k | 1 <= k <= |c.path|
      ensures LevelAnswer(types, c.path, k, f).Some? <==> DeclaresParameter(EnclosingDecl(units, c, k), name)
    {
      ParameterLevel(units, c, name, k);
    }
    if r.Some? {
      var k :| 1 <= k <= |c.path| && LevelAnswer(types, c.path, k, f) == r &&
               forall j :: k < j <= |c.path| ==> LevelAnswer(types, c.path, j, f).None?;
      ParameterLevel(units, c, name, k);
    }
  }

  /**
   * `container.findObject(...)` over declared types: the first answer, from
   * the container outward, of an enclosing type that is named `name` or has
   * a direct nested type named `name`.
   */
  function TypeInScope(units: seq<CompilationUnit>, c: Container, name: string): Option<Resolved>
    requires IsTypeContainer(units, c)
  {
    FindOutward(units[c.unit].types, c.path, DeclaredAt(c.unit, name))
  }

  /**
   * The declared-type search finds a type named `name` at the innermost
   * level that names one: that enclosing type itself, or else its direct
   * nested type; it finds nothing exactly when no level names one.
   */
  lemma TypeInScopeInnermost(units: seq<CompilationUnit>, c: Container, name: string)
    requires IsTypeContainer(units, c)
    ensures var r := TypeInScope(units, c, name);
            r.Some? ==>
              r.value.Declared? && r.value.decl.unit == c.unit && IsTypeContainer(units, r.value.decl) &&
              ContainerDecl(units, r.value.decl).name == name &&
              exists k :: 1 <= k <= |c.path| && NamesType(EnclosingDecl(units, c, k), name) &&
                (r.value.decl.path == c.path[..k] || Parent(r.value.decl.path) == c.path[..k]) &&
                forall j :: k < j <= |c.path| ==> !NamesType(EnclosingDecl(units, c, j), name)
    ensures TypeInScope(units, c, name).None? <==>
              forall k :: 1 <= k <= |c.path| ==> !NamesType(EnclosingDecl(units, c, k), name)
  {
    var types := units[c.unit].types;
    var f := DeclaredAt(c.unit, name);
    var r := FindOutward(types, c.path, f);
    FindOutwardInnermost(types, c.path, f);
    forall k | 1 <= k <= |c.path|
      ensures LevelAnswer(types, c.path, k, f).Some? <==> NamesType(EnclosingDecl(units, c, k), name)
    {
      DeclaredLevel(units, c, name, k);
    }
    if r.Some? {
      var k :| 1 <= k <= |c.path| && LevelAnswer(types, c.path, k, f) == r &&
               forall j :: k < j <= |c.path| ==> LevelAnswer(types, c.path, j, f).None?;
      DeclaredLevel(units, c, name, k);
    }
  }

  // ----- the unit-level lookups -----

  /** The unit has a top-level type named `name`. */
  predicate DeclaresTopLevel(unit: CompilationUnit, name: string) {
    exists t :: t in unit.types && t.name == name
  }

  /**
   * The loop over `findCompilationUnits(packageName)`, from position `from`
   * of the units `us` on: the first unit with a top-level type named `name`,
   * and its first such type.
   */
  function SamePackageType(units: seq<CompilationUnit>, us: seq<nat>, name: string, from: nat): (r: Option<Container>)
    requires forall i :: 0 <= i < |us| ==> us[i] < |units|
    ensures r.Some? ==>
              r.value.unit in us && |r.value.path| == 1 && IsTypeContainer(units, r.value) &&
              ContainerDecl(units, r.value).name == name
    ensures r.None? <==> forall i :: from <= i < |us| ==> !DeclaresTopLevel(units[us[i]], name)
    decreases |us| - from
  {
    if from >= |us| then None
    else
      var u := us[from];
      match FindIndex(units[u].types, DeclName, name)
      case Some(i) =>
        ChildPath(units[u].types, [], i);
        Some(Container(u, [i]))
      case None =>
        assert !DeclaresTopLevel(units[u], name);
        SamePackageType(units, us, name, from + 1)
  }

  /** The unit found is the first of `us` with a top-level type named `name`, and the type its first one. */
  lemma SamePackageTypeFirst(units: seq<CompilationUnit>, us: seq<nat>, name: string, from: nat)
    requires forall i :: 0 <= i < |us| ==> us[i] < |units|
    ensures var r := SamePackageType(units, us, name, from);
            r.Some? ==>
              exists j :: from <= j < |us| && us[j] == r.value.unit &&
                (forall i :: from <= i < j ==> !DeclaresTopLevel(units[us[i]], name)) &&
                forall k :: 0 <= k < r.value.path[0] ==> units[us[j]].types[k].name != name
  {
    if SamePackageType(units, us, name, from).Some? {
      var j := FirstUnitIndex(units, us, name, from);
    }
  }

  /** `us` lists, in increasing order, exactly the units of package `pkg`. */
  predicate ListsPackage(units: seq<CompilationUnit>, us: seq<nat>, pkg: Option<string>) {
    (forall i :: 0 <= i < |us| ==> us[i] < |units| && units[us[i]].packageName == pkg) &&
    (forall u :: 0 <= u < |units| && units[u].packageName == pkg ==> exists i :: 0 <= i < |us| && us[i] == u) &&
    forall i, j :: 0 <= i < j < |us| ==> us[i] < us[j]
  }

  /** `findCompilationUnits` lists the units of the package. */
  lemma PackageUnits(units: seq<CompilationUnit>, pkg: Option<string>)
    ensures ListsPackage(units, UnitsInPackage(units, pkg, |units|), pkg)
  {
    var us := UnitsInPackage(units, pkg, |units|);
    assert forall i :: 0 <= i < |us| ==> us[i] in us;
  }

  /**
   * Over the units of a package, the search finds a type exactly when one
   * of them has a top-level type named `name`.
   */
  lemma SamePackageFound(units: seq<CompilationUnit>, us: seq<nat>, pkg: Option<string>, name: string)
    requires ListsPackage(units, us, pkg)
    ensures SamePackageType(units, us, name, 0).Some? <==>
              exists u :: 0 <= u < |units| && units[u].packageName == pkg && DeclaresTopLevel(units[u], name)
  {
  }

  /** What the search finds is the first type named `name` of the earliest unit of the package that has one. */
  lemma SamePackageEarliest(units: seq<CompilationUnit>, us: seq<nat>, pkg: Option<string>, name: string)
    requires ListsPackage(units, us, pkg)
    ensures var r := SamePackageType(units, us, name, 0);
            r.Some? ==>
              units[r.value.unit].packageName == pkg &&
              (forall u :: 0 <= u < r.value.unit && units[u].packageName == pkg ==> !DeclaresTopLevel(units[u], name)) &&
              forall i :: 0 <= i < r.value.path[0] ==> units[r.value.unit].types[i].name != name
  {
    var r := SamePackageType(units, us, name, 0);
    if r.Some? {
      var j := FirstUnitIndex(units, us, name, 0);
      EarlierUnitsLack(units, us, pkg, name, j);
    }
  }

  /** The position in `us` of the unit the search finds. */
  lemma {:induction false} FirstUnitIndex(units: seq<CompilationUnit>, us: seq<nat>, name: string, from: nat) returns (j: nat)
    requires forall i :: 0 <= i < |us| ==> us[i] < |units|
    requires SamePackageType(units, us, name, from).Some?
    ensures var r := SamePackageType(units, us, name, from);
            from <= j < |us| && us[j] == r.value.unit &&
            (forall i :: from <= i < j ==> !DeclaresTopLevel(units[us[i]], name)) &&
            forall k :: 0 <= k < r.value.path[0] ==> units[us[j]].types[k].name != name
    decreases |us| - from
  {
    if FindIndex(units[us[from]].types, DeclName, name).None? {
      assert !DeclaresTopLevel(units[us[from]], name);
      j := FirstUnitIndex(units, us, name, from + 1);
    } else {
      j := from;
    }
  }

  /** Units of the package before the `j`-th listed one are among the first `j` listed. */
  lemma EarlierUnitsLack(units: seq<CompilationUnit>, us: seq<nat>, pkg: Option<string>, name: string, j: nat)
    requires ListsPackage(units, us, pkg) && j < |us|
    requires forall i :: 0 <= i < j ==> !DeclaresTopLevel(units[us[i]], name)
    ensures forall u :: 0 <= u < us[j] && units[u].packageName == pkg ==> !DeclaresTopLevel(units[u], name)
  {
    forall u | 0 <= u < us[j] && units[u].packageName == pkg
      ensures !DeclaresTopLevel(units[u], name)
    {
      var i :| 0 <= i < |us| && us[i] == u;
      assert i < j;
    }
  }

  /** What the result of resolving `name` in `c` is known to be, whichever rule produced it. */
  ghost predicate Sound(units: seq<CompilationUnit>, c: Container, name: string, r: Result<Resolved, ResolveError>) {
    match r
    case Success(Declared(d)) => IsTypeContainer(units, d) && EndsWith(ContainerName(units, d), SimpleName(name))
    case Success(Param(o, i)) =>
      Encloses(c, o) && IsTypeContainer(units, o) && i < |ContainerDecl(units, o).parameters| &&
      ContainerDecl(units, o).parameters[i].name == name
    case Success(Reference(t)) => EndsWith(t.name, SimpleName(name))
    case Failure(e) => e.context == c && StartsWith(name, e.typeName)
  }

  /** A name without '.' is its own simple name. */
  lemma SimpleNameOfSimple(name: string)
    requires '.' !in name
    ensures SimpleName(name) == name
  {
    assert QualifiedName(SplitName(name).qualifier, SplitName(name).name) == name;
  }

  /** A declared type's qualified name ends with its simple name. */
  lemma DeclaredNameEnds(units: seq<CompilationUnit>, d: Container)
    requires IsTypeContainer(units, d)
    ensures EndsWith(ContainerName(units, d), ContainerDecl(units, d).name)
  {
  }

  /** A direct nested type of a declared type is a declared type whose qualified name ends with its own name. */
  lemma NestedTypeName(units: seq<CompilationUnit>, d: Container, i: nat)
    requires IsTypeContainer(units, d) && i < |ContainerDecl(units, d).types|
    ensures IsTypeContainer(units, Container(d.unit, d.path + [i]))
    ensures ContainerDecl(units, Container(d.unit, d.path + [i])) == ContainerDecl(units, d).types[i]
    ensures EndsWith(ContainerName(units, Container(d.unit, d.path + [i])), ContainerDecl(units, d).types[i].name)
  {
    var unit := units[d.unit];
    ChildrenOfDecl(unit.types, d.path);
    ChildPath(unit.types, d.path, i);
    NestedQualifiedName(unit, d.path, i);
    EndsWithAppend(TypeTree.TypeQualifiedName(unit, d.path) + ".", ContainerDecl(units, d).types[i].name);
  }

  /** A top-level type named `name` in a unit of the container's package, when the unit has a package. */
  function SamePackageOf(p: Project, c: Container, name: string): (r: Option<Container>)
    requires p.Valid() && ValidContainer(p.units, c)
    ensures r.Some? ==> IsTypeContainer(p.units, r.value) && ContainerDecl(p.units, r.value).name == name
  {
    var pkg := p.units[c.unit].packageName;
    if pkg.Some? then
      var us := p.FindCompilationUnits(pkg);
      assert forall i :: 0 <= i < |us| ==> us[i] in us;
      SamePackageType(p.units, us, name, 0)
    else None
  }

  /** The last lookups: `java.lang`, then the wildcard imports (the unit's own package without any). */
  function ResolveFallback(p: Project, c: Container, name: string): (r: Result<Resolved, ResolveError>)
    requires p.Valid() && ValidContainer(p.units, c) && '.' !in name
    ensures r.Success? ==> r.value.Reference? && EndsWith(r.value.ref.name, name)
    ensures r.Failure? ==> r.error == ResolveError(c, name)
  {
    var unit := p.units[c.unit];
    if name in JavaLangTypes then
      EndsWithAppend("java.lang.", name);
      Success(Reference(TypeReference("java.lang." + name)))
    else
      var star := StarImports(unit.imports);
      if |star| == 0 then
        Success(Reference(TypeReference(QualifiedName(unit.packageName, name))))
      else if |star| == 1 then
        assert star[0] in star;
        EndsWithAppend(star[0][..|star[0]| - 1], name);
        Success(Reference(TypeReference(star[0][..|star[0]| - 1] + name)))
      else
        Failure(ResolveError(c, name))
  }

  /**
   * The lookups after the enclosing scopes: single import, same-package
   * top-level type, `java.lang`, then the wildcard imports.
   */
  function ResolveInUnit(p: Project, c: Container, name: string): (r: Result<Resolved, ResolveError>)
    requires p.Valid() && ValidContainer(p.units, c) && '.' !in name
    ensures Sound(p.units, c, name, r)
  {
    SimpleNameOfSimple(name);
    match FindImport(p.units[c.unit].imports, name)
    case Some(imported) =>
      EndsWithTail(imported, "." + name, name);
      (match p.FindType(imported)
       case Some(t) => Success(Declared(t))
       case None => Success(Reference(TypeReference(imported))))
    case None =>
      var samePackage := SamePackageOf(p, c, name);
      if samePackage.Some? then
        DeclaredNameEnds(p.units, samePackage.value);
        Success(Declared(samePackage.value))
      else
        ResolveFallback(p, c, name)
  }

  /** A simple name: the enclosing scopes first (only inside a declared type), then the unit-level lookups. */
  function ResolveSimple(p: Project, c: Container, name: string): (r: Result<Resolved, ResolveError>)
    requires p.Valid() && ValidContainer(p.units, c) && '.' !in name
    ensures Sound(p.units, c, name, r)
  {
    SimpleNameOfSimple(name);
    if c.path != [] && ParameterInScope(p.units, c, name).Some? then
      ParameterInScopeInnermost(p.units, c, name);
      Success(ParameterInScope(p.units, c, name).value)
    else if c.path != [] && TypeInScope(p.units, c, name).Some? then
      TypeInScopeInnermost(p.units, c, name);
      DeclaredNameEnds(p.units, TypeInScope(p.units, c, name).value.decl);
      Success(TypeInScope(p.units, c, name).value)
    else
      ResolveInUnit(p, c, name)
  }

  /** What starts a qualifier starts the name it qualifies. */
  lemma QualifierPrefix(name: string, qualifier: string, member: string, prefix: string)
    requires name == qualifier + "." + member && StartsWith(qualifier, prefix)
    ensures StartsWith(name, prefix)
  {
    StartsWithAppend(qualifier, "." + member);
    assert qualifier + ("." + member) == name;
    StartsWithTrans(name, qualifier, prefix);
  }

  /** The direct nested type named `member` of the declared type `d`, if it has one. */
  function NestedMember(p: Project, c: Container, name: string, d: Container, member: string): (r: Result<Resolved, ResolveError>)
    requires p.Valid() && IsTypeContainer(p.units, d) && SimpleName(name) == member
    ensures r.Success? ==> r.value.Declared? && IsTypeContainer(p.units, r.value.decl) &&
                           EndsWith(ContainerName(p.units, r.value.decl), member)
    ensures r.Failure? ==> r.error == ResolveError(c, name)
  {
    match FindIndex(ContainerDecl(p.units, d).types, DeclName, member)
    case Some(i) =>
      NestedTypeName(p.units, d, i);
      Success(Declared(Container(d.unit, d.path + [i])))
    case None => Failure(ResolveError(c, name))
  }

  /**
   * The last segment `member` of a qualified name, looked up in what its
   * qualifier resolved to: a nested type of a declared type, or the
   * reference extended by the segment; a type parameter has no members.
   */
  function ResolveMember(p: Project, c: Container, name: string, qualifier: string, member: string,
                         q: Result<Resolved, ResolveError>): (r: Result<Resolved, ResolveError>)
    requires p.Valid() && ValidContainer(p.units, c)
    requires name == qualifier + "." + member && SimpleName(name) == member
    requires Sound(p.units, c, qualifier, q)
    ensures Sound(p.units, c, name, r)
  {
    match q
    case Failure(e) =>
      QualifierPrefix(name, qualifier, member, e.typeName);
      Failure(e)
    case Success(Declared(d)) => NestedMember(p, c, name, d, member)
    case Success(Reference(t)) =>
      EndsWithAppend(t.name + ".", member);
      Success(Reference(TypeReference(t.name + "." + member)))
    case Success(Param(_, _)) =>
      Failure(ResolveError(c, name))
  }

  /**
   * `resolve(project, container, name)`: a qualified name resolves its
   * qualifier first and then looks in it for the last segment; a simple name
   * goes through the lookup chain.
   */
  function Resolve(p: Project, c: Container, name: string): (r: Result<Resolved, ResolveError>)
    requires p.Valid() && ValidContainer(p.units, c)
    ensures Sound(p.units, c, name, r)
    decreases |name|
  {
    if '.' in name then
      var split := SplitName(name);
      assert name == split.qualifier.value + "." + split.name;
      ResolveMember(p, c, name, split.qualifier.value, split.name, Resolve(p, c, split.qualifier.value))
    else
      ResolveSimple(p, c, name)
  }

  // ----- the resolution rules, in priority order -----

  /** No enclosing type declares a type parameter or names a type called `name` (always so in a compilation unit). */
  ghost predicate NothingInScope(units: seq<CompilationUnit>, c: Container, name: string)
    requires ValidContainer(units, c)
  {
    c.path == [] ||
    forall k :: 1 <= k <= |c.path| ==>
      !DeclaresParameter(EnclosingDecl(units, c, k), name) && !NamesType(EnclosingDecl(units, c, k), name)
  }

  /** With nothing in scope, a simple name goes straight to the unit-level lookups. */
  lemma ResolveInUnitWhenNothingInScope(p: Project, c: Container, name: string)
    requires p.Valid() && ValidContainer(p.units, c) && '.' !in name && NothingInScope(p.units, c, name)
    ensures Resolve(p, c, name) == ResolveInUnit(p, c, name)
  {
    if c.path != [] {
      ParameterInScopeInnermost(p.units, c, name);
      TypeInScopeInnermost(p.units, c, name);
    }
  }

  /**
   * A type parameter of an enclosing type wins over everything else: the
   * innermost enclosing type declaring one named `name` answers, with its
   * first such parameter.
   */
  lemma TypeParameterRule(p: Project, c: Container, name: string, k: nat)
    requires p.Valid() && IsTypeContainer(p.units, c) && '.' !in name
    requires 1 <= k <= |c.path| && DeclaresParameter(EnclosingDecl(p.units, c, k), name)
    ensures var r := Resolve(p, c, name);
            r.Success? && r.value.Param? &&
            Encloses(c, r.value.owner) && k <= |r.value.owner.path| &&
            DeclaresParameter(EnclosingDecl(p.units, c, |r.value.owner.path|), name) &&
            (forall j :: |r.value.owner.path| < j <= |c.path| ==> !DeclaresParameter(EnclosingDecl(p.units, c, j), name)) &&
            r.value.index < |ContainerDecl(p.units, r.value.owner).parameters| &&
            ContainerDecl(p.units, r.value.owner).parameters[r.value.index].name == name &&
            forall j :: 0 <= j < r.value.index ==> ContainerDecl(p.units, r.value.owner).parameters[j].name != name
  {
    ParameterInScopeInnermost(p.units, c, name);
  }

  /**
   * Without a type parameter in scope, the innermost enclosing type that is
   * named `name` or has a direct nested type named `name` answers: itself in
   * the first case, that nested type in the second.
   */
  lemma EnclosingTypeRule(p: Project, c: Container, name: string, k: nat)
    requires p.Valid() && IsTypeContainer(p.units, c) && '.' !in name
    requires forall j :: 1 <= j <= |c.path| ==> !DeclaresParameter(EnclosingDecl(p.units, c, j), name)
    requires 1 <= k <= |c.path| && NamesType(EnclosingDecl(p.units, c, k), name)
    ensures var r := Resolve(p, c, name);
            r.Success? && r.value.Declared? && r.value.decl.unit == c.unit &&
            IsTypeContainer(p.units, r.value.decl) && ContainerDecl(p.units, r.value.decl).name == name &&
            exists m :: k <= m <= |c.path| && NamesType(EnclosingDecl(p.units, c, m), name) &&
              (r.value.decl.path == c.path[..m] || Parent(r.value.decl.path) == c.path[..m]) &&
              forall j :: m < j <= |c.path| ==> !NamesType(EnclosingDecl(p.units, c, j), name)
  {
    ParameterInScopeInnermost(p.units, c, name);
    TypeInScopeInnermost(p.units, c, name);
  }

  /**
   * With nothing in scope, a single import ending in `.<name>` decides: the
   * project's type of that qualified name, else an external reference to it.
   */
  lemma ImportRule(p: Project, c: Container, name: string, imported: string)
    requires p.Valid() && ValidContainer(p.units, c) && '.' !in name && NothingInScope(p.units, c, name)
    requires FindImport(p.units[c.unit].imports, name) == Some(imported)
    ensures var r := Resolve(p, c, name);
            r.Success? && (r.value.Declared? || r.value.Reference?) &&
            (r.value.Declared? ==> IsTypeContainer(p.units, r.value.decl) && ContainerName(p.units, r.value.decl) == imported) &&
            (r.value.Reference? <==> forall d :: IsTypeContainer(p.units, d) ==> ContainerName(p.units, d) != imported) &&
            (r.value.Reference? ==> r.value.ref == TypeReference(imported))
  {
    ResolveInUnitWhenNothingInScope(p, c, name);
  }

  /** Without a matching import, the unit-level lookups give a declared type exactly when the same-package search finds one. */
  lemma SamePackageBranch(p: Project, c: Container, name: string)
    requires p.Valid() && ValidContainer(p.units, c) && '.' !in name
    requires FindImport(p.units[c.unit].imports, name).None?
    ensures var r := ResolveInUnit(p, c, name);
            (r.Success? && r.value.Declared? <==> SamePackageOf(p, c, name).Some?) &&
            (r.Success? && r.value.Declared? ==> r.value.decl == SamePackageOf(p, c, name).value) &&
            (SamePackageOf(p, c, name).None? ==> r == ResolveFallback(p, c, name))
  {
  }

  /**
   * With nothing in scope and no matching import, a unit of the same
   * package with a top-level type named `name` answers, the earliest such
   * unit of the project; this is the only way to a declared type here.
   */
  lemma SamePackageRule(p: Project, c: Container, name: string)
    requires p.Valid() && ValidContainer(p.units, c) && '.' !in name && NothingInScope(p.units, c, name)
    requires FindImport(p.units[c.unit].imports, name).None?
    ensures var r := Resolve(p, c, name);
            var pkg := p.units[c.unit].packageName;
            r.Success? && r.value.Declared? <==>
              pkg.Some? && exists u :: 0 <= u < |p.units| && p.units[u].packageName == pkg && DeclaresTopLevel(p.units[u], name)
    ensures var r := Resolve(p, c, name);
            var pkg := p.units[c.unit].packageName;
            r.Success? && r.value.Declared? ==>
              var d := r.value.decl;
              p.units[d.unit].packageName == pkg && |d.path| == 1 && ContainerDecl(p.units, d).name == name &&
              (forall u :: 0 <= u < d.unit && p.units[u].packageName == pkg ==> !DeclaresTopLevel(p.units[u], name)) &&
              forall i :: 0 <= i < d.path[0] ==> p.units[d.unit].types[i].name != name
  {
    ResolveInUnitWhenNothingInScope(p, c, name);
    SamePackageBranch(p, c, name);
    var pkg := p.units[c.unit].packageName;
    if pkg.Some? {
      var us := p.FindCompilationUnits(pkg);
      PackageUnits(p.units, pkg);
      SamePackageFound(p.units, us, pkg, name);
      SamePackageEarliest(p.units, us, pkg, name);
    }
  }

  /**
   * With nothing in scope, no matching import and no same-package type, a
   * `java.lang` name becomes `java.lang.<name>`; any other name is qualified
   * by the single wildcard import, or by the unit's own package when there
   * is none, and is ambiguous under two or more wildcard imports.
   */
  lemma FallbackRule(p: Project, c: Container, name: string)
    requires p.Valid() && ValidContainer(p.units, c) && '.' !in name && NothingInScope(p.units, c, name)
    requires FindImport(p.units[c.unit].imports, name).None?
    requires var pkg := p.units[c.unit].packageName;
             pkg.Some? ==> forall u :: 0 <= u < |p.units| && p.units[u].packageName == pkg ==> !DeclaresTopLevel(p.units[u], name)
    ensures var unit := p.units[c.unit];
            var star := StarImports(unit.imports);
            Resolve(p, c, name) ==
              if name in JavaLangTypes then Success(Reference(TypeReference("java.lang." + name)))
              else if |star| == 0 then Success(Reference(TypeReference(QualifiedName(unit.packageName, name))))
              else if |star| == 1 then Success(Reference(TypeReference(star[0][..|star[0]| - 1] + name)))
              else Failure(ResolveError(c, name))
  {
    assert SamePackageOf(p, c, name).None? by {
      var pkg := p.units[c.unit].packageName;
      if pkg.Some? {
        PackageUnits(p.units, pkg);
        SamePackageFound(p.units, p.FindCompilationUnits(pkg), pkg, name);
      }
    }
    ResolveInUnitWhenNothingInScope(p, c, name);
    SamePackageBranch(p, c, name);
    FallbackCases(p, c, name);
  }

  /** The cases of the last lookups. */
  lemma FallbackCases(p: Project, c: Container, name: string)
    requires p.Valid() && ValidContainer(p.units, c) && '.' !in name
    ensures var unit := p.units[c.unit];
            var star := StarImports(unit.imports);
            ResolveFallback(p, c, name) ==
              if name in JavaLangTypes then Success(Reference(TypeReference("java.lang." + name)))
              else if |star| == 0 then Success(Reference(TypeReference(QualifiedName(unit.packageName, name))))
              else if |star| == 1 then Success(Reference(TypeReference(star[0][..|star[0]| - 1] + name)))
              else Failure(ResolveError(c, name))
  {
  }

  /**
   * A dotted name: a failure of the qualifier is the failure; a declared
   * qualifier answers with its first direct nested type of the last segment's
   * name, and fails without one; a reference qualifier is extended by the
   * last segment; a type parameter cannot qualify a name.
   */
  lemma QualifiedNameRule(p: Project, c: Container, name: string)
    requires p.Valid() && ValidContainer(p.units, c) && '.' in name
    ensures var split := SplitName(name);
            var q := Resolve(p, c, split.qualifier.value);
            var r := Resolve(p, c, name);
            (q.Failure? ==> r == q) &&
            (q.Success? && q.value.Param? ==> r == Failure(ResolveError(c, name))) &&
            (q.Success? && q.value.Reference? ==> r == Success(Reference(TypeReference(q.value.ref.name + "." + split.name)))) &&
            (q.Success? && q.value.Declared? ==>
               var d := q.value.decl;
               (r.Success? <==> exists t :: t in ContainerDecl(p.units, d).types && t.name == split.name) &&
               (r.Success? ==>
                  r.value.Declared? && r.value.decl.unit == d.unit && Parent(r.value.decl.path) == d.path &&
                  IsTypeContainer(p.units, r.value.decl) && ContainerDecl(p.units, r.value.decl).name == split.name &&
                  forall i :: 0 <= i < Last(r.value.decl.path) ==> ContainerDecl(p.units, d).types[i].name != split.name) &&
               (r.Failure? ==> r == Failure(ResolveError(c, name))))
  {
    var split := SplitName(name);
    var q := Resolve(p, c, split.qualifier.value);
    if q.Success? && q.value.Declared? {
      var d := q.value.decl;
      var types := p.units[d.unit].types;
      var found := FindIndex(ContainerDecl(p.units, d).types, DeclName, split.name);
      if found.Some? {
        ChildrenOfDecl(types, d.path);
        ChildPath(types, d.path, found.value);
        assert Parent(d.path + [found.value]) == d.path && Last(d.path + [found.value]) == found.value;
      } else {
        assert forall t :: t in ContainerDecl(p.units, d).types ==> t.name != split.name;
      }
    }
  }
}
