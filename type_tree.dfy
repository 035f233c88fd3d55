/**
 * Walking the tree of declared types: addressing a type by its path of
 * nested-type positions, qualified names along the container chain, the
 * pre-order `visitTypes`, and the parent-chain loops `compilationUnit()`,
 * `container()`, `visitParents` and `findObject`.
 */
module TypeTree {
  import opened Wrappers
  import opened Common
  import opened Model

  function Parent(path: seq<nat>): seq<nat>
    requires path != []
  {
    path[..|path| - 1]
  }

  function Last(path: seq<nat>): nat
    requires path != []
  {
    path[|path| - 1]
  }

  /** The nested types of the type at `path` (the top-level types for the empty path), if the path exists. */
  function ChildrenAt(types: seq<TypeDeclaration>, path: seq<nat>): Option<seq<TypeDeclaration>>
    decreases |path|
  {
    if path == [] then Some(types)
    else match ChildrenAt(types, Parent(path))
      case None => None
      case Some(cs) => if Last(path) < |cs| then Some(cs[Last(path)].types) else None
  }

  /** The path names the compilation unit itself (empty) or an existing declared type. */
  predicate ValidPath(types: seq<TypeDeclaration>, path: seq<nat>) {
    ChildrenAt(types, path).Some?
  }

  /** The path names an existing declared type. */
  predicate IsTypePath(types: seq<TypeDeclaration>, path: seq<nat>) {
    path != [] && ValidPath(types, path)
  }

  function DeclAt(types: seq<TypeDeclaration>, path: seq<nat>): TypeDeclaration
    requires IsTypePath(types, path)
  {
    ChildrenAt(types, Parent(path)).value[Last(path)]
  }

  lemma ChildrenOfDecl(types: seq<TypeDeclaration>, path: seq<nat>)
    requires IsTypePath(types, path)
    ensures ValidPath(types, Parent(path))
    ensures ChildrenAt(types, path) == Some(DeclAt(types, path).types)
  {
  }

  /** Every prefix of an existing path exists. */
  lemma {:induction false} PrefixValid(types: seq<TypeDeclaration>, path: seq<nat>, k: nat)
    requires ValidPath(types, path) && k <= |path|
    ensures ValidPath(types, path[..k])
    decreases |path| - k
  {
    if k < |path| {
      PrefixValid(types, Parent(path), k);
      assert Parent(path)[..k] == path[..k];
    } else {
      assert path[..k] == path;
    }
  }

  /** The nested type at position `i` of an existing container. */
  lemma ChildPath(types: seq<TypeDeclaration>, path: seq<nat>, i: nat)
    requires ValidPath(types, path) && i < |ChildrenAt(types, path).value|
    ensures IsTypePath(types, path + [i])
    ensures DeclAt(types, path + [i]) == ChildrenAt(types, path).value[i]
  {
    assert Parent(path + [i]) == path;
  }

  predicate ValidContainer(units: seq<CompilationUnit>, c: Container) {
    c.unit < |units| && ValidPath(units[c.unit].types, c.path)
  }

  predicate IsTypeContainer(units: seq<CompilationUnit>, c: Container) {
    ValidContainer(units, c) && c.path != []
  }

  function ContainerDecl(units: seq<CompilationUnit>, c: Container): TypeDeclaration
    requires IsTypeContainer(units, c)
  {
    DeclAt(units[c.unit].types, c.path)
  }

  /**
   * `TypeDeclaration.qualifiedName`: the qualified name of the parent (the
   * package name for a top-level type) joined to the simple name.
   */
  function TypeQualifiedName(unit: CompilationUnit, path: seq<nat>): (r: string)
    requires IsTypePath(unit.types, path)
    ensures EndsWith(r, DeclAt(unit.types, path).name)
    decreases |path|
  {
    var parentName :=
      if |path| == 1 then unit.packageName
      else Some(TypeQualifiedName(unit, Parent(path)));
    QualifiedName(parentName, DeclAt(unit.types, path).name)
  }

  /** The qualified name of a declared type; a compilation unit or a missing path has none (""). */
  function ContainerName(units: seq<CompilationUnit>, c: Container): string {
    if IsTypeContainer(units, c) then TypeQualifiedName(units[c.unit], c.path) else ""
  }

  /** The simple names of the types along a path, outermost first. */
  function PathNames(types: seq<TypeDeclaration>, path: seq<nat>): (r: seq<string>)
    requires ValidPath(types, path)
    ensures |r| == |path|
    decreases |path|
  {
    if path == [] then [] else PathNames(types, Parent(path)) + [DeclAt(types, path).name]
  }

  /** Names joined with '.'. */
  function JoinDots(names: seq<string>): string {
    if |names| == 0 then ""
    else if |names| == 1 then names[0]
    else JoinDots(names[..|names| - 1]) + "." + names[|names| - 1]
  }

  /**
   * A qualified name is the package followed by the enclosing types' names
   * and the type's own name, joined by '.'; without a package it starts at the
   * outermost type.
   */
  lemma {:induction false} QualifiedNameJoinsPath(unit: CompilationUnit, path: seq<nat>)
    requires IsTypePath(unit.types, path)
    ensures TypeQualifiedName(unit, path) ==
            QualifiedName(unit.packageName, JoinDots(PathNames(unit.types, path)))
    decreases |path|
  {
    var names := PathNames(unit.types, path);
    if |path| > 1 {
      QualifiedNameJoinsPath(unit, Parent(path));
      assert names[..|names| - 1] == PathNames(unit.types, Parent(path));
    } else {
      assert names == [DeclAt(unit.types, path).name];
    }
  }

  /** Nested types are named after their container: `<container qualified name>.<name>`. */
  lemma NestedQualifiedName(unit: CompilationUnit, path: seq<nat>, i: nat)
    requires IsTypePath(unit.types, path) && i < |DeclAt(unit.types, path).types|
    ensures IsTypePath(unit.types, path + [i])
    ensures TypeQualifiedName(unit, path + [i]) ==
            TypeQualifiedName(unit, path) + "." + DeclAt(unit.types, path).types[i].name
  {
    ChildrenOfDecl(unit.types, path);
    ChildPath(unit.types, path, i);
    assert Parent(path + [i]) == path;
  }

  // ----- visitTypes -----

  /**
   * The pre-order walk of `visitTypes` over `types` (the nested types at
   * `prefix`) from position `i` on: each type, then its nested types, then its
   * later siblings.
   */
  function VisitFrom(types: seq<TypeDeclaration>, prefix: seq<nat>, i: nat): seq<seq<nat>>
    decreases types, |types| - i
  {
    if i >= |types| then []
    else [prefix + [i]] + VisitFrom(types[i].types, prefix + [i], 0) + VisitFrom(types, prefix, i + 1)
  }

  /** Lexicographic order on paths: a type comes before its nested types and its later siblings. */
  predicate PathBefore(a: seq<nat>, b: seq<nat>)
    decreases |a|
  {
    if a == [] then b != []
    else b != [] && (a[0] < b[0] || (a[0] == b[0] && PathBefore(a[1..], b[1..])))
  }

  predicate StrictlySorted(s: seq<seq<nat>>) {
    forall j, k :: 0 <= j < k < |s| ==> PathBefore(s[j], s[k])
  }

  lemma {:induction false} ExtensionBefore(a: seq<nat>, b: seq<nat>)
    requires |a| < |b| && b[..|a|] == a
    ensures PathBefore(a, b)
    decreases |a|
  {
    if a != [] {
      assert b[1..][..|a| - 1] == a[1..];
      ExtensionBefore(a[1..], b[1..]);
    }
  }

  lemma {:induction false} DivergeBefore(a: seq<nat>, b: seq<nat>, d: nat)
    requires d < |a| && d < |b| && a[..d] == b[..d] && a[d] < b[d]
    ensures PathBefore(a, b)
    decreases d
  {
    if d > 0 {
      assert a[0] == a[..d][0] && b[0] == b[..d][0];
      assert a[1..][..d - 1] == a[..d][1..] && b[1..][..d - 1] == b[..d][1..];
      DivergeBefore(a[1..], b[1..], d - 1);
    }
  }

  lemma {:induction false} PathBeforeIrreflexive(a: seq<nat>)
    ensures !PathBefore(a, a)
    decreases |a|
  {
    if a != [] {
      PathBeforeIrreflexive(a[1..]);
    }
  }

  /** Every path visited from position `i` under `prefix` extends `prefix` by a position `>= i`. */
  lemma {:induction false} VisitFromShape(types: seq<TypeDeclaration>, prefix: seq<nat>, i: nat)
    ensures forall q :: q in VisitFrom(types, prefix, i) ==>
              |q| > |prefix| && q[..|prefix|] == prefix && i <= q[|prefix|] < |types|
    decreases types, |types| - i
  {
    if i < |types| {
      var x := prefix + [i];
      VisitFromShape(types[i].types, x, 0);
      VisitFromShape(types, prefix, i + 1);
      forall q | q in VisitFrom(types[i].types, x, 0)
        ensures q[..|prefix|] == prefix && q[|prefix|] == i
      {
        assert q[..|prefix|] == q[..|x|][..|prefix|];
        assert q[|prefix|] == q[..|x|][|prefix|];
      }
    }
  }

  lemma SortedConcat(a: seq<seq<nat>>, b: seq<seq<nat>>)
    requires StrictlySorted(a) && StrictlySorted(b)
    requires forall x, y :: x in a && y in b ==> PathBefore(x, y)
    ensures StrictlySorted(a + b)
  {
    var s := a + b;
    forall j, k | 0 <= j < k < |s|
      ensures PathBefore(s[j], s[k])
    {
      if k < |a| {
        assert s[j] == a[j] && s[k] == a[k];
      } else if j >= |a| {
        assert s[j] == b[j - |a|] && s[k] == b[k - |a|];
      } else {
        assert s[j] in a && s[k] in b;
      }
    }
  }

  /** The walk lists paths in strictly increasing lexicographic order. */
  lemma {:induction false} VisitFromSorted(types: seq<TypeDeclaration>, prefix: seq<nat>, i: nat)
    ensures StrictlySorted(VisitFrom(types, prefix, i))
    decreases types, |types| - i
  {
    if i < |types| {
      var x := prefix + [i];
      var children := VisitFrom(types[i].types, x, 0);
      var rest := VisitFrom(types, prefix, i + 1);
      VisitFromSorted(types[i].types, x, 0);
      VisitFromSorted(types, prefix, i + 1);
      VisitFromShape(types[i].types, x, 0);
      VisitFromShape(types, prefix, i + 1);
      forall c | c in children
        ensures PathBefore(x, c)
      {
        ExtensionBefore(x, c);
      }
      SortedConcat([x], children);
      forall c, r | c in [x] + children && r in rest
        ensures PathBefore(c, r)
      {
        assert c[..|prefix|] == prefix && c[|prefix|] == i by {
          if c != x {
            assert c[..|prefix|] == c[..|x|][..|prefix|];
            assert c[|prefix|] == c[..|x|][|prefix|];
          }
        }
        DivergeBefore(c, r, |prefix|);
      }
      SortedConcat([x] + children, rest);
    }
  }

  /** The walk from position `i` visits exactly the existing types under `prefix` at positions `>= i`. */
  lemma {:induction false} VisitFromComplete(root: seq<TypeDeclaration>, types: seq<TypeDeclaration>,
                                             prefix: seq<nat>, i: nat, q: seq<nat>)
    requires ChildrenAt(root, prefix) == Some(types)
    ensures q in VisitFrom(types, prefix, i) <==>
            IsTypePath(root, q) && |q| > |prefix| && q[..|prefix|] == prefix && q[|prefix|] >= i
    decreases types, |types| - i
  {
    var under := IsTypePath(root, q) && |q| > |prefix| && q[..|prefix|] == prefix;
    if under {
      PrefixValid(root, q, |prefix| + 1);
      assert Parent(q[..|prefix| + 1]) == prefix;
    }
    if i < |types| {
      var x := prefix + [i];
      assert Parent(x) == prefix;
      VisitFromComplete(root, types[i].types, x, 0, q);
      VisitFromComplete(root, types, prefix, i + 1, q);
      if under && q[|prefix|] == i && |q| > |x| {
        assert q[..|x|] == x;
      }
      if under && q[|prefix|] == i && |q| == |x| {
        assert q == x;
      }
      if q in VisitFrom(types[i].types, x, 0) {
        assert q[..|prefix|] == q[..|x|][..|prefix|];
        assert q[|prefix|] == q[..|x|][|prefix|];
      }
    }
  }

  /** `CompilationUnit.visitTypes`: the paths of all declared types of a unit in visiting order. */
  function VisitTypes(types: seq<TypeDeclaration>): (r: seq<seq<nat>>)
    ensures |types| > 0 ==> |r| > 0 && r[0] == [0]
  {
    VisitFrom(types, [], 0)
  }

  /**
   * `CompilationUnit.visitTypes` visits every declared type of the unit exactly
   * once, each before its nested types and after its earlier siblings.
   */
  lemma VisitTypesOrder(types: seq<TypeDeclaration>)
    ensures forall q :: q in VisitTypes(types) <==> IsTypePath(types, q)
    ensures StrictlySorted(VisitTypes(types))
    ensures forall j, k :: 0 <= j < k < |VisitTypes(types)| ==> VisitTypes(types)[j] != VisitTypes(types)[k]
  {
    var r := VisitTypes(types);
    forall q
      ensures q in r <==> IsTypePath(types, q)
    {
      VisitFromComplete(types, types, [], 0, q);
    }
    VisitFromSorted(types, [], 0);
    forall j, k | 0 <= j < k < |r|
      ensures r[j] != r[k]
    {
      PathBeforeIrreflexive(r[j]);
    }
  }

  // ----- the parent-chain loops -----

  /** One step from a model element to a child: into a unit, a nested type, or any other element. */
  datatype Step = UnitStep(unit: nat) | TypeStep(index: nat) | ElementStep(index: nat)

  /** A parent chain read from the top: a compilation unit first, and no other unit below it. */
  predicate WellFormedAddress(a: seq<Step>) {
    |a| > 0 && a[0].UnitStep? && forall k :: 0 < k < |a| ==> !a[k].UnitStep?
  }

  /** `Model.compilationUnit()`: climb parents until a compilation unit is reached. */
  method CompilationUnitOf(a: seq<Step>) returns (unit: nat)
    requires WellFormedAddress(a)
    ensures unit == a[0].unit
  {
    var p := a;
    while !p[|p| - 1].UnitStep?
      invariant 0 < |p| <= |a| && p == a[..|p|]
      decreases |p|
    {
      p := p[..|p| - 1];
    }
    unit := p[|p| - 1].unit;
  }

  /**
   * `Model.container()`: climb parents until a declared type or a compilation
   * unit is reached, i.e. the innermost enclosing container.
   */
  method ContainerOf(a: seq<Step>) returns (c: seq<Step>)
    requires WellFormedAddress(a)
    ensures 0 < |c| <= |a| && c == a[..|c|]
    ensures c[|c| - 1].UnitStep? || c[|c| - 1].TypeStep?
    ensures forall k :: |c| <= k < |a| ==> a[k].ElementStep?
  {
    c := a;
    while !(c[|c| - 1].UnitStep? || c[|c| - 1].TypeStep?)
      invariant 0 < |c| <= |a| && c == a[..|c|]
      invariant forall k :: |c| <= k < |a| ==> a[k].ElementStep?
      decreases |c|
    {
      c := c[..|c| - 1];
    }
  }

  /**
   * The parent chain of the unit or declared type at `c`, read from the top:
   * its compilation unit, then one nested-type step per index of its path.
   */
  function AddressOf(c: Container): (a: seq<Step>)
    ensures WellFormedAddress(a) && |a| == |c.path| + 1 && a[0] == UnitStep(c.unit)
    ensures forall k :: 0 <= k < |c.path| ==> a[k + 1] == TypeStep(c.path[k])
  {
    [UnitStep(c.unit)] + seq(|c.path|, k requires 0 <= k < |c.path| => TypeStep(c.path[k]))
  }

  /**
   * The two loops on the model's addresses: the type (or unit) at `c` and
   * any member of it both lie in unit `c.unit`, and `container()` of the type
   * is the type itself, while that of its member is the type.
   */
  method ContainerAddresses(c: Container, member: nat) returns (unit: nat, own: seq<Step>, owner: seq<Step>)
    ensures unit == c.unit
    ensures own == AddressOf(c)
    ensures owner == AddressOf(c)
  {
    var a := AddressOf(c);
    unit := CompilationUnitOf(a + [ElementStep(member)]);
    own := ContainerOf(a);
    owner := ContainerOf(a + [ElementStep(member)]);
    var b := a + [ElementStep(member)];
    assert !b[|a| - 1].ElementStep?;
    assert owner == b[..|a|] == a;
  }

  /** `TypeDeclaration.visitParents`: the enclosing types, innermost first, without the type itself. */
  method VisitParents(path: seq<nat>) returns (parents: seq<seq<nat>>)
    requires path != []
    ensures |parents| == |path| - 1
    ensures forall k :: 0 <= k < |parents| ==> parents[k] == path[..|path| - 1 - k]
  {
    parents := [];
    var p := Parent(path);
    while p != []
      invariant |p| + |parents| == |path| - 1
      invariant p == path[..|p|]
      invariant forall k :: 0 <= k < |parents| ==> parents[k] == path[..|path| - 1 - k]
      decreases |p|
    {
      parents := parents + [p];
      p := Parent(p);
    }
  }

  /** The answer of `f` at nesting level `k`: on the enclosing type `path[..k]`. */
  function LevelAnswer<T>(types: seq<TypeDeclaration>, path: seq<nat>, k: nat,
                          f: (seq<nat>, TypeDeclaration) -> Option<T>): Option<T>
    requires ValidPath(types, path) && 1 <= k <= |path|
  {
    PrefixValid(types, path, k);
    f(path[..k], DeclAt(types, path[..k]))
  }

  /**
   * The first answer of `f` on the type at `path` and then on each enclosing
   * type outward; nothing when no level answers.
   */
  function FindOutward<T>(types: seq<TypeDeclaration>, path: seq<nat>,
                          f: (seq<nat>, TypeDeclaration) -> Option<T>): Option<T>
    requires ValidPath(types, path)
    decreases |path|
  {
    if path == [] then None
    else
      var here := f(path, DeclAt(types, path));
      if here.Some? then here else FindOutward(types, Parent(path), f)
  }

  /** Going one level outward keeps the answers of all outer levels. */
  lemma LevelAnswerParent<T>(types: seq<TypeDeclaration>, path: seq<nat>, k: nat,
                             f: (seq<nat>, TypeDeclaration) -> Option<T>)
    requires ValidPath(types, path) && 1 <= k < |path|
    ensures ValidPath(types, Parent(path))
    ensures LevelAnswer(types, Parent(path), k, f) == LevelAnswer(types, path, k, f)
  {
    PrefixValid(types, path, |path| - 1);
    assert Parent(path)[..k] == path[..k];
  }

  /**
   * The search answers with the innermost level that has an answer, and with
   * nothing exactly when no level between the type and its outermost
   * enclosing type has one.
   */
  lemma {:induction false} FindOutwardInnermost<T>(types: seq<TypeDeclaration>, path: seq<nat>,
                                                   f: (seq<nat>, TypeDeclaration) -> Option<T>)
    requires ValidPath(types, path)
    ensures FindOutward(types, path, f).Some? ==>
              exists k :: 1 <= k <= |path| && LevelAnswer(types, path, k, f) == FindOutward(types, path, f) &&
                forall j :: k < j <= |path| ==> LevelAnswer(types, path, j, f).None?
    ensures FindOutward(types, path, f).None? <==>
              forall k :: 1 <= k <= |path| ==> LevelAnswer(types, path, k, f).None?
    decreases |path|
  {
    if path != [] {
      assert path[..|path|] == path;
      var r := FindOutward(types, path, f);
      var p := Parent(path);
      PrefixValid(types, path, |path| - 1);
      assert p == path[..|path| - 1];
      forall k | 1 <= k < |path|
        ensures LevelAnswer(types, p, k, f) == LevelAnswer(types, path, k, f)
      {
        LevelAnswerParent(types, path, k, f);
      }
      if LevelAnswer(types, path, |path|, f).None? {
        FindOutwardInnermost(types, p, f);
        if r.Some? {
          var k :| 1 <= k <= |p| && LevelAnswer(types, p, k, f) == r &&
                   forall j :: k < j <= |p| ==> LevelAnswer(types, p, j, f).None?;
          assert forall j :: k < j <= |path| ==> LevelAnswer(types, path, j, f).None?;
        }
      }
    }
  }

  /** `TypeDeclaration.findObject`: the loop climbing from a type through its enclosing types. */
  method FindObjectOutward<T>(types: seq<TypeDeclaration>, path: seq<nat>,
                              f: (seq<nat>, TypeDeclaration) -> Option<T>) returns (r: Option<T>)
    requires IsTypePath(types, path)
    ensures r == FindOutward(types, path, f)
  {
    var p := path;
    while p != []
      invariant p == path[..|p|] && ValidPath(types, p)
      invariant FindOutward(types, p, f) == FindOutward(types, path, f)
      decreases |p|
    {
      var obj := f(p, DeclAt(types, p));
      if obj.Some? {
        return obj;
      }
      p := Parent(p);
    }
    return None;
  }
}
