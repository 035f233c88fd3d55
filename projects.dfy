/**
 * The project: its compilation units and the index from qualified name to
 * declared type that the constructor builds, rejecting duplicate names; plus
 * the per-unit lookups `findImport` and `findCompilationUnits`.
 */
module Projects {
  import opened Wrappers
  import opened Common
  import opened Model
  import opened TypeTree

  // ----- the declared types of a project, in visiting order -----

  /** The declared types of unit `u`, in the order `visitTypes` reaches them. */
  function UnitTypes(units: seq<CompilationUnit>, u: nat): seq<Container>
    requires u < |units|
  {
    var visited := VisitTypes(units[u].types);
    seq(|visited|, i requires 0 <= i < |visited| => Container(u, visited[i]))
  }

  /** The declared types of the first `n` units, unit after unit. */
  function TypesOf(units: seq<CompilationUnit>, n: nat): seq<Container>
    requires n <= |units|
  {
    if n == 0 then [] else TypesOf(units, n - 1) + UnitTypes(units, n - 1)
  }

  /** `Project.visitTypes`: every declared type of every unit. */
  function AllTypes(units: seq<CompilationUnit>): seq<Container> {
    TypesOf(units, |units|)
  }

  /** The first `n` units contribute exactly their declared types. */
  lemma {:induction false} TypesOfMembers(units: seq<CompilationUnit>, n: nat, c: Container)
    requires n <= |units|
    ensures c in TypesOf(units, n) <==> IsTypeContainer(units, c) && c.unit < n
  {
    if n > 0 {
      TypesOfMembers(units, n - 1, c);
      var visited := VisitTypes(units[n - 1].types);
      VisitTypesOrder(units[n - 1].types);
      var here := UnitTypes(units, n - 1);
      if c.unit == n - 1 && IsTypeContainer(units, c) {
        assert c.path in visited;
        var i :| 0 <= i < |visited| && visited[i] == c.path;
        assert here[i] == c;
      }
      if c in here {
        var i :| 0 <= i < |here| && here[i] == c;
        assert visited[i] in visited;
      }
    }
  }

  /** No declared type is listed twice. */
  lemma {:induction false} TypesOfDistinct(units: seq<CompilationUnit>, n: nat)
    requires n <= |units|
    ensures forall i, j :: 0 <= i < j < |TypesOf(units, n)| ==> TypesOf(units, n)[i] != TypesOf(units, n)[j]
  {
    if n > 0 {
      TypesOfDistinct(units, n - 1);
      var before := TypesOf(units, n - 1);
      var here := UnitTypes(units, n - 1);
      var all := before + here;
      VisitTypesOrder(units[n - 1].types);
      forall i, j | 0 <= i < j < |all|
        ensures all[i] != all[j]
      {
        if j >= |before| && i < |before| {
          TypesOfMembers(units, n - 1, all[i]);
          assert all[i] in before;
        }
      }
    }
  }

  /** Fewer units give a prefix of the same listing. */
  lemma {:induction false} TypesOfPrefix(units: seq<CompilationUnit>, n: nat, m: nat)
    requires n <= m <= |units|
    ensures |TypesOf(units, n)| <= |TypesOf(units, m)|
    ensures TypesOf(units, m)[..|TypesOf(units, n)|] == TypesOf(units, n)
    decreases m - n
  {
    if n < m {
      TypesOfPrefix(units, n, m - 1);
    }
  }

  /**
   * `Project.visitTypes` visits exactly the declared types of the project, each
   * once: a unit's types before the next unit's, each unit in pre-order.
   */
  lemma VisitAllTypes(units: seq<CompilationUnit>)
    ensures forall c :: c in AllTypes(units) <==> IsTypeContainer(units, c)
    ensures forall i, j :: 0 <= i < j < |AllTypes(units)| ==> AllTypes(units)[i] != AllTypes(units)[j]
  {
    forall c
      ensures c in AllTypes(units) <==> IsTypeContainer(units, c)
    {
      TypesOfMembers(units, |units|, c);
    }
    TypesOfDistinct(units, |units|);
  }

  // ----- the name index -----

  /** The dictionary of `cs` by qualified name; a later type overwrites an earlier one. */
  function IndexOf(units: seq<CompilationUnit>, cs: seq<Container>): map<string, Container> {
    if cs == [] then map[]
    else
      var last := cs[|cs| - 1];
      IndexOf(units, cs[..|cs| - 1])[ContainerName(units, last) := last]
  }

  predicate DistinctNames(units: seq<CompilationUnit>, cs: seq<Container>) {
    forall i, j {:trigger ContainerName(units, cs[i]), ContainerName(units, cs[j])} ::
      0 <= i < j < |cs| ==> ContainerName(units, cs[i]) != ContainerName(units, cs[j])
  }

  /** Every key of the dictionary is the name of a listed type, which it maps to. */
  lemma {:induction false} IndexOfSound(units: seq<CompilationUnit>, cs: seq<Container>)
    ensures forall qn :: qn in IndexOf(units, cs) ==>
              IndexOf(units, cs)[qn] in cs && ContainerName(units, IndexOf(units, cs)[qn]) == qn
  {
    if cs != [] {
      var init := cs[..|cs| - 1];
      var last := cs[|cs| - 1];
      assert forall c :: c in init ==> c in cs;
      IndexOfSound(units, init);
      var m := IndexOf(units, cs);
      forall qn | qn in m
        ensures m[qn] in cs && ContainerName(units, m[qn]) == qn
      {
        if qn != ContainerName(units, last) {
          assert m[qn] == IndexOf(units, init)[qn];
        }
      }
    }
  }

  /** Every listed type's name is a key of the dictionary. */
  lemma {:induction false} IndexOfComplete(units: seq<CompilationUnit>, cs: seq<Container>)
    ensures forall c :: c in cs ==> ContainerName(units, c) in IndexOf(units, cs)
  {
    if cs != [] {
      var init := cs[..|cs| - 1];
      IndexOfComplete(units, init);
      assert forall c :: c in cs ==> c in init || c == cs[|cs| - 1];
    }
  }

  /** Two types may share a qualified name only if they are the same type. */
  ghost predicate UniqueNames(units: seq<CompilationUnit>) {
    forall c1, c2 ::
      (IsTypeContainer(units, c1) && IsTypeContainer(units, c2) &&
       ContainerName(units, c1) == ContainerName(units, c2)) ==> c1 == c2
  }

  /**
   * The invariant of the `types` dictionary: its entries are exactly the
   * declared types of the project, each under its qualified name.
   */
  ghost predicate IsIndex(units: seq<CompilationUnit>, m: map<string, Container>) {
    (forall qn :: qn in m ==> IsTypeContainer(units, m[qn]) && ContainerName(units, m[qn]) == qn) &&
    (forall c :: IsTypeContainer(units, c) ==> ContainerName(units, c) in m && m[ContainerName(units, c)] == c)
  }

  /** A complete index exists only when qualified names are unique. */
  lemma IndexedNamesUnique(units: seq<CompilationUnit>, m: map<string, Container>)
    requires IsIndex(units, m)
    ensures UniqueNames(units)
  {
  }

  /** The listing of all types has distinct names exactly when the project's names are unique. */
  lemma DistinctNamesIffUnique(units: seq<CompilationUnit>)
    ensures DistinctNames(units, AllTypes(units)) <==> UniqueNames(units)
  {
    var all := AllTypes(units);
    VisitAllTypes(units);
    if DistinctNames(units, all) {
      forall c1, c2 | IsTypeContainer(units, c1) && IsTypeContainer(units, c2) &&
                      ContainerName(units, c1) == ContainerName(units, c2)
        ensures c1 == c2
      {
        var i :| 0 <= i < |all| && all[i] == c1;
        var j :| 0 <= j < |all| && all[j] == c2;
        assert i == j;
      }
    }
    if UniqueNames(units) {
      forall i, j | 0 <= i < j < |all|
        ensures ContainerName(units, all[i]) != ContainerName(units, all[j])
      {
        assert all[i] in all && all[j] in all;
      }
    }
  }

  /** The qualified names of `cs`, in order. */
  function Names(units: seq<CompilationUnit>, cs: seq<Container>): seq<string> {
    seq(|cs|, i requires 0 <= i < |cs| => ContainerName(units, cs[i]))
  }

  /** The qualified names of all declared types, in visiting order. */
  function TypeNames(units: seq<CompilationUnit>): seq<string> {
    Names(units, AllTypes(units))
  }

  lemma DistinctNamesIsDistinct(units: seq<CompilationUnit>, cs: seq<Container>)
    ensures DistinctNames(units, cs) <==> Distinct(Names(units, cs))
  {
    var names := Names(units, cs);
    assert forall i :: 0 <= i < |cs| ==> names[i] == ContainerName(units, cs[i]);
  }

  /**
   * The visiting order has no repeated qualified name exactly when no two
   * declared types of the project share a qualified name.
   */
  lemma NoRepeatIffUnique(units: seq<CompilationUnit>)
    ensures FirstRepeat(TypeNames(units), 0).None? <==> UniqueNames(units)
  {
    FirstRepeatNone(TypeNames(units), 0);
    DistinctNamesIsDistinct(units, AllTypes(units));
    DistinctNamesIffUnique(units);
  }

  /**
   * The constructor's callback over a list of types, for any naming of
   * them: enter each under its name into `m`, failing on the first name
   * already taken, that is present in `m` or among the `reserved` names.
   */
  function EnterNamed(nameOf: Container -> string, cs: seq<Container>, m: map<string, Container>,
                      reserved: set<string>): Result<map<string, Container>, string>
    decreases |cs|
  {
    if cs == [] then Success(m)
    else
      var qn := nameOf(cs[0]);
      if qn in m || qn in reserved then Failure("Duplicate type name: " + qn)
      else EnterNamed(nameOf, cs[1..], m[qn := cs[0]], reserved)
  }

  /** The constructor's loop over lists of types, one list after another, from `m`. */
  function EnterBlocks(nameOf: Container -> string, blocks: seq<seq<Container>>, m: map<string, Container>,
                       reserved: set<string>): Result<map<string, Container>, string>
    decreases |blocks|
  {
    if blocks == [] then Success(m)
    else
      match EnterNamed(nameOf, blocks[0], m, reserved)
      case Failure(e) => Failure(e)
      case Success(next) => EnterBlocks(nameOf, blocks[1..], next, reserved)
  }

  /** The lists one after another. */
  function Concat(blocks: seq<seq<Container>>): seq<Container>
    decreases |blocks|
  {
    if blocks == [] then [] else blocks[0] + Concat(blocks[1..])
  }

  /** Entering two lists is entering the first, then (unless it failed) the second. */
  lemma {:induction false} EnterAppend(nameOf: Container -> string, a: seq<Container>, b: seq<Container>,
                                       m: map<string, Container>, reserved: set<string>)
    ensures EnterNamed(nameOf, a + b, m, reserved) ==
            match EnterNamed(nameOf, a, m, reserved)
            case Failure(e) => Failure(e)
            case Success(next) => EnterNamed(nameOf, b, next, reserved)
    decreases |a|
  {
    if a != [] {
      assert (a + b)[0] == a[0] && (a + b)[1..] == a[1..] + b;
      var qn := nameOf(a[0]);
      if !(qn in m || qn in reserved) {
        EnterAppend(nameOf, a[1..], b, m[qn := a[0]], reserved);
      }
    } else {
      assert a + b == b;
    }
  }

  /** Entering list after list is entering them all as one list. */
  lemma {:induction false} EnterBlocksConcat(nameOf: Container -> string, blocks: seq<seq<Container>>,
                                             m: map<string, Container>, reserved: set<string>)
    ensures EnterBlocks(nameOf, blocks, m, reserved) == EnterNamed(nameOf, Concat(blocks), m, reserved)
    decreases |blocks|
  {
    if blocks != [] {
      EnterAppend(nameOf, blocks[0], Concat(blocks[1..]), m, reserved);
      var first := EnterNamed(nameOf, blocks[0], m, reserved);
      if first.Success? {
        EnterBlocksConcat(nameOf, blocks[1..], first.value, reserved);
      }
    }
  }

  /** Each type's qualified name, the key the constructor enters it under. */
  function NameIn(units: seq<CompilationUnit>): Container -> string {
    c => ContainerName(units, c)
  }

  /** The constructor's callback for a list of the project's types. */
  function Enter(units: seq<CompilationUnit>, cs: seq<Container>, m: map<string, Container>,
                 reserved: set<string>): Result<map<string, Container>, string>
  {
    EnterNamed(NameIn(units), cs, m, reserved)
  }

  /** The declared types of units `u` and later, one list per unit. */
  function UnitBlocks(units: seq<CompilationUnit>, u: nat): (r: seq<seq<Container>>)
    requires u <= |units|
    ensures |r| == |units| - u
    ensures forall i :: 0 <= i < |r| ==> r[i] == UnitTypes(units, u + i)
  {
    seq(|units| - u, i requires 0 <= i < |units| - u => UnitTypes(units, u + i))
  }

  /** The constructor's loop from unit `u` on: each unit's types in turn, starting from `m`. */
  function EnterUnits(units: seq<CompilationUnit>, u: nat, m: map<string, Container>,
                      reserved: set<string>): Result<map<string, Container>, string>
    requires u <= |units|
  {
    EnterBlocks(NameIn(units), UnitBlocks(units, u), m, reserved)
  }

  /** One unit of the loop: enter its types, then go on with the next unit. */
  lemma EnterUnitsStep(units: seq<CompilationUnit>, u: nat, m: map<string, Container>, reserved: set<string>)
    requires u < |units|
    ensures EnterUnits(units, u, m, reserved) ==
            match Enter(units, UnitTypes(units, u), m, reserved)
            case Failure(e) => Failure(e)
            case Success(next) => EnterUnits(units, u + 1, next, reserved)
  {
    var blocks := UnitBlocks(units, u);
    assert blocks[0] == UnitTypes(units, u);
    assert blocks[1..] == UnitBlocks(units, u + 1);
  }

  /** All the units' lists, one after another, are the project's visiting order. */
  lemma {:induction false} ConcatUnitBlocks(units: seq<CompilationUnit>, u: nat)
    requires u <= |units|
    ensures TypesOf(units, u) + Concat(UnitBlocks(units, u)) == AllTypes(units)
    decreases |units| - u
  {
    var blocks := UnitBlocks(units, u);
    if u < |units| {
      ConcatUnitBlocks(units, u + 1);
      assert blocks[0] == UnitTypes(units, u);
      assert blocks[1..] == UnitBlocks(units, u + 1);
      assert TypesOf(units, u + 1) == TypesOf(units, u) + UnitTypes(units, u);
      assert TypesOf(units, u) + Concat(blocks) ==
             (TypesOf(units, u) + UnitTypes(units, u)) + Concat(UnitBlocks(units, u + 1));
    } else {
      assert blocks == [];
      assert TypesOf(units, u) + [] == TypesOf(units, u);
    }
  }

  /**
   * What building the index from `cs` yields: the dictionary when no
   * qualified name repeats, otherwise the error naming the first repeat.
   */
  function IndexOrDuplicate(units: seq<CompilationUnit>, cs: seq<Container>): Result<map<string, Container>, string> {
    var names := Names(units, cs);
    match FirstRepeat(names, 0)
    case None => Success(IndexOf(units, cs))
    case Some(k) => Failure("Duplicate type name: " + names[k])
  }

  /** Entering a type whose name is new keeps the names distinct and adds exactly that entry. */
  lemma ExtendIndex(units: seq<CompilationUnit>, done: seq<Container>, c: Container)
    requires DistinctNames(units, done) && ContainerName(units, c) !in IndexOf(units, done)
    ensures DistinctNames(units, done + [c])
    ensures IndexOf(units, done + [c]) == IndexOf(units, done)[ContainerName(units, c) := c]
  {
    var s := done + [c];
    assert s[..|done|] == done;
    IndexOfComplete(units, done);
    forall i, j | 0 <= i < j < |s|
      ensures ContainerName(units, s[i]) != ContainerName(units, s[j])
    {
      if j == |done| {
        assert s[i] in done;
      } else {
        assert s[i] == done[i] && s[j] == done[j];
      }
    }
  }

  /** A name already entered makes position `k` the first repeat in `cs`. */
  lemma RepeatFound(units: seq<CompilationUnit>, cs: seq<Container>, k: nat)
    requires k < |cs| && DistinctNames(units, cs[..k]) && ContainerName(units, cs[k]) in IndexOf(units, cs[..k])
    ensures FirstRepeat(Names(units, cs), 0) == Some(k)
  {
    var done := cs[..k];
    var qn := ContainerName(units, cs[k]);
    IndexOfSound(units, done);
    var i :| 0 <= i < k && done[i] == IndexOf(units, done)[qn];
    var names := Names(units, cs);
    assert names[..k] == Names(units, done);
    DistinctNamesIsDistinct(units, done);
    assert names[..k][i] == qn == names[k];
    FirstRepeatAt(names, 0, k);
  }

  /**
   * Entering the rest of `cs` after a prefix of distinct names, with no
   * reserved names, yields the dictionary or the first duplicate of `cs`.
   */
  lemma {:induction false} EnterOutcome(units: seq<CompilationUnit>, cs: seq<Container>, k: nat)
    requires k <= |cs| && DistinctNames(units, cs[..k])
    ensures Enter(units, cs[k..], IndexOf(units, cs[..k]), {}) == IndexOrDuplicate(units, cs)
    decreases |cs| - k
  {
    var names := Names(units, cs);
    if k == |cs| {
      assert cs[..k] == cs;
      DistinctNamesIsDistinct(units, cs);
      FirstRepeatNone(names, 0);
    } else {
      var c := cs[k];
      var qn := ContainerName(units, c);
      assert cs[k..][0] == c && cs[k..][1..] == cs[k + 1..];
      assert cs[..k + 1] == cs[..k] + [c];
      if qn in IndexOf(units, cs[..k]) {
        RepeatFound(units, cs, k);
      } else {
        ExtendIndex(units, cs[..k], c);
        EnterOutcome(units, cs, k + 1);
      }
    }
  }

  /**
   * The constructor's loop over all units yields the dictionary of all
   * declared types when no qualified name repeats in visiting order, and
   * otherwise fails naming the first repeated one.
   */
  lemma EnterUnitsOutcome(units: seq<CompilationUnit>)
    ensures EnterUnits(units, 0, map[], {}) == IndexOrDuplicate(units, AllTypes(units))
  {
    var all := AllTypes(units);
    calc {
      EnterUnits(units, 0, map[], {});
      EnterBlocks(NameIn(units), UnitBlocks(units, 0), map[], {});
      { EnterBlocksConcat(NameIn(units), UnitBlocks(units, 0), map[], {}); }
      EnterNamed(NameIn(units), Concat(UnitBlocks(units, 0)), map[], {});
      { ConcatUnitBlocks(units, 0); assert Concat(UnitBlocks(units, 0)) == all; }
      Enter(units, all[0..], IndexOf(units, all[..0]), {});
      { EnterOutcome(units, all, 0); }
      IndexOrDuplicate(units, all);
    }
  }

  /**
   * With unique names, the dictionary of all visited types is a complete
   * index: every declared type is found under its qualified name, and every
   * key leads to the type of that name.
   */
  lemma IndexComplete(units: seq<CompilationUnit>)
    requires UniqueNames(units)
    ensures IsIndex(units, IndexOf(units, AllTypes(units)))
  {
    var all := AllTypes(units);
    VisitAllTypes(units);
    IndexOfSound(units, all);
    IndexOfComplete(units, all);
  }

  /**
   * The callback `visitTypes` runs for one unit inside the `Project`
   * constructor: enter each declared type of unit `u` under its qualified
   * name, failing on the first name already present.
   */
  method EnterUnitTypes(units: seq<CompilationUnit>, u: nat, seen: map<string, Container>)
    returns (r: Result<map<string, Container>, string>)
    requires u < |units|
    ensures r == Enter(units, UnitTypes(units, u), seen, {})
  {
    var index := seen;
    var visited := VisitTypes(units[u].types);
    ghost var here := UnitTypes(units, u);
    var j := 0;
    while j < |visited|
      invariant j <= |visited| == |here|
      invariant Enter(units, here, seen, {}) == Enter(units, here[j..], index, {})
    {
      var c := Container(u, visited[j]);
      var qn := ContainerName(units, c);
      assert here[j..][0] == c && here[j..][1..] == here[j + 1..];
      if qn in index {
        return Failure("Duplicate type name: " + qn);
      }
      index := index[qn := c];
      j := j + 1;
    }
    return Success(index);
  }

  /**
   * The loop of the `Project` constructor: visit every unit's types in order
   * and enter each under its qualified name; the result is the dictionary of
   * all declared types, or the error naming the first repeated name.
   */
  method BuildIndex(units: seq<CompilationUnit>) returns (r: Result<map<string, Container>, string>)
    ensures r == EnterUnits(units, 0, map[], {})
    ensures r == IndexOrDuplicate(units, AllTypes(units))
  {
    var seen: map<string, Container> := map[];
    var u := 0;
    while u < |units|
      invariant u <= |units|
      invariant EnterUnits(units, 0, map[], {}) == EnterUnits(units, u, seen, {})
    {
      var entered := EnterUnitTypes(units, u, seen);
      EnterUnitsStep(units, u, seen, {});
      if entered.Failure? {
        EnterUnitsOutcome(units);
        return entered;
      }
      seen := entered.value;
      u := u + 1;
    }
    EnterUnitsOutcome(units);
    return Success(seen);
  }

  // ----- the project -----

  /** A set of compilation units and the dictionary of their declared types by qualified name. */
  class Project {
    const units: seq<CompilationUnit>
    const types: map<string, Container>

    /** Names are unique and `types` holds every declared type under its qualified name. */
    ghost predicate Valid() {
      UniqueNames(units) && types == IndexOf(units, AllTypes(units))
    }

    constructor(units: seq<CompilationUnit>, types: map<string, Container>)
      requires UniqueNames(units) && types == IndexOf(units, AllTypes(units))
      ensures this.units == units && this.types == types
      ensures Valid()
    {
      this.units := units;
      this.types := types;
    }

    /**
     * `new Project(compilationUnits)`: builds the index, and fails with
     * "Duplicate type name: <name>" on the first repeated qualified name.
     */
    static method Create(units: seq<CompilationUnit>) returns (r: Result<Project, string>)
      ensures r.Success? <==> UniqueNames(units)
      ensures r.Success? ==> r.value.units == units && r.value.Valid()
      ensures r.Failure? ==>
                FirstRepeat(TypeNames(units), 0).Some? &&
                r.error == "Duplicate type name: " + TypeNames(units)[FirstRepeat(TypeNames(units), 0).value]
    {
      var index := BuildIndex(units);
      NoRepeatIffUnique(units);
      match index
      case Failure(e) =>
        return Failure(e);
      case Success(types) =>
        var p := new Project(units, types);
        return Success(p);
    }

    /** `findType`: the declared type with this qualified name, if any. */
    function FindType(qualifiedName: string): (r: Option<Container>)
      requires Valid()
      ensures r.Some? ==> IsTypeContainer(units, r.value) && ContainerName(units, r.value) == qualifiedName
      ensures r.None? <==> forall c :: IsTypeContainer(units, c) ==> ContainerName(units, c) != qualifiedName
    {
      IndexComplete(units);
      if qualifiedName in types then Some(types[qualifiedName]) else None
    }

    /** `findCompilationUnits`: positions of the units declaring this package. */
    function FindCompilationUnits(packageName: Option<string>): (r: seq<nat>)
      ensures forall i :: i in r <==> 0 <= i < |units| && units[i].packageName == packageName
    {
      UnitsInPackage(units, packageName, |units|)
    }
  }

  /** Every type the project visits is found again by its qualified name. */
  lemma FindTypeOfVisited(p: Project)
    requires p.Valid()
    ensures forall c :: c in AllTypes(p.units) ==> p.FindType(ContainerName(p.units, c)) == Some(c)
  {
    VisitAllTypes(p.units);
    IndexComplete(p.units);
  }

  /**
   * Among the first `n` units, the positions of those whose package is
   * `packageName` (no package matches no package), in increasing order.
   */
  function UnitsInPackage(units: seq<CompilationUnit>, packageName: Option<string>, n: nat): (r: seq<nat>)
    requires n <= |units|
    ensures forall i :: i in r <==> 0 <= i < n && units[i].packageName == packageName
    ensures forall j, k :: 0 <= j < k < |r| ==> r[j] < r[k]
  {
    if n == 0 then []
    else
      var init := UnitsInPackage(units, packageName, n - 1);
      assert forall j :: 0 <= j < |init| ==> init[j] in init;
      if units[n - 1].packageName == packageName then init + [n - 1] else init
  }

  // ----- imports -----

  /** `findImport`: the first import ending in `.<name>`. */
  function FindImport(imports: seq<string>, name: string): (r: Option<string>)
    ensures r.Some? ==> exists i :: 0 <= i < |imports| && imports[i] == r.value &&
                                    forall j :: 0 <= j < i ==> !EndsWith(imports[j], "." + name)
    ensures r.Some? ==> EndsWith(r.value, "." + name)
    ensures r.None? <==> forall s :: s in imports ==> !EndsWith(s, "." + name)
  {
    if imports == [] then None
    else if EndsWith(imports[0], "." + name) then Some(imports[0])
    else
      var r := FindImport(imports[1..], name);
      if r.Some? then
        var i :| 0 <= i < |imports[1..]| && imports[1..][i] == r.value &&
                 forall j :: 0 <= j < i ==> !EndsWith(imports[1..][j], "." + name);
        assert imports[i + 1] == r.value;
        r
      else
        assert forall s :: s in imports ==> s == imports[0] || s in imports[1..];
        r
  }

  /** The wildcard imports, `import a.b.*`, in their order. */
  function StarImports(imports: seq<string>): (r: seq<string>)
    ensures forall s :: s in r <==> s in imports && EndsWith(s, ".*")
    ensures forall i :: 0 <= i < |r| ==> EndsWith(r[i], ".*")
    ensures |r| <= |imports|
  {
    if imports == [] then []
    else
      var rest := StarImports(imports[1..]);
      assert forall s :: s in imports ==> s == imports[0] || s in imports[1..];
      if EndsWith(imports[0], ".*") then [imports[0]] + rest else rest
  }

  /** A single import is kept exactly when it is a wildcard import. */
  lemma StarImportsSingle(x: string)
    ensures StarImports([x]) == if EndsWith(x, ".*") then [x] else []
  {
    assert [x][1..] == [];
  }

  /**
   * Filtering distributes over concatenation; with `StarImportsSingle` this
   * makes `StarImports` the order-preserving filter that keeps every
   * wildcard import once per occurrence.
   */
  lemma {:induction false} StarImportsAppend(a: seq<string>, b: seq<string>)
    ensures StarImports(a + b) == StarImports(a) + StarImports(b)
    decreases |a|
  {
    if a == [] {
      assert a + b == b;
    } else {
      assert (a + b)[0] == a[0] && (a + b)[1..] == a[1..] + b;
      StarImportsAppend(a[1..], b);
    }
  }

  /** A wildcard import repeated is counted twice: two entries, as `filter` keeps them. */
  lemma RepeatedWildcardCounted(x: string)
    requires EndsWith(x, ".*")
    ensures StarImports([x, x]) == [x, x]
  {
    assert [x, x] == [x] + [x];
    StarImportsAppend([x], [x]);
    StarImportsSingle(x);
  }

  // ----- the index as written over a plain JavaScript object -----

  /**
   * The keys a plain JavaScript object `{}` answers through its prototype
   * (`Object.prototype` members and `__proto__`).
   */
  const PrototypeKeys: set<string> := {
    "__proto__", "__defineGetter__", "__defineSetter__", "__lookupGetter__", "__lookupSetter__",
    "constructor", "hasOwnProperty", "isPrototypeOf", "propertyIsEnumerable",
    "toLocaleString", "toString", "valueOf"
  }

  /**
   * The constructor's loop as written: `this.types[qn] == undefined` is also
   * false for a name the plain object answers through its prototype, so those
   * names count as taken from the start.
   */
  function IndexAsWritten(units: seq<CompilationUnit>): Result<map<string, Container>, string> {
    EnterUnits(units, 0, map[], PrototypeKeys)
  }

  /**
   * What `this.types[qualifiedName]` answers on a plain object: an entered
   * type, a member inherited from `Object.prototype`, or `undefined`.
   */
  datatype TypeLookup = Found(decl: Container) | Inherited(key: string) | Undefined

  /** `findType` as written: the plain object also answers the names it inherits. */
  function FindTypeAsWritten(types: map<string, Container>, qualifiedName: string): (r: TypeLookup)
    ensures r.Found? <==> qualifiedName in types
    ensures r.Found? ==> r.decl == types[qualifiedName]
    ensures r.Inherited? <==> qualifiedName !in types && qualifiedName in PrototypeKeys
  {
    if qualifiedName in types then Found(types[qualifiedName])
    else if qualifiedName in PrototypeKeys then Inherited(qualifiedName)
    else Undefined
  }

  /**
   * In a project that declares no type named `toString`, `findType("toString")`
   * as written answers the inherited function, while the corrected lookup
   * answers nothing.
   */
  lemma ToStringFoundAsWritten(p: Project)
    requires p.Valid()
    requires forall c :: IsTypeContainer(p.units, c) ==> ContainerName(p.units, c) != "toString"
    ensures FindTypeAsWritten(p.types, "toString") == Inherited("toString")
    ensures p.FindType("toString").None?
  {
    IndexComplete(p.units);
  }

  /** One unit without a package declaring a single class named `toString`. */
  function ToStringProject(): seq<CompilationUnit> {
    [CompilationUnit(None, [], [TypeDeclaration(ClassKind, "toString", [], [], [], [], [])])]
  }

  /** The only declared type of that project is its top-level class. */
  lemma ToStringProjectTypes()
    ensures AllTypes(ToStringProject()) == [Container(0, [0])]
    ensures forall c :: IsTypeContainer(ToStringProject(), c) ==> c == Container(0, [0])
  {
    var units := ToStringProject();
    var types := units[0].types;
    assert [] + [0] == [0];
    assert VisitFrom(types[0].types, [0], 0) == [];
    assert VisitFrom(types, [], 1) == [];
    assert VisitTypes(types) == [[0]];
    assert UnitTypes(units, 0) == [Container(0, [0])];
    assert TypesOf(units, 1) == TypesOf(units, 0) + UnitTypes(units, 0);
    VisitAllTypes(units);
  }

  /** Its class's qualified name is `toString`. */
  lemma ToStringNamed()
    ensures NameIn(ToStringProject())(Container(0, [0])) == "toString"
  {
    var units := ToStringProject();
    ToStringProjectTypes();
    assert TypeTree.TypeQualifiedName(units[0], [0]) == "toString";
  }

  /** Its class is entered under the name `toString`, which the plain object already answers. */
  lemma ToStringEntered()
    ensures Enter(ToStringProject(), [Container(0, [0])], map[], PrototypeKeys) == Failure("Duplicate type name: toString")
    ensures Enter(ToStringProject(), [Container(0, [0])], map[], {}) == Success(map["toString" := Container(0, [0])])
  {
    var units := ToStringProject();
    var c := Container(0, [0]);
    ToStringNamed();
    assert "toString" in PrototypeKeys;
    assert "Duplicate type name: " + "toString" == "Duplicate type name: toString";
    assert [c][1..] == [];
    assert EnterNamed(NameIn(units), [], map["toString" := c], {}) == Success(map["toString" := c]);
  }

  /**
   * A project whose only type is a top-level class `toString` in the default
   * package has unique names, yet the loop as written rejects it as a
   * duplicate, while the loop without reserved names accepts it.
   */
  lemma PrototypeNameRejected()
    ensures UniqueNames(ToStringProject())
    ensures IndexAsWritten(ToStringProject()) == Failure("Duplicate type name: toString")
    ensures EnterUnits(ToStringProject(), 0, map[], {}) == Success(map["toString" := Container(0, [0])])
  {
    var units := ToStringProject();
    ToStringProjectTypes();
    assert UnitTypes(units, 0) == [Container(0, [0])] by {
      assert TypesOf(units, 1) == TypesOf(units, 0) + UnitTypes(units, 0);
    }
    ToStringEntered();
    EnterUnitsStep(units, 0, map[], PrototypeKeys);
    EnterUnitsStep(units, 0, map[], {});
    assert UnitBlocks(units, 1) == [];
  }
}
