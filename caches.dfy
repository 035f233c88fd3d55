/**
 * The two write-once resolution caches of the model, `ObjectType.resolve`
 * and `Annotation.resolve`, and `findAnnotationValue`, which resolves
 * annotations one after the other until one has the qualified name asked for.
 */
module Caches {
  import opened Wrappers
  import opened Common
  import opened Model
  import opened TypeTree
  import opened TypeReferences
  import opened Projects
  import opened Resolution

  // ----- ObjectType.resolve -----

  /** An `ObjectType` used in the project, with its private `resolved` slot. */
  class ObjectTypeUse {
    const project: Project
    const objectType: ObjectType
    var resolved: Option<Resolved>

    /** A filled slot holds what resolving the object type's qualified name in its container gives. */
    ghost predicate Valid()
      reads this
    {
      project.Valid() && ValidContainer(project.units, objectType.container) &&
      (resolved.Some? ==>
         Resolution.Resolve(project, objectType.container, ObjectQualifiedName(objectType)) == Success(resolved.value))
    }

    constructor(project: Project, objectType: ObjectType)
      requires project.Valid() && ValidContainer(project.units, objectType.container)
      ensures this.project == project && this.objectType == objectType && resolved == None
      ensures Valid()
    {
      this.project := project;
      this.objectType := objectType;
      resolved := None;
    }

    /**
     * `resolve()`: the first successful call stores the result; every call
     * answers what resolving the qualified name gives, and a filled slot is
     * never written again. A failing resolution leaves the slot empty.
     */
    method Resolve() returns (r: Result<Resolved, ResolveError>)
      requires Valid()
      modifies this
      ensures Valid()
      ensures r == Resolution.Resolve(project, objectType.container, ObjectQualifiedName(objectType))
      ensures old(resolved).Some? ==> resolved == old(resolved) && r == Success(resolved.value)
      ensures old(resolved).None? ==> resolved == (if r.Success? then Some(r.value) else None)
    {
      if resolved.None? {
        r := Resolution.Resolve(project, objectType.container, ObjectQualifiedName(objectType));
        if r.Success? {
          resolved := Some(r.value);
        }
      } else {
        r := Success(resolved.value);
      }
    }
  }

  // ----- Annotation.resolve -----

  /** The literal values an annotation argument can hold; a number is kept as its source text. */
  datatype LiteralValue = StringValue(s: string) | NumberValue(text: string) | BooleanValue(b: bool) | NullValue

  /**
   * The shapes of an annotation argument. A nested annotation is kept by its
   * qualified name only.
   */
  datatype Expression =
    | ExpressionList(expressions: seq<Expression>)
    | NestedAnnotation(qualifiedName: string)
    | Literal(value: LiteralValue)
    | ConstructorInvocation(target: Type, arguments: seq<Expression>)
    | Name(name: string)
    | Token(code: string)
    | Unknown(code: string)

  /** One `name = value` argument of an annotation. */
  datatype AnnotationValue = AnnotationValue(name: string, value: Expression)

  function ValueName(v: AnnotationValue): string { v.name }

  /** The two ways `Annotation.resolve` fails: the name does not resolve, or it resolves to the wrong kind of type. */
  datatype AnnotationError = Unresolved(cause: ResolveError) | InvalidType(message: string)

  /** The JavaScript class name of a declared type of each kind. */
  function KindClassName(k: Kind): string {
    match k
    case ClassKind => "Class"
    case InterfaceKind => "Interface"
    case EnumKind => "Enum"
    case RecordKind => "Record"
    case AnnotationKind => "AnnotationDeclaration"
  }

  /** `resolved.name` of a resolved type (empty for a malformed address). */
  function ResolvedName(units: seq<CompilationUnit>, r: Resolved): string {
    match r
    case Declared(d) => if IsTypeContainer(units, d) then ContainerDecl(units, d).name else ""
    case Param(o, i) =>
      if IsTypeContainer(units, o) && i < |ContainerDecl(units, o).parameters| then
        ContainerDecl(units, o).parameters[i].name
      else ""
    case Reference(t) => t.name
  }

  /** `resolved.constructor.name` of a resolved type. */
  function ResolvedClassName(units: seq<CompilationUnit>, r: Resolved): string {
    match r
    case Declared(d) => if IsTypeContainer(units, d) then KindClassName(ContainerDecl(units, d).kind) else ""
    case Param(_, _) => "TypeParameter"
    case Reference(_) => "TypeReference"
  }

  /** What an annotation may resolve to: an annotation declaration of the project, or an external reference. */
  predicate IsAnnotationTarget(units: seq<CompilationUnit>, r: Resolved) {
    r.Reference? || (r.Declared? && IsTypeContainer(units, r.decl) && ContainerDecl(units, r.decl).kind == AnnotationKind)
  }

  /**
   * What `Annotation.resolve` computes for the annotation named `name` used
   * in `c`: the resolution when it is an annotation declaration or an
   * external reference, the resolution error, or "invalid type".
   */
  function AnnotationResolution(p: Project, c: Container, name: string): (r: Result<Resolved, AnnotationError>)
    requires p.Valid() && ValidContainer(p.units, c)
    ensures r.Success? ==> IsAnnotationTarget(p.units, r.value) && Resolve(p, c, name) == Success(r.value)
  {
    match Resolve(p, c, name)
    case Failure(e) => Failure(Unresolved(e))
    case Success(t) =>
      if IsAnnotationTarget(p.units, t) then Success(t)
      else Failure(InvalidType("invalid type: " + ResolvedName(p.units, t) + " (" + ResolvedClassName(p.units, t) + ")"))
  }

  /**
   * An annotation resolves exactly when its name resolves to an annotation
   * declaration or a reference, and then to that; a resolution error is
   * passed on; any other type is an "invalid type" naming the type and its class.
   */
  lemma AnnotationResolutionCases(p: Project, c: Container, name: string)
    requires p.Valid() && ValidContainer(p.units, c)
    ensures var r := AnnotationResolution(p, c, name);
            var t := Resolve(p, c, name);
            (r.Success? <==> t.Success? && IsAnnotationTarget(p.units, t.value)) &&
            (r.Success? ==> t == Success(r.value)) &&
            (t.Failure? ==> r == Failure(Unresolved(t.error))) &&
            (t.Success? && !IsAnnotationTarget(p.units, t.value) ==>
               r == Failure(InvalidType("invalid type: " + ResolvedName(p.units, t.value) + " (" +
                                        ResolvedClassName(p.units, t.value) + ")")))
  {
  }

  /** A type parameter or a class, interface, enum or record never passes as an annotation. */
  lemma AnnotationRejectsOtherTypes(p: Project, c: Container, name: string)
    requires p.Valid() && ValidContainer(p.units, c)
    requires Resolve(p, c, name).Success?
    requires Resolve(p, c, name).value.Param? ||
             (Resolve(p, c, name).value.Declared? && ContainerDecl(p.units, Resolve(p, c, name).value.decl).kind != AnnotationKind)
    ensures AnnotationResolution(p, c, name).Failure? && AnnotationResolution(p, c, name).error.InvalidType?
  {
  }

  /** An annotation used on a model element, with its private `resolved` slot. */
  class Annotation {
    const project: Project
    /** The container of the annotated element (`parent.container()`). */
    const context: Container
    const qualifiedName: string
    /** The `name` getter: the last segment of the qualified name as written. */
    const name: string
    const values: seq<AnnotationValue>
    /** What resolving this annotation gives, fixed by the constant fields above. */
    ghost const outcome: Result<Resolved, AnnotationError>
    var resolved: Option<Resolved>

    /** The annotation's constant fields are well formed and `outcome` is their resolution. */
    ghost predicate Resolvable() {
      project.Valid() && ValidContainer(project.units, context) && name == SimpleName(qualifiedName) &&
      outcome == AnnotationResolution(project, context, name)
    }

    /** A filled slot holds the annotation declaration or reference that the name resolves to. */
    ghost predicate Valid()
      reads this
    {
      Resolvable() && (resolved.Some? ==> outcome == Success(resolved.value))
    }

    constructor(project: Project, context: Container, qualifiedName: string, values: seq<AnnotationValue>)
      requires project.Valid() && ValidContainer(project.units, context)
      ensures this.project == project && this.context == context
      ensures this.qualifiedName == qualifiedName && this.values == values && resolved == None
      ensures Valid()
    {
      this.project := project;
      this.context := context;
      this.qualifiedName := qualifiedName;
      this.name := SimpleName(qualifiedName);
      this.values := values;
      outcome := AnnotationResolution(project, context, SimpleName(qualifiedName));
      resolved := None;
    }

    /**
     * `resolve()`: resolves the simple name in the annotated element's
     * container once; only an annotation declaration or an external
     * reference is stored, anything else is an "invalid type" error.
     */
    method Resolve() returns (r: Result<Resolved, AnnotationError>)
      requires Valid()
      modifies this
      ensures Valid()
      ensures r == outcome
      ensures r.Success? ==> IsAnnotationTarget(project.units, r.value)
      ensures old(resolved).Some? ==> resolved == old(resolved) && r == Success(resolved.value)
      ensures old(resolved).None? ==> resolved == (if r.Success? then Some(r.value) else None)
    {
      if resolved.None? {
        match Resolution.Resolve(project, context, name)
        case Failure(e) =>
          r := Failure(Unresolved(e));
        case Success(t) =>
          if IsAnnotationTarget(project.units, t) {
            resolved := Some(t);
            r := Success(t);
          } else {
            r := Failure(InvalidType("invalid type: " + ResolvedName(project.units, t) + " (" +
                                     ResolvedClassName(project.units, t) + ")"));
          }
      } else {
        r := Success(resolved.value);
      }
    }
  }

  // ----- findAnnotationValue -----

  /** `findObject(annotation.values, name)?.value`. */
  function ValueOf(values: seq<AnnotationValue>, name: string): (r: Option<Expression>)
    ensures r.Some? <==> exists v :: v in values && v.name == name
    ensures r.Some? ==> exists i :: 0 <= i < |values| && values[i].name == name && values[i].value == r.value &&
                                    forall j :: 0 <= j < i ==> values[j].name != name
  {
    match FindIndex(values, ValueName, name)
    case Some(i) => Some(values[i].value)
    case None => None
  }

  /**
   * `resolved.qualifiedName` compared against a string, as written: a
   * declared annotation's qualified name; on a `TypeReference`,
   * `qualifiedName` is a method, and a method is never equal to a string.
   */
  function QualifiedNameAsWritten(units: seq<CompilationUnit>, r: Resolved): Option<string> {
    match r
    case Declared(d) => Some(ContainerName(units, d))
    case Param(_, _) => Some(ResolvedName(units, r))
    case Reference(_) => None
  }

  /** The qualified name of a resolved type, the reference's name included. */
  function QualifiedNameOf(units: seq<CompilationUnit>, r: Resolved): Option<string> {
    match r
    case Declared(d) => Some(ContainerName(units, d))
    case Param(_, _) => Some(ResolvedName(units, r))
    case Reference(t) => Some(t.QualifiedName())
  }

  /** What one annotation contributes to the search: its resolution, its project's units and its values. */
  datatype Step = Step(resolution: Result<Resolved, AnnotationError>, units: seq<CompilationUnit>,
                       values: seq<AnnotationValue>)

  /** The step of one annotation. */
  ghost function StepOf(a: Annotation): Step {
    Step(a.outcome, a.project.units, a.values)
  }

  /** The step of each annotation, in order. */
  ghost function Steps(annotations: seq<Annotation>): (r: seq<Step>)
    ensures |r| == |annotations|
    ensures forall i :: 0 <= i < |annotations| ==> r[i] == StepOf(annotations[i])
  {
    seq(|annotations|, i requires 0 <= i < |annotations| => StepOf(annotations[i]))
  }

  /**
   * The loop of `findAnnotationValue` from position `from` on, comparing
   * qualified names with `nameOf`: the first step whose resolution has the
   * qualified name `qualifiedName` gives its value named `name`; a failing
   * resolution on the way is the result.
   */
  function Lookup(steps: seq<Step>, qualifiedName: string, name: string,
                  nameOf: (seq<CompilationUnit>, Resolved) -> Option<string>, from: nat): Result<Option<Expression>, AnnotationError>
    decreases |steps| - from
  {
    if from >= |steps| then Success(None)
    else
      match steps[from].resolution
      case Failure(e) => Failure(e)
      case Success(t) =>
        if nameOf(steps[from].units, t) == Some(qualifiedName) then Success(ValueOf(steps[from].values, name))
        else Lookup(steps, qualifiedName, name, nameOf, from + 1)
  }

  /** The step at `k` resolves, to a type whose qualified name under `nameOf` is `qualifiedName` or not. */
  predicate Resolves(s: Step, qualifiedName: string, nameOf: (seq<CompilationUnit>, Resolved) -> Option<string>, hit: bool) {
    s.resolution.Success? && (nameOf(s.units, s.resolution.value) == Some(qualifiedName)) == hit
  }

  /** One step of the search: a failure ends it, a match ends it with the value, anything else moves on. */
  lemma LookupAdvance(steps: seq<Step>, qualifiedName: string, name: string,
                      nameOf: (seq<CompilationUnit>, Resolved) -> Option<string>, k: nat)
    requires k < |steps|
    ensures steps[k].resolution.Failure? ==>
              Lookup(steps, qualifiedName, name, nameOf, k) == Failure(steps[k].resolution.error)
    ensures Resolves(steps[k], qualifiedName, nameOf, true) ==>
              Lookup(steps, qualifiedName, name, nameOf, k) == Success(ValueOf(steps[k].values, name))
    ensures Resolves(steps[k], qualifiedName, nameOf, false) ==>
              Lookup(steps, qualifiedName, name, nameOf, k) == Lookup(steps, qualifiedName, name, nameOf, k + 1)
  {
  }

  /**
   * When the steps from `from` up to `k` resolve to other names, and the one
   * at `k` to `qualifiedName`, the search ends with the value of the one at `k`.
   */
  lemma {:induction false} LookupFirstMatch(steps: seq<Step>, qualifiedName: string, name: string,
                                            nameOf: (seq<CompilationUnit>, Resolved) -> Option<string>, from: nat, k: nat)
    requires from <= k < |steps|
    requires forall i :: from <= i < k ==> Resolves(steps[i], qualifiedName, nameOf, false)
    requires Resolves(steps[k], qualifiedName, nameOf, true)
    ensures Lookup(steps, qualifiedName, name, nameOf, from) == Success(ValueOf(steps[k].values, name))
    decreases k - from
  {
    if from < k {
      LookupFirstMatch(steps, qualifiedName, name, nameOf, from + 1, k);
    }
  }

  /** When every step resolves to another name, nothing is found. */
  lemma {:induction false} LookupNoMatch(steps: seq<Step>, qualifiedName: string, name: string,
                                         nameOf: (seq<CompilationUnit>, Resolved) -> Option<string>, from: nat)
    requires forall i :: from <= i < |steps| ==> Resolves(steps[i], qualifiedName, nameOf, false)
    ensures Lookup(steps, qualifiedName, name, nameOf, from) == Success(None)
    decreases |steps| - from
  {
    if from < |steps| {
      LookupNoMatch(steps, qualifiedName, name, nameOf, from + 1);
    }
  }

  /** A failing resolution after steps that resolve to other names is the result of the search. */
  lemma {:induction false} LookupFailure(steps: seq<Step>, qualifiedName: string, name: string,
                                         nameOf: (seq<CompilationUnit>, Resolved) -> Option<string>, from: nat, k: nat)
    requires from <= k < |steps|
    requires forall i :: from <= i < k ==> Resolves(steps[i], qualifiedName, nameOf, false)
    requires steps[k].resolution.Failure?
    ensures Lookup(steps, qualifiedName, name, nameOf, from) == Failure(steps[k].resolution.error)
    decreases k - from
  {
    if from < k {
      LookupFailure(steps, qualifiedName, name, nameOf, from + 1, k);
    }
  }

  /**
   * As written, an annotation that resolves to an external reference is
   * passed over even when the reference's name is the one asked for: with
   * only such annotations nothing is ever found, while comparing the
   * reference's name finds the first of them.
   */
  lemma ExternalAnnotationMissed(steps: seq<Step>, qualifiedName: string, name: string)
    requires |steps| > 0
    requires forall i :: 0 <= i < |steps| ==> steps[i].resolution.Success? && steps[i].resolution.value.Reference?
    requires steps[0].resolution == Success(Reference(TypeReference(qualifiedName)))
    ensures Lookup(steps, qualifiedName, name, QualifiedNameAsWritten, 0) == Success(None)
    ensures Lookup(steps, qualifiedName, name, QualifiedNameOf, 0) == Success(ValueOf(steps[0].values, name))
  {
    LookupNoMatch(steps, qualifiedName, name, QualifiedNameAsWritten, 0);
    LookupFirstMatch(steps, qualifiedName, name, QualifiedNameOf, 0, 0);
  }

  /** The cache slot of each annotation, in order. */
  ghost function Slots(annotations: seq<Annotation>): (r: seq<Option<Resolved>>)
    reads set a | a in annotations
    ensures |r| == |annotations| && forall i :: 0 <= i < |annotations| ==> r[i] == annotations[i].resolved
  {
    seq(|annotations|, i reads set a | a in annotations requires 0 <= i < |annotations| => annotations[i].resolved)
  }

  /** Every slot filled in `before` holds the same value in `after`: a cache is written once. */
  predicate KeepsFilled(before: seq<Option<Resolved>>, after: seq<Option<Resolved>>) {
    |before| == |after| && forall i :: 0 <= i < |before| && before[i].Some? ==> after[i] == before[i]
  }

  /** Each of the first `k` annotations whose resolution succeeds has stored it in `slots`. */
  ghost predicate Stored(annotations: seq<Annotation>, slots: seq<Option<Resolved>>, k: nat)
    requires k <= |annotations| == |slots|
  {
    forall i :: 0 <= i < k && annotations[i].outcome.Success? ==> slots[i] == Some(annotations[i].outcome.value)
  }

  /** A slot stored stays stored while filled slots are kept. */
  lemma StoredKept(annotations: seq<Annotation>, before: seq<Option<Resolved>>, after: seq<Option<Resolved>>, k: nat)
    requires k <= |annotations| == |before|
    requires Stored(annotations, before, k) && KeepsFilled(before, after)
    ensures Stored(annotations, after, k)
  {
  }

  /** Only the slots of the annotation at `k` (wherever it occurs) may differ. */
  predicate OnlyChanges(annotations: seq<Annotation>, before: seq<Option<Resolved>>, after: seq<Option<Resolved>>, k: nat)
    requires k < |annotations| == |before| == |after|
  {
    forall i :: 0 <= i < |annotations| && annotations[i] != annotations[k] ==> after[i] == before[i]
  }

  /** The slots of annotations other than the first `k` are as `before` had them. */
  predicate SameOutside(annotations: seq<Annotation>, before: seq<Option<Resolved>>, after: seq<Option<Resolved>>, k: nat)
    requires k <= |annotations| == |before| == |after|
  {
    forall i :: 0 <= i < |annotations| && annotations[i] !in annotations[..k] ==> after[i] == before[i]
  }

  /** Resolving the annotation at `k` extends the untouched part by one. */
  lemma SameOutsideStep(annotations: seq<Annotation>, s0: seq<Option<Resolved>>, s1: seq<Option<Resolved>>,
                        s2: seq<Option<Resolved>>, k: nat)
    requires k < |annotations| == |s0| == |s1| == |s2|
    requires SameOutside(annotations, s0, s1, k) && OnlyChanges(annotations, s1, s2, k)
    ensures SameOutside(annotations, s0, s2, k + 1)
  {
    assert annotations[..k + 1] == annotations[..k] + [annotations[k]];
  }

  /** `annotations[k].resolve()`, keeping every annotation's cache consistent. */
  method ResolveAt(annotations: seq<Annotation>, k: nat) returns (r: Result<Resolved, AnnotationError>)
    requires k < |annotations|
    requires forall i :: 0 <= i < |annotations| ==> annotations[i].Valid()
    modifies annotations[k]
    ensures forall i :: 0 <= i < |annotations| ==> annotations[i].Valid()
    ensures r == annotations[k].outcome
    ensures annotations[k].resolved == if r.Success? then Some(r.value) else old(annotations[k].resolved)
    ensures KeepsFilled(old(Slots(annotations)), Slots(annotations))
    ensures OnlyChanges(annotations, old(Slots(annotations)), Slots(annotations), k)
  {
    ghost var before := Slots(annotations);
    r := annotations[k].Resolve();
    ghost var after := Slots(annotations);
    forall i | 0 <= i < |annotations| && annotations[i] != annotations[k]
      ensures after[i] == before[i]
    {
      assert after[i] == annotations[i].resolved == before[i];
    }
    forall i | 0 <= i < |annotations| && before[i].Some?
      ensures after[i] == before[i]
    {
      if annotations[i] != annotations[k] {
        assert after[i] == annotations[i].resolved == before[i];
      }
    }
  }

  /** The search reaches the step at `k`: every one before it resolves to another name. */
  predicate Reached(steps: seq<Step>, qualifiedName: string,
                    nameOf: (seq<CompilationUnit>, Resolved) -> Option<string>, k: nat)
    requires k <= |steps|
  {
    forall j :: 0 <= j < k ==> Resolves(steps[j], qualifiedName, nameOf, false)
  }

  /** The search passes the step at `k` exactly when it resolves to another name. */
  lemma ReachedNext(steps: seq<Step>, qualifiedName: string,
                    nameOf: (seq<CompilationUnit>, Resolved) -> Option<string>, k: nat)
    requires k < |steps| && Reached(steps, qualifiedName, nameOf, k)
    ensures Resolves(steps[k], qualifiedName, nameOf, false) ==> Reached(steps, qualifiedName, nameOf, k + 1)
    ensures !Resolves(steps[k], qualifiedName, nameOf, false) ==>
              forall i :: k < i <= |steps| ==> !Reached(steps, qualifiedName, nameOf, i)
  {
  }

  /** No occurrence of the annotation at `i` is reached by the search, so it is never resolved. */
  ghost predicate Untouched(annotations: seq<Annotation>, qualifiedName: string, i: nat)
    requires i < |annotations|
  {
    forall j :: 0 <= j < |annotations| && annotations[j] == annotations[i] ==>
      !Reached(Steps(annotations), qualifiedName, QualifiedNameOf, j)
  }

  /** Every annotation the search reaches whose resolution succeeds has stored it in `slots`. */
  ghost predicate StoredWhenReached(annotations: seq<Annotation>, qualifiedName: string, slots: seq<Option<Resolved>>)
    requires |slots| == |annotations|
  {
    forall i :: 0 <= i < |annotations| && Reached(Steps(annotations), qualifiedName, QualifiedNameOf, i) &&
                annotations[i].outcome.Success? ==>
      slots[i] == Some(annotations[i].outcome.value)
  }

  /** Every annotation the search never reaches keeps its slot. */
  ghost predicate SameWhenUntouched(annotations: seq<Annotation>, qualifiedName: string,
                                    before: seq<Option<Resolved>>, after: seq<Option<Resolved>>)
    requires |before| == |after| == |annotations|
  {
    forall i :: 0 <= i < |annotations| && Untouched(annotations, qualifiedName, i) ==> after[i] == before[i]
  }

  /**
   * The search stops at `k`: the annotations up to `k` have stored their
   * successes, and only they may have changed.
   */
  lemma SearchStops(annotations: seq<Annotation>, qualifiedName: string,
                    before: seq<Option<Resolved>>, after: seq<Option<Resolved>>, k: nat)
    requires k < |annotations| == |before| == |after|
    requires Reached(Steps(annotations), qualifiedName, QualifiedNameOf, k)
    requires !Resolves(Steps(annotations)[k], qualifiedName, QualifiedNameOf, false)
    requires Stored(annotations, after, k + 1)
    requires SameOutside(annotations, before, after, k + 1)
    ensures StoredWhenReached(annotations, qualifiedName, after)
    ensures SameWhenUntouched(annotations, qualifiedName, before, after)
  {
    var steps := Steps(annotations);
    forall i | 0 <= i < |annotations| && Untouched(annotations, qualifiedName, i)
      ensures after[i] == before[i]
    {
      forall j | 0 <= j <= k
        ensures annotations[j] != annotations[i]
      {
        assert Reached(steps, qualifiedName, QualifiedNameOf, j);
      }
      assert annotations[i] !in annotations[..k + 1];
    }
  }

  /** The search passes every annotation: all have stored their successes, none is untouched. */
  lemma SearchCompletes(annotations: seq<Annotation>, qualifiedName: string,
                        before: seq<Option<Resolved>>, after: seq<Option<Resolved>>)
    requires |annotations| == |before| == |after|
    requires Reached(Steps(annotations), qualifiedName, QualifiedNameOf, |annotations|)
    requires Stored(annotations, after, |annotations|)
    ensures StoredWhenReached(annotations, qualifiedName, after)
    ensures SameWhenUntouched(annotations, qualifiedName, before, after)
  {
    forall i | 0 <= i < |annotations|
      ensures Reached(Steps(annotations), qualifiedName, QualifiedNameOf, i)
    {
    }
  }

  /**
   * `findAnnotationValue(annotations, qualifiedName, name)`, comparing the
   * resolved type's qualified name (a reference's name included): resolves
   * each annotation in turn through its cache, and stops at the first one
   * whose qualified name is `qualifiedName`. Filled slots are kept, and
   * every annotation the search reaches has stored its successful resolution.
   */
  method FindAnnotationValue(annotations: seq<Annotation>, qualifiedName: string, name: string)
    returns (r: Result<Option<Expression>, AnnotationError>)
    requires forall i :: 0 <= i < |annotations| ==> annotations[i].Valid()
    modifies annotations
    ensures forall i :: 0 <= i < |annotations| ==> annotations[i].Valid()
    ensures r == Lookup(Steps(annotations), qualifiedName, name, QualifiedNameOf, 0)
    ensures KeepsFilled(old(Slots(annotations)), Slots(annotations))
    ensures StoredWhenReached(annotations, qualifiedName, Slots(annotations))
    ensures SameWhenUntouched(annotations, qualifiedName, old(Slots(annotations)), Slots(annotations))
  {
    ghost var initial := Slots(annotations);
    var k := 0;
    while k < |annotations|
      invariant k <= |annotations|
      invariant forall i :: 0 <= i < |annotations| ==> annotations[i].Valid()
      invariant KeepsFilled(initial, Slots(annotations))
      invariant Stored(annotations, Slots(annotations), k)
      invariant SameOutside(annotations, initial, Slots(annotations), k)
      invariant Reached(Steps(annotations), qualifiedName, QualifiedNameOf, k)
      invariant Lookup(Steps(annotations), qualifiedName, name, QualifiedNameOf, 0) ==
                Lookup(Steps(annotations), qualifiedName, name, QualifiedNameOf, k)
    {
      ghost var before := Slots(annotations);
      var resolved := ResolveAt(annotations, k);
      StoredKept(annotations, before, Slots(annotations), k);
      SameOutsideStep(annotations, initial, before, Slots(annotations), k);
      LookupAdvance(Steps(annotations), qualifiedName, name, QualifiedNameOf, k);
      ReachedNext(Steps(annotations), qualifiedName, QualifiedNameOf, k);
      assert Stored(annotations, Slots(annotations), k + 1);
      if resolved.Failure? {
        SearchStops(annotations, qualifiedName, initial, Slots(annotations), k);
        return Failure(resolved.error);
      }
      var units := annotations[k].project.units;
      if QualifiedNameOf(units, resolved.value) == Some(qualifiedName) {
        SearchStops(annotations, qualifiedName, initial, Slots(annotations), k);
        return Success(ValueOf(annotations[k].values, name));
      }
      k := k + 1;
    }
    SearchCompletes(annotations, qualifiedName, initial, Slots(annotations));
    r := Success(None);
  }
}
