/**
 * JavaBean properties of a declared type (`Property`): the getter and
 * setter shapes, the accessor names of a field, the property name of an
 * accessor, and the list of properties built from a type's non-static fields,
 * its getters and its setters.
 */
module Properties {
  import opened Wrappers
  import opened Common
  import opened Model

  // ----- case conversion -----

  /** `toUpperCase` of one character, for ASCII letters. */
  function ToUpper(c: char): char {
    if 'a' <= c <= 'z' then (c as int - 32) as char else c
  }

  /** `toLowerCase` of one character, for ASCII letters. */
  function ToLower(c: char): char {
    if 'A' <= c <= 'Z' then (c as int + 32) as char else c
  }

  /** Lower-casing undoes upper-casing a lower-case letter. */
  lemma ToLowerToUpper(c: char)
    requires 'a' <= c <= 'z'
    ensures ToLower(ToUpper(c)) == c && ToUpper(c) != c
  {
  }

  /** `capitalize`: the first character upper-cased, the rest unchanged. */
  function Capitalize(s: string): (r: string)
    ensures |r| == |s|
    ensures s != [] ==> r[0] == ToUpper(s[0]) && r[1..] == s[1..]
  {
    if |s| == 0 then "" else [ToUpper(s[0])] + s[1..]
  }

  /** The first two characters are their own upper case, as in `URL`. */
  predicate AcronymStyle(s: string) {
    |s| > 1 && ToUpper(s[0]) == s[0] && ToUpper(s[1]) == s[1]
  }

  /**
   * `decapitalize`: a name whose first two characters are upper case stays
   * as it is; otherwise only its first character is lower-cased.
   */
  function Decapitalize(s: string): (r: string)
    ensures |r| == |s|
    ensures AcronymStyle(s) ==> r == s
    ensures s != [] && !AcronymStyle(s) ==> r[0] == ToLower(s[0]) && r[1..] == s[1..]
  {
    if |s| == 0 then ""
    else if |s| > 1 && [ToUpper(s[0]), ToUpper(s[1])] == s[..2] then s
    else [ToLower(s[0])] + s[1..]
  }

  /**
   * A name that starts with a lower-case letter followed by anything but a
   * character that is its own upper case comes back from capitalising and
   * decapitalising.
   */
  lemma DecapitalizeCapitalize(s: string)
    requires s != [] && 'a' <= s[0] <= 'z'
    requires |s| > 1 ==> ToUpper(s[1]) != s[1]
    ensures Decapitalize(Capitalize(s)) == s
  {
    var c := Capitalize(s);
    ToLowerToUpper(s[0]);
    assert !AcronymStyle(c);
    assert Decapitalize(c) == [s[0]] + s[1..];
  }

  /** A name whose second character is already upper case does not come back: `aB` gives `AB`. */
  lemma DecapitalizeCapitalizeAcronym(s: string)
    requires |s| > 1 && 'a' <= s[0] <= 'z' && ToUpper(s[1]) == s[1]
    ensures Decapitalize(Capitalize(s)) != s
  {
    var c := Capitalize(s);
    assert AcronymStyle(c);
    ToLowerToUpper(s[0]);
    assert Decapitalize(c)[0] != s[0];
  }

  // ----- accessor shapes -----

  /** `isBoolean` of a type: the primitive `boolean`. */
  predicate IsBoolean(t: Type) {
    t.Primitive? && t.primitive.name == "boolean"
  }

  /** `isVoid` of a type: the primitive `void`. */
  predicate IsVoid(t: Type) {
    t.Primitive? && t.primitive.name == "void"
  }

  /** A character that JavaScript's `.` does not match. */
  predicate IsLineTerminator(c: char) {
    c == '\n' || c == '\r' || c == '\U{2028}' || c == '\U{2029}'
  }

  /** `name.match(/^<prefix>./)`: the prefix followed by at least one character. */
  predicate PrefixThenChar(name: string, prefix: string) {
    |name| > |prefix| && StartsWith(name, prefix) && !IsLineTerminator(name[|prefix|])
  }

  /**
   * `isGetter`: public, not static, no parameters, not void, and named `get`
   * and more (`is` and more also for a boolean).
   */
  predicate IsGetter(m: Method, owner: Kind) {
    IsPublic(m.modifiers, owner) && "static" !in m.modifiers && |m.parameters| == 0 &&
    !IsVoid(m.returnType) &&
    (if IsBoolean(m.returnType) then PrefixThenChar(m.name, "is") || PrefixThenChar(m.name, "get")
     else PrefixThenChar(m.name, "get"))
  }

  /** `isSetter`: public, not static, void, one parameter that is not void, and named `set` and more. */
  predicate IsSetter(m: Method, owner: Kind) {
    IsPublic(m.modifiers, owner) && "static" !in m.modifiers && IsVoid(m.returnType) &&
    |m.parameters| == 1 && !IsVoid(m.parameters[0].declaredType) &&
    PrefixThenChar(m.name, "set")
  }

  /** No method is both a getter and a setter: a getter is not void, a setter is. */
  lemma GetterNotSetter(m: Method, owner: Kind)
    ensures !(IsGetter(m, owner) && IsSetter(m, owner))
  {
  }

  /** `getterName`: `is` and the capitalised name for a boolean field, `get` and it otherwise. */
  function GetterName(f: Field): (r: string)
    ensures IsBoolean(f.declaredType) ==> StartsWith(r, "is") && r[2..] == Capitalize(f.name)
    ensures !IsBoolean(f.declaredType) ==> StartsWith(r, "get") && r[3..] == Capitalize(f.name)
  {
    if IsBoolean(f.declaredType) then "is" + Capitalize(f.name) else "get" + Capitalize(f.name)
  }

  /** `setterName`: `set` and the capitalised name. */
  function SetterName(f: Field): (r: string)
    ensures StartsWith(r, "set") && r[3..] == Capitalize(f.name)
  {
    "set" + Capitalize(f.name)
  }

  /**
   * `propertyName`: the decapitalised rest of a name after `get` or `set`,
   * or after `is` when the type is boolean; any other method is "not an
   * accessor".
   */
  function PropertyName(m: Method): (r: Result<string, string>)
    ensures r.Failure? <==>
              !StartsWith(m.name, "get") && !StartsWith(m.name, "set") &&
              !(IsBoolean(m.returnType) && StartsWith(m.name, "is"))
    ensures r.Failure? ==> r.error == "not an accessor: " + m.name
    ensures r.Success? && (StartsWith(m.name, "get") || StartsWith(m.name, "set")) ==>
              r.value == Decapitalize(m.name[3..])
    ensures r.Success? && !StartsWith(m.name, "get") && !StartsWith(m.name, "set") ==>
              r.value == Decapitalize(m.name[2..])
  {
    if StartsWith(m.name, "get") then Success(Decapitalize(m.name[3..]))
    else if StartsWith(m.name, "set") then Success(Decapitalize(m.name[3..]))
    else if IsBoolean(m.returnType) && StartsWith(m.name, "is") then Success(Decapitalize(m.name[2..]))
    else Failure("not an accessor: " + m.name)
  }

  /** Every getter and every setter has a property name, made from the rest of its name. */
  lemma AccessorHasName(m: Method, owner: Kind)
    requires IsGetter(m, owner) || IsSetter(m, owner)
    ensures PropertyName(m).Success?
  {
  }

  /** A `getURL()` getter's property is `URL`, not `uRL`. */
  lemma AcronymPropertyName(t: Type)
    requires !IsBoolean(t)
    ensures PropertyName(Method("getURL", [], t, [])) == Success("URL")
  {
    var m := Method("getURL", [], t, []);
    assert StartsWith(m.name, "get");
    assert m.name[3..] == "URL";
    assert AcronymStyle("URL");
  }

  /**
   * The getter and the setter that `getterName` and `setterName` name give
   * back the field's name, for a field named in lower camel case.
   */
  lemma AccessorNamesRoundTrip(f: Field, getterType: Type, setterType: Type)
    requires f.name != [] && 'a' <= f.name[0] <= 'z'
    requires |f.name| > 1 ==> ToUpper(f.name[1]) != f.name[1]
    requires IsBoolean(getterType) == IsBoolean(f.declaredType)
    ensures PropertyName(Method(GetterName(f), [], getterType, [])) == Success(f.name)
    ensures PropertyName(Method(SetterName(f), [], setterType, [])) == Success(f.name)
  {
    DecapitalizeCapitalize(f.name);
    var g := GetterName(f);
    if IsBoolean(f.declaredType) {
      assert g[..2] == "is";
      assert !StartsWith(g, "get") && !StartsWith(g, "set");
    }
    var s := SetterName(f);
    assert s[..3] == "set";
    assert !StartsWith(s, "get");
  }

  // ----- properties -----

  /** A property: a name and type, and the field, getter and setter that carry it. */
  datatype Property = Property(name: string, propertyType: Type, field: Option<Field>,
                               getter: Option<Method>, setter: Option<Method>)

  function PropName(p: Property): string { p.name }

  /** The property names, in order. */
  function Names(ps: seq<Property>): (r: seq<string>)
    ensures |r| == |ps| && forall i :: 0 <= i < |ps| ==> r[i] == ps[i].name
  {
    seq(|ps|, i requires 0 <= i < |ps| => ps[i].name)
  }

  predicate DistinctNames(ps: seq<Property>) {
    forall i, j :: 0 <= i < j < |ps| ==> ps[i].name != ps[j].name
  }

  /** The getter slot (`getters`) or the setter slot of a property. */
  function Slot(p: Property, getters: bool): Option<Method> {
    if getters then p.getter else p.setter
  }

  /** The non-static fields among the first `n`, in order. */
  function NonStaticFields(fields: seq<Field>, n: nat): (r: seq<Field>)
    requires n <= |fields|
    ensures forall f :: f in r ==> f in fields && "static" !in f.modifiers
  {
    if n == 0 then []
    else if "static" in fields[n - 1].modifiers then NonStaticFields(fields, n - 1)
    else NonStaticFields(fields, n - 1) + [fields[n - 1]]
  }

  /** The property a field creates: the field's name and type, no accessor yet. */
  function FieldProperty(f: Field): Property {
    Property(f.name, f.declaredType, Some(f), None, None)
  }

  /** The properties a list of fields creates, one per field in order. */
  function FieldOnly(fs: seq<Field>): (r: seq<Property>)
    ensures |r| == |fs| && forall i :: 0 <= i < |fs| ==> r[i] == FieldProperty(fs[i])
  {
    seq(|fs|, i requires 0 <= i < |fs| => FieldProperty(fs[i]))
  }

  /** The names of some fields, in order: the names of the properties they create. */
  function NamesOfFields(fs: seq<Field>): (r: seq<string>)
    ensures |r| == |fs| && forall i :: 0 <= i < |fs| ==> r[i] == fs[i].name
  {
    Names(FieldOnly(fs))
  }

  /** The names of the non-static fields among the first `n`, in order. */
  function FieldNames(fields: seq<Field>, n: nat): seq<string>
    requires n <= |fields|
  {
    NamesOfFields(NonStaticFields(fields, n))
  }

  /** One turn of the field loop: a static field is skipped, a repeated name is an error. */
  function AddField(ps: seq<Property>, f: Field): (r: Result<seq<Property>, string>)
    ensures "static" in f.modifiers ==> r == Success(ps)
    ensures "static" !in f.modifiers && f.name in Names(ps) ==> r == Failure("duplicate field name: " + f.name)
    ensures "static" !in f.modifiers && f.name !in Names(ps) ==> r == Success(ps + [FieldProperty(f)])
  {
    if "static" in f.modifiers then Success(ps)
    else match FindObject(ps, PropName, f.name)
      case None => Success(ps + [FieldProperty(f)])
      case Some(_) => Failure("duplicate field name: " + f.name)
  }

  /** The field loop goes on with `f` unless it has already failed. */
  function NextField(r: Result<seq<Property>, string>, f: Field): Result<seq<Property>, string> {
    match r
    case Failure(e) => Failure(e)
    case Success(ps) => AddField(ps, f)
  }

  /** The field loop over the first `n` fields, stopping at the first error. */
  function FieldProperties(fields: seq<Field>, n: nat): Result<seq<Property>, string>
    requires n <= |fields|
  {
    if n == 0 then Success([]) else NextField(FieldProperties(fields, n - 1), fields[n - 1])
  }

  /** A first repeat of a sequence is still the first repeat once more is appended. */
  lemma {:induction false} FirstRepeatExtend<T>(s: seq<T>, t: seq<T>, from: nat)
    requires FirstRepeat(s, from).Some?
    ensures FirstRepeat(s + t, from) == FirstRepeat(s, from)
    decreases |s| - from
  {
    assert (s + t)[..from] == s[..from] && (s + t)[from] == s[from];
    if s[from] !in s[..from] {
      FirstRepeatExtend(s, t, from + 1);
    }
  }

  /**
   * What the field loop gives for the non-static fields `fs`: one property
   * per field in order when their names are distinct, otherwise the error
   * naming the first repeated name.
   */
  ghost predicate FieldOutcome(fs: seq<Field>, r: Result<seq<Property>, string>) {
    var names := NamesOfFields(fs);
    (r.Success? <==> Distinct(names)) &&
    (r.Success? ==> r.value == FieldOnly(fs)) &&
    (r.Failure? ==> FirstRepeat(names, 0).Some? &&
                    r.error == "duplicate field name: " + names[FirstRepeat(names, 0).value])
  }

  /** A failed loop stays failed, and the names stay repeated with the same first repeat. */
  lemma FieldStepFailed(fs: seq<Field>, f: Field, r: Result<seq<Property>, string>)
    requires FieldOutcome(fs, r) && r.Failure?
    ensures FieldOutcome(fs + [f], NextField(r, f))
  {
    var before := NamesOfFields(fs);
    var names := NamesOfFields(fs + [f]);
    assert names == before + [f.name];
    FirstRepeatNone(before, 0);
    FirstRepeatExtend(before, [f.name], 0);
    var i, j :| 0 <= i < j < |before| && before[i] == before[j];
    assert names[i] == names[j];
  }

  /** A non-static field whose name is already taken is the first repeat. */
  lemma FieldStepRepeated(fs: seq<Field>, f: Field, r: Result<seq<Property>, string>)
    requires FieldOutcome(fs, r) && r.Success? && "static" !in f.modifiers && f.name in NamesOfFields(fs)
    ensures FieldOutcome(fs + [f], NextField(r, f))
  {
    var before := NamesOfFields(fs);
    var names := NamesOfFields(fs + [f]);
    assert names == before + [f.name];
    assert names[..|before|] == before;
    assert Names(r.value) == before;
    var i :| 0 <= i < |before| && before[i] == f.name;
    assert names[i] == names[|before|];
    FirstRepeatAt(names, 0, |before|);
  }

  /** A non-static field with a new name adds its property at the end. */
  lemma FieldStepFresh(fs: seq<Field>, f: Field, r: Result<seq<Property>, string>)
    requires FieldOutcome(fs, r) && r.Success? && "static" !in f.modifiers && f.name !in NamesOfFields(fs)
    ensures FieldOutcome(fs + [f], NextField(r, f))
  {
    var before := NamesOfFields(fs);
    var names := NamesOfFields(fs + [f]);
    assert names == before + [f.name];
    assert Names(r.value) == before;
    assert FieldOnly(fs + [f]) == r.value + [FieldProperty(f)];
  }

  /**
   * The field loop succeeds exactly when the non-static field names are
   * distinct, and then gives one property per non-static field, in order;
   * otherwise its error names the first repeated field name.
   */
  lemma {:induction false} FieldPropertiesOutcome(fields: seq<Field>, n: nat)
    requires n <= |fields|
    ensures FieldOutcome(NonStaticFields(fields, n), FieldProperties(fields, n))
  {
    if n > 0 {
      FieldPropertiesOutcome(fields, n - 1);
      var fs := NonStaticFields(fields, n - 1);
      var r := FieldProperties(fields, n - 1);
      var f := fields[n - 1];
      if "static" !in f.modifiers {
        if r.Failure? {
          FieldStepFailed(fs, f, r);
        } else if f.name in NamesOfFields(fs) {
          FieldStepRepeated(fs, f, r);
        } else {
          FieldStepFresh(fs, f, r);
        }
      }
    }
  }

  /** A failed field loop stays failed with the same error. */
  lemma {:induction false} FieldFailureSticks(fields: seq<Field>, k: nat, n: nat)
    requires k <= n <= |fields| && FieldProperties(fields, k).Failure?
    ensures FieldProperties(fields, n) == FieldProperties(fields, k)
    decreases n - k
  {
    if k < n {
      FieldFailureSticks(fields, k, n - 1);
    }
  }

  /** The property name of a method that the pass selects, nothing for any other method. */
  function SelectedName(m: Method, owner: Kind, getters: bool): (r: Option<string>)
    ensures r.Some? ==> PropertyName(m) == Success(r.value)
    ensures r.Some? <==> (if getters then IsGetter(m, owner) else IsSetter(m, owner))
  {
    if (if getters then IsGetter(m, owner) else IsSetter(m, owner)) then
      AccessorHasName(m, owner);
      Some(PropertyName(m).value)
    else None
  }

  /** A new property made by an accessor: no field, the accessor in its slot, the accessor's type. */
  function NewProperty(name: string, m: Method, getters: bool): Property {
    Property(name, m.returnType, None, if getters then Some(m) else None, if getters then None else Some(m))
  }

  /** `q` is `p` with at most the slot `getters` changed. */
  predicate Kept(p: Property, q: Property, getters: bool) {
    q.name == p.name && q.field == p.field && q.propertyType == p.propertyType &&
    Slot(q, !getters) == Slot(p, !getters)
  }

  /**
   * One accessor attached under `name`: to the property of that name when
   * there is one, otherwise to a new property at the end.
   */
  function Attach(ps: seq<Property>, name: string, m: Method, getters: bool): (r: seq<Property>)
    ensures name in Names(ps) ==> |r| == |ps|
    ensures name !in Names(ps) ==> r == ps + [NewProperty(name, m, getters)]
    ensures forall i :: 0 <= i < |ps| ==> Kept(ps[i], r[i], getters)
    ensures DistinctNames(ps) ==>
              forall i :: 0 <= i < |ps| ==>
                Slot(r[i], getters) == if ps[i].name == name then Some(m) else Slot(ps[i], getters)
  {
    match FindIndex(ps, PropName, name)
    case None => ps + [NewProperty(name, m, getters)]
    case Some(i) => ps[i := if getters then ps[i].(getter := Some(m)) else ps[i].(setter := Some(m))]
  }

  /** The property name of each getter (`getters`) or of each setter, as a function. */
  function Selector(owner: Kind, getters: bool): Method -> Option<string> {
    m => SelectedName(m, owner, getters)
  }

  /** One turn of the getter loop (`getters`) or of the setter loop. */
  function AddAccessor(ps: seq<Property>, m: Method, sel: Method -> Option<string>, getters: bool): seq<Property> {
    match sel(m)
    case Some(name) => Attach(ps, name, m, getters)
    case None => ps
  }

  /** The getter loop (`getters`) or the setter loop over the first `n` methods, starting from `ps`. */
  function Accessors(ps: seq<Property>, methods: seq<Method>, sel: Method -> Option<string>, getters: bool, n: nat): seq<Property>
    requires n <= |methods|
  {
    if n == 0 then ps else AddAccessor(Accessors(ps, methods, sel, getters, n - 1), methods[n - 1], sel, getters)
  }

  /** The last of the first `n` methods that the pass attaches under `name`. */
  function LastAccessor(methods: seq<Method>, sel: Method -> Option<string>, name: string, n: nat): (r: Option<Method>)
    requires n <= |methods|
    ensures r.None? <==> forall j :: 0 <= j < n ==> sel(methods[j]) != Some(name)
    ensures r.Some? ==> exists j :: 0 <= j < n && methods[j] == r.value &&
                                    sel(methods[j]) == Some(name) &&
                                    forall k :: j < k < n ==> sel(methods[k]) != Some(name)
  {
    if n == 0 then None
    else if sel(methods[n - 1]) == Some(name) then Some(methods[n - 1])
    else LastAccessor(methods, sel, name, n - 1)
  }

  /** The first of the first `n` methods that the pass attaches under `name`. */
  function FirstAccessor(methods: seq<Method>, sel: Method -> Option<string>, name: string, n: nat): (r: Option<Method>)
    requires n <= |methods|
    ensures r.None? <==> forall j :: 0 <= j < n ==> sel(methods[j]) != Some(name)
    ensures r.Some? ==> exists j :: 0 <= j < n && methods[j] == r.value &&
                                    sel(methods[j]) == Some(name) &&
                                    forall k :: 0 <= k < j ==> sel(methods[k]) != Some(name)
  {
    if n == 0 then None
    else
      var earlier := FirstAccessor(methods, sel, name, n - 1);
      if earlier.Some? then earlier
      else if sel(methods[n - 1]) == Some(name) then Some(methods[n - 1])
      else None
  }

  /**
   * The position of the first of the first `n` methods that the pass
   * attaches under `name`; `n` when there is none.
   */
  function FirstIndex(methods: seq<Method>, sel: Method -> Option<string>, name: string, n: nat): (r: nat)
    requires n <= |methods|
    ensures r <= n
    ensures r < n ==> sel(methods[r]) == Some(name)
    ensures forall k :: 0 <= k < r ==> sel(methods[k]) != Some(name)
  {
    if n == 0 then 0
    else
      var earlier := FirstIndex(methods, sel, name, n - 1);
      if earlier < n - 1 then earlier
      else if sel(methods[n - 1]) == Some(name) then n - 1
      else n
  }

  // The pass invariant, in four parts: what happens to the properties the
  // pass starts from, what the new ones hold, what every slot holds, and
  // that every accessor has a property.

  /** Names stay distinct and the starting properties keep their place and all but the pass's slot. */
  ghost predicate Keeps(ps0: seq<Property>, r: seq<Property>, getters: bool) {
    DistinctNames(r) && |ps0| <= |r| && forall i :: 0 <= i < |ps0| ==> Kept(ps0[i], r[i], getters)
  }

  /** A new property has no field, nothing in the other slot, and the type of the first accessor of its name. */
  ghost predicate NewFit(ps0: seq<Property>, r: seq<Property>, methods: seq<Method>, sel: Method -> Option<string>, getters: bool,
                         n: nat)
    requires n <= |methods|
  {
    forall i :: |ps0| <= i < |r| ==>
      r[i].field.None? && Slot(r[i], !getters).None? &&
      FirstAccessor(methods, sel, r[i].name, n).Some? &&
      r[i].propertyType == FirstAccessor(methods, sel, r[i].name, n).value.returnType
  }

  /** Every slot of the pass holds the last accessor of its property's name, or what it held before. */
  ghost predicate SlotsFit(ps0: seq<Property>, r: seq<Property>, methods: seq<Method>, sel: Method -> Option<string>, getters: bool,
                           n: nat)
    requires n <= |methods|
  {
    forall i :: 0 <= i < |r| ==>
      Slot(r[i], getters) ==
        if LastAccessor(methods, sel, r[i].name, n).Some? then LastAccessor(methods, sel, r[i].name, n)
        else if i < |ps0| then Slot(ps0[i], getters) else None
  }

  /** Every accessor among the first `n` methods has a property of its name. */
  ghost predicate Covers(r: seq<Property>, methods: seq<Method>, sel: Method -> Option<string>, getters: bool, n: nat)
    requires n <= |methods|
  {
    forall j :: 0 <= j < n && sel(methods[j]).Some? ==>
      sel(methods[j]).value in Names(r)
  }

  ghost predicate PassInvariant(ps0: seq<Property>, r: seq<Property>, methods: seq<Method>, sel: Method -> Option<string>,
                                getters: bool, n: nat)
    requires n <= |methods|
  {
    Keeps(ps0, r, getters) && NewFit(ps0, r, methods, sel, getters, n) &&
    SlotsFit(ps0, r, methods, sel, getters, n) && Covers(r, methods, sel, getters, n)
  }

  /** Attaching keeps the starting properties and distinct names. */
  lemma KeepsStep(ps0: seq<Property>, methods: seq<Method>, sel: Method -> Option<string>, getters: bool, n: nat)
    requires n < |methods| && Keeps(ps0, Accessors(ps0, methods, sel, getters, n), getters)
    ensures Keeps(ps0, Accessors(ps0, methods, sel, getters, n + 1), getters)
  {
    var ps := Accessors(ps0, methods, sel, getters, n);
    match sel(methods[n])
    case None =>
    case Some(name) =>
      if name !in Names(ps) {
        forall i | 0 <= i < |ps| ensures ps[i].name != name {
          assert Names(ps)[i] == ps[i].name;
        }
      }
  }

  /** A selected method with a name no property has yet is the first accessor of that name. */
  lemma FirstAccessorFresh(ps: seq<Property>, methods: seq<Method>, sel: Method -> Option<string>, getters: bool,
                           n: nat, name: string)
    requires n < |methods| && Covers(ps, methods, sel, getters, n)
    requires sel(methods[n]) == Some(name) && name !in Names(ps)
    ensures FirstAccessor(methods, sel, name, n + 1) == Some(methods[n])
  {
    assert FirstAccessor(methods, sel, name, n).None?;
  }

  /** New properties keep fitting after one more method. */
  lemma NewFitStep(ps0: seq<Property>, methods: seq<Method>, sel: Method -> Option<string>, getters: bool, n: nat)
    requires n < |methods|
    requires var ps := Accessors(ps0, methods, sel, getters, n);
             Keeps(ps0, ps, getters) && NewFit(ps0, ps, methods, sel, getters, n) && Covers(ps, methods, sel, getters, n)
    ensures NewFit(ps0, Accessors(ps0, methods, sel, getters, n + 1), methods, sel, getters, n + 1)
  {
    var ps := Accessors(ps0, methods, sel, getters, n);
    var r := Accessors(ps0, methods, sel, getters, n + 1);
    forall i | |ps0| <= i < |ps|
      ensures FirstAccessor(methods, sel, ps[i].name, n + 1) == FirstAccessor(methods, sel, ps[i].name, n)
    {
    }
    match sel(methods[n])
    case None =>
    case Some(name) =>
      if name !in Names(ps) {
        FirstAccessorFresh(ps, methods, sel, getters, n, name);
        assert r[|ps|] == NewProperty(name, methods[n], getters);
      }
  }

  /** Slots keep fitting after one more method. */
  lemma SlotsFitStep(ps0: seq<Property>, methods: seq<Method>, sel: Method -> Option<string>, getters: bool, n: nat)
    requires n < |methods|
    requires var ps := Accessors(ps0, methods, sel, getters, n);
             Keeps(ps0, ps, getters) && SlotsFit(ps0, ps, methods, sel, getters, n)
    ensures SlotsFit(ps0, Accessors(ps0, methods, sel, getters, n + 1), methods, sel, getters, n + 1)
  {
    var ps := Accessors(ps0, methods, sel, getters, n);
    var r := Accessors(ps0, methods, sel, getters, n + 1);
    forall i | 0 <= i < |ps|
      ensures LastAccessor(methods, sel, ps[i].name, n + 1) ==
              if sel(methods[n]) == Some(ps[i].name) then Some(methods[n]) else LastAccessor(methods, sel, ps[i].name, n)
    {
    }
    match sel(methods[n])
    case None =>
    case Some(name) =>
      if name !in Names(ps) {
        assert r[|ps|] == NewProperty(name, methods[n], getters);
        assert LastAccessor(methods, sel, name, n + 1) == Some(methods[n]);
      }
  }

  /** Every accessor keeps having a property after one more method. */
  lemma CoversStep(ps0: seq<Property>, methods: seq<Method>, sel: Method -> Option<string>, getters: bool, n: nat)
    requires n < |methods| && Covers(Accessors(ps0, methods, sel, getters, n), methods, sel, getters, n)
    ensures Covers(Accessors(ps0, methods, sel, getters, n + 1), methods, sel, getters, n + 1)
  {
    var ps := Accessors(ps0, methods, sel, getters, n);
    var r := Accessors(ps0, methods, sel, getters, n + 1);
    assert forall x :: x in Names(ps) ==> x in Names(r) by {
      forall x | x in Names(ps) ensures x in Names(r) {
        var i :| 0 <= i < |ps| && Names(ps)[i] == x;
        assert Names(r)[i] == x;
      }
    }
    match sel(methods[n])
    case None =>
    case Some(name) =>
      if name !in Names(ps) {
        assert Names(r)[|ps|] == name;
      }
  }

  /** The pass invariant holds after the whole pass. */
  lemma {:induction false} PassInvariantHolds(ps0: seq<Property>, methods: seq<Method>, sel: Method -> Option<string>,
                                              getters: bool, n: nat)
    requires n <= |methods| && DistinctNames(ps0)
    ensures PassInvariant(ps0, Accessors(ps0, methods, sel, getters, n), methods, sel, getters, n)
  {
    if n > 0 {
      PassInvariantHolds(ps0, methods, sel, getters, n - 1);
      KeepsStep(ps0, methods, sel, getters, n - 1);
      NewFitStep(ps0, methods, sel, getters, n - 1);
      SlotsFitStep(ps0, methods, sel, getters, n - 1);
      CoversStep(ps0, methods, sel, getters, n - 1);
    }
  }

  /** The properties a pass adds come in the order of the first accessor of their names. */
  ghost predicate NewInOrder(ps0: seq<Property>, r: seq<Property>, methods: seq<Method>, sel: Method -> Option<string>, n: nat)
    requires n <= |methods|
  {
    forall i, j :: |ps0| <= i < j < |r| ==>
      FirstIndex(methods, sel, r[i].name, n) < FirstIndex(methods, sel, r[j].name, n)
  }

  /**
   * After `k` methods, each property the pass added has an accessor among
   * them, and a name without a property has none.
   */
  lemma AddedFirstIndex(ps0: seq<Property>, methods: seq<Method>, sel: Method -> Option<string>, getters: bool, k: nat)
    requires k <= |methods| && DistinctNames(ps0)
    ensures var ps := Accessors(ps0, methods, sel, getters, k);
            (forall i :: |ps0| <= i < |ps| ==> FirstIndex(methods, sel, ps[i].name, k) < k) &&
            (forall x :: x !in Names(ps) ==> FirstIndex(methods, sel, x, k) == k)
  {
    PassInvariantHolds(ps0, methods, sel, getters, k);
    var ps := Accessors(ps0, methods, sel, getters, k);
    forall i | |ps0| <= i < |ps| ensures FirstIndex(methods, sel, ps[i].name, k) < k {
      assert FirstAccessor(methods, sel, ps[i].name, k).Some?;
    }
  }

  /** The order of the added properties survives one more method. */
  lemma InOrderStep(ps0: seq<Property>, methods: seq<Method>, sel: Method -> Option<string>, getters: bool, n: nat)
    requires 0 < n <= |methods|
    requires DistinctNames(ps0) && NewInOrder(ps0, Accessors(ps0, methods, sel, getters, n - 1), methods, sel, n - 1)
    ensures NewInOrder(ps0, Accessors(ps0, methods, sel, getters, n), methods, sel, n)
  {
    var k := n - 1;
    AddedFirstIndex(ps0, methods, sel, getters, k);
    var ps := Accessors(ps0, methods, sel, getters, k);
    var r := Accessors(ps0, methods, sel, getters, n);
    forall i | |ps0| <= i < |ps|
      ensures FirstIndex(methods, sel, ps[i].name, n) == FirstIndex(methods, sel, ps[i].name, k) < k
    {
    }
    match sel(methods[k])
    case None =>
    case Some(name) =>
      if name !in Names(ps) {
        assert FirstIndex(methods, sel, name, k) == k;
        assert r[|ps|].name == name;
      }
  }

  /** A pass adds its properties in the order of the first accessor of their names. */
  lemma {:induction false} NewInOrderHolds(ps0: seq<Property>, methods: seq<Method>, sel: Method -> Option<string>,
                                           getters: bool, n: nat)
    requires n <= |methods| && DistinctNames(ps0)
    ensures NewInOrder(ps0, Accessors(ps0, methods, sel, getters, n), methods, sel, n)
  {
    if n > 0 {
      NewInOrderHolds(ps0, methods, sel, getters, n - 1);
      InOrderStep(ps0, methods, sel, getters, n);
    }
  }

  /** Fields contribute only to a class or an enum. */
  predicate HasFieldProperties(k: Kind) {
    k == ClassKind || k == EnumKind
  }

  /** The non-static fields that contribute properties to a declaration. */
  function SeedFields(d: TypeDeclaration): seq<Field> {
    if HasFieldProperties(d.kind) then NonStaticFields(d.fields, |d.fields|) else []
  }

  /**
   * `properties(type)`: the non-static fields of a class or enum, then the
   * getters, then the setters, each merged by name into one list.
   */
  function PropertiesOf(d: TypeDeclaration): (r: Result<seq<Property>, string>)
    ensures r.Failure? ==> HasFieldProperties(d.kind)
  {
    var seeded := if HasFieldProperties(d.kind) then FieldProperties(d.fields, |d.fields|) else Success([]);
    match seeded
    case Failure(e) => Failure(e)
    case Success(ps) =>
      var withGetters := Accessors(ps, d.methods, Selector(d.kind, true), true, |d.methods|);
      Success(Accessors(withGetters, d.methods, Selector(d.kind, false), false, |d.methods|))
  }

  /**
   * A class or enum whose non-static fields repeat a name has no properties:
   * the error names the first repeated name. Every other declaration has
   * properties.
   */
  lemma DuplicateFieldRejected(d: TypeDeclaration)
    ensures var names := FieldNames(d.fields, |d.fields|);
            (PropertiesOf(d).Failure? <==> HasFieldProperties(d.kind) && !Distinct(names)) &&
            (PropertiesOf(d).Failure? ==>
               FirstRepeat(names, 0).Some? &&
               PropertiesOf(d).error == "duplicate field name: " + names[FirstRepeat(names, 0).value])
  {
    FieldPropertiesOutcome(d.fields, |d.fields|);
  }

  /** When the field loop succeeds, it gives the field properties, whose names are distinct. */
  lemma SeedOutcome(d: TypeDeclaration)
    requires PropertiesOf(d).Success?
    ensures (if HasFieldProperties(d.kind) then FieldProperties(d.fields, |d.fields|) else Success([])) ==
            Success(FieldOnly(SeedFields(d)))
    ensures DistinctNames(FieldOnly(SeedFields(d)))
  {
    var ps0 := FieldOnly(SeedFields(d));
    if HasFieldProperties(d.kind) {
      FieldPropertiesOutcome(d.fields, |d.fields|);
      var names := NamesOfFields(SeedFields(d));
      forall i, j | 0 <= i < j < |ps0| ensures ps0[i].name != ps0[j].name {
        assert names[i] == ps0[i].name && names[j] == ps0[j].name;
      }
    }
  }

  /** Both pass invariants of a declaration with properties, and the list between the passes. */
  lemma PassesOf(d: TypeDeclaration) returns (ps1: seq<Property>)
    requires PropertiesOf(d).Success?
    ensures ps1 == Accessors(FieldOnly(SeedFields(d)), d.methods, Selector(d.kind, true), true, |d.methods|)
    ensures PropertiesOf(d).value == Accessors(ps1, d.methods, Selector(d.kind, false), false, |d.methods|)
    ensures PassInvariant(FieldOnly(SeedFields(d)), ps1, d.methods, Selector(d.kind, true), true, |d.methods|)
    ensures PassInvariant(ps1, PropertiesOf(d).value, d.methods, Selector(d.kind, false), false, |d.methods|)
  {
    SeedOutcome(d);
    var ps0 := FieldOnly(SeedFields(d));
    ps1 := Accessors(ps0, d.methods, Selector(d.kind, true), true, |d.methods|);
    PassInvariantHolds(ps0, d.methods, Selector(d.kind, true), true, |d.methods|);
    PassInvariantHolds(ps1, d.methods, Selector(d.kind, false), false, |d.methods|);
  }

  /**
   * The property names are distinct, and a class or enum's list starts with
   * one property per non-static field, in field order, holding the field and
   * its type.
   */
  lemma PropertiesFields(d: TypeDeclaration)
    requires PropertiesOf(d).Success?
    ensures var ps := PropertiesOf(d).value;
            var fs := SeedFields(d);
            DistinctNames(ps) && |fs| <= |ps| &&
            forall i :: 0 <= i < |fs| ==>
              ps[i].name == fs[i].name && ps[i].field == Some(fs[i]) && ps[i].propertyType == fs[i].declaredType
  {
    var ps1 := PassesOf(d);
    var fs := SeedFields(d);
    assert forall i :: 0 <= i < |fs| ==> Kept(FieldOnly(fs)[i], ps1[i], true);
  }

  /** Every getter and every setter has a property of its name. */
  lemma PropertiesCoverAccessors(d: TypeDeclaration)
    requires PropertiesOf(d).Success?
    ensures forall j :: 0 <= j < |d.methods| && (IsGetter(d.methods[j], d.kind) || IsSetter(d.methods[j], d.kind)) ==>
              PropertyName(d.methods[j]).value in Names(PropertiesOf(d).value)
  {
    var ps1 := PassesOf(d);
    var ps := PropertiesOf(d).value;
    forall j | 0 <= j < |d.methods| && IsGetter(d.methods[j], d.kind)
      ensures PropertyName(d.methods[j]).value in Names(ps)
    {
      var x := SelectedName(d.methods[j], d.kind, true).value;
      var i :| 0 <= i < |ps1| && Names(ps1)[i] == x;
      assert Names(ps)[i] == x;
    }
    forall j | 0 <= j < |d.methods| && IsSetter(d.methods[j], d.kind)
      ensures PropertyName(d.methods[j]).value in Names(ps)
    {
      assert SelectedName(d.methods[j], d.kind, false).Some?;
    }
  }

  /** A property added by the setter loop has no getter of its name. */
  lemma SetterOnlyHasNoGetter(d: TypeDeclaration, ps1: seq<Property>, i: nat)
    requires PropertiesOf(d).Success? && |ps1| <= i < |PropertiesOf(d).value|
    requires PassInvariant(FieldOnly(SeedFields(d)), ps1, d.methods, Selector(d.kind, true), true, |d.methods|)
    requires PassInvariant(ps1, PropertiesOf(d).value, d.methods, Selector(d.kind, false), false, |d.methods|)
    ensures LastAccessor(d.methods, Selector(d.kind, true), PropertiesOf(d).value[i].name, |d.methods|).None?
    ensures FirstAccessor(d.methods, Selector(d.kind, true), PropertiesOf(d).value[i].name, |d.methods|).None?
  {
    var ps := PropertiesOf(d).value;
    forall j | 0 <= j < |d.methods| ensures Selector(d.kind, true)(d.methods[j]) != Some(ps[i].name) {
    }
  }

  /** Each property's getter and setter are the last getter and the last setter of its name. */
  lemma PropertiesAccessors(d: TypeDeclaration)
    requires PropertiesOf(d).Success?
    ensures var ps := PropertiesOf(d).value;
            forall i :: 0 <= i < |ps| ==>
              ps[i].getter == LastAccessor(d.methods, Selector(d.kind, true), ps[i].name, |d.methods|) &&
              ps[i].setter == LastAccessor(d.methods, Selector(d.kind, false), ps[i].name, |d.methods|)
  {
    var ps1 := PassesOf(d);
    var ps := PropertiesOf(d).value;
    forall i | 0 <= i < |ps|
      ensures ps[i].getter == LastAccessor(d.methods, Selector(d.kind, true), ps[i].name, |d.methods|)
    {
      if i >= |ps1| {
        SetterOnlyHasNoGetter(d, ps1, i);
      }
    }
  }

  /**
   * A property without a field has the type of the first getter of its name,
   * or, when there is none, of the first setter of its name, which is void.
   */
  lemma PropertiesTypes(d: TypeDeclaration)
    requires PropertiesOf(d).Success?
    ensures var ps := PropertiesOf(d).value;
            var n := |d.methods|;
            forall i :: |SeedFields(d)| <= i < |ps| ==>
              ps[i].field.None? &&
              if FirstAccessor(d.methods, Selector(d.kind, true), ps[i].name, n).Some? then
                ps[i].propertyType == FirstAccessor(d.methods, Selector(d.kind, true), ps[i].name, n).value.returnType
              else
                FirstAccessor(d.methods, Selector(d.kind, false), ps[i].name, n).Some? &&
                ps[i].propertyType == FirstAccessor(d.methods, Selector(d.kind, false), ps[i].name, n).value.returnType &&
                IsVoid(ps[i].propertyType)
  {
    var ps1 := PassesOf(d);
    var ps := PropertiesOf(d).value;
    forall i | |SeedFields(d)| <= i < |ps| && i >= |ps1|
      ensures FirstAccessor(d.methods, Selector(d.kind, true), ps[i].name, |d.methods|).None?
      ensures IsVoid(ps[i].propertyType)
    {
      SetterOnlyHasNoGetter(d, ps1, i);
      var m := FirstAccessor(d.methods, Selector(d.kind, false), ps[i].name, |d.methods|).value;
      assert IsSetter(m, d.kind);
    }
  }

  /**
   * The list between the two passes: the getter pass's properties keep their
   * names and positions in the setter pass, each has a getter, and those the
   * setter pass adds have none.
   */
  lemma GettersBeforeSetters(d: TypeDeclaration) returns (ps1: seq<Property>)
    requires PropertiesOf(d).Success?
    ensures var ps := PropertiesOf(d).value;
            var n := |d.methods|;
            var g := Selector(d.kind, true);
            ps1 == Accessors(FieldOnly(SeedFields(d)), d.methods, g, true, n) &&
            ps == Accessors(ps1, d.methods, Selector(d.kind, false), false, n) &&
            DistinctNames(FieldOnly(SeedFields(d))) && DistinctNames(ps1) && |ps1| <= |ps| &&
            (forall i :: 0 <= i < |ps1| ==> ps[i].name == ps1[i].name) &&
            (forall i :: |SeedFields(d)| <= i < |ps1| ==> FirstIndex(d.methods, g, ps1[i].name, n) < n) &&
            (forall i :: |ps1| <= i < |ps| ==> FirstIndex(d.methods, g, ps[i].name, n) == n)
  {
    ps1 := PassesOf(d);
    var ps := PropertiesOf(d).value;
    var n := |d.methods|;
    var g := Selector(d.kind, true);
    SeedOutcome(d);
    AddedFirstIndex(FieldOnly(SeedFields(d)), d.methods, g, true, n);
    forall i | 0 <= i < |ps1| ensures ps[i].name == ps1[i].name {
      assert Kept(ps1[i], ps[i], false);
    }
    forall i | |ps1| <= i < |ps| ensures FirstIndex(d.methods, g, ps[i].name, n) == n {
      SetterOnlyHasNoGetter(d, ps1, i);
    }
  }

  /**
   * After the field properties, the properties with a getter come first, in
   * the order of the first getter of their names; the properties without one
   * follow, in the order of the first setter of their names.
   */
  lemma PropertiesOrder(d: TypeDeclaration)
    requires PropertiesOf(d).Success?
    ensures var ps := PropertiesOf(d).value;
            var n := |d.methods|;
            var g := Selector(d.kind, true);
            var s := Selector(d.kind, false);
            forall i, j :: |SeedFields(d)| <= i < j < |ps| ==>
              (FirstIndex(d.methods, g, ps[j].name, n) < n ==>
                 FirstIndex(d.methods, g, ps[i].name, n) < FirstIndex(d.methods, g, ps[j].name, n)) &&
              (FirstIndex(d.methods, g, ps[i].name, n) == n ==>
                 FirstIndex(d.methods, s, ps[i].name, n) < FirstIndex(d.methods, s, ps[j].name, n))
  {
    var ps1 := GettersBeforeSetters(d);
    var n := |d.methods|;
    NewInOrderHolds(FieldOnly(SeedFields(d)), d.methods, Selector(d.kind, true), true, n);
    NewInOrderHolds(ps1, d.methods, Selector(d.kind, false), false, n);
  }

  /** The field loop of `properties(type)`: one property per non-static field, failing on a repeated name. */
  method FieldLoop(fields: seq<Field>) returns (r: Result<seq<Property>, string>)
    ensures r == FieldProperties(fields, |fields|)
  {
    var ps: seq<Property> := [];
    var k := 0;
    while k < |fields|
      invariant k <= |fields|
      invariant FieldProperties(fields, k) == Success(ps)
    {
      var f := fields[k];
      if "static" !in f.modifiers {
        var property := FindObject(ps, PropName, f.name);
        if property.None? {
          ps := ps + [Property(f.name, f.declaredType, Some(f), None, None)];
        } else {
          FieldFailureSticks(fields, k + 1, |fields|);
          return Failure("duplicate field name: " + f.name);
        }
      }
      k := k + 1;
    }
    r := Success(ps);
  }

  /** The getter loop of `properties(type)`: each getter fills its property's getter slot or adds one. */
  method GetterLoop(d: TypeDeclaration, start: seq<Property>) returns (ps: seq<Property>)
    ensures ps == Accessors(start, d.methods, Selector(d.kind, true), true, |d.methods|)
  {
    ps := start;
    var k := 0;
    while k < |d.methods|
      invariant k <= |d.methods|
      invariant ps == Accessors(start, d.methods, Selector(d.kind, true), true, k)
    {
      var m := d.methods[k];
      assert Accessors(start, d.methods, Selector(d.kind, true), true, k + 1) ==
             AddAccessor(ps, m, Selector(d.kind, true), true);
      assert Selector(d.kind, true)(m) == SelectedName(m, d.kind, true);
      if IsGetter(m, d.kind) {
        AccessorHasName(m, d.kind);
        var name := PropertyName(m).value;
        var i := FindIndex(ps, PropName, name);
        if i.None? {
          ps := ps + [Property(name, m.returnType, None, Some(m), None)];
        } else {
          ps := ps[i.value := ps[i.value].(getter := Some(m))];
        }
      }
      k := k + 1;
    }
  }

  /** The setter loop of `properties(type)`: each setter fills its property's setter slot or adds one. */
  method SetterLoop(d: TypeDeclaration, start: seq<Property>) returns (ps: seq<Property>)
    ensures ps == Accessors(start, d.methods, Selector(d.kind, false), false, |d.methods|)
  {
    ps := start;
    var k := 0;
    while k < |d.methods|
      invariant k <= |d.methods|
      invariant ps == Accessors(start, d.methods, Selector(d.kind, false), false, k)
    {
      var m := d.methods[k];
      assert Accessors(start, d.methods, Selector(d.kind, false), false, k + 1) ==
             AddAccessor(ps, m, Selector(d.kind, false), false);
      assert Selector(d.kind, false)(m) == SelectedName(m, d.kind, false);
      if IsSetter(m, d.kind) {
        AccessorHasName(m, d.kind);
        var name := PropertyName(m).value;
        var i := FindIndex(ps, PropName, name);
        if i.None? {
          ps := ps + [Property(name, m.returnType, None, None, Some(m))];
        } else {
          ps := ps[i.value := ps[i.value].(setter := Some(m))];
        }
      }
      k := k + 1;
    }
  }

  /**
   * `Property.properties(type)`: the field loop (class and enum only), then
   * the getter loop, then the setter loop, each looking the name up in the
   * list built so far and adding a property or filling in its slot.
   */
  method Properties(d: TypeDeclaration) returns (r: Result<seq<Property>, string>)
    ensures r == PropertiesOf(d)
  {
    var ps: seq<Property> := [];
    if HasFieldProperties(d.kind) {
      var seeded := FieldLoop(d.fields);
      if seeded.Failure? {
        return Failure(seeded.error);
      }
      ps := seeded.value;
    }
    ps := GetterLoop(d, ps);
    ps := SetterLoop(d, ps);
    r := Success(ps);
  }
}
