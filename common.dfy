/**
 * Name helpers shared by the whole model: first-match lookup by name,
 * `requireObject`, the `package.Name` join and its inverse, the split of a
 * dotted name into qualifier and last segment.
 */
module Common {
  import opened Wrappers

  predicate StartsWith(s: string, prefix: string) {
    |prefix| <= |s| && s[..|prefix|] == prefix
  }

  predicate EndsWith(s: string, suffix: string) {
    |suffix| <= |s| && s[|s| - |suffix|..] == suffix
  }

  lemma EndsWithTail(s: string, suffix: string, tail: string)
    requires EndsWith(s, suffix) && EndsWith(suffix, tail)
    ensures EndsWith(s, tail)
  {
    assert s[|s| - |tail|..] == suffix[|suffix| - |tail|..];
  }

  /** A string ends with whatever is appended last. */
  lemma EndsWithAppend(s: string, tail: string)
    ensures EndsWith(s + tail, tail)
  {
    assert (s + tail)[|s|..] == tail;
  }

  /** A string starts with whatever it is built on. */
  lemma StartsWithAppend(s: string, tail: string)
    ensures StartsWith(s + tail, s)
  {
    assert (s + tail)[..|s|] == s;
  }

  /** A prefix of a prefix is a prefix. */
  lemma StartsWithTrans(s: string, prefix: string, shorter: string)
    requires StartsWith(s, prefix) && StartsWith(prefix, shorter)
    ensures StartsWith(s, shorter)
  {
    assert s[..|shorter|] == prefix[..|shorter|];
  }

  /** `s` repeated `n` times, as JavaScript's `String.prototype.repeat`. */
  function Repeat(s: string, n: nat): (r: string)
    ensures |r| == n * |s|
  {
    if n == 0 then "" else s + Repeat(s, n - 1)
  }

  /** One more repetition appends one more copy at the end. */
  lemma {:induction false} RepeatSucc(s: string, n: nat)
    ensures Repeat(s, n + 1) == Repeat(s, n) + s
  {
    if n > 0 {
      RepeatSucc(s, n - 1);
      assert Repeat(s, n + 1) == s + (Repeat(s, n - 1) + s);
    }
  }

  /**
   * Position of the first element of `arr` whose name is `name`; the element
   * found by `Array.find` in `findObject` is `arr[r.value]`.
   */
  function FindIndex<T>(arr: seq<T>, nameOf: T -> string, name: string): (r: Option<nat>)
    ensures r.Some? ==> r.value < |arr| && nameOf(arr[r.value]) == name
    ensures r.Some? ==> forall j :: 0 <= j < r.value ==> nameOf(arr[j]) != name
    ensures r.None? <==> forall j :: 0 <= j < |arr| ==> nameOf(arr[j]) != name
  {
    if arr == [] then None
    else if nameOf(arr[0]) == name then Some(0)
    else match FindIndex(arr[1..], nameOf, name)
      case Some(i) => Some(i + 1)
      case None => None
  }

  /** `findObject`: the first element whose name equals `name`, or nothing. */
  function FindObject<T>(arr: seq<T>, nameOf: T -> string, name: string): (r: Option<T>)
    ensures r.Some? ==> nameOf(r.value) == name
    ensures r.Some? ==> exists i :: 0 <= i < |arr| && arr[i] == r.value &&
                                    forall j :: 0 <= j < i ==> nameOf(arr[j]) != name
    ensures r.None? <==> forall x :: x in arr ==> nameOf(x) != name
  {
    match FindIndex(arr, nameOf, name)
    case Some(i) => Some(arr[i])
    case None => None
  }

  /** `requireObject`: the element `findObject` finds, or the "not found" error. */
  function RequireObject<T>(arr: seq<T>, nameOf: T -> string, name: string): (r: Result<T, string>)
    ensures r.Success? <==> exists x :: x in arr && nameOf(x) == name
    ensures r.Success? ==> FindObject(arr, nameOf, name) == Some(r.value)
    ensures r.Failure? ==> r.error == "Required object not found: " + name
  {
    match FindObject(arr, nameOf, name)
    case Some(x) => Success(x)
    case None => Failure("Required object not found: " + name)
  }

  /** No element occurs twice. */
  predicate Distinct<T(==)>(s: seq<T>) {
    forall i, j :: 0 <= i < j < |s| ==> s[i] != s[j]
  }

  /** The first position at or after `from` whose element already occurs before it. */
  function FirstRepeat<T(==)>(s: seq<T>, from: nat): (r: Option<nat>)
    ensures r.Some? ==> from <= r.value < |s|
    decreases |s| - from
  {
    if from >= |s| then None
    else if s[from] in s[..from] then Some(from)
    else FirstRepeat(s, from + 1)
  }

  /** A repeat at `k` after a repeat-free prefix is the first repeat. */
  lemma {:induction false} FirstRepeatAt<T>(s: seq<T>, from: nat, k: nat)
    requires from <= k < |s| && Distinct(s[..k]) && s[k] in s[..k]
    ensures FirstRepeat(s, from) == Some(k)
    decreases k - from
  {
    if from < k {
      forall i | 0 <= i < from
        ensures s[i] != s[from]
      {
        assert s[..k][i] == s[i] && s[..k][from] == s[from];
      }
      FirstRepeatAt(s, from + 1, k);
    }
  }

  /** From a repeat-free prefix, no repeat is found exactly when the whole sequence is repeat-free. */
  lemma {:induction false} FirstRepeatNone<T>(s: seq<T>, from: nat)
    requires from <= |s| && Distinct(s[..from])
    ensures FirstRepeat(s, from).None? <==> Distinct(s)
    decreases |s| - from
  {
    if from == |s| {
      assert s[..from] == s;
    } else if s[from] in s[..from] {
      var i :| 0 <= i < from && s[..from][i] == s[from];
      assert s[i] == s[from];
    } else {
      forall i, j | 0 <= i < j <= from
        ensures s[i] != s[j]
      {
        if j == from {
          assert s[..from][i] == s[i];
        } else {
          assert s[..from][i] == s[i] && s[..from][j] == s[j];
        }
      }
      assert Distinct(s[..from + 1]);
      FirstRepeatNone(s, from + 1);
    }
  }

  /** `qualifiedName`: `name` alone without a package, `package.name` otherwise. */
  function QualifiedName(packageName: Option<string>, name: string): (r: string)
    ensures EndsWith(r, name)
    ensures packageName.None? ==> r == name
    ensures packageName.Some? ==> r == packageName.value + "." + name
  {
    match packageName
    case None => name
    case Some(p) => p + "." + name
  }

  /** Position of the last '.' in `s`. */
  function LastDot(s: string): (r: Option<nat>)
    ensures r.Some? ==> r.value < |s| && s[r.value] == '.' && '.' !in s[r.value + 1..]
    ensures r.None? <==> '.' !in s
    decreases |s|
  {
    if s == [] then None
    else if s[|s| - 1] == '.' then Some(|s| - 1)
    else
      var r := LastDot(s[..|s| - 1]);
      if r.Some? then
        assert s[r.value + 1..] == s[..|s| - 1][r.value + 1..] + [s[|s| - 1]];
        r
      else
        assert s == s[..|s| - 1] + [s[|s| - 1]];
        r
  }

  datatype Split = Split(qualifier: Option<string>, name: string)

  /**
   * `splitName`: the qualifier is everything before the last '.', the name
   * everything after it; a name without '.' has no qualifier.
   */
  function SplitName(s: string): (r: Split)
    ensures QualifiedName(r.qualifier, r.name) == s
    ensures '.' !in r.name
    ensures r.qualifier.Some? <==> '.' in s
    ensures r.qualifier.Some? ==> |r.qualifier.value| < |s|
  {
    match LastDot(s)
    case None => Split(None, s)
    case Some(i) =>
      assert s == s[..i] + "." + s[i + 1..];
      Split(Some(s[..i]), s[i + 1..])
  }

  /** The last segment of a dotted name (`simpleName`). */
  function SimpleName(s: string): (r: string)
    ensures '.' !in r && EndsWith(s, r)
  {
    SplitName(s).name
  }

  /** Splitting undoes joining: the join point is found again whenever the name has no '.'. */
  lemma SplitQualifiedName(packageName: Option<string>, name: string)
    requires '.' !in name
    ensures SplitName(QualifiedName(packageName, name)) == Split(packageName, name)
  {
    var s := QualifiedName(packageName, name);
    if packageName.Some? {
      var p := packageName.value;
      assert s[|p|] == '.';
      var i := LastDot(s).value;
      assert i == |p|;
      assert s[..i] == p && s[i + 1..] == name;
    }
  }
}
