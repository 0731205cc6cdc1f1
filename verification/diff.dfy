/** `_arrayAwareDiffObject`, its inner `_difference` and `_arrayEquality`:
    the structural diff of two settings values. The result holds, for each
    own key of `other` whose value differs from `original`'s, the new value
    (or, for two objects, their nested diff). */
module Diff {
  import opened Js

  datatype Option<T> = None | Some(value: T)

  /** `key in v`: only objects (arrays included) support the `in` operator;
      on any other value it throws. */
  function HasProperty(v: Value, key: string): Result<bool>
  {
    match v
    case Obj(m) => Ok(key in m)
    case Arr(xs) => Ok(key in IndexKeys(xs, |xs|) || key == "length")
    case _ => TypeError
  }

  /** `v[key]`: an own property, the `length` of an array or string, and
      `undefined` otherwise; reading from `null` or `undefined` throws. */
  function Prop(v: Value, key: string): Result<Value>
  {
    match OwnProperties(v)
    case TypeError => TypeError
    case Ok(props) =>
      if key in props then Ok(props[key])
      else if v.Arr? && key == "length" then Ok(Num(|v.elems|))
      else if v.Str? && key == "length" then Ok(Num(|v.s|))
      else Ok(Undefined)
  }

  /** `_arrayAwareDiffObject(original, other, { inner })`: the `reduce` over
      `Object.keys(other)` into a fresh object. Any key that throws makes the
      whole call throw. Only keys of `other` are reported, and with `inner`
      only those `original` has too. */
  function Diff(original: Value, other: Value, inner: bool): (r: Result<map<string, Value>>)
    ensures r.Ok? ==> OwnProperties(other).Ok? && r.value.Keys <= OwnProperties(other).value.Keys
    ensures r.Ok? && inner ==> forall key :: key in r.value ==> HasProperty(original, key) == Ok(true)
    ensures r.Ok? ==> forall key :: key in r.value ==> Reported(OwnProperties(other).value[key], r.value[key])
    decreases other, 2, 0
  {
    match OwnProperties(other)
    case TypeError => TypeError
    case Ok(props) =>
      if exists key :: key in props && DiffAt(original, other, props, key, inner).TypeError? then TypeError
      else Ok(map key | key in props && DiffAt(original, other, props, key, inner).value.Some?
                :: DiffAt(original, other, props, key, inner).value.value)
  }

  /** What a diff reports for a changed key: the new value itself, or the
      non-empty nested diff of two objects, whose keys are keys of the new one. */
  predicate Reported(v1: Value, d: Value)
  {
    d == v1 || (v1.Obj? && d.Obj? && d.fields != map[] && d.fields.Keys <= v1.fields.Keys)
  }

  /** One step of the `reduce`: skipped (with `inner`, when `original` lacks
      the key), unchanged, or changed with the value to report. */
  function DiffAt(original: Value, other: Value, props: map<string, Value>, key: string, inner: bool)
    : (r: Result<Option<Value>>)
    requires OwnProperties(other) == Ok(props) && key in props
    ensures r.Ok? && r.value.Some? && inner ==> HasProperty(original, key) == Ok(true)
    ensures r.Ok? && r.value.Some? ==> Reported(props[key], r.value.value)
    decreases other, 1, 0
  {
    if inner && HasProperty(original, key) != Ok(true) then
      if HasProperty(original, key).TypeError? then TypeError else Ok(None)
    else
      match Prop(original, key)
      case TypeError => TypeError
      case Ok(v0) =>
        match Changed(v0, other, props, key, inner)
        case TypeError => TypeError
        case Ok(change) => Ok(if change.0 then Some(change.1) else None)
  }

  /** `_difference(original[key], other[key])`. The properties of a string
      are one-character strings, for which `_difference` is a plain `!==`. */
  function Changed(v0: Value, other: Value, props: map<string, Value>, key: string, inner: bool)
    : (r: Result<(bool, Value)>)
    requires OwnProperties(other) == Ok(props) && key in props
    ensures r.Ok? && r.value.0 ==> Reported(props[key], r.value.1)
    decreases other, 0, 0
  {
    if other.Str? then
      StringPropertiesAreStrings(other.s, key);
      Ok((!StrictEquals(v0, props[key]), props[key]))
    else
      PropertyInside(other, props, key);
      Difference(v0, props[key], inner)
  }

  /** The shortcut for strings is `_difference` itself. */
  lemma ChangedIsDifference(v0: Value, other: Value, props: map<string, Value>, key: string, inner: bool)
    requires OwnProperties(other) == Ok(props) && key in props
    ensures Changed(v0, other, props, key, inner) == Difference(v0, props[key], inner)
  {
    if other.Str? {
      StringPropertiesAreStrings(other.s, key);
    }
  }

  lemma StringPropertiesAreStrings(s: string, key: string)
    requires key in OwnProperties(Str(s)).value
    ensures OwnProperties(Str(s)).value[key].Str?
  {
    IndexKeysValues(seq(|s|, i requires 0 <= i < |s| => Str([s[i]])), |s|, key);
  }

  /** The properties of an object or an array are its field values and its
      elements. */
  lemma PropertyInside(other: Value, props: map<string, Value>, key: string)
    requires OwnProperties(other) == Ok(props) && key in props && !other.Str?
    ensures other.Obj? ==> props[key] == other.fields[key]
    ensures other.Arr? ==> exists i :: 0 <= i < |other.elems| && props[key] == other.elems[i]
  {
    if other.Arr? {
      IndexKeysValues(other.elems, |other.elems|, key);
    }
  }

  lemma {:induction false} IndexKeysValues(xs: seq<Value>, n: nat, key: string)
    requires n <= |xs| && key in IndexKeys(xs, n)
    ensures exists i :: 0 <= i < n && IndexKeys(xs, n)[key] == xs[i]
  {
    if key != NatToString(n - 1) {
      IndexKeysValues(xs, n - 1, key);
    }
  }

  /** `_difference(v0, v1)`: whether the values differ, and what to report. */
  function Difference(v0: Value, v1: Value, inner: bool): (r: Result<(bool, Value)>)
    ensures TypeTag(v0) != TypeTag(v1) ==> r == Ok((true, v1))
    ensures !v1.Arr? && !v1.Obj? ==> r == Ok((!StrictEquals(v0, v1), v1))
    ensures v0.Arr? && v1.Arr? ==>
      (r.Ok? <==> ArrayEquality(v0.elems, v1).Ok?) && (r.Ok? ==> r.value == (!ArrayEquality(v0.elems, v1).value, v1))
    ensures v0.Obj? && v1.Obj? && (v0.fields == map[]) != (v1.fields == map[]) ==> r == Ok((true, v1))
    ensures v0.Obj? && v1.Obj? && (v0.fields == map[]) == (v1.fields == map[]) ==>
      (r.Ok? <==> Diff(v0, v1, inner).Ok?)
      && (r.Ok? ==> r.value == (Diff(v0, v1, inner).value != map[], Obj(Diff(v0, v1, inner).value)))
    ensures r.Ok? && r.value.0 ==> Reported(v1, r.value.1)
    decreases v1, 4, 0
  {
    if TypeTag(v0) != TypeTag(v1) then Ok((true, v1))
    else if v0.Arr? then
      match ArrayEquality(v0.elems, v1)
      case TypeError => TypeError
      case Ok(equal) => Ok((!equal, v1))
    else if v0.Obj? then
      if (v0.fields == map[]) != (v1.fields == map[]) then Ok((true, v1))
      else
        match Diff(v0, v1, inner)
        case TypeError => TypeError
        case Ok(d) => Ok((d != map[], Obj(d)))
    else Ok((!StrictEquals(v0, v1), v1))
  }

  /** `_arrayEquality(a1, a2)`: equal exactly when `a2` is an array of the
      same length whose elements all match; unequal at the first element
      that does not match; a throw at an element before that throws. */
  function ArrayEquality(a1: seq<Value>, a2: Value): (r: Result<bool>)
    ensures !a2.Arr? || |a2.elems| != |a1| ==> r == Ok(false)
    ensures r == Ok(true) <==>
      && a2.Arr? && |a2.elems| == |a1|
      && (forall j :: 0 <= j < |a1| ==> Matches(a1[j], a2.elems[j]) == Ok(true))
    ensures a2.Arr? && |a2.elems| == |a1| ==>
      (r == Ok(false) <==>
         exists j :: 0 <= j < |a1| && Matches(a1[j], a2.elems[j]) == Ok(false)
                     && forall k :: 0 <= k < j ==> Matches(a1[k], a2.elems[k]) == Ok(true))
    decreases a2, 3, 0
  {
    if !a2.Arr? || |a2.elems| != |a1| then Ok(false) else Every(a1, a2, 0)
  }

  /** The callback of `every`: an object element matches when its diff with
      the other element is empty, any other element when it is `===`. */
  function Matches(v: Value, w: Value): Result<bool>
    decreases w, 3, 0
  {
    if v.Obj? then
      match Diff(v, w, false)
      case TypeError => TypeError
      case Ok(d) => Ok(d == map[])
    else Ok(StrictEquals(w, v))
  }

  /** `a1.every((v, i) => ...)` from index `i`: true when every element
      matches, false at the first one that does not, and a throw when the
      callback throws before that. */
  function Every(a1: seq<Value>, a2: Value, i: nat): (r: Result<bool>)
    requires a2.Arr? && |a2.elems| == |a1| && i <= |a1|
    ensures r == Ok(true) <==> forall j :: i <= j < |a1| ==> Matches(a1[j], a2.elems[j]) == Ok(true)
    ensures r == Ok(false) <==>
      exists j :: i <= j < |a1| && Matches(a1[j], a2.elems[j]) == Ok(false)
                  && forall k :: i <= k < j ==> Matches(a1[k], a2.elems[k]) == Ok(true)
    decreases a2, 2, |a1| - i
  {
    if i == |a1| then Ok(true)
    else
      match Matches(a1[i], a2.elems[i])
      case TypeError => TypeError
      case Ok(b) =>
        if b then
          Every(a1, a2, i + 1)
        else
          Ok(false)
  }

  // ---------------------------------------------------------------------
  // A value diffed against itself.

  /** No array sits directly inside an array: `===` on two arrays compares
      references, so such an array never equals even itself. */
  predicate NoNestedArray(v: Value)
  {
    match v
    case Arr(xs) => forall i :: 0 <= i < |xs| ==> !xs[i].Arr? && NoNestedArray(xs[i])
    case Obj(m) => forall k :: k in m ==> NoNestedArray(m[k])
    case _ => true
  }

  /** An object diffed against itself is empty. */
  lemma {:induction false} SelfDiffEmpty(v: Value, inner: bool)
    requires v.Obj? && NoNestedArray(v)
    ensures Diff(v, v, inner) == Ok(map[])
    decreases v, 2, 0
  {
    var props := v.fields;
    forall key | key in props
      ensures DiffAt(v, v, props, key, inner) == Ok(None)
    {
      SelfDifference(props[key], inner);
    }
  }

  /** A value never differs from itself. */
  lemma {:induction false} SelfDifference(v: Value, inner: bool)
    requires NoNestedArray(v)
    ensures Difference(v, v, inner).Ok? && !Difference(v, v, inner).value.0
    decreases v, 3, 0
  {
    match v
    case Obj(_) => SelfDiffEmpty(v, inner);
    case Arr(xs) => SelfEvery(xs, v, 0);
    case _ =>
  }

  lemma {:induction false} SelfEvery(xs: seq<Value>, v: Value, i: nat)
    requires v == Arr(xs) && NoNestedArray(v) && i <= |xs|
    ensures Every(xs, v, i) == Ok(true)
    decreases v, 1, |xs| - i
  {
    if i < |xs| {
      if xs[i].Obj? {
        SelfDiffEmpty(xs[i], false);
      }
      assert Matches(xs[i], xs[i]) == Ok(true);
      SelfEvery(xs, v, i + 1);
    }
  }

  /** An array holding an array is unequal to every value, itself included. */
  lemma NestedArrayNeverEqual(inner: seq<Value>)
    ensures ArrayEquality([Arr(inner)], Arr([Arr(inner)])) == Ok(false)
  {
  }

  /** As written, an object element is compared only through its diff, so an
      empty object matches a number, which has no own keys: `_arrayEquality([{}], [5])`
      holds. */
  lemma EmptyObjectMatchesNumber()
    ensures ArrayEquality([Obj(map[])], Arr([Num(5)])) == Ok(true)
  {
    assert Diff(Obj(map[]), Num(5), false) == Ok(map[]);
  }

  /** Keys that only `original` has are never reported. */
  lemma OnlyNewKeysReported(original: Value, other: Value, inner: bool, key: string)
    requires other.Obj? && key !in other.fields && Diff(original, other, inner).Ok?
    ensures key !in Diff(original, other, inner).value
  {
  }

  /** Completeness: a key of `other` that is visited (with `inner`, one that
      `original` has) is reported exactly when `_difference` says it
      changed, and then with the value `_difference` returns. */
  lemma DiffReportsChanges(original: Value, other: Value, inner: bool, props: map<string, Value>, key: string, v0: Value)
    requires OwnProperties(other) == Ok(props) && key in props
    requires !inner || HasProperty(original, key) == Ok(true)
    requires Prop(original, key) == Ok(v0)
    requires Diff(original, other, inner).Ok?
    ensures Difference(v0, props[key], inner).Ok?
    ensures key in Diff(original, other, inner).value <==> Difference(v0, props[key], inner).value.0
    ensures key in Diff(original, other, inner).value ==>
      Diff(original, other, inner).value[key] == Difference(v0, props[key], inner).value.1
  {
    ChangedIsDifference(v0, other, props, key, inner);
    assert !DiffAt(original, other, props, key, inner).TypeError?;
  }
}
