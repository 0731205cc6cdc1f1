/** The small part of the JavaScript runtime that the modelled code relies on:
    dynamically typed values, thrown errors, truthiness, `getType`, strict
    equality and the insertion-ordered `Set`. */
module Js {

  /** A JavaScript value as the settings code sees it. Numbers are integers;
      an object is a map from its own enumerable keys to their values. */
  datatype Value =
    | Undefined
    | Null
    | Bool(b: bool)
    | Num(n: int)
    | Str(s: string)
    | Arr(elems: seq<Value>)
    | Obj(fields: map<string, Value>)

  /** A computation that either yields a value or throws a `TypeError`. */
  datatype Result<+T> = Ok(value: T) | TypeError

  /** `obj[key]` on a plain object: `undefined` for a key it does not have. */
  function Get(fields: map<string, Value>, key: string): Value
  {
    if key in fields then fields[key] else Undefined
  }

  /** JavaScript truthiness (`!!v`). */
  predicate Truthy(v: Value)
  {
    match v
    case Undefined => false
    case Null => false
    case Bool(b) => b
    case Num(n) => n != 0
    case Str(s) => s != ""
    case Arr(_) => true
    case Obj(_) => true
  }

  /** `v == null`: loose equality with null holds of `null` and `undefined` only. */
  predicate IsNullish(v: Value)
  {
    v.Undefined? || v.Null?
  }

  /** The member names every plain object inherits from `Object.prototype`:
      reading one of them from an object that does not set it yields a
      function or an object, never `undefined`. */
  const PrototypeMembers: set<string> := {
    "constructor", "hasOwnProperty", "isPrototypeOf", "propertyIsEnumerable",
    "toLocaleString", "toString", "valueOf", "__proto__",
    "__defineGetter__", "__defineSetter__", "__lookupGetter__", "__lookupSetter__"
  }

  /** `obj[key] == null` on an object that inherits the members `inherited`:
      an own property decides; otherwise only a name the object does not
      inherit reads as `undefined`. A plain object inherits
      `PrototypeMembers`. */
  predicate NullishAt(fields: map<string, Value>, key: string, inherited: set<string>)
  {
    if key in fields then IsNullish(fields[key]) else key !in inherited
  }

  /** `v ?? d` */
  function OrDefault(v: Value, d: Value): (r: Value)
    ensures !IsNullish(v) ==> r == v
    ensures IsNullish(v) ==> r == d
  {
    if IsNullish(v) then d else v
  }

  /** The host's `getType`: `typeof` for primitives, the class name for objects. */
  function TypeTag(v: Value): string
  {
    match v
    case Undefined => "undefined"
    case Null => "null"
    case Bool(_) => "boolean"
    case Num(_) => "number"
    case Str(_) => "string"
    case Arr(_) => "Array"
    case Obj(_) => "Object"
  }

  /** `a === b`. Primitives compare by value. Two arrays or two objects are
      equal only when they are the same reference; every array and object the
      modelled code compares this way comes from a separate parse or clone, so
      the model takes them to be different references. */
  predicate StrictEquals(a: Value, b: Value)
  {
    match a
    case Arr(_) => false
    case Obj(_) => false
    case _ => a == b
  }

  /** The decimal digits of `n`, as used for array and string indices turned
      into property keys. */
  function NatToString(n: nat): (r: string)
    ensures |r| >= 1
    decreases n
  {
    var digit := ['0' + (n % 10) as char];
    if n < 10 then digit else NatToString(n / 10) + digit
  }

  /** The own keys of an array or a string with their values, as
      `Object.keys` and indexing see them. */
  function IndexKeys(xs: seq<Value>, n: nat): map<string, Value>
    requires n <= |xs|
  {
    if n == 0 then map[] else IndexKeys(xs, n - 1)[NatToString(n - 1) := xs[n - 1]]
  }

  /** `Object.keys(v)` paired with `v[key]`: the own enumerable properties of
      any value. It throws on `null` and `undefined`; numbers and booleans
      have none. */
  function OwnProperties(v: Value): (r: Result<map<string, Value>>)
    ensures r.TypeError? <==> IsNullish(v)
    ensures v.Obj? ==> r == Ok(v.fields)
  {
    match v
    case Undefined => TypeError
    case Null => TypeError
    case Bool(_) => Ok(map[])
    case Num(_) => Ok(map[])
    case Str(s) => Ok(IndexKeys(seq(|s|, i requires 0 <= i < |s| => Str([s[i]])), |s|))
    case Arr(xs) => Ok(IndexKeys(xs, |xs|))
    case Obj(m) => Ok(m)
  }

  // ---------------------------------------------------------------------
  // `Set` with insertion order, as the art search uses it.

  predicate NoDuplicates(s: seq<string>)
  {
    forall i, j :: 0 <= i < j < |s| ==> s[i] != s[j]
  }

  /** `set.add(x)`: a new element goes to the end, a present one stays where it is. */
  function Add(s: seq<string>, x: string): (r: seq<string>)
    ensures |s| <= |r| && x in r
  {
    if x in s then s else s + [x]
  }

  /** `xs.forEach(x => set.add(x))`, left to right. */
  function AddAll(s: seq<string>, xs: seq<string>): (r: seq<string>)
    ensures |s| <= |r| && (xs != [] ==> |r| >= 1)
    decreases |xs|
  {
    if xs == [] then s else Add(AddAll(s, xs[..|xs| - 1]), xs[|xs| - 1])
  }

  /** A `Set` never holds an element twice. */
  lemma AddKeepsDistinct(s: seq<string>, x: string)
    requires NoDuplicates(s)
    ensures NoDuplicates(Add(s, x))
  {
  }

  lemma {:induction false} AddAllKeepsDistinct(s: seq<string>, xs: seq<string>)
    requires NoDuplicates(s)
    ensures NoDuplicates(AddAll(s, xs))
    decreases |xs|
  {
    if xs != [] {
      AddAllKeepsDistinct(s, xs[..|xs| - 1]);
      AddKeepsDistinct(AddAll(s, xs[..|xs| - 1]), xs[|xs| - 1]);
    }
  }

  /** The `Set` holds what it held and what was added, nothing else. */
  lemma {:induction false} AddAllMembers(s: seq<string>, xs: seq<string>)
    ensures forall y :: y in AddAll(s, xs) <==> y in s || y in xs
    decreases |xs|
  {
    if xs != [] {
      AddAllMembers(s, xs[..|xs| - 1]);
      assert xs == xs[..|xs| - 1] + [xs[|xs| - 1]];
    }
  }

  lemma {:induction false} AddAllConcat(s: seq<string>, xs: seq<string>, ys: seq<string>)
    ensures AddAll(s, xs + ys) == AddAll(AddAll(s, xs), ys)
    decreases |ys|
  {
    if ys == [] {
      assert xs + ys == xs;
    } else {
      assert (xs + ys)[..|xs + ys| - 1] == xs + ys[..|ys| - 1];
      AddAllConcat(s, xs, ys[..|ys| - 1]);
    }
  }

  lemma AddAllSnoc(s: seq<string>, xs: seq<string>, x: string)
    ensures AddAll(s, xs + [x]) == Add(AddAll(s, xs), x)
  {
    assert (xs + [x])[..|xs|] == xs;
  }

  /** Adding elements that are all new just appends them. */
  lemma {:induction false} AddAllFresh(s: seq<string>, xs: seq<string>)
    requires NoDuplicates(xs)
    requires forall x :: x in xs ==> x !in s
    ensures AddAll(s, xs) == s + xs
    decreases |xs|
  {
    if xs != [] {
      var init := xs[..|xs| - 1];
      AddAllFresh(s, init);
      assert xs == init + [xs[|xs| - 1]];
    }
  }
}
