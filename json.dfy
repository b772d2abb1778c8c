/**
 * JSON values as Python's `json` module hands them over (dicts, lists, strings,
 * integers, booleans, None), with the parts of Python's semantics on them that
 * the launcher relies on: truthiness and the ordering operators.
 */
module Json {
  import opened Text
  import opened Wrappers

  datatype Json =
    | JNull
    | JBool(b: bool)
    | JInt(i: int)
    | JString(s: string)
    | JList(items: seq<Json>)
    | JObject(fields: map<string, Json>)

  /** Python's `bool(v)`: None, False, 0, "" and empty containers are false. */
  predicate Truthy(v: Json) {
    match v
    case JNull => false
    case JBool(b) => b
    case JInt(i) => i != 0
    case JString(s) => s != ""
    case JList(items) => items != []
    case JObject(fields) => fields != map[]
  }

  /** The integer a boolean or integer stands for (`bool` is a subclass of `int` in Python). */
  function Number(v: Json): (r: Option<int>)
    ensures r.Some? <==> v.JInt? || v.JBool?
  {
    match v
    case JInt(i) => Some(i)
    case JBool(b) => Some(if b then 1 else 0)
    case _ => None
  }

  /**
   * Python's `a == b` on JSON values: numbers by value (so `True == 1`),
   * strings and `None` by identity of contents, lists element by element and
   * dicts key by key.
   */
  predicate PyEq(a: Json, b: Json)
    decreases a
  {
    match a
    case JNull => b.JNull?
    case JBool(_) => Number(b).Some? && Number(a).value == Number(b).value
    case JInt(_) => Number(b).Some? && Number(a).value == Number(b).value
    case JString(s) => b.JString? && b.s == s
    case JList(xs) =>
      b.JList? && |xs| == |b.items| && forall i :: 0 <= i < |xs| ==> PyEq(xs[i], b.items[i])
    case JObject(f) =>
      b.JObject? && f.Keys == b.fields.Keys && forall k :: k in f ==> PyEq(f[k], b.fields[k])
  }

  /**
   * Python's `a < b`: numbers compare as numbers, strings by code points and
   * lists lexicographically (the first elements that differ decide, else the
   * shorter list is less); `None` for the pairs on which Python raises
   * `TypeError`.
   */
  function PyLess(a: Json, b: Json): (r: Option<bool>)
    ensures (a.JInt? && b.JInt?) ==> r == Some(a.i < b.i)
    ensures (a.JString? && b.JString?) ==> r == Some(StrLess(a.s, b.s))
    decreases a, 1
  {
    if Number(a).Some? && Number(b).Some? then Some(Number(a).value < Number(b).value)
    else if a.JString? && b.JString? then Some(StrLess(a.s, b.s))
    else if a.JList? && b.JList? then ListLess(a, b, 0)
    else None
  }

  /** `a.items < b.items` from position `i` on, as Python's list comparison scans it. */
  function ListLess(a: Json, b: Json, i: nat): (r: Option<bool>)
    requires a.JList? && b.JList?
    decreases a, 0, |a.items| - i
  {
    if i >= |a.items| || i >= |b.items| then Some(|a.items| < |b.items|)
    else if PyEq(a.items[i], b.items[i]) then ListLess(a, b, i + 1)
    else PyLess(a.items[i], b.items[i])
  }

  /** Every value equals itself. */
  lemma {:induction false} PyEqReflexive(v: Json)
    ensures PyEq(v, v)
    decreases v
  {
    match v
    case JList(xs) =>
      forall i | 0 <= i < |xs| ensures PyEq(xs[i], xs[i]) {
        PyEqReflexive(xs[i]);
      }
    case JObject(f) =>
      forall k | k in f ensures PyEq(f[k], f[k]) {
        PyEqReflexive(f[k]);
      }
    case _ =>
  }

  /** A list compared with itself from position `i` on is not less. */
  lemma {:induction false} ListLessSelf(a: Json, i: nat)
    requires a.JList?
    ensures ListLess(a, a, i) == Some(false)
    decreases |a.items| - i
  {
    if i < |a.items| {
      PyEqReflexive(a.items[i]);
      ListLessSelf(a, i + 1);
    }
  }

  /** Two lists compare element-wise: the first elements that are not equal decide, else the lengths. */
  lemma {:induction false} ListLessDecides(a: Json, b: Json, i: nat)
    requires a.JList? && b.JList? && i <= |a.items| && i <= |b.items|
    ensures (forall j :: i <= j < |a.items| && j < |b.items| ==> PyEq(a.items[j], b.items[j])) ==>
              ListLess(a, b, i) == Some(|a.items| < |b.items|)
    ensures forall j ::
              (i <= j < |a.items| && j < |b.items| && !PyEq(a.items[j], b.items[j])
               && forall l :: i <= l < j ==> PyEq(a.items[l], b.items[l]))
              ==> ListLess(a, b, i) == PyLess(a.items[j], b.items[j])
    decreases |a.items| - i
  {
    if i < |a.items| && i < |b.items| {
      ListLessDecides(a, b, i + 1);
    }
  }

  /** Values `PyLess` can compare with themselves: numbers, strings and lists. */
  predicate Comparable(v: Json) {
    v.JInt? || v.JBool? || v.JString? || v.JList?
  }

  /** No comparable value is less than itself, so `a > a` never holds. */
  lemma PyLessIrreflexive(v: Json)
    requires Comparable(v)
    ensures PyLess(v, v) == Some(false)
  {
    if v.JString? {
      StrLessIrreflexive(v.s);
    } else if v.JList? {
      ListLessSelf(v, 0);
    }
  }

  /** Dicts and `None` never compare: Python raises `TypeError` for `<` on them. */
  lemma PyLessRejects(a: Json, b: Json)
    requires a.JObject? || a.JNull? || b.JObject? || b.JNull?
    ensures PyLess(a, b) == None
  {
  }

  /** `d.get(key, default)` on a JSON object. */
  function Get(d: map<string, Json>, key: string, default: Json): (r: Json)
    ensures key in d ==> r == d[key]
    ensures key !in d ==> r == default
  {
    if key in d then d[key] else default
  }

  /** What reading a JSON file yields: absent, unreadable (or not valid JSON), or a parsed value. */
  datatype FileState = Missing | Unreadable | Parsed(value: Json)
}
