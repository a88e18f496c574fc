/**
 * The JavaScript values the client handles after `JSON.parse`: decoded JWT
 * payloads and HTTP error bodies. Truthiness, the `||` operator, property
 * access and `Array.prototype.join` are stated here once.
 */
module JsValues {
  import opened Wrappers

  /** A parsed JSON value (`Undefined` for a missing property). Numbers are
      integers; the fields of an object are listed in enumeration order. */
  datatype JsValue =
    | Undefined
    | Null
    | Bool(b: bool)
    | Num(n: int)
    | Str(s: string)
    | Arr(items: seq<JsValue>)
    | Obj(fields: seq<Field>)

  datatype Field = Field(key: string, value: JsValue)

  /** JavaScript truthiness: `undefined`, `null`, `false`, `0` and `""` are falsy. */
  predicate Truthy(v: JsValue) {
    match v
    case Undefined => false
    case Null => false
    case Bool(b) => b
    case Num(n) => n != 0
    case Str(s) => s != ""
    case Arr(_) => true
    case Obj(_) => true
  }

  /** `a || b`: the left operand when it is truthy, the right one otherwise. */
  function Or(a: JsValue, b: JsValue): (r: JsValue)
    ensures Truthy(a) ==> r == a
    ensures !Truthy(a) ==> r == b
  {
    if Truthy(a) then a else b
  }

  /** The index of the first truthy value, if any. */
  function FirstTruthy(vs: seq<JsValue>): (r: Option<nat>)
    ensures r.Some? ==> r.value < |vs| && Truthy(vs[r.value])
    ensures r.Some? ==> forall j :: 0 <= j < r.value ==> !Truthy(vs[j])
    ensures r.None? <==> forall j :: 0 <= j < |vs| ==> !Truthy(vs[j])
  {
    if |vs| == 0 then None
    else if Truthy(vs[0]) then Some(0)
    else match FirstTruthy(vs[1..])
      case None => None
      case Some(i) => Some(i + 1)
  }

  lemma {:induction false} FirstTruthySnoc(vs: seq<JsValue>, last: JsValue)
    ensures FirstTruthy(vs).Some? ==> FirstTruthy(vs + [last]) == FirstTruthy(vs)
    ensures FirstTruthy(vs).None? && Truthy(last) ==> FirstTruthy(vs + [last]) == Some(|vs|)
    ensures FirstTruthy(vs).None? && !Truthy(last) ==> FirstTruthy(vs + [last]).None?
  {
    var ws := vs + [last];
    if |vs| > 0 && !Truthy(vs[0]) {
      assert ws[1..] == vs[1..] + [last];
      FirstTruthySnoc(vs[1..], last);
    }
  }

  /** `v1 || v2 || … || vn`, evaluated from the left: the first truthy operand,
      or the last operand when none is truthy. */
  function OrChain(vs: seq<JsValue>): (r: JsValue)
    requires |vs| > 0
    ensures FirstTruthy(vs).Some? ==> r == vs[FirstTruthy(vs).value]
    ensures FirstTruthy(vs).None? ==> r == vs[|vs| - 1]
  {
    if |vs| == 1 then vs[0]
    else
      var init := vs[..|vs| - 1];
      assert vs == init + [vs[|vs| - 1]];
      FirstTruthySnoc(init, vs[|vs| - 1]);
      Or(OrChain(init), vs[|vs| - 1])
  }

  /** The value of the first field named `key`, or `undefined`. */
  function Lookup(fields: seq<Field>, key: string): (r: JsValue)
    ensures r != Undefined ==> exists i :: 0 <= i < |fields| && fields[i] == Field(key, r)
    ensures (forall i :: 0 <= i < |fields| ==> fields[i].key != key) ==> r == Undefined
  {
    if |fields| == 0 then Undefined
    else if fields[0].key == key then fields[0].value
    else Lookup(fields[1..], key)
  }

  /** The first field named `key` is the one read. */
  lemma {:induction false} LookupFirst(fields: seq<Field>, key: string, i: nat)
    requires i < |fields| && fields[i].key == key
    requires forall j :: 0 <= j < i ==> fields[j].key != key
    ensures Lookup(fields, key) == fields[i].value
  {
    if i > 0 {
      LookupFirst(fields[1..], key, i - 1);
    }
  }

  /** `v.key` on a value that is not `null` or `undefined` (on those the access throws). */
  function Get(v: JsValue, key: string): JsValue {
    if v.Obj? then Lookup(v.fields, key) else Undefined
  }

  predicate IsNullish(v: JsValue) {
    v.Undefined? || v.Null?
  }

  /** `typeof v === 'object'`: objects, arrays and `null`. */
  predicate IsObjectType(v: JsValue) {
    v.Obj? || v.Arr? || v.Null?
  }

  /** `v && typeof v === 'string'`: a non-empty string. */
  predicate IsNonEmptyString(v: JsValue) {
    v.Str? && v.s != ""
  }

  function DigitChar(d: nat): char
    requires d < 10
  {
    "0123456789"[d]
  }

  function NatText(n: nat): (s: string)
    ensures |s| > 0
  {
    if n < 10 then [DigitChar(n)] else NatText(n / 10) + [DigitChar(n % 10)]
  }

  /** `Array.prototype.join(sep)` over strings. */
  function Join(parts: seq<string>, sep: string): (s: string)
    ensures |parts| == 1 ==> s == parts[0]
    ensures (forall i :: 0 <= i < |parts| ==> parts[i] == "") && |sep| == 0 ==> s == ""
  {
    if |parts| == 0 then ""
    else if |parts| == 1 then parts[0]
    else parts[0] + sep + Join(parts[1..], sep)
  }

  /** The text `join` uses for an element: `null` and `undefined` give `""`,
      an array is joined with `","`, an object gives `"[object Object]"`. */
  function JoinText(v: JsValue): string {
    match v
    case Undefined => ""
    case Null => ""
    case Bool(b) => if b then "true" else "false"
    case Num(n) => if n < 0 then "-" + NatText(-n) else NatText(n)
    case Str(s) => s
    case Arr(items) => Join(seq(|items|, i requires 0 <= i < |items| => JoinText(items[i])), ",")
    case Obj(_) => "[object Object]"
  }

  /** `values.join(sep)`. */
  function JoinValues(values: seq<JsValue>, sep: string): (s: string)
    ensures (forall i :: 0 <= i < |values| ==> values[i].Str?) && |values| == 1 ==> s == values[0].s
  {
    Join(seq(|values|, i requires 0 <= i < |values| => JoinText(values[i])), sep)
  }

  /** The property values a `for … in` loop visits: an object's fields in
      order, an array's elements by index; nothing for other values. */
  function ForInValues(v: JsValue): (vals: seq<JsValue>)
    ensures v.Arr? ==> vals == v.items
    ensures v.Obj? ==> |vals| == |v.fields| && forall i :: 0 <= i < |vals| ==> vals[i] == v.fields[i].value
    ensures !v.Arr? && !v.Obj? ==> vals == []
  {
    match v
    case Arr(items) => items
    case Obj(fields) => seq(|fields|, i requires 0 <= i < |fields| => fields[i].value)
    case _ => []
  }

  lemma OrChainExamples()
    ensures OrChain([Undefined, Str(""), Str("a"), Str("b")]) == Str("a")
    ensures OrChain([Undefined, Num(0), Null]) == Null
  {
    assert FirstTruthy([Undefined, Str(""), Str("a"), Str("b")]) == Some(2);
    assert FirstTruthy([Undefined, Num(0), Null]).None?;
  }
}
