/** The dynamically typed values that the source reads from API responses
    (`any` in TypeScript), with the few language operations it applies to them:
    optional property access `x?.k`, nullish coalescing `??`, truthiness,
    `typeof x === "number"`, `String(x)` and `Number(x)`.
    Numbers are integers; `NaN` is kept apart because `typeof NaN` is
    `"number"` while every comparison with it is false. */
module Js {
  import opened Wrappers
  import opened Text

  datatype Value =
    | Undefined
    | Null
    | Bool(b: bool)
    | Num(n: int)
    | NaN
    | Str(s: string)
    | Obj(fields: map<string, Value>)
    | Arr(items: seq<Value>)

  /** `x?.key`: the property of an object, `undefined` for a missing property
      and for every non-object value. */
  function Get(x: Value, key: string): (r: Value)
    ensures x.Obj? && key in x.fields ==> r == x.fields[key]
    ensures !(x.Obj? && key in x.fields) ==> r == Undefined
  {
    if x.Obj? && key in x.fields then x.fields[key] else Undefined
  }

  /** `x?.k1?.k2`. */
  function GetPath(x: Value, k1: string, k2: string): Value {
    Get(Get(x, k1), k2)
  }

  predicate IsNullish(v: Value) {
    v == Undefined || v == Null
  }

  /** `typeof v === "number"`. */
  predicate IsNumber(v: Value) {
    v.Num? || v.NaN?
  }

  /** A string value that is not empty. */
  predicate IsNonEmptyString(v: Value) {
    v.Str? && v.s != ""
  }

  /** `vs[0] ?? vs[1] ?? ... ?? vs[n-1]`: the first value that is not nullish,
      or the last one when all are. */
  function Coalesce(vs: seq<Value>): (r: Value)
    requires |vs| > 0
    ensures r in vs
    ensures !IsNullish(r) ==> exists i :: 0 <= i < |vs| && vs[i] == r && forall j :: 0 <= j < i ==> IsNullish(vs[j])
    ensures IsNullish(r) <==> forall i :: 0 <= i < |vs| ==> IsNullish(vs[i])
  {
    if |vs| == 1 || !IsNullish(vs[0]) then vs[0]
    else
      var r := Coalesce(vs[1..]);
      assert forall i :: 1 <= i < |vs| ==> vs[i] == vs[1..][i - 1];
      r
  }

  /** The value of `??` is the first operand that is not nullish. */
  lemma {:induction false} CoalesceAt(vs: seq<Value>, i: int)
    requires 0 <= i < |vs| && !IsNullish(vs[i])
    requires forall j :: 0 <= j < i ==> IsNullish(vs[j])
    ensures Coalesce(vs) == vs[i]
  {
    if i > 0 {
      assert forall j :: 0 <= j < i - 1 ==> vs[1..][j] == vs[j + 1];
      CoalesceAt(vs[1..], i - 1);
    }
  }

  /** `a ?? b ?? c`, written out. */
  lemma CoalesceThree(a: Value, b: Value, c: Value)
    ensures Coalesce([a, b, c]) == if !IsNullish(a) then a else if !IsNullish(b) then b else c
  {
    assert [a, b, c][1..] == [b, c];
    assert [b, c][1..] == [c];
  }

  /** `a ?? b ?? c ?? d`, written out. */
  lemma CoalesceFour(a: Value, b: Value, c: Value, d: Value)
    ensures Coalesce([a, b, c, d]) ==
              if !IsNullish(a) then a else if !IsNullish(b) then b else if !IsNullish(c) then c else d
  {
    assert [a, b, c, d][1..] == [b, c, d];
    CoalesceThree(b, c, d);
  }

  /** `a ?? b ?? c ?? d ?? e`, written out. */
  lemma CoalesceFive(a: Value, b: Value, c: Value, d: Value, e: Value)
    ensures Coalesce([a, b, c, d, e]) ==
              if !IsNullish(a) then a else if !IsNullish(b) then b else if !IsNullish(c) then c
              else if !IsNullish(d) then d else e
  {
    assert [a, b, c, d, e][1..] == [b, c, d, e];
    CoalesceFour(b, c, d, e);
  }

  /** `x?.k1 ?? x?.k2 ?? ...` over a list of property names. */
  function CoalesceFields(x: Value, keys: seq<string>): Value
    requires |keys| > 0
  {
    Coalesce(seq(|keys|, i requires 0 <= i < |keys| => Get(x, keys[i])))
  }

  /** JavaScript truthiness. */
  predicate Truthy(v: Value) {
    match v
    case Undefined => false
    case Null => false
    case Bool(b) => b
    case Num(n) => n != 0
    case NaN => false
    case Str(s) => s != ""
    case Obj(_) => true
    case Arr(_) => true
  }

  /** `String(v)`. Arrays are joined with commas, with `null` and `undefined`
      elements rendered empty. */
  function ToString(v: Value): (r: string)
    ensures v.Str? ==> r == v.s
    ensures v.Bool? ==> (r == "true" <==> v.b)
    ensures !v.Str? && !v.Arr? ==> r != ""
    decreases v, 1
  {
    match v
    case Undefined => "undefined"
    case Null => "null"
    case Bool(b) => if b then "true" else "false"
    case Num(n) => IntToDecimal(n)
    case NaN => "NaN"
    case Str(s) => s
    case Obj(_) => "[object Object]"
    case Arr(items) => JoinElements(v, 0)
  }

  /** The elements of the array `arr` from index `i` on, as `Array.prototype.join` renders them. */
  function JoinElements(arr: Value, i: nat): string
    requires arr.Arr? && i <= |arr.items|
    decreases arr, 0, |arr.items| - i
  {
    if i == |arr.items| then ""
    else
      var e := arr.items[i];
      var text := if IsNullish(e) then "" else ToString(e);
      if i == |arr.items| - 1 then text else text + "," + JoinElements(arr, i + 1)
  }

  /** `Number(s)` for a string: white space around the numeral is ignored,
      the empty string is 0, an optionally signed run of decimal digits is its
      value, anything else is NaN. */
  function ParseNumber(s: string): (r: Value)
    ensures r.Num? || r.NaN?
  {
    var t := Trim(s);
    if t == "" then Num(0)
    else if AllDigits(t) then Num(ParseDecimal(t))
    else if |t| >= 2 && t[0] == '-' && AllDigits(t[1..]) then Num(-(ParseDecimal(t[1..]) as int))
    else if |t| >= 2 && t[0] == '+' && AllDigits(t[1..]) then Num(ParseDecimal(t[1..]))
    else NaN
  }

  /** `Number(v)`. */
  function ToNumber(v: Value): (r: Value)
    ensures IsNumber(r)
  {
    match v
    case Undefined => NaN
    case Null => Num(0)
    case Bool(b) => Num(if b then 1 else 0)
    case Num(n) => v
    case NaN => NaN
    case Str(s) => ParseNumber(s)
    case Obj(_) => NaN
    case Arr(_) => ParseNumber(ToString(v))
  }

  /** `Number(String(n)) === n`: a rendered integer reads back as itself. */
  lemma ParseRenderedInt(n: int)
    ensures ParseNumber(IntToDecimal(n)) == Num(n)
  {
    TrimDecimal(n);
    if n < 0 {
      ParseRenderedNegative(n);
    } else {
      ParseNatToDecimal(n);
    }
  }

  /** A rendered negative integer is a minus sign followed by digits. */
  lemma ParseRenderedNegative(n: int)
    requires n < 0
    ensures ParseNumber("-" + NatToDecimal(-n)) == Num(n)
  {
    var d := NatToDecimal(-n);
    assert ParseDecimal(d) == -n by {
      ParseNatToDecimal(-n);
    }
    assert ParseNumber("-" + d) == Num(-(ParseDecimal(d) as int)) by {
      MinusDigitsTrimmed(d);
      ParseMinusDigits(d);
    }
  }

  /** A minus sign followed by digits has no white space to trim. */
  lemma MinusDigitsTrimmed(d: string)
    requires |d| >= 1 && AllDigits(d)
    ensures Trim("-" + d) == "-" + d
  {
    var t := "-" + d;
    assert t[|t| - 1] == d[|d| - 1];
    TrimNoSpaceEnds(t);
  }

  /** A minus sign followed by digits is the negated value of the digits. */
  lemma ParseMinusDigits(d: string)
    requires |d| >= 1 && AllDigits(d) && Trim("-" + d) == "-" + d
    ensures ParseNumber("-" + d) == Num(-(ParseDecimal(d) as int))
  {
    var t := "-" + d;
    assert t[1..] == d;
    assert !AllDigits(t) by { assert !IsDigit(t[0]); }
  }

  /** `Array.isArray(j) ? j : []`. */
  function ArrayOrEmpty(j: Value): (items: seq<Value>)
    ensures j.Arr? ==> items == j.items
    ensures !j.Arr? ==> items == []
  {
    if j.Arr? then j.items else []
  }
}
