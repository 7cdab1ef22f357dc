/** JSON values as `JSON.parse` produces them, and the two JavaScript
    coercions the AI route applies to them: `String(v)` and `Number(v)`.
    Numbers are integers in this model. */
module Json {
  import opened Wrappers
  import Text

  datatype Json =
    | JNull
    | JBool(b: bool)
    | JNum(n: int)
    | JStr(s: string)
    | JArr(items: seq<Json>)
    | JObj(fields: seq<(string, Json)>)

  /** `v[key]` on a parsed value: the value of the last member named `key`
      of an object (duplicate keys: the last one wins), and `undefined`
      (None) for a missing member or a value that is not an object. */
  function Prop(v: Json, key: string): (r: Option<Json>)
    ensures r.Some? ==> v.JObj?
  {
    if v.JObj? then LastField(v.fields, key) else None
  }

  /** A property is found exactly when some field has its key, and what is
      found is the value of such a field. */
  lemma PropFound(v: Json, key: string)
    ensures Prop(v, key).Some? ==> v.JObj? && exists i :: 0 <= i < |v.fields| && v.fields[i] == (key, Prop(v, key).value)
    ensures v.JObj? && (forall i :: 0 <= i < |v.fields| ==> v.fields[i].0 != key) ==> Prop(v, key) == None
    ensures v.JObj? && (exists i :: 0 <= i < |v.fields| && v.fields[i].0 == key) ==> Prop(v, key).Some?
  {
    if v.JObj? {
      LastFieldFound(v.fields, key);
    }
  }

  function LastField(fields: seq<(string, Json)>, key: string): (r: Option<Json>)
    decreases |fields|
  {
    if fields == [] then None
    else if fields[|fields| - 1].0 == key then Some(fields[|fields| - 1].1)
    else LastField(fields[..|fields| - 1], key)
  }

  lemma {:induction false} LastFieldFound(fields: seq<(string, Json)>, key: string)
    ensures LastField(fields, key).Some? ==> exists i :: 0 <= i < |fields| && fields[i] == (key, LastField(fields, key).value)
    ensures (forall i :: 0 <= i < |fields| ==> fields[i].0 != key) ==> LastField(fields, key) == None
    ensures (exists i :: 0 <= i < |fields| && fields[i].0 == key) ==> LastField(fields, key).Some?
    decreases |fields|
  {
    if fields != [] && fields[|fields| - 1].0 != key {
      var init := fields[..|fields| - 1];
      LastFieldFound(init, key);
      assert forall i :: 0 <= i < |init| ==> init[i] == fields[i];
      if exists i :: 0 <= i < |fields| && fields[i].0 == key {
        var i :| 0 <= i < |fields| && fields[i].0 == key;
        assert init[i].0 == key;
      }
    }
  }

  /** `String(v)`: arrays print their elements separated by commas, with
      null elements printed as nothing; every object is "[object Object]". */
  function ToJsString(v: Json): string
    decreases v
  {
    match v
    case JNull => "null"
    case JBool(b) => if b then "true" else "false"
    case JNum(n) => Text.IntToString(n)
    case JStr(s) => s
    case JArr(items) =>
      Text.Join(seq(|items|, i requires 0 <= i < |items| => ElementString(items[i], v)), ",")
    case JObj(_) => "[object Object]"
  }

  /** How `Array.prototype.join` prints one element of `parent`. */
  function ElementString(e: Json, parent: Json): string
    requires e < parent
    decreases parent, 0
  {
    if e.JNull? then "" else ToJsString(e)
  }

  /** JavaScript falsiness of a parsed value: null, false, 0 and "". */
  predicate Falsy(v: Json) {
    v == JNull || v == JBool(false) || v == JNum(0) || v == JStr("")
  }

  /** The integer text `Number(s)` accepts: optional sign, then digits. */
  predicate IsIntegerText(t: string) {
    if |t| > 0 && (t[0] == '+' || t[0] == '-') then |t| > 1 && Text.AllDigits(t[1..])
    else |t| > 0 && Text.AllDigits(t)
  }

  /** `Number(s)` for a string; None stands for NaN. Surrounding
      whitespace is ignored and a blank string is 0. */
  function StringToNumber(s: string): (r: Option<int>)
    ensures Text.Blank(s) ==> r == Some(0)
    ensures !Text.Blank(s) ==> (r.Some? <==> IsIntegerText(Text.Trim(s)))
  {
    var t := Text.Trim(s);
    if t == "" then Some(0)
    else if IsIntegerText(t) then
      if t[0] == '-' then var m: int := Text.DigitsValue(t[1..]); Some(-m)
      else if t[0] == '+' then Some(Text.DigitsValue(t[1..]))
      else Some(Text.DigitsValue(t))
    else None
  }

  /** `Number(v)` for a parsed value or for `undefined` (None). */
  function ToNumber(v: Option<Json>): Option<int> {
    match v
    case None => None
    case Some(JNull) => Some(0)
    case Some(JBool(b)) => Some(if b then 1 else 0)
    case Some(JNum(n)) => Some(n)
    case Some(JStr(s)) => StringToNumber(s)
    case Some(JArr(_)) => StringToNumber(ToJsString(v.value))
    case Some(JObj(_)) => None
  }

  /** `Number(v) || d`: NaN and 0 are both falsy and give `d`. */
  function NumberOr(v: Option<Json>, d: int): (r: int)
    ensures ToNumber(v).None? ==> r == d
    ensures ToNumber(v) == Some(0) ==> r == d
    ensures ToNumber(v).Some? && ToNumber(v).value != 0 ==> r == ToNumber(v).value
  {
    match ToNumber(v)
    case None => d
    case Some(n) => if n == 0 then d else n
  }

  /** The printed form of every integer reads back as that integer. */
  lemma NumberOfPrintedInt(n: int)
    ensures StringToNumber(Text.IntToString(n)) == Some(n)
  {
    var s := Text.IntToString(n);
    Text.NatToStringRoundTrip(if n < 0 then -n else n);
    assert !Text.IsJsWhitespace(s[0]);
    assert !Text.IsJsWhitespace(s[|s| - 1]);
    assert Text.TrimStart(s) == s;
    assert Text.TrimEnd(s) == s;
    if n < 0 {
      assert s[1..] == Text.NatToString(-n);
    }
  }
}
