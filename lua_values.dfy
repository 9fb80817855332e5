/**
 * Values of the embedded Lua interpreter as the host closure sees them, and
 * the conversions mlua applies when a host function asks a table for a field
 * of a given Rust type (`LuaTable::get::<_, T>`).
 */
module LuaValues {
  import opened Wrappers

  /** Table keys; the host only ever looks fields up by string name. */
  datatype Key = StrKey(s: string) | IntKey(i: int)

  datatype Value =
    | Nil
    | Boolean(b: bool)
    | Integer(i: int)
    | Str(s: string)
      /** A table's entries in the order Lua's `next` (and so `pairs`) visits them. */
    | Table(entries: seq<(Key, Value)>)
      /** A function value; `id` tells closures apart, their code is not modelled. */
    | Function(id: nat)

  /** The error mlua reports when a value cannot become the requested Rust type. */
  datatype ConversionError = ConversionError(from: string, to: string)

  function TypeName(v: Value): string
  {
    match v
    case Nil => "nil"
    case Boolean(_) => "boolean"
    case Integer(_) => "integer"
    case Str(_) => "string"
    case Table(_) => "table"
    case Function(_) => "function"
  }

  /** `table[k]`: the value stored under `k`, `nil` when there is none. */
  function Get(t: seq<(Key, Value)>, k: Key): (v: Value)
    ensures v != Nil ==> exists i :: 0 <= i < |t| && t[i] == (k, v)
    ensures (forall i :: 0 <= i < |t| ==> t[i].0 != k) ==> v == Nil
    ensures forall i :: 0 <= i < |t| && t[i].0 == k && (forall j :: 0 <= j < i ==> t[j].0 != k) ==> v == t[i].1
  {
    if t == [] then Nil
    else if t[0].0 == k then t[0].1
    else Get(t[1..], k)
  }

  function DigitChar(d: nat): (c: char)
    requires d < 10
    ensures '0' <= c <= '9'
  {
    ('0' as int + d) as char
  }

  /** The decimal text of a natural number, most significant digit first. */
  function NatToDecimal(n: nat): (r: string)
    ensures |r| >= 1
    ensures forall i :: 0 <= i < |r| ==> '0' <= r[i] <= '9'
    ensures |r| > 1 ==> r[0] != '0'
  {
    if n < 10 then [DigitChar(n)] else NatToDecimal(n / 10) + [DigitChar(n % 10)]
  }

  /** The number a string of decimal digits denotes, most significant digit first. */
  function DecimalValue(s: string): nat
    requires forall i :: 0 <= i < |s| ==> '0' <= s[i] <= '9'
  {
    if s == [] then 0
    else DecimalValue(s[..|s| - 1]) * 10 + (s[|s| - 1] as int - '0' as int)
  }

  /** The decimal text of `n` reads back as `n`. */
  lemma {:induction false} NatToDecimalValue(n: nat)
    ensures DecimalValue(NatToDecimal(n)) == n
  {
    if n >= 10 {
      NatToDecimalValue(n / 10);
      var r := NatToDecimal(n);
      assert r[..|r| - 1] == NatToDecimal(n / 10);
    }
  }

  /** How Lua turns an integer into a string (the `%d` format). */
  function IntToDecimal(i: int): string
  {
    if i < 0 then "-" + NatToDecimal(-i) else NatToDecimal(i)
  }

  /** A non-negative integer's text is its decimal digits, which denote it. */
  lemma NonNegativeText(i: int)
    requires i >= 0
    ensures var r := IntToDecimal(i);
      && |r| >= 1 && r[0] != '-'
      && (forall j :: 0 <= j < |r| ==> '0' <= r[j] <= '9')
      && DecimalValue(r) == i
  {
    NatToDecimalValue(i);
  }

  /** A negative integer's text is a minus sign, then the decimal digits of its magnitude. */
  lemma NegativeText(i: int)
    requires i < 0
    ensures var r := IntToDecimal(i);
      && |r| >= 2 && r[0] == '-'
      && (forall j :: 1 <= j < |r| ==> '0' <= r[j] <= '9')
      && DecimalValue(r[1..]) == -i
  {
    var digits := NatToDecimal(-i);
    NatToDecimalValue(-i);
    assert IntToDecimal(i)[1..] == digits;
  }

  /** `String: FromLua`: strings as they are, integers coerced to their decimal text. */
  function ToString(v: Value): (r: Result<string, ConversionError>)
    ensures r.Ok? <==> v.Str? || v.Integer?
    ensures v.Str? ==> r == Ok(v.s)
    ensures v.Integer? ==> r == Ok(IntToDecimal(v.i))
  {
    match v
    case Str(s) => Ok(s)
    case Integer(i) => Ok(IntToDecimal(i))
    case _ => Err(ConversionError(TypeName(v), "String"))
  }

  /** `Option<String>: FromLua`: `nil` is None, anything else must convert to a string. */
  function ToOptString(v: Value): (r: Result<Option<string>, ConversionError>)
    ensures r == Ok(None) <==> v == Nil
    ensures v != Nil ==> (r.Ok? <==> ToString(v).Ok?)
    ensures v != Nil && r.Ok? ==> r.value == Some(ToString(v).value)
  {
    if v == Nil then Ok(None)
    else match ToString(v)
      case Ok(s) => Ok(Some(s))
      case Err(e) => Err(e)
  }

  /** `LuaTable: FromLua`: only a table converts. */
  function ToTable(v: Value): (r: Result<seq<(Key, Value)>, ConversionError>)
    ensures r.Ok? <==> v.Table?
    ensures v.Table? ==> r.value == v.entries
  {
    if v.Table? then Ok(v.entries) else Err(ConversionError(TypeName(v), "table"))
  }

  /** `LuaFunction: FromLua`: only a function converts. */
  function ToFunction(v: Value): (r: Result<nat, ConversionError>)
    ensures r.Ok? <==> v.Function?
    ensures v.Function? ==> r.value == v.id
  {
    if v.Function? then Ok(v.id) else Err(ConversionError(TypeName(v), "function"))
  }
}
