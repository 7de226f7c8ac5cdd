/** The two value domains the core moves between: JavaScript values (request
    bodies, row objects, bound parameters) and SQLite storage values. */
module Values {

  datatype JsValue = Undefined | Null | Bool(b: bool) | Num(n: int) | Str(s: string)

  datatype SqlValue = SqlNull | SqlInt(i: int) | SqlText(t: string)

  /** JavaScript truthiness. */
  predicate Truthy(v: JsValue)
  {
    match v
    case Undefined => false
    case Null => false
    case Bool(b) => b
    case Num(n) => n != 0
    case Str(s) => s != ""
  }

  /** The expression `a || b`. */
  function Or(a: JsValue, b: JsValue): JsValue
  {
    if Truthy(a) then a else b
  }

  /** sql.js binds every JavaScript value except `undefined`. */
  predicate Bindable(v: JsValue)
  {
    !v.Undefined?
  }

  /** The storage value sql.js binds for a JavaScript value; booleans become 1 and 0. */
  function Bind(v: JsValue): SqlValue
    requires Bindable(v)
  {
    match v
    case Null => SqlNull
    case Bool(b) => SqlInt(if b then 1 else 0)
    case Num(n) => SqlInt(n)
    case Str(s) => SqlText(s)
  }

  /** The JavaScript value `getAsObject` yields for a stored value. */
  function FromSql(v: SqlValue): (r: JsValue)
    ensures Bindable(r) && Bind(r) == v
  {
    match v
    case SqlNull => Null
    case SqlInt(i) => Num(i)
    case SqlText(t) => Str(t)
  }

  /** Truthiness of a stored value once it is read back into JavaScript. */
  predicate SqlTruthy(v: SqlValue)
  {
    Truthy(FromSql(v))
  }

  /** The value stored for `row[col] || fallback` when both sides come from storage. */
  function SqlOr(v: SqlValue, fallback: SqlValue): SqlValue
  {
    if SqlTruthy(v) then v else fallback
  }

  lemma BindOr(v: SqlValue, fallback: SqlValue)
    ensures Bindable(Or(FromSql(v), FromSql(fallback)))
    ensures Bind(Or(FromSql(v), FromSql(fallback))) == SqlOr(v, fallback)
  {
  }

  /** Decimal digits of a natural number, as `String(n)` writes it. */
  function NatToString(n: nat): (r: string)
    ensures |r| >= 1
    ensures forall i :: 0 <= i < |r| ==> '0' <= r[i] <= '9'
    decreases n
  {
    if n < 10 then [Digit(n)] else NatToString(n / 10) + [Digit(n % 10)]
  }

  function Digit(d: nat): (c: char)
    requires d < 10
    ensures '0' <= c <= '9'
  {
    ['0', '1', '2', '3', '4', '5', '6', '7', '8', '9'][d]
  }

  /** The number a string of decimal digits denotes. */
  function DecimalValue(s: string): nat
    requires forall i :: 0 <= i < |s| ==> '0' <= s[i] <= '9'
  {
    if s == [] then 0 else DecimalValue(s[..|s| - 1]) * 10 + (s[|s| - 1] as int - '0' as int)
  }

  /** `String(n)` reads back as `n`, and has no leading zero except for 0 itself. */
  lemma {:induction false} NatToStringReadsBack(n: nat)
    ensures DecimalValue(NatToString(n)) == n
    ensures NatToString(n)[0] == '0' <==> n == 0
    decreases n
  {
    var r := NatToString(n);
    if n < 10 {
      DigitValue(n);
    } else {
      NatToStringReadsBack(n / 10);
      DigitValue(n % 10);
      assert r[..|r| - 1] == NatToString(n / 10);
      assert r[0] == NatToString(n / 10)[0];
    }
  }

  lemma DigitValue(d: nat)
    requires d < 10
    ensures Digit(d) as int - '0' as int == d
  {
  }

  function IntToString(n: int): string
  {
    if n < 0 then "-" + NatToString(-n) else NatToString(n)
  }

  /** The text a template literal `${v}` inserts for `v`. */
  function Template(v: JsValue): string
  {
    match v
    case Undefined => "undefined"
    case Null => "null"
    case Bool(b) => if b then "true" else "false"
    case Num(n) => IntToString(n)
    case Str(s) => s
  }
}
