/** Vocabulary shared by the plugins: optional values and results, the Java integer
    widths, the untyped values the Bonita host hands to a plugin, the exceptions a
    plugin throws back, and the few `java.lang` text operations the plugins rely on
    (`Long.valueOf`, `Long.toString`, `String.contains`, `String.trim`). */
module JavaLang {

  datatype Option<+T> = None | Some(value: T)

  datatype Result<+T, +E> = Success(value: T) | Failure(error: E)

  /** The outcome of a `void` method that may throw. */
  datatype Outcome<+E> = Pass | Fail(error: E)

  const MinLong: int := -0x8000_0000_0000_0000
  const MaxLong: int := 0x7FFF_FFFF_FFFF_FFFF
  const MinInteger: int := -0x8000_0000
  const MaxInteger: int := 0x7FFF_FFFF

  /** Java `long` / boxed `Long`. */
  type Int64 = x: int | MinLong <= x <= MaxLong

  /** Java `int` / boxed `Integer`. */
  type Int32 = x: int | MinInteger <= x <= MaxInteger

  /** A value stored in the host's input-parameter map, as its runtime class sees it. */
  datatype Value =
    | Null
    | Str(s: string)
    | Integer(i: Int32)
    | Long(l: Int64)
      /** a `java.util.List` implementation, named by its simple class name */
    | ListOf(listClass: string, elems: seq<Value>)
      /** any other class, named by its simple class name */
    | Other(simpleName: string)

  /** `value.getClass().getSimpleName()`; calling it on `null` throws, hence the requires. */
  function SimpleName(v: Value): string
    requires !v.Null?
  {
    match v
    case Str(_) => "String"
    case Integer(_) => "Integer"
    case Long(_) => "Long"
    case ListOf(c, _) => c
    case Other(n) => n
  }

  /** The exception classes that occur in the plugins. The list is flat: the subclass
      relation is not modelled, so a `catch` is written out as the classes it takes.
      `JsonParseException`, an `IOException` in Jackson, is only raised by `readTree`,
      whose outcomes `Json.ReadResult` keeps apart; broker steps never raise it. */
  datatype ExceptionClass =
    | ConnectorValidationException
    | ConnectorException
    | UserFilterException
    | IllegalArgumentException
    | ClassCastException
    | NullPointerException
    | NumberFormatException
    | IOException
    | TimeoutException
    | JsonParseException
    | ShutdownSignalException
    | RuntimeException

  /** A thrown exception. `Thrown` is raised by plugin code with a message the model
      knows exactly; `Foreign` is raised by the JVM or a library, whose message text
      is not part of the model. */
  datatype Exc =
    | Thrown(cls: ExceptionClass, message: string, cause: Option<Exc>)
    | Foreign(cls: ExceptionClass)

  // ---------------------------------------------------------------------------
  // Decimal text, as `Long.toString` writes it and `Long.valueOf` reads it
  // ---------------------------------------------------------------------------

  predicate IsDigit(c: char) { '0' <= c <= '9' }

  predicate AllDigits(s: string) { forall i :: 0 <= i < |s| ==> IsDigit(s[i]) }

  function DigitValue(c: char): nat
    requires IsDigit(c)
  {
    c as int - '0' as int
  }

  function DigitChar(d: nat): (c: char)
    requires d < 10
    ensures IsDigit(c) && DigitValue(c) == d
  {
    (d + '0' as int) as char
  }

  /** The value of a non-empty run of decimal digits, most significant first. */
  function DigitsValue(ds: string): nat
    requires AllDigits(ds)
  {
    if ds == [] then 0 else DigitsValue(ds[..|ds| - 1]) * 10 + DigitValue(ds[|ds| - 1])
  }

  /** The shortest decimal digits of `n`. */
  function NatToDigits(n: nat): (s: string)
    ensures |s| >= 1 && AllDigits(s)
    ensures |s| > 1 ==> s[0] != '0'
  {
    if n < 10 then [DigitChar(n)] else NatToDigits(n / 10) + [DigitChar(n % 10)]
  }

  /** `Long.toString(n)` / `Integer.toString(n)` / `String.valueOf(n)`. */
  function IntToString(n: int): string
  {
    if n < 0 then "-" + NatToDigits(-n) else NatToDigits(n)
  }

  /** `Long.valueOf(s)` (radix 10): an optional sign followed by at least one digit,
      whose value fits in a `long`; `None` where Java throws `NumberFormatException`. */
  function ParseLong(s: string): (r: Option<Int64>)
    ensures r.Some? ==> |s| >= 1 && IsDigit(s[|s| - 1])
    ensures r.Some? && r.value < 0 ==> s[0] == '-'
  {
    if s == [] then None
    else
      var negative := s[0] == '-';
      var digits := if s[0] == '-' || s[0] == '+' then s[1..] else s;
      if digits == [] || !AllDigits(digits) then None
      else
        var magnitude: int := DigitsValue(digits);
        var v := if negative then -magnitude else magnitude;
        if MinLong <= v <= MaxLong then Some(v) else None
  }

  lemma {:induction false} DigitsValueOfNatToDigits(n: nat)
    ensures DigitsValue(NatToDigits(n)) == n
  {
    if n >= 10 {
      var prefix := NatToDigits(n / 10);
      var s := prefix + [DigitChar(n % 10)];
      assert s[..|s| - 1] == prefix;
      DigitsValueOfNatToDigits(n / 10);
    }
  }

  /** Reading back what `Long.toString` wrote gives the same `long`. */
  lemma ParseLongOfIntToString(n: Int64)
    ensures ParseLong(IntToString(n)) == Some(n)
  {
    var s := IntToString(n);
    if n < 0 {
      var m: nat := -(n as int);
      assert s[1..] == NatToDigits(m);
      DigitsValueOfNatToDigits(m);
    } else {
      DigitsValueOfNatToDigits(n);
    }
  }

  // ---------------------------------------------------------------------------
  // String.contains and String.trim
  // ---------------------------------------------------------------------------

  /** `t` occurs in `s` starting at index `i`. */
  predicate OccursAt(s: string, t: string, i: int)
  {
    0 <= i && i + |t| <= |s| && s[i..i + |t|] == t
  }

  /** `s.contains(t)`. */
  predicate Contains(s: string, t: string)
  {
    exists i | 0 <= i <= |s| :: OccursAt(s, t, i)
  }

  lemma ContainsInfix(a: string, t: string, b: string)
    ensures Contains(a + t + b, t)
  {
    var s := a + t + b;
    assert s[|a|..|a| + |t|] == t;
    assert OccursAt(s, t, |a|);
  }

  lemma OccursAtEnd(s: string, t: string)
    ensures OccursAt(s + t, t, |s|) && Contains(s + t, t)
  {
    assert (s + t)[|s|..|s| + |t|] == t;
    assert OccursAt(s + t, t, |s|);
  }

  lemma ContainsExtends(s: string, t: string, u: string)
    requires Contains(s, t)
    ensures Contains(s + u, t)
  {
    var i :| 0 <= i <= |s| && OccursAt(s, t, i);
    assert (s + u)[i..i + |t|] == s[i..i + |t|];
    assert OccursAt(s + u, t, i);
  }

  /** The characters `String.trim` removes: code points up to and including space. */
  predicate IsTrimmed(c: char) { c <= ' ' }

  function TrimStart(s: string): (r: string)
    ensures |r| <= |s| && r == s[|s| - |r|..]
    ensures r != [] ==> !IsTrimmed(r[0])
  {
    if s != [] && IsTrimmed(s[0]) then TrimStart(s[1..]) else s
  }

  function TrimEnd(s: string): (r: string)
    ensures |r| <= |s| && r == s[..|r|]
    ensures r != [] ==> !IsTrimmed(r[|r| - 1])
  {
    if s != [] && IsTrimmed(s[|s| - 1]) then TrimEnd(s[..|s| - 1]) else s
  }

  /** `s.trim()`. */
  function Trim(s: string): string
  {
    TrimEnd(TrimStart(s))
  }
}
