/**
 * The Java throwables that the generation code creates, passes through, wraps
 * and aggregates, as values.
 */
module Exceptions {
  import opened Wrappers

  /** The throwable classes the code distinguishes; Other stands for any further class. */
  datatype ExceptionClass =
    | IOException
    | FileNotFoundException
    | Docx4JException
    | IllegalArgumentException
    | InterruptedException
    | RuntimeException
    | NoClassDefFoundError
    | OtherError

  /** `instanceof IOException`: FileNotFoundException is a subclass. */
  predicate IsIOException(c: ExceptionClass) {
    c == IOException || c == FileNotFoundException
  }

  /** Subclasses of java.lang.Error, which `catch (Exception ...)` does not catch. */
  predicate IsError(c: ExceptionClass) {
    c == NoClassDefFoundError || c == OtherError
  }

  /** A throwable: its class, message (None for null), cause and suppressed throwables. */
  datatype Throwable = Throwable(cls: ExceptionClass, message: Option<string>, cause: Option<Throwable>,
                                 suppressed: seq<Throwable>)

  /** `new C(message)`. */
  function Raise(cls: ExceptionClass, message: string): Throwable {
    Throwable(cls, Some(message), None, [])
  }

  /** `new C(message, cause)`. */
  function Wrap(cls: ExceptionClass, message: string, cause: Throwable): Throwable {
    Throwable(cls, Some(message), Some(cause), [])
  }

  // ---------------------------------------------------------------------------
  // Decimal rendering of an int, as string concatenation does it

  /** The character of a decimal digit. */
  function DigitChar(d: nat): (c: char)
    requires d < 10
    ensures '0' <= c <= '9'
  {
    "0123456789"[d]
  }

  /** The value of a decimal digit character. */
  function DigitValue(c: char): nat
    requires '0' <= c <= '9'
  {
    (c - '0') as nat
  }

  /** The decimal representation of n, without sign or leading zeros. */
  function DecimalString(n: nat): (s: string)
    ensures s != [] && forall i :: 0 <= i < |s| ==> '0' <= s[i] <= '9'
    ensures |s| > 1 ==> s[0] != '0'
  {
    if n < 10 then [DigitChar(n)] else DecimalString(n / 10) + [DigitChar(n % 10)]
  }

  /** The value of a string of decimal digits. */
  function DecimalValue(s: string): nat
    requires forall i :: 0 <= i < |s| ==> '0' <= s[i] <= '9'
  {
    if s == [] then 0 else 10 * DecimalValue(s[..|s| - 1]) + DigitValue(s[|s| - 1])
  }

  /** A digit character reads back as its digit. */
  lemma DigitRoundTrip(d: nat)
    requires d < 10
    ensures DigitValue(DigitChar(d)) == d
  {
  }

  /** Reading back the decimal representation of n gives n. */
  lemma {:induction false} DecimalRoundTrip(n: nat)
    ensures DecimalValue(DecimalString(n)) == n
  {
    DigitRoundTrip(n % 10);
    if n >= 10 {
      DecimalRoundTrip(n / 10);
      var s := DecimalString(n);
      assert s[..|s| - 1] == DecimalString(n / 10);
    }
  }

  /** Different numbers are rendered differently, so a rendered index identifies its task. */
  lemma DecimalStringInjective(m: nat, n: nat)
    requires DecimalString(m) == DecimalString(n)
    ensures m == n
  {
    DecimalRoundTrip(m);
    DecimalRoundTrip(n);
  }
}
