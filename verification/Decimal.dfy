/**
  Message keys and the decimal printer behind their string form.
 */
module Decimal {
  import opened Text

  type uint32 = n: int | 0 <= n < 0x1_0000_0000

  /** The composite key of a message. */
  datatype MessageKey = MessageKey(account: string, uid: uint32)

  function DigitChar(d: nat): (c: char)
    requires d < 10
    ensures IsDigit(c)
  {
    ('0' as int + d) as char
  }

  function DigitValue(c: char): (d: nat)
    requires IsDigit(c)
    ensures d < 10
  {
    c as int - '0' as int
  }

  /** The decimal numeral of `n`. */
  function Numeral(n: nat): (s: string)
    ensures s != "" && forall i :: 0 <= i < |s| ==> IsDigit(s[i])
  {
    (if n < 10 then "" else Numeral(n / 10)) + [DigitChar(n % 10)]
  }

  function Value(s: string): nat
    requires forall i :: 0 <= i < |s| ==> IsDigit(s[i])
  {
    if s == "" then 0 else 10 * Value(s[..|s| - 1]) + DigitValue(s[|s| - 1])
  }

  function Pow10(n: nat): nat {
    if n == 0 then 1 else 10 * Pow10(n - 1)
  }

  lemma {:induction false} UidsFitTenDigits(n: uint32)
    ensures n < Pow10(10)
  {
    assert Pow10(4) == 10000;
    assert Pow10(7) == 10000000;
    assert Pow10(10) == 10000000000;
  }

  lemma {:induction false} FewerDigits(i: nat, m: nat)
    requires 0 < m < Pow10(i)
    ensures i > 0 && m / 10 < Pow10(i - 1)
  {
  }

  /** The last digit moves from the number to the text behind it. */
  lemma {:induction false} NumeralStep(m: nat, tail: string)
    ensures (if m >= 10 then Numeral(m / 10) else "") + ([DigitChar(m % 10)] + tail) == Numeral(m) + tail
    ensures Numeral(0) == "0"
  {
  }

  /** `itoa`: fills a ten-byte buffer from the right and never underruns it. */
  method Itoa(n: uint32) returns (s: string)
    ensures s == Numeral(n)
  {
    hide Pow10, Numeral, DigitChar;
    if n == 0 {
      NumeralStep(0, "");
      return "0";
    }
    UidsFitTenDigits(n);
    var buf := new char[10];
    var i, m := buf.Length, n as int;
    while m > 0
      invariant 0 <= i <= buf.Length && 0 <= m < Pow10(i)
      invariant (if m > 0 then Numeral(m) else "") + buf[i..] == Numeral(n)
    {
      ghost var tail := buf[i..];
      FewerDigits(i, m);
      NumeralStep(m, tail);
      i := i - 1;
      buf[i] := DigitChar(m % 10);
      assert buf[i..] == [DigitChar(m % 10)] + tail;
      m := m / 10;
    }
    s := buf[i..];
  }

  /** Reading a printed number gives it back. */
  lemma {:induction false} ValueOfNumeral(n: nat)
    ensures Value(Numeral(n)) == n
  {
    var s := Numeral(n);
    if n >= 10 {
      ValueOfNumeral(n / 10);
      assert s[..|s| - 1] == Numeral(n / 10);
    } else {
      assert s[..|s| - 1] == "";
    }
  }

  /** Only zero starts with the digit zero. */
  lemma {:induction false} NoLeadingZero(n: nat)
    ensures Numeral(n)[0] == '0' <==> n == 0
  {
    if n >= 10 { NoLeadingZero(n / 10); }
  }

  /** `MessageKey.Key`. */
  function KeyText(k: MessageKey): string {
    k.account + "/" + Numeral(k.uid)
  }

  /** The method the program has for it. */
  method Key(k: MessageKey) returns (s: string)
    ensures s == KeyText(k)
  {
    var uid := Itoa(k.uid);
    s := k.account + "/" + uid;
  }

  /** The last slash of a key text is the separator, whatever slashes the account label has. */
  lemma {:induction false} KeySeparator(k: MessageKey)
    ensures LastIndexOf(KeyText(k), "/") == |k.account|
  {
    hide LastIndexOf, At, Numeral;
    var t := KeyText(k);
    assert t[|k.account| + 1..] == Numeral(k.uid);
    LastChar(t, '/', |k.account|);
  }

  /** Distinct messages have distinct key texts. */
  lemma {:induction false} KeyInjective(k: MessageKey, k': MessageKey)
    requires KeyText(k) == KeyText(k')
    ensures k == k'
  {
    hide LastIndexOf;
    KeySeparator(k);
    KeySeparator(k');
    var t, n := KeyText(k), |k.account|;
    assert k.account == t[..n] == k'.account;
    assert Numeral(k.uid) == t[n + 1..] == Numeral(k'.uid);
    ValueOfNumeral(k.uid);
    ValueOfNumeral(k'.uid);
  }
}
