/**
 * The amount in an idempotency key: a two-decimal text, rounded half to even, with a
 * reader that recovers the cents.
 */
module AmountText {
  import opened Timestamps

  /** Nearest integer, ties to the even one. */
  function RoundHalfEven(x: real): (n: int)
    ensures x - 0.5 <= n as real <= x + 0.5
    ensures n as real == x - 0.5 || n as real == x + 0.5 ==> n % 2 == 0
  {
    var low := x.Floor;
    var rest := x - low as real;
    if rest < 0.5 || (rest == 0.5 && low % 2 == 0) then low else low + 1
  }

  /** Whole cents of an amount; the magnitude is rounded, as the formatter does. */
  function Cents(amount: real): int {
    if amount < 0.0 then -RoundHalfEven(-amount * 100.0) else RoundHalfEven(amount * 100.0)
  }

  /** Decimal digits without leading zeros; zero is "0". */
  function Decimal(n: nat): (text: string)
    ensures text != "" && forall i :: 0 <= i < |text| ==> '0' <= text[i] <= '9'
  {
    if n < 10 then [Digit(n)] else Decimal(n / 10) + [Digit(n % 10)]
  }

  function Unsigned(cents: nat): string {
    Decimal(cents / 100) + ("." + Digits(cents % 100, 2))
  }

  function Magnitude(amount: real): (cents: nat)
    ensures cents == if amount < 0.0 then -Cents(amount) else Cents(amount)
  {
    if amount < 0.0 then RoundHalfEven(-amount * 100.0) else RoundHalfEven(amount * 100.0)
  }

  /** Python's format(amount, ".2f"). */
  function FormatAmount(amount: real): string {
    (if amount < 0.0 then "-" else "") + Unsigned(Magnitude(amount))
  }

  // ---------- Reading it back ----------

  /** The number written by the digits of a text, the point left out. */
  function ReadUnsigned(text: string): int {
    if |text| < 3 then 0 else ReadDigits(text[..|text| - 3]) * 100 + ReadDigits(text[|text| - 2..])
  }

  function ReadCents(text: string): int {
    if text != "" && text[0] == '-' then -ReadUnsigned(text[1..]) else ReadUnsigned(text)
  }

  lemma {:induction false} ReadDecimal(n: nat)
    ensures ReadDigits(Decimal(n)) == n
  {
    if n >= 10 {
      ReadDecimal(n / 10);
      var text := Decimal(n);
      assert text[..|text| - 1] == Decimal(n / 10);
    } else {
      assert [Digit(n)][..0] == "";
    }
  }

  lemma ReadUnsignedBack(cents: nat)
    ensures ReadUnsigned(Unsigned(cents)) == cents
  {
    var whole, part := Decimal(cents / 100), Digits(cents % 100, 2);
    var text := Unsigned(cents);
    assert text[..|text| - 3] == whole && text[|text| - 2..] == part;
    ReadDecimal(cents / 100);
    PowersOfTen();
    ReadDigitsBack(cents % 100, 2);
  }

  /** The reader recovers the cents of every amount. */
  lemma ReadCentsBack(amount: real)
    ensures ReadCents(FormatAmount(amount)) == Cents(amount)
  {
    var text := Unsigned(Magnitude(amount));
    ReadUnsignedBack(Magnitude(amount));
    if amount < 0.0 {
      assert FormatAmount(amount)[1..] == text;
    } else {
      assert FormatAmount(amount) == text && text[0] == Decimal(Magnitude(amount) / 100)[0];
    }
  }

  predicate AllDigits(text: string) {
    text != "" && forall i :: 0 <= i < |text| ==> '0' <= text[i] <= '9'
  }

  lemma {:induction false} NoLeadingZero(n: nat)
    ensures Decimal(n) == "0" || Decimal(n)[0] != '0'
  {
    if n >= 10 {
      NoLeadingZero(n / 10);
    }
  }

  /** How an amount looks: a sign if negative, whole units without leading zeros, a point, two digits. */
  lemma AmountLayout(amount: real) returns (whole: string, part: string)
    ensures FormatAmount(amount) == (if amount < 0.0 then "-" else "") + whole + "." + part
    ensures AllDigits(whole) && (whole == "0" || whole[0] != '0') && AllDigits(part) && |part| == 2
  {
    var cents := Magnitude(amount);
    whole, part := Decimal(cents / 100), Digits(cents % 100, 2);
    NoLeadingZero(cents / 100);
  }

  /** Two amounts print alike exactly when they have the same cents and the same sign. */
  lemma SameTextSameCents(a: real, b: real)
    ensures FormatAmount(a) == FormatAmount(b) <==> Cents(a) == Cents(b) && (a < 0.0 <==> b < 0.0)
  {
    ReadCentsBack(a);
    ReadCentsBack(b);
    var x, y := Unsigned(Magnitude(a)), Unsigned(Magnitude(b));
    assert x[0] == Decimal(Magnitude(a) / 100)[0] && y[0] == Decimal(Magnitude(b) / 100)[0];
    if a < 0.0 {
      assert FormatAmount(a)[0] == '-';
    } else {
      assert FormatAmount(a)[0] == x[0];
    }
    if b < 0.0 {
      assert FormatAmount(b)[0] == '-';
    } else {
      assert FormatAmount(b)[0] == y[0];
    }
  }

  /** Amounts with the same cents differ by at most one cent. */
  lemma SameCentsClose(a: real, b: real)
    requires Cents(a) == Cents(b) && a >= 0.0 && b >= 0.0
    ensures -0.01 <= a - b <= 0.01
  {
  }

  /** Amounts in (0, 25] have between 0 and 2500 cents. */
  lemma SmallAmountCents(amount: real)
    requires 0.0 < amount <= 25.0
    ensures 0 <= Cents(amount) <= 2500
  {
  }

  lemma NoNewlineInAmount(amount: real)
    ensures '\n' !in FormatAmount(amount)
  {
  }
}
