/** The Money value object: a non-negative amount with two decimals and an upper-case currency code. */
module ValueObjects {
  import opened Wrappers
  import opened Errors
  import opened Text

  /** The currency a Money takes when none is given. */
  const DefaultCurrency: string := "ZAR"

  /** decimal.Round(x, 2, MidpointRounding.AwayFromZero) for x >= 0, counted in cents:
      the integer nearest to 100 x, a tie going up (away from zero). */
  function RoundToCents(x: real): (n: nat)
    requires x >= 0.0
    ensures n as real - 0.5 <= x * 100.0 < n as real + 0.5
  {
    (x * 100.0 + 0.5).Floor
  }

  /** "ZAR" is a valid, upper-case currency code, so Money.Zero() succeeds. */
  lemma DefaultCurrencyIsValid()
    ensures !IsBlank(DefaultCurrency) && IsUpperCase(DefaultCurrency)
    ensures Upper(DefaultCurrency) == DefaultCurrency
    ensures Money.Zero() == Success(Money(0, DefaultCurrency))
  {
    assert !IsWhiteSpace(DefaultCurrency[0]);
  }

  /** Two cent counts within half a cent of the same value are the same. */
  lemma CentsUnique(x: real, m: int, n: int)
    requires m as real - 0.5 <= x < m as real + 0.5
    requires n as real - 0.5 <= x < n as real + 0.5
    ensures m == n
  {
  }

  /** An amount of `cents` hundredths in `currency`. Every Money the program builds goes
      through Create, which makes it Valid. */
  datatype Money = Money(cents: nat, currency: string) {

    /** The decimal amount. */
    function Amount(): real
    {
      cents as real / 100.0
    }

    /** What the constructor guarantees of every instance. */
    predicate Valid()
    {
      !IsBlank(currency) && IsUpperCase(currency)
    }

    /** new Money(amount, currency): rejects a negative amount, then a blank currency;
        rounds the amount to cents and upper-cases the currency. */
    static function Create(amount: real, currency: string := DefaultCurrency): (r: Result<Money, Error>)
      ensures amount < 0.0 ==> r == Failure(InvalidAmount)
      ensures amount >= 0.0 && IsBlank(currency) ==> r == Failure(InvalidCurrency)
      ensures amount >= 0.0 && !IsBlank(currency) ==>
                && r.Success? && r.value.Valid()
                && r.value.currency == Upper(currency)
                && r.value.cents as real - 0.5 <= amount * 100.0 < r.value.cents as real + 0.5
    {
      if amount < 0.0 then Failure(InvalidAmount)
      else if IsBlank(currency) then Failure(InvalidCurrency)
      else Success(Money(RoundToCents(amount), Upper(currency)))
    }

    /** Money.Zero(currency). */
    static function Zero(currency: string := DefaultCurrency): (r: Result<Money, Error>)
      ensures IsBlank(currency) <==> r == Failure(InvalidCurrency)
      ensures !IsBlank(currency) ==> r == Success(Money(0, Upper(currency)))
    {
      Create(0.0, currency)
    }

    /** a + b: refuses a currency mismatch; otherwise exact, in a's currency. */
    function Add(other: Money): (r: Result<Money, Error>)
      ensures currency != other.currency ==> r == Failure(CurrencyMismatch)
      ensures currency == other.currency && Valid() ==>
                r == Success(Money(cents + other.cents, currency))
    {
      if currency != other.currency then Failure(CurrencyMismatch)
      else Create(Amount() + other.Amount(), currency)
    }

    /** a - b: refuses a currency mismatch, and a negative difference (through the constructor). */
    function Subtract(other: Money): (r: Result<Money, Error>)
      ensures currency != other.currency ==> r == Failure(CurrencyMismatch)
      ensures currency == other.currency && other.cents > cents ==> r == Failure(InvalidAmount)
      ensures currency == other.currency && other.cents <= cents && Valid() ==>
                r == Success(Money(cents - other.cents, currency))
    {
      if currency != other.currency then Failure(CurrencyMismatch)
      else Create(Amount() - other.Amount(), currency)
    }

    /** a > b: refuses a currency mismatch; the same answer as b < a. */
    function GreaterThan(other: Money): (r: Result<bool, Error>)
      ensures currency != other.currency ==> r == Failure(CurrencyMismatch)
      ensures currency == other.currency ==> r == Success(cents > other.cents)
      ensures r == other.LessThan(this)
    {
      if currency != other.currency then Failure(CurrencyMismatch)
      else Success(Amount() > other.Amount())
    }

    /** a < b: refuses a currency mismatch. */
    function LessThan(other: Money): (r: Result<bool, Error>)
      ensures currency != other.currency ==> r == Failure(CurrencyMismatch)
      ensures currency == other.currency ==> r == Success(cents < other.cents)
    {
      if currency != other.currency then Failure(CurrencyMismatch)
      else Success(Amount() < other.Amount())
    }

    /** MultiplyBy(k): the product rounded to cents, in the same currency. */
    function MultiplyBy(multiplier: real): (r: Result<Money, Error>)
      ensures multiplier >= 0.0 && Valid() ==>
                && r.Success? && r.value.currency == currency
                && r.value.cents as real - 0.5 <= cents as real * multiplier < r.value.cents as real + 0.5
      ensures multiplier < 0.0 && cents > 0 ==> r == Failure(InvalidAmount)
    {
      Create(Amount() * multiplier, currency)
    }
  }

  /** Re-constructing from an existing Money's amount and currency yields the same Money. */
  lemma RoundingIsIdempotent(m: Money)
    requires m.Valid()
    ensures Money.Create(m.Amount(), m.currency) == Success(m)
  {
    var r := Money.Create(m.Amount(), m.currency);
    CentsUnique(m.Amount() * 100.0, r.value.cents, m.cents);
  }

  /** Same-currency addition is associative. */
  lemma AddIsAssociative(a: Money, b: Money, c: Money)
    requires a.Valid() && a.currency == b.currency == c.currency
    ensures a.Add(b).Success? && b.Add(c).Success?
    ensures a.Add(b).value.Add(c) == a.Add(b.Add(c).value)
  {
  }

  /** Subtracting what was just added gives back the original value. */
  lemma SubtractUndoesAdd(a: Money, b: Money)
    requires a.Valid() && a.currency == b.currency
    ensures a.Add(b).Success?
    ensures a.Add(b).value.Subtract(b) == Success(a)
  {
  }

  /** The rounding examples: 10.005 rounds up to 10.01, 10.004 down to 10.00; -1 is refused. */
  lemma RoundingExamples()
    ensures Money.Create(10.005, "zar") == Success(Money(1001, "ZAR"))
    ensures Money.Create(10.004) == Success(Money(1000, "ZAR"))
    ensures Money.Create(-1.0) == Failure(InvalidAmount)
  {
    assert Upper("zar") == "ZAR";
    assert Upper("ZAR") == "ZAR";
  }
}
