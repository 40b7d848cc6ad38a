/** Offer identifiers `f"OFFER-{n}"` (mian.py:171) and the fact that distinct counter
    values give distinct identifiers, so a new offer never overwrites an old one. */
module OfferIds {

  function DigitChar(d: nat): char
    requires d < 10
  {
    (48 + d) as char
  }

  /** Decimal rendering of a natural number, as Python's str() writes it: digits only,
      and no leading zero. */
  function Decimal(n: nat): (s: string)
    ensures 1 <= |s|
    ensures n < 10 <==> |s| == 1
    ensures forall i :: 0 <= i < |s| ==> '0' <= s[i] <= '9'
    ensures s[0] == '0' ==> n == 0
  {
    if n < 10 then [DigitChar(n)] else Decimal(n / 10) + [DigitChar(n % 10)]
  }

  /** The number a string of decimal digits denotes (the reading `int()` does). */
  function Value(s: string): nat
  {
    if s == [] then 0
    else
      var d := s[|s| - 1] as int - '0' as int;
      Value(s[..|s| - 1]) * 10 + (if 0 <= d < 10 then d else 0)
  }

  /** Reading back what `Decimal` wrote gives the number again. */
  lemma {:induction false} ValueOfDecimal(n: nat)
    ensures Value(Decimal(n)) == n
  {
    if 10 <= n {
      var s := Decimal(n);
      assert s[..|s| - 1] == Decimal(n / 10);
      ValueOfDecimal(n / 10);
    }
  }

  /** Different numbers are written differently. */
  lemma DecimalInjective(a: nat, b: nat)
    requires Decimal(a) == Decimal(b)
    ensures a == b
  {
    ValueOfDecimal(a);
    ValueOfDecimal(b);
  }

  const Prefix: string := "OFFER-"

  /** `f"OFFER-{n}"`: the prefix followed by decimal digits only. */
  function OfferIdFor(n: nat): (id: string)
    ensures |Prefix| < |id| && id[..|Prefix|] == Prefix
    ensures forall k :: |Prefix| <= k < |id| ==> '0' <= id[k] <= '9'
  {
    Prefix + Decimal(n)
  }

  /** Distinct counter values never yield the same offer id. */
  lemma OfferIdInjective(a: nat, b: nat)
    requires OfferIdFor(a) == OfferIdFor(b)
    ensures a == b
  {
    assert Decimal(a) == OfferIdFor(a)[|Prefix|..];
    assert Decimal(b) == OfferIdFor(b)[|Prefix|..];
    DecimalInjective(a, b);
  }
}
