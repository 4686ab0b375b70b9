/**
 * Which object keys JavaScript enumerates first, in numeric order: the ones
 * that are array indices (section 6.1.7 of ECMA-262), which is where
 * `sortKeysDeep` and a plain sort part (farcaster-audio/services/messagingToken.ts).
 */
module JsonKeys {
  import opened JsStrings
  import opened CanonicalJson

  /** A number written in decimal, without leading zeros. */
  function Decimal(n: nat): JsString {
    if n < 10 then [(48 + n) as CodeUnit] else Decimal(n / 10) + [(48 + n % 10) as CodeUnit]
  }

  lemma {:induction false} DecimalIsNumeral(n: nat)
    ensures Decimal(n) != [] && (forall i :: 0 <= i < |Decimal(n)| ==> IsDigit(Decimal(n)[i]))
    ensures Numeral(Decimal(n)) == n && (Decimal(n)[0] == 48 ==> n == 0)
    ensures n < 10 <==> |Decimal(n)| == 1
  {
    var k := Decimal(n);
    if n < 10 {
      assert k[..0] == [];
    } else {
      DecimalIsNumeral(n / 10);
      assert k[..|k|-1] == Decimal(n / 10);
    }
  }

  lemma {:induction false} NumeralIsDecimal(k: JsString)
    requires k != [] && (forall i :: 0 <= i < |k| ==> IsDigit(k[i])) && (k[0] == 48 ==> |k| == 1)
    ensures Numeral(k) >= 0 && Decimal(Numeral(k)) == k
  {
    var front, last := k[..|k|-1], k[|k|-1];
    if front == [] {
      assert Numeral(front) == 0;
      assert k == [last];
    } else {
      NumeralIsDecimal(front);
      NumeralIsPositive(front);
      assert Numeral(k) == 10 * Numeral(front) + (last as int - 48);
      assert Numeral(k) / 10 == Numeral(front) && Numeral(k) % 10 == last as int - 48;
      assert k == front + [last];
    }
  }

  lemma {:induction false} NumeralIsPositive(k: JsString)
    requires k != [] && (forall i :: 0 <= i < |k| ==> IsDigit(k[i])) && k[0] != 48
    ensures Numeral(k) > 0
  {
    var front := k[..|k|-1];
    if front == [] {
      assert Numeral(front) == 0;
    } else {
      NumeralIsPositive(front);
    }
  }

  /** A key is enumerated among the indices exactly when it is a number below 4294967295 in decimal. */
  lemma IndexKeyIff(k: JsString)
    ensures IsIndexKey(k) <==> exists n: nat :: n < 4294967295 && k == Decimal(n)
  {
    if IsIndexKey(k) {
      NumeralIsDecimal(k);
      assert k == Decimal(Numeral(k));
    }
    forall n: nat | n < 4294967295 && k == Decimal(n) ensures IsIndexKey(k) {
      DecimalIsNumeral(n);
    }
  }
}
