/** Names of the native WireGuard interfaces the panel may manage: Wireguard0 to Wireguard126. */
module WireguardIdentity {
  import opened Basics
  import opened Text

  const PREFIX := "Wireguard"

  function CanonicalName(slot: nat): string { PREFIX + Decimal(slot) }

  /** At most three digits, no leading zero, at most 126. */
  predicate IsSlotText(digits: string) {
    1 <= |digits| <= 3 && AllDigits(digits) && (|digits| > 1 ==> digits[0] != '0') && NumericValue(digits) <= 126
  }

  function Slot(name: string): Option<nat> {
    if |name| > |PREFIX| && name[..|PREFIX|] == PREFIX && IsSlotText(name[|PREFIX|..])
    then Some(NumericValue(name[|PREFIX|..]))
    else None
  }

  lemma {:induction false} DecimalShape(n: nat)
    ensures n > 0 ==> Decimal(n)[0] != '0'
    ensures n < 10 ==> |Decimal(n)| == 1
    ensures n < 1000 ==> |Decimal(n)| <= 3
  {
    if n >= 10 {
      DecimalShape(n / 10);
      assert n < 1000 && n / 10 >= 10 ==> |Decimal(n / 10 / 10)| == 1 by { DecimalShape(n / 10 / 10); }
    }
  }

  lemma {:induction false} NumberWithoutLeadingZero(digits: string)
    requires digits != "" && AllDigits(digits) && digits[0] != '0'
    ensures NumericValue(digits) > 0
  {
    var n := |digits| - 1;
    if n > 0 { NumberWithoutLeadingZero(digits[..n]); }
  }

  lemma {:induction false} DecimalOfValue(digits: string)
    requires digits != "" && AllDigits(digits) && (|digits| > 1 ==> digits[0] != '0')
    ensures Decimal(NumericValue(digits)) == digits
  {
    var n := |digits| - 1;
    var last := [digits[n]];
    assert digits == digits[..n] + last;
    if n > 0 {
      NumberWithoutLeadingZero(digits[..n]);
      DecimalOfValue(digits[..n]);
    } else {
      assert NumericValue(digits[..n]) == 0;
    }
  }

  /** A name is accepted exactly when it is the canonical name of a slot up to 126. */
  lemma SlotExactlyWhen(name: string, slot: nat)
    ensures Slot(name) == Some(slot) <==> slot <= 126 && name == CanonicalName(slot)
  {
    hide Decimal, NumericValue;
    if Slot(name) == Some(slot) {
      DecimalOfValue(name[|PREFIX|..]);
      assert name == name[..|PREFIX|] + name[|PREFIX|..];
    }
    if slot <= 126 && name == CanonicalName(slot) {
      assert name[|PREFIX|..] == Decimal(slot);
      DecimalShape(slot);
      DecimalDenotes(slot);
    }
  }

  method ParseIdentity(name: string) returns (slot: Option<nat>)
    ensures slot == Slot(name)
  {
    if |name| <= |PREFIX| || name[..|PREFIX|] != PREFIX {
      return None;
    }
    var suffix := name[|PREFIX|..];
    if suffix == "" || |suffix| > 3 || (|suffix| > 1 && suffix[0] == '0') {
      return None;
    }
    var value: nat := 0;
    var i := 0;
    while i < |suffix|
      invariant 0 <= i <= |suffix| && AllDigits(suffix[..i]) && value == NumericValue(suffix[..i])
    {
      if !IsDigit(suffix[i]) {
        return None;
      }
      assert suffix[..i + 1][..i] == suffix[..i];
      value := value * 10 + DigitValue(suffix[i]);
      i := i + 1;
    }
    assert suffix[..i] == suffix;
    slot := if value > 126 then None else Some(value);
  }
}
