/** The amount entry of the merchant terminal page: the keypad helpers, the
    free-text amount field, the Indonesian thousands grouping of the shown
    amount, and ending the payment on display. */
module TerminalPage {
  import opened Decimal
  import opened JsValue

  /** Amounts are kept to at most this many decimal digits. */
  const MaxDigits: nat := 15

  // ---------------------------------------------------------------------------
  // Text helpers

  /** `raw.replace(/[^\d]/g, '')`: the decimal digits of the text, in order. */
  function KeepDigits(s: string): (r: string)
    ensures AllDigits(r) && |r| <= |s|
  {
    if s == [] then []
    else (if IsDigit(s[0]) then [s[0]] else []) + KeepDigits(s[1..])
  }

  /** Text made only of digits passes through unchanged. */
  lemma {:induction false} KeepDigitsOfDigits(s: string)
    requires AllDigits(s)
    ensures KeepDigits(s) == s
  {
    if s != [] {
      KeepDigitsOfDigits(s[1..]);
      assert [s[0]] + s[1..] == s;
    }
  }

  /** Nothing is kept exactly when the text holds no digit. */
  lemma {:induction false} KeepDigitsEmpty(s: string)
    ensures KeepDigits(s) == [] <==> forall i :: 0 <= i < |s| ==> !IsDigit(s[i])
  {
    if s != [] {
      KeepDigitsEmpty(s[1..]);
      if KeepDigits(s) == [] {
        forall i | 0 <= i < |s|
          ensures !IsDigit(s[i])
        {
          if i > 0 {
            assert s[i] == s[1..][i - 1];
          }
        }
      }
      if forall i :: 0 <= i < |s| ==> !IsDigit(s[i]) {
        assert forall i :: 0 <= i < |s| - 1 ==> s[1..][i] == s[i + 1];
      }
    }
  }

  /** Filtering distributes over concatenation: the digits of a + b are the
      digits of a followed by the digits of b, so their order is kept. */
  lemma {:induction false} KeepDigitsAppend(a: string, b: string)
    ensures KeepDigits(a + b) == KeepDigits(a) + KeepDigits(b)
  {
    if a != [] {
      var h := if IsDigit(a[0]) then [a[0]] else [];
      assert (a + b)[0] == a[0];
      assert (a + b)[1..] == a[1..] + b;
      KeepDigitsAppend(a[1..], b);
      assert KeepDigits(a + b) == h + (KeepDigits(a[1..]) + KeepDigits(b));
      assert h + (KeepDigits(a[1..]) + KeepDigits(b)) == (h + KeepDigits(a[1..])) + KeepDigits(b);
    } else {
      assert a + b == b;
    }
  }

  /** `s.slice(0, 15)`. */
  function TakeMax(s: string): (r: string)
    ensures |r| <= MaxDigits
    ensures |s| <= MaxDigits ==> r == s
    ensures |s| > MaxDigits ==> r == s[..MaxDigits]
  {
    if |s| <= MaxDigits then s else s[..MaxDigits]
  }

  /** Groups of three digits from the right, separated by '.', as the
      `id-ID` locale writes a whole number. */
  function GroupThousands(s: string): (r: string)
    ensures |r| >= |s|
    decreases |s|
  {
    if |s| <= 3 then s else GroupThousands(s[..|s| - 3]) + "." + s[|s| - 3..]
  }

  /** The text without its '.' separators. */
  function RemoveDots(s: string): (r: string)
    ensures |r| <= |s|
  {
    if s == [] then [] else (if s[0] == '.' then [] else [s[0]]) + RemoveDots(s[1..])
  }

  lemma {:induction false} RemoveDotsAppend(a: string, b: string)
    ensures RemoveDots(a + b) == RemoveDots(a) + RemoveDots(b)
  {
    if a != [] {
      var h := if a[0] == '.' then [] else [a[0]];
      assert (a + b)[0] == a[0];
      assert (a + b)[1..] == a[1..] + b;
      RemoveDotsAppend(a[1..], b);
      assert RemoveDots(a + b) == h + (RemoveDots(a[1..]) + RemoveDots(b));
      assert h + (RemoveDots(a[1..]) + RemoveDots(b)) == (h + RemoveDots(a[1..])) + RemoveDots(b);
    } else {
      assert a + b == b;
    }
  }

  lemma {:induction false} RemoveDotsOfDigits(s: string)
    requires AllDigits(s)
    ensures RemoveDots(s) == s
  {
    if s != [] {
      RemoveDotsOfDigits(s[1..]);
      assert [s[0]] + s[1..] == s;
    }
  }

  /** A separator between two groups is dropped and nothing else. */
  lemma RemoveSeparator(x: string, lo: string)
    requires AllDigits(lo)
    ensures RemoveDots(x + "." + lo) == RemoveDots(x) + lo
  {
    var y := x + ".";
    RemoveDotsAppend(y, lo);
    RemoveDotsAppend(x, ".");
    RemoveDotsOfDigits(lo);
    DotRemoved();
  }

  lemma DotRemoved()
    ensures RemoveDots(".") == []
  {
  }

  /** Dropping the separators gives back the digits that were grouped. */
  lemma {:induction false} UngroupThousands(s: string)
    requires AllDigits(s)
    ensures RemoveDots(GroupThousands(s)) == s
    decreases |s|
  {
    if |s| <= 3 {
      RemoveDotsOfDigits(s);
    } else {
      var hi, lo := s[..|s| - 3], s[|s| - 3..];
      assert AllDigits(hi) && AllDigits(lo);
      UngroupThousands(hi);
      RemoveSeparator(GroupThousands(hi), lo);
      assert hi + lo == s;
    }
  }

  /** Filtering the grouped numeral drops its separators and nothing else. */
  lemma {:induction false} KeepDigitsOfGrouped(s: string)
    requires AllDigits(s)
    ensures KeepDigits(GroupThousands(s)) == s
    decreases |s|
  {
    if |s| <= 3 {
      KeepDigitsOfDigits(s);
    } else {
      var hi, lo := s[..|s| - 3], s[|s| - 3..];
      assert AllDigits(hi) && AllDigits(lo);
      KeepDigitsOfGrouped(hi);
      KeepDigitsAppend(GroupThousands(hi) + ".", lo);
      KeepDigitsAppend(GroupThousands(hi), ".");
      KeepDigitsOfDigits(lo);
      assert KeepDigits(".") == [];
      assert hi + lo == s;
    }
  }

  /** `n.toLocaleString('id-ID')` for a whole number n >= 0. */
  function ToLocaleIdId(n: nat): string {
    GroupThousands(NatToDecimal(n))
  }

  /** `formatIdr(n)`: the grouped amount, or the empty text for 0. */
  function FormatIdr(n: nat): string {
    if n > 0 then ToLocaleIdId(n) else ""
  }

  /** The shown text reads back as the amount: without its separators it is
      the decimal numeral of the amount. */
  lemma LocaleReadsBack(n: nat)
    ensures AllDigits(RemoveDots(ToLocaleIdId(n)))
    ensures DecimalValue(RemoveDots(ToLocaleIdId(n))) == n
  {
    UngroupThousands(NatToDecimal(n));
    DecimalRoundTrip(n);
  }

  /** Editing the shown text in the free-text field: the field's digits are
      the amount's numeral followed by whatever digits were typed after it. */
  lemma TypedAfterShownText(n: nat, typed: string)
    ensures KeepDigits(ToLocaleIdId(n) + typed) == NatToDecimal(n) + KeepDigits(typed)
  {
    KeepDigitsAppend(ToLocaleIdId(n), typed);
    KeepDigitsOfGrouped(NatToDecimal(n));
  }

  /** Handing the shown text back to the field gives the same amount. */
  lemma ShownTextReadsBack(n: nat)
    requires n < Pow10(MaxDigits)
    ensures DecimalValue(TakeMax(KeepDigits(ToLocaleIdId(n)))) == n
  {
    KeepDigitsOfGrouped(NatToDecimal(n));
    DecimalLength(n, MaxDigits);
    DecimalRoundTrip(n);
  }

  /** The keypad's text is empty exactly when the amount is 0. */
  lemma FormatIdrEmpty(n: nat)
    ensures FormatIdr(n) == "" <==> n == 0
  {
  }

  // ---------------------------------------------------------------------------
  // Keypad arithmetic

  /** `/^0+$/`. */
  predicate OnlyZeros(d: string) {
    d != "" && forall i :: 0 <= i < |d| ==> d[i] == '0'
  }

  /** The amount after `appendDigits(d)` from amount n. */
  function AppendedAmount(n: nat, d: string): nat
    requires AllDigits(d)
  {
    if d == "" then n
    else if n == 0 && OnlyZeros(d) then 0
    else
      DecimalValueAppend(NatToDecimal(n), d);
      DecimalValue(TakeMax(NatToDecimal(n) + d))
  }

  /** The amount never grows past 15 digits. */
  lemma AppendedAmountBound(n: nat, d: string)
    requires AllDigits(d) && n < Pow10(MaxDigits)
    ensures AppendedAmount(n, d) < Pow10(MaxDigits)
  {
    if d != "" && !(n == 0 && OnlyZeros(d)) {
      DecimalValueAppend(NatToDecimal(n), d);
      TakeMaxBound(NatToDecimal(n) + d);
    }
  }

  /** The digits appended after the amount's numeral, cut to 15 characters. */
  lemma AppendStep(n: nat, d: string)
    requires AllDigits(d) && d != "" && !(n == 0 && OnlyZeros(d))
    ensures AllDigits(TakeMax(NatToDecimal(n) + d))
    ensures DecimalValue(TakeMax(NatToDecimal(n) + d)) == AppendedAmount(n, d)
  {
    DecimalValueAppend(NatToDecimal(n), d);
    TakeMaxBound(NatToDecimal(n) + d);
  }

  /** At most 15 digits are worth less than 10^15. */
  lemma TakeMaxBound(s: string)
    requires AllDigits(s)
    ensures AllDigits(TakeMax(s)) && DecimalValue(TakeMax(s)) < Pow10(MaxDigits)
  {
    DecimalValueBound(TakeMax(s));
    Pow10Monotone(|TakeMax(s)|, MaxDigits);
  }

  lemma {:induction false} Pow10Monotone(i: nat, j: nat)
    requires i <= j
    ensures Pow10(i) <= Pow10(j)
    decreases j
  {
    if i < j {
      Pow10Monotone(i, j - 1);
    }
  }

  /** While there is room, the pressed digits are appended to the amount. */
  lemma AppendedAmountFits(n: nat, d: string)
    requires AllDigits(d) && |NatToDecimal(n)| + |d| <= MaxDigits
    ensures AppendedAmount(n, d) == n * Pow10(|d|) + DecimalValue(d)
  {
    DecimalValueAppend(NatToDecimal(n), d);
    DecimalRoundTrip(n);
    if d != "" && n == 0 && OnlyZeros(d) {
      ZerosValue(d);
    }
  }

  /** A 15-digit amount ignores further digits. */
  lemma AppendedAmountFull(n: nat, d: string)
    requires AllDigits(d) && Pow10(MaxDigits - 1) <= n < Pow10(MaxDigits)
    ensures AppendedAmount(n, d) == n
  {
    var s := NatToDecimal(n);
    DecimalLength(n, MaxDigits);
    DecimalLength(n, MaxDigits - 1);
    assert |s| == MaxDigits;
    DecimalValueAppend(s, d);
    assert (s + d)[..MaxDigits] == s;
    DecimalRoundTrip(n);
  }

  /** `backspaceDigit` from amount n: the numeral without its last digit. */
  function BackspacedAmount(n: nat): nat {
    var s := NatToDecimal(n);
    if |s| > 1 then DecimalValue(s[..|s| - 1]) else 0
  }

  /** Removing the last digit divides the amount by ten. */
  lemma BackspaceDividesByTen(n: nat)
    ensures BackspacedAmount(n) == n / 10
  {
    var s := NatToDecimal(n);
    if n >= 10 {
      assert s[..|s| - 1] == NatToDecimal(n / 10);
      DecimalRoundTrip(n / 10);
    } else {
      assert |s| == 1;
    }
  }

  // ---------------------------------------------------------------------------
  // Page state

  /** The payment shown on the customer display, as the page keeps it. */
  datatype Payment = Payment(
    currentTime: Json,
    outlet: Json,
    qr: Json,
    nmid: Json,
    expiresInMs: Json,
    amount: Json,
    display: Json)

  /** The amount field and the payment of the terminal page. */
  class AmountEntry {
    /** The text shown in the amount field. */
    var amount: string
    /** The amount as a number. */
    var amountNumber: nat
    var payment: Payment

    /** The amount has at most 15 digits, and the text shows it (the
        keypad writes "" for 0, the free-text field writes "0"). */
    predicate Valid()
      reads this
    {
      amountNumber < Pow10(MaxDigits)
      && (amount == FormatIdr(amountNumber) || amount == ToLocaleIdId(amountNumber))
    }

    constructor ()
      ensures Valid()
      ensures amount == "" && amountNumber == 0
      ensures payment == Payment(Null, Null, Null, Null, Null, Num(0), Null)
    {
      amount := "";
      amountNumber := 0;
      payment := Payment(Null, Null, Null, Null, Null, Num(0), Null);
    }

    /** `handleAmountChange`: keeps the digits of the typed text, at most 15 of them. */
    method HandleAmountChange(raw: string)
      modifies this
      ensures Valid()
      ensures amountNumber == DecimalValue(TakeMax(KeepDigits(raw)))
      ensures amount == if TakeMax(KeepDigits(raw)) == "" then "" else ToLocaleIdId(amountNumber)
      ensures payment == old(payment)
    {
      var digits := KeepDigits(raw);
      var limited := TakeMax(digits);
      TakeMaxBound(digits);
      if limited == "" {
        amount := "";
        amountNumber := 0;
        return;
      }
      var numeric := DecimalValue(limited);
      amount := ToLocaleIdId(numeric);
      amountNumber := numeric;
    }

    /** `appendDigits(d)`: the keypad's digit buttons pass "0" to "9", "00" and "000". */
    method AppendDigits(d: string)
      requires Valid() && AllDigits(d)
      modifies this
      ensures Valid()
      ensures amountNumber == AppendedAmount(old(amountNumber), d)
      ensures amount == if d == "" then old(amount) else FormatIdr(amountNumber)
      ensures payment == old(payment)
    {
      AppendedAmountBound(amountNumber, d);
      if d == "" {
        return;
      }
      if amountNumber == 0 && OnlyZeros(d) {
        amount := "";
        amountNumber := 0;
        return;
      }
      AppendStep(amountNumber, d);
      var nextStr := TakeMax(NatToDecimal(amountNumber) + d);
      var next := DecimalValue(nextStr);
      amount := FormatIdr(next);
      amountNumber := next;
    }

    /** `backspaceDigit`: drops the last digit of the amount. */
    method BackspaceDigit()
      requires Valid()
      modifies this
      ensures Valid()
      ensures amountNumber == old(amountNumber) / 10
      ensures amount == FormatIdr(amountNumber)
      ensures payment == old(payment)
    {
      var nextStr := NatToDecimal(amountNumber);
      var trimmed := if |nextStr| > 1 then nextStr[..|nextStr| - 1] else "";
      var next := if trimmed != "" then DecimalValue(trimmed) else 0;
      BackspaceDividesByTen(amountNumber);
      amount := FormatIdr(next);
      amountNumber := next;
    }

    /** `clearAll`. */
    method ClearAll()
      modifies this
      ensures Valid()
      ensures amount == "" && amountNumber == 0
      ensures payment == old(payment)
    {
      amount := "";
      amountNumber := 0;
    }

    /** `finishPayment`: hides the payment on the display and keeps every
        other field of it. */
    method FinishPayment()
      modifies this
      ensures payment == old(payment).(display := Bool(false))
      ensures amount == old(amount) && amountNumber == old(amountNumber)
    {
      payment := payment.(display := Bool(false));
    }
  }

  /** Appending nothing leaves the amount alone, and zeros typed at amount 0
      keep it at 0 with an empty field. */
  lemma AppendNothingOrZeros(n: nat, d: string)
    requires AllDigits(d)
    ensures AppendedAmount(n, "") == n
    ensures n == 0 && OnlyZeros(d) ==> AppendedAmount(n, d) == 0 && FormatIdr(AppendedAmount(n, d)) == ""
  {
  }
}
