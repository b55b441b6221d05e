/** The customer-facing QR display: it receives the payment the terminal page
    broadcasts, shows a `mm:ss` countdown to the payment's expiry, turns the
    countdown red in its last minute, and clears the payment once it is no
    longer displayed. */
module TerminalQrDisplay {
  import opened Wrappers
  import opened Decimal
  import opened JsString
  import opened JsValue

  /** The payment as the display keeps it, after normalisation. */
  datatype DisplayPayment = DisplayPayment(
    display: bool,
    currentTime: Json,
    outlet: Json,
    qr: Json,
    nmid: Json,
    amount: int,
    expiresInMs: int)

  /** The payment the display starts with. */
  const InitialPayment := DisplayPayment(false, Null, Null, Null, Null, 0, 0)

  /** An incoming message: the fields read from the received object. */
  datatype Message = Message(
    display: Json,
    currentTime: Json,
    outlet: Json,
    qr: Json,
    nmid: Json,
    amount: Json,
    expiresInMs: Json)

  /** `raw || {}`: a falsy or primitive message carries no fields. */
  function DataOf(raw: Option<Message>): (data: Message)
    ensures raw.Some? ==> data == raw.value
    ensures raw.None? ==> data == Message(Undefined, Undefined, Undefined, Undefined, Undefined, Undefined, Undefined)
  {
    match raw
    case None => Message(Undefined, Undefined, Undefined, Undefined, Undefined, Undefined, Undefined)
    case Some(m) => m
  }

  /** The payment `handleIncoming` stores for a message. */
  function Normalize(data: Message): (p: DisplayPayment)
    ensures p.display <==> Truthy(data.display)
    ensures data.currentTime.Undefined? ==> p.currentTime == Null
    ensures !data.currentTime.Undefined? ==> p.currentTime == data.currentTime
    ensures data.outlet.Undefined? ==> p.outlet == Null
    ensures !data.outlet.Undefined? ==> p.outlet == data.outlet
    ensures data.qr.Undefined? ==> p.qr == Null
    ensures !data.qr.Undefined? ==> p.qr == data.qr
    ensures data.nmid.Undefined? ==> p.nmid == Null
    ensures !data.nmid.Undefined? ==> p.nmid == data.nmid
    ensures p.amount != 0 <==> ToNumber(data.amount).Num? && ToNumber(data.amount).n != 0
    ensures p.amount != 0 ==> ToNumber(data.amount) == Num(p.amount)
    ensures p.expiresInMs != 0 <==> ToNumber(data.expiresInMs).Num? && ToNumber(data.expiresInMs).n != 0
    ensures p.expiresInMs != 0 ==> ToNumber(data.expiresInMs) == Num(p.expiresInMs)
  {
    DisplayPayment(
      Truthy(data.display),
      OrNull(data.currentTime),
      OrNull(data.outlet),
      OrNull(data.qr),
      OrNull(data.nmid),
      NumberOrZero(data.amount),
      NumberOrZero(data.expiresInMs))
  }

  /** The message that carries a payment's fields as they are. */
  function MessageOf(p: DisplayPayment): Message {
    Message(Bool(p.display), p.currentTime, p.outlet, p.qr, p.nmid, Num(p.amount), Num(p.expiresInMs))
  }

  /** A payment whose fields are all defined survives being sent and
      normalised again. */
  lemma NormalizeMessageOf(p: DisplayPayment)
    requires !p.currentTime.Undefined? && !p.outlet.Undefined? && !p.qr.Undefined? && !p.nmid.Undefined?
    ensures Normalize(MessageOf(p)) == p
  {
    NumberOrZeroOfNum(p.amount);
    NumberOrZeroOfNum(p.expiresInMs);
  }

  /** A message without fields gives the display's initial, hidden payment. */
  lemma NormalizeEmpty()
    ensures Normalize(DataOf(None)) == InitialPayment
  {
  }

  // ---------------------------------------------------------------------------
  // Countdown text

  /** `String(n).padStart(2, '0')`. */
  function Pad2(n: nat): string {
    PadStart(NatToDecimal(n), 2, '0')
  }

  lemma Pad2Value(n: nat)
    ensures |Pad2(n)| >= 2 && AllDigits(Pad2(n)) && DecimalValue(Pad2(n)) == n
  {
    PaddedValue(NatToDecimal(n), 2);
    DecimalRoundTrip(n);
  }

  /** The `mm:ss` text for a remaining time of diff milliseconds. */
  function FormatCountdown(diff: nat): string {
    Pad2(diff / 60000) + ":" + Pad2((diff % 60000) / 1000)
  }

  lemma DigitsAvoid(s: string, c: char)
    requires AllDigits(s) && !IsDigit(c)
    ensures c !in s
  {
    assert forall i :: 0 <= i < |s| ==> s[i] != c;
  }

  /** The countdown reads back as whole minutes and whole seconds: two pieces
      around ':', the seconds two digits below 60, and together they are the
      remaining time rounded down to the second. */
  lemma CountdownReadsBack(diff: nat)
    ensures var mm, ss := Pad2(diff / 60000), Pad2((diff % 60000) / 1000);
      && Split(FormatCountdown(diff), ':') == [mm, ss]
      && AllDigits(mm) && AllDigits(ss) && |ss| == 2
      && DecimalValue(ss) < 60
      && DecimalValue(mm) * 60000 + DecimalValue(ss) * 1000 <= diff
      && diff < DecimalValue(mm) * 60000 + DecimalValue(ss) * 1000 + 1000
  {
    var mm, ss := Pad2(diff / 60000), Pad2((diff % 60000) / 1000);
    Pad2Value(diff / 60000);
    Pad2Value((diff % 60000) / 1000);
    DigitsAvoid(mm, ':');
    DigitsAvoid(ss, ':');
    SplitFirst(mm, ':', ss);
    SplitNoSeparator(ss, ':');
    Pad2RoundTrip((diff % 60000) / 1000);
  }

  /** `text-gray-800` and `text-red-500`. */
  datatype Severity = Normal | Red

  /** The colour of the countdown: red unless the minutes before the first
      ':' read as a positive number. */
  function SeverityOf(formattedTime: string): (sev: Severity)
    ensures var mm := BeforeFirst(if formattedTime == "" then "00:00" else formattedTime, ':');
      sev == Red <==> !(ToNumber(Str(mm)).Num? && ToNumber(Str(mm)).n > 0)
  {
    var ft := if formattedTime == "" then "00:00" else formattedTime;
    var mm := BeforeFirst(ft, ':');
    if NumberOrZero(Str(mm)) > 0 then Normal else Red
  }

  /** The countdown is red exactly in its last minute. */
  lemma SeverityOfCountdown(diff: nat)
    ensures SeverityOf(FormatCountdown(diff)) == Red <==> diff < 60000
  {
    var mm, ss := Pad2(diff / 60000), Pad2((diff % 60000) / 1000);
    Pad2Value(diff / 60000);
    DigitsAvoid(mm, ':');
    BeforeFirstAt(mm, ':', ss);
    NumberOfDigits(mm);
  }

  /** The reset text and an empty text both show red. */
  lemma SeverityOfZero()
    ensures SeverityOf("00:00") == Red && SeverityOf("") == Red
  {
    assert "00:00" == "00" + [':'] + "00";
    BeforeFirstAt("00", ':', "00");
    NumberOfDigits("00");
    assert DecimalValue("00") == 0;
  }

  /** `Math.max(0, (endTime ?? now) - now)`. */
  function Remaining(endTime: Option<int>, now: int): (diff: nat)
    ensures diff == 0 <==> endTime.None? || endTime.value <= now
    ensures diff > 0 ==> diff == endTime.value - now
  {
    var d := endTime.GetOr(now) - now;
    if d > 0 then d else 0
  }

  /** The remaining time never grows as the clock advances. */
  lemma RemainingShrinks(endTime: Option<int>, t1: int, t2: int)
    requires t1 <= t2
    ensures Remaining(endTime, t2) <= Remaining(endTime, t1)
  {
  }

  // ---------------------------------------------------------------------------
  // Display state

  class CustomerDisplay {
    var payment: DisplayPayment
    var formattedTime: string
    var severity: Severity
    /** The end of the countdown, in milliseconds since the epoch. */
    var endTime: Option<int>
    /** Whether the one-second interval is scheduled. */
    var timerRunning: bool

    /** A scheduled interval always has an end time to count to. */
    predicate Valid()
      reads this
    {
      timerRunning ==> endTime.Some?
    }

    constructor ()
      ensures Valid()
      ensures payment == InitialPayment && formattedTime == "00:00" && severity == Normal
      ensures endTime == None && !timerRunning
    {
      payment := InitialPayment;
      formattedTime := "00:00";
      severity := Normal;
      endTime := None;
      timerRunning := false;
    }

    /** `clearTimer`. */
    method ClearTimer()
      modifies this
      ensures !timerRunning
      ensures payment == old(payment) && formattedTime == old(formattedTime)
      ensures severity == old(severity) && endTime == old(endTime)
    {
      if timerRunning {
        timerRunning := false;
      }
    }

    /** `tick` at time now: shows the remaining time, or hides the payment
        and stops the interval once nothing remains. */
    method Tick(now: int)
      requires Valid()
      modifies this
      ensures Valid()
      ensures Remaining(endTime, now) > 0 ==>
        formattedTime == FormatCountdown(Remaining(endTime, now))
        && payment == old(payment) && timerRunning == old(timerRunning)
      ensures Remaining(endTime, now) == 0 ==>
        payment == old(payment).(display := false) && !timerRunning
        && formattedTime == old(formattedTime)
      ensures endTime == old(endTime) && severity == old(severity)
    {
      var diff := Remaining(endTime, now);
      if diff > 0 {
        formattedTime := FormatCountdown(diff);
      } else {
        payment := payment.(display := false);
        ClearTimer();
      }
    }

    /** `startNewCountdown(expiresInMs)` at time now. */
    method StartNewCountdown(expiresInMs: int, now: int)
      requires Valid()
      modifies this
      ensures Valid()
      ensures expiresInMs <= 0 ==>
        formattedTime == "00:00" && !timerRunning && endTime == old(endTime)
      ensures expiresInMs > 0 ==>
        endTime == Some(now + expiresInMs) && timerRunning
        && formattedTime == FormatCountdown(expiresInMs)
      ensures payment == old(payment) && severity == old(severity)
    {
      ClearTimer();
      if expiresInMs == 0 || expiresInMs <= 0 {
        formattedTime := "00:00";
        return;
      }
      endTime := Some(now + expiresInMs);
      Tick(now);
      timerRunning := true;
    }

    /** `handleIncoming(raw)` at time now: stores the normalised payment and
        starts a countdown only for a payment to be displayed. */
    method HandleIncoming(raw: Option<Message>, now: int)
      requires Valid()
      modifies this
      ensures Valid()
      ensures payment == Normalize(DataOf(raw))
      ensures severity == old(severity)
      ensures !payment.display ==>
        formattedTime == old(formattedTime) && endTime == old(endTime)
        && timerRunning == old(timerRunning)
      ensures payment.display && payment.expiresInMs <= 0 ==>
        formattedTime == "00:00" && !timerRunning && endTime == old(endTime)
      ensures payment.display && payment.expiresInMs > 0 ==>
        endTime == Some(now + payment.expiresInMs) && timerRunning
        && formattedTime == FormatCountdown(payment.expiresInMs)
    {
      payment := Normalize(DataOf(raw));
      CountdownIfDisplayed(now);
    }

    /** The countdown `handleIncoming` starts for the payment it stored. */
    method CountdownIfDisplayed(now: int)
      requires Valid()
      modifies this
      ensures Valid()
      ensures payment == old(payment) && severity == old(severity)
      ensures !payment.display ==>
        formattedTime == old(formattedTime) && endTime == old(endTime)
        && timerRunning == old(timerRunning)
      ensures payment.display && payment.expiresInMs <= 0 ==>
        formattedTime == "00:00" && !timerRunning && endTime == old(endTime)
      ensures payment.display && payment.expiresInMs > 0 ==>
        endTime == Some(now + payment.expiresInMs) && timerRunning
        && formattedTime == FormatCountdown(payment.expiresInMs)
    {
      if payment.display {
        StartNewCountdown(payment.expiresInMs, now);
      }
    }

    /** The effect run when `formattedTime` changes. */
    method OnFormattedTimeChanged()
      modifies this
      ensures severity == SeverityOf(formattedTime)
      ensures payment == old(payment) && formattedTime == old(formattedTime)
      ensures endTime == old(endTime) && timerRunning == old(timerRunning)
    {
      severity := SeverityOf(formattedTime);
    }

    /** The effect run when `payment.display` changes: a hidden payment loses
        its time, amount, QR, NMID and expiry, and keeps its outlet. */
    method OnDisplayChanged()
      requires Valid()
      modifies this
      ensures Valid()
      ensures old(payment).display ==>
        payment == old(payment) && formattedTime == old(formattedTime)
        && timerRunning == old(timerRunning)
      ensures !old(payment).display ==>
        payment == DisplayPayment(false, Null, old(payment).outlet, Null, Null, 0, 0)
        && formattedTime == "00:00" && !timerRunning
      ensures severity == old(severity) && endTime == old(endTime)
    {
      if !payment.display {
        ClearTimer();
        formattedTime := "00:00";
        payment := payment.(currentTime := Null, amount := 0, qr := Null, nmid := Null, expiresInMs := 0);
      }
    }
  }
}
