/**
 * The text message a referrer is sent when someone signs up with their
 * code. Only the request the handler builds is modelled, not its delivery.
 */
module Notify {
  import Phone

  /** The contact list every message is addressed through. */
  const ListId: int := 2645

  /** The body of the outbound message request. */
  datatype Sms = Sms(lists: seq<int>, number: string, body: string)

  const BodyLead: string := "A friend signed up with your link! You now have "
  const BodyTail: string := " giveaway entries."

  function DigitChar(d: nat): (c: char)
    requires d < 10
    ensures Phone.IsDigit(c) && (c as int) - ('0' as int) == d
  {
    (('0' as int) + d) as char
  }

  function DigitValue(c: char): nat
    requires Phone.IsDigit(c)
  {
    (c as int) - ('0' as int)
  }

  /** The value of a string of decimal digits. */
  function ParseDecimal(s: string): nat
    requires Phone.IsDigits(s)
  {
    if s == [] then 0
    else
      var init := s[..|s| - 1];
      assert forall i :: 0 <= i < |init| ==> init[i] == s[i];
      10 * ParseDecimal(init) + DigitValue(s[|s| - 1])
  }

  /** How JavaScript renders a non-negative integer: its decimal digits, no leading zero. */
  function Decimal(n: nat): (s: string)
    ensures Phone.IsDigits(s) && |s| >= 1
    ensures |s| > 1 ==> s[0] != '0'
  {
    if n < 10 then [DigitChar(n)] else Decimal(n / 10) + [DigitChar(n % 10)]
  }

  /** Reading the rendered digits back gives the number. */
  lemma {:induction false} DecimalRoundTrip(n: nat)
    ensures ParseDecimal(Decimal(n)) == n
  {
    var s := Decimal(n);
    if n >= 10 {
      DecimalRoundTrip(n / 10);
      assert s[..|s| - 1] == Decimal(n / 10);
    }
  }

  /** `body` is the fixed sentence with the decimal rendering of `count` in its slot. */
  ghost predicate Reports(body: string, count: nat) {
    && |body| > |BodyLead| + |BodyTail|
    && body[..|BodyLead|] == BodyLead
    && body[|body| - |BodyTail|..] == BodyTail
    && Phone.IsDigits(body[|BodyLead|..|body| - |BodyTail|])
    && (|body| - |BodyTail| - |BodyLead| > 1 ==> body[|BodyLead|] != '0')
    && ParseDecimal(body[|BodyLead|..|body| - |BodyTail|]) == count
  }

  /**
   * The message body of server.js line 94, given the referrer's entries as
   * read before the increment: it reports that count plus one.
   */
  function NotificationBody(before: nat): (b: string)
    ensures Reports(b, before + 1)
  {
    var count := Decimal(before + 1);
    var b := BodyLead + count + BodyTail;
    assert b[|BodyLead|..|b| - |BodyTail|] == count;
    DecimalRoundTrip(before + 1);
    b
  }

  /** Different entry counts give different messages. */
  lemma NotificationBodyInjective(a: nat, b: nat)
    requires NotificationBody(a) == NotificationBody(b)
    ensures a == b
  {
  }
}
