/** The WhatsApp notifier: the phone format the messaging API expects, the
    message texts, the development-mode switch and the payload `sendText`
    posts. The HTTP call itself is an input: what the API answered, or that
    the call threw. */
module WhatsApp {
  import opened Common

  /** The service's credentials, read from configuration with '' as the
      default. */
  datatype Config = Config(instanceId: string, token: string, clientToken: string)

  /** `isDevMode`: `empty` on either credential (PHP's `empty` holds for ""
      and "0"). */
  predicate IsDevMode(c: Config)
  {
    !Truthy(c.instanceId) || !Truthy(c.token)
  }

  /** `isConfigured`. */
  predicate IsConfigured(c: Config)
  {
    Truthy(c.instanceId) && Truthy(c.token)
  }

  /** The service is configured exactly when it is not in development
      mode. */
  lemma ConfiguredIsNotDevMode(c: Config)
    ensures IsConfigured(c) <==> !IsDevMode(c)
    ensures c.instanceId == "" || c.token == "" ==> IsDevMode(c)
  {
  }

  // ---------------------------------------------------------------
  // Phone numbers
  // ---------------------------------------------------------------

  const COUNTRY_CODE: string := "55"

  /** `formatPhoneNumber`: the digits of the input, with the country code
      put in front of an 11-digit national number. */
  function FormatPhoneNumber(phone: string): (r: string)
    ensures AllDigits(r)
    ensures |DigitsOf(phone)| == 11 ==> r == COUNTRY_CODE + DigitsOf(phone) && |r| == 13
    ensures |DigitsOf(phone)| != 11 ==> r == DigitsOf(phone)
  {
    var digits := DigitsOf(phone);
    if |digits| == 11 then COUNTRY_CODE + digits
    else if |digits| == 13 && digits[..2] == COUNTRY_CODE then digits
    else digits
  }

  /** A number that already has the country code is sent as it is, and
      formatting a formatted number changes nothing. */
  lemma FormatPhoneLaws(phone: string)
    ensures AllDigits(phone) && |phone| == 13 && phone[..2] == "55" ==> FormatPhoneNumber(phone) == phone
    ensures FormatPhoneNumber(FormatPhoneNumber(phone)) == FormatPhoneNumber(phone)
  {
    var r := FormatPhoneNumber(phone);
    assert DigitsOf(r) == r;
  }

  // ---------------------------------------------------------------
  // Messages
  // ---------------------------------------------------------------

  const OTP_HEAD: string := "\U{1F510} *eTijucas - Código de Verificação*\n\nSeu código é: *"
  const OTP_TAIL: string := "*\n\n\U{23F1}\U{FE0F} Este código expira em 5 minutos.\n\n_Se você não solicitou este código, ignore esta mensagem._"

  /** `formatOtpMessage`. */
  function FormatOtpMessage(code: string): (m: string)
    ensures |m| == |OTP_HEAD| + |code| + |OTP_TAIL|
    ensures m[|OTP_HEAD|..|OTP_HEAD| + |code|] == code
  {
    OTP_HEAD + code + OTP_TAIL
  }

  /** The message holds the code verbatim, between the fixed head and tail,
      so two different codes never give the same message. */
  lemma OtpMessageCarriesCode(a: string, b: string)
    ensures FormatOtpMessage(a)[..|OTP_HEAD|] == OTP_HEAD
    ensures FormatOtpMessage(a)[|OTP_HEAD| + |a|..] == OTP_TAIL
    ensures FormatOtpMessage(a) == FormatOtpMessage(b) ==> a == b
  {
    var ma := FormatOtpMessage(a);
    assert ma[..|OTP_HEAD|] == OTP_HEAD;
    assert ma[|OTP_HEAD| + |a|..] == OTP_TAIL;
    if ma == FormatOtpMessage(b) {
      assert |a| == |b|;
      assert a == ma[|OTP_HEAD|..|OTP_HEAD| + |a|];
    }
  }

  /** The text `sendAlert` sends. */
  function AlertMessage(title: string, body: string): string
  {
    "\U{1F6A8} *" + title + "*\n\n" + body
  }

  /** The text `sendEventNotification` sends. */
  function EventMessage(eventName: string, date: string, location: string): string
  {
    "\U{1F4C5} *Novo Evento em Tijucas*\n\n" + "*" + eventName + "*\n" + "\U{1F4C6} " + date + "\n" + "\U{1F4CD} " + location
  }

  const ALERT_DELAY: int := 3

  // ---------------------------------------------------------------
  // sendText
  // ---------------------------------------------------------------

  /** The payload posted: the formatted phone, the message, and the typing
      delay only when it lies in 1..15 seconds. */
  function PayloadFor(phone: string, message: string, delayTyping: Option<int>): (p: map<string, Json>)
    ensures p.Keys <= {"phone", "message", "delayTyping"} && "phone" in p && "message" in p
    ensures p["phone"] == JStr(FormatPhoneNumber(phone)) && p["message"] == JStr(message)
    ensures "delayTyping" in p <==> delayTyping.Some? && 1 <= delayTyping.value <= 15
    ensures "delayTyping" in p ==> p["delayTyping"] == JInt(delayTyping.value)
  {
    var base := map["phone" := JStr(FormatPhoneNumber(phone)), "message" := JStr(message)];
    if delayTyping.Some? && 1 <= delayTyping.value <= 15 then base["delayTyping" := JInt(delayTyping.value)] else base
  }

  /** What the HTTP client did with the post: answered with a status, or
      threw. */
  datatype Transport = Answered(status: int) | Threw

  /** `$response->successful()`. */
  predicate Delivered(t: Transport)
  {
    t.Answered? && 200 <= t.status < 300
  }

  /** `sendText`: in development mode the message is only logged and the
      call succeeds without any post; otherwise the payload is built step by
      step and posted, and the result is whether a 2xx came back. An
      exception or any other status gives false: the method never fails. */
  method SendText(c: Config, phone: string, message: string, delayTyping: Option<int>, transport: Transport)
    returns (ok: bool, posted: Option<map<string, Json>>)
    ensures IsDevMode(c) ==> ok && posted.None?
    ensures !IsDevMode(c) ==> posted == Some(PayloadFor(phone, message, delayTyping)) && (ok <==> Delivered(transport))
  {
    if IsDevMode(c) {
      return true, None;
    }
    var payload := map["phone" := JStr(FormatPhoneNumber(phone)), "message" := JStr(message)];
    if delayTyping.Some? && delayTyping.value >= 1 && delayTyping.value <= 15 {
      payload := payload["delayTyping" := JInt(delayTyping.value)];
    }
    posted := Some(payload);
    match transport
    case Threw =>
      ok := false;
    case Answered(status) =>
      ok := 200 <= status < 300;
  }

  /** `sendOtp`: the OTP message without a typing delay. */
  method SendOtp(c: Config, phone: string, code: string, transport: Transport)
    returns (ok: bool, posted: Option<map<string, Json>>)
    ensures IsDevMode(c) ==> ok && posted.None?
    ensures !IsDevMode(c) ==> posted == Some(PayloadFor(phone, FormatOtpMessage(code), None)) && (ok <==> Delivered(transport))
    ensures posted.Some? ==> "delayTyping" !in posted.value && posted.value["message"] == JStr(FormatOtpMessage(code))
  {
    ok, posted := SendText(c, phone, FormatOtpMessage(code), None, transport);
  }

  /** `sendAlert`: the alert text with a three-second typing delay. */
  method SendAlert(c: Config, phone: string, title: string, body: string, transport: Transport)
    returns (ok: bool, posted: Option<map<string, Json>>)
    ensures IsDevMode(c) ==> ok && posted.None?
    ensures !IsDevMode(c) ==> posted == Some(PayloadFor(phone, AlertMessage(title, body), Some(ALERT_DELAY))) && (ok <==> Delivered(transport))
    ensures posted.Some? ==> posted.value["delayTyping"] == JInt(3)
  {
    ok, posted := SendText(c, phone, AlertMessage(title, body), Some(ALERT_DELAY), transport);
  }

  /** `sendEventNotification`: the event text without a typing delay. */
  method SendEventNotification(c: Config, phone: string, eventName: string, date: string, location: string, transport: Transport)
    returns (ok: bool, posted: Option<map<string, Json>>)
    ensures IsDevMode(c) ==> ok && posted.None?
    ensures !IsDevMode(c) ==> posted == Some(PayloadFor(phone, EventMessage(eventName, date, location), None)) && (ok <==> Delivered(transport))
  {
    ok, posted := SendText(c, phone, EventMessage(eventName, date, location), None, transport);
  }
}
