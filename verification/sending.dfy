/**
 * The two `send` handlers. App.js posts whatever it holds and only toggles a
 * status flag; BulkMailForm.jsx guards the request on the recipient list,
 * subject and message, and raises `sending` for the lifetime of the request.
 * The network call itself is not modelled: a request is an output record and
 * its settlement an input.
 */
module Sending {

  /** The body posted to the send endpoint. */
  datatype SendRequest = SendRequest(recipients: seq<string>, subject: string, message: string)

  /** How the posted request settled. */
  datatype Outcome = Delivered | Rejected

  const AlertNoEmails := "No emails loaded!"
  const AlertMissingFields := "Subject and message are required!"
  const AlertSent := "Email sent successfully!"
  const AlertSendError := "There was an error sending the email."

  /** The alert shown when the request settles; both handlers use the same texts. */
  function SettleAlert(o: Outcome): (text: string)
    ensures text == AlertSent <==> o == Delivered
    ensures text == AlertSendError <==> o == Rejected
  {
    match o
    case Delivered => AlertSent
    case Rejected => AlertSendError
  }

  // ---------------------------------------------------------------- App.js

  /** The App component's state: `status` is true while "Sending Mail..." shows. */
  datatype AppState = AppState(emails: seq<string>, subject: string, message: string, status: bool)

  /** Clicking Send in App.js: status goes up and the request is always issued. */
  function AppSend(st: AppState): (r: (AppState, SendRequest))
    ensures r.0.status
    ensures r.0.(status := st.status) == st
    ensures r.1.recipients == st.emails && r.1.subject == st.subject && r.1.message == st.message
  {
    (st.(status := true), SendRequest(st.emails, st.subject, st.message))
  }

  /** Settlement of App.js's request: status goes down on success and on failure. */
  function AppSettle(st: AppState, o: Outcome): (r: (AppState, string))
    ensures !r.0.status
    ensures r.0.(status := st.status) == st
    ensures r.1 == SettleAlert(o)
  {
    (st.(status := false), SettleAlert(o))
  }

  /**
   * App.js has no guard: an empty list, an empty subject and an ongoing send
   * all still post; whatever the outcome, the status flag ends false and the
   * rest of the state is untouched.
   */
  lemma AppSendUnguarded(st: AppState, o: Outcome)
    ensures AppSend(st).1 == SendRequest(st.emails, st.subject, st.message)
    ensures AppSettle(AppSend(st).0, o).0 == st.(status := false)
  {
  }

  // ----------------------------------------------------- BulkMailForm.jsx

  /** What a click on "Send Emails" does: show an alert, or post a request. */
  datatype Decision = Alert(text: string) | Post(request: SendRequest)

  /**
   * The guard chain of BulkMailForm's `send`: recipients are checked first,
   * then subject and message together.
   */
  function SendGuard(emails: seq<string>, subject: string, message: string): (d: Decision)
    ensures d.Post? <==> |emails| > 0 && subject != "" && message != ""
    ensures d.Post? ==> d.request == SendRequest(emails, subject, message)
    ensures |emails| == 0 ==> d == Alert(AlertNoEmails)
    ensures |emails| > 0 && (subject == "" || message == "") ==> d == Alert(AlertMissingFields)
  {
    if |emails| == 0 then Alert(AlertNoEmails)
    else if subject == "" || message == "" then Alert(AlertMissingFields)
    else Post(SendRequest(emails, subject, message))
  }

  /** The BulkMailForm component's state. */
  datatype FormState = FormState(emails: seq<string>, subject: string, message: string, sending: bool)

  /** The send button is disabled while a request is in flight. */
  predicate SendEnabled(st: FormState)
  {
    !st.sending
  }

  /** What a click produces: nothing (disabled button), an alert, or a request. */
  datatype ClickEffect = Ignored | Alerted(text: string) | Posted(request: SendRequest)

  /** A click on the send button of BulkMailForm. */
  function FormClick(st: FormState): (r: (FormState, ClickEffect))
    ensures !SendEnabled(st) ==> r == (st, Ignored)
    ensures r.1.Posted? <==> SendEnabled(st) && SendGuard(st.emails, st.subject, st.message).Post?
    ensures r.1.Posted? ==> r.0 == st.(sending := true) && r.1.request == SendRequest(st.emails, st.subject, st.message)
    ensures !r.1.Posted? ==> r.0 == st
    ensures r.1.Alerted? ==> SendEnabled(st) && r.1 == Alerted(SendGuard(st.emails, st.subject, st.message).text)
  {
    if !SendEnabled(st) then (st, Ignored)
    else
      match SendGuard(st.emails, st.subject, st.message)
      case Alert(text) => (st, Alerted(text))
      case Post(req) => (st.(sending := true), Posted(req))
  }

  /** The `.then`/`.catch` alert followed by `.finally(() => setSending(false))`. */
  function FormSettle(st: FormState, o: Outcome): (r: (FormState, string))
    ensures !r.0.sending && SendEnabled(r.0)
    ensures r.0.(sending := st.sending) == st
    ensures r.1 == SettleAlert(o)
  {
    (st.(sending := false), SettleAlert(o))
  }

  /**
   * A request is issued exactly when the button is enabled and the list,
   * subject and message are all non-empty; it carries exactly those values.
   * From the click until settlement `sending` is true, and every outcome
   * returns the form to an enabled state with its contents unchanged.
   */
  lemma FormSendLifecycle(st: FormState, o: Outcome)
    requires !st.sending && |st.emails| > 0 && st.subject != "" && st.message != ""
    ensures FormClick(st).1 == Posted(SendRequest(st.emails, st.subject, st.message))
    ensures FormClick(st).0.sending && !SendEnabled(FormClick(st).0)
    ensures FormClick(FormClick(st).0).1 == Ignored
    ensures FormSettle(FormClick(st).0, o).0 == st
  {
  }
}
