/** What a `fetch` call hands back, as seen by the code that uses it: either a
    response with its status and body text, or a rejection carrying the thrown
    value. The network itself, headers and timeouts are not modelled; a
    timeout abort is one more rejection. */
module Http {
  import opened Wrappers
  import opened Text
  import opened Js

  /** A thrown value, as far as the handlers read it: its `message` property
      (None when it has none) and `String(e)`. */
  datatype Fault = Fault(message: Option<string>, shown: string)

  datatype Fetched =
    | Response(status: int, body: string)
    | Rejected(fault: Fault)

  /** `res.ok`: the status is in the range 200-299. */
  predicate IsOk(status: int) {
    200 <= status <= 299
  }

  /** `new Error(m)`: its message is `m` and `String(e)` is `"Error: " + m`. */
  function NewError(m: string): (e: Fault)
    ensures e.message == Some(m)
    ensures StartsWith(e.shown, "Error: ")
  {
    Fault(Some(m), "Error: " + m)
  }

  /** `e?.message ?? fallback`. */
  function MessageOr(e: Fault, fallback: string): (m: string)
    ensures e.message.Some? ==> m == e.message.value
    ensures e.message.None? ==> m == fallback
  {
    e.message.GetOr(fallback)
  }

  /** `String(e.message || e)`: the message when it is a non-empty string,
      otherwise the thrown value rendered as text. */
  function Describe(e: Fault): (m: string)
    ensures e.message.Some? && e.message.value != "" ==> m == e.message.value
    ensures !(e.message.Some? && e.message.value != "") ==> m == e.shown
  {
    if e.message.Some? && e.message.value != "" then e.message.value else e.shown
  }

  /** `String(e?.message ?? e)`: the message when there is one, otherwise the
      thrown value rendered as text. */
  function ErrorText(e: Fault): (m: string)
    ensures e.message.Some? ==> m == e.message.value
    ensures e.message.None? ==> m == e.shown
  {
    e.message.GetOr(e.shown)
  }

  /** `fetch(url).then(r => { if (!r.ok) throw new Error(prefix + "HTTP " + r.status); return r.json(); })`:
      the response's JSON value, with `parseJson` standing for `r.json()`. */
  function ReadJson(fetched: Fetched, parseJson: string -> Result<Value, Fault>, prefix: string): (r: Result<Value, Fault>)
    ensures fetched.Rejected? ==> r == Failure(fetched.fault)
    ensures fetched.Response? && !IsOk(fetched.status) ==>
              r == Failure(NewError(prefix + "HTTP " + IntToDecimal(fetched.status)))
    ensures fetched.Response? && IsOk(fetched.status) ==> r == parseJson(fetched.body)
  {
    match fetched
    case Rejected(fault) => Failure(fault)
    case Response(status, body) =>
      if !IsOk(status) then Failure(NewError(prefix + "HTTP " + IntToDecimal(status)))
      else parseJson(body)
  }
}
