/**
  `CustomLabel`: a label with an immutable identifier that renders every
  message it observes as a fixed prefix followed by the message.
 */
module CustomLabel {
  import opened Options
  import opened Observer

  /** The label's identifier (fixed at construction) and its `text`, which UIKit keeps as `String?`. */
  datatype Label = Label(identifier: Id, text: Option<string>)

  /** The prefix put in front of every observed message ("subscriber: "). */
  const Prefix: string := "구독자: "

  /** `init(identifier:)`: the identifier is stored once and the text starts out nil. */
  function Init(identifier: Id): (l: Label)
    ensures l.identifier == identifier
    ensures l.text.None?
  {
    Label(identifier, None)
  }

  /** `observe(message:)`: replaces the text by the prefix followed by the message; the identifier is untouched. */
  function Observe(l: Label, message: string): (r: Label)
    ensures r.identifier == l.identifier
    ensures r.text.Some? && Prefix <= r.text.value
    ensures |r.text.value| == |Prefix| + |message|
    ensures r.text.value[|Prefix|..] == message
  {
    l.(text := Some(Prefix + message))
  }

  /** Reads back the message a rendered text shows, or nil when the text lacks the prefix. */
  function MessageOf(text: string): (m: Option<string>)
    ensures m.Some? <==> Prefix <= text
    ensures m.Some? ==> text == Prefix + m.value
  {
    if Prefix <= text then
      assert text == text[..|Prefix|] + text[|Prefix|..];
      Some(text[|Prefix|..])
    else None
  }

  /** The message shown by an observing label can be read back from its text. */
  lemma ObserveRoundTrip(l: Label, message: string)
    ensures MessageOf(Observe(l, message).text.value) == Some(message)
  {
  }

  /** Two messages render alike exactly when they are the same message. */
  lemma ObserveInjective(l: Label, a: string, b: string)
    ensures Observe(l, a) == Observe(l, b) <==> a == b
  {
  }

  /** Observing the same message twice leaves the same label as observing it once. */
  lemma ObserveIdempotent(l: Label, message: string)
    ensures Observe(Observe(l, message), message) == Observe(l, message)
  {
  }

  /** The last observed message wins: earlier ones leave no trace. */
  lemma ObserveLastWriteWins(l: Label, a: string, b: string)
    ensures Observe(Observe(l, a), b) == Observe(l, b)
  {
  }
}
