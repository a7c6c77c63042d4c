/**
 * The IBIS client's descriptor builders and the requests it sends. A request
 * built here names no priority and no client, so the server arbitrates it at
 * priority 0 under the client's network address.
 */
module Client {
  import opened Wrappers
  import opened Messages
  import opened Protocol

  /** Python's `if duration:` on an optional duration: absent and 0 are false. */
  predicate Given(duration: Option<real>) {
    duration.Some? && duration.value != 0.0
  }

  /** `make_text`: a text descriptor, with a duration only when one is given and non-zero. */
  function MakeText(text: string, duration: Option<real>): (m: Message)
    ensures m.Text? && m.text == text
    ensures m.duration.Some? <==> Given(duration)
    ensures m.duration.Some? ==> m.duration == duration
  {
    if Given(duration) then Text(text, duration) else Text(text, None)
  }

  /** `make_time`: a time descriptor, with a duration only when one is given and non-zero. */
  function MakeTime(format: string, duration: Option<real>): (m: Message)
    ensures m.Time? && m.format == format
    ensures m.duration.Some? <==> Given(duration)
    ensures m.duration.Some? ==> m.duration == duration
  {
    if Given(duration) then Time(format, duration) else Time(format, None)
  }

  /** `set_enabled`: the value is sent as is (`'toggle'`, true or false). */
  function SetEnabled(value: Json): (r: Request)
    ensures r.EnableRequest? && r.enable == value
  {
    EnableRequest(value)
  }

  /** `set_message`: an assignment without priority or client. */
  function SetMessage(address: int, message: Message): (r: Request)
    ensures r.AssignRequest? && r.address == address && r.message == message
    ensures RequestPriority(r) == 0
    ensures forall peer :: RequestClient(r, peer) == Some(peer)
  {
    AssignRequest(address, message, None, None)
  }

  /** `set_text` */
  function SetText(address: int, text: string, duration: Option<real>): (r: Request)
    ensures r.AssignRequest? && r.address == address && r.message == MakeText(text, duration)
    ensures RequestPriority(r) == 0
    ensures forall peer :: RequestClient(r, peer) == Some(peer)
  {
    SetMessage(address, MakeText(text, duration))
  }

  /** `set_time` */
  function SetTime(address: int, format: string, duration: Option<real>): (r: Request)
    ensures r.AssignRequest? && r.address == address && r.message == MakeTime(format, duration)
    ensures RequestPriority(r) == 0
    ensures forall peer :: RequestClient(r, peer) == Some(peer)
  {
    SetMessage(address, MakeTime(format, duration))
  }

  /** `set_sequence`: the items are sent unchanged, with the default interval. */
  function SetSequence(address: int, sequence: seq<Message>, interval: real): (r: Request)
    ensures r.AssignRequest? && r.address == address
    ensures r.message.Sequence? && r.message.messages == sequence && r.message.interval == interval
    ensures RequestPriority(r) == 0
    ensures forall peer :: RequestClient(r, peer) == Some(peer)
  {
    SetMessage(address, Sequence(sequence, interval))
  }

  /** A duration of 0 is dropped like an absent one: the item then takes the sequence's interval. */
  lemma ZeroDurationDropped(text: string, format: string)
    ensures MakeText(text, Some(0.0)) == MakeText(text, None) == Text(text, None)
    ensures MakeTime(format, Some(0.0)) == MakeTime(format, None) == Time(format, None)
  {
  }
}
