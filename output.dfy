/**
 * What `send_text` hands to the output driver and what it records: the
 * payload truncated to the display's 36 characters, the two selector lines
 * DTR and RTS that pick one of the four displays, and the last-sent text
 * (`None` for a blank display).
 */
module Output {
  import opened Wrappers

  /** Maximum payload of one display. */
  const MaxLength := 36

  /** `text[:36]` */
  function Truncate(t: string): (r: string)
    ensures |r| <= MaxLength
    ensures r <= t
    ensures |t| <= MaxLength ==> r == t
    ensures |t| > MaxLength ==> r == t[..MaxLength]
  {
    if |t| <= MaxLength then t else t[..MaxLength]
  }

  /** What `current_text[address]` becomes: `None` for no text or an empty one, else the truncated text. */
  function Shown(text: Option<string>): (shown: Option<string>)
    ensures ShownValid(shown)
  {
    match text
    case None => None
    case Some(t) => if t == "" then None else Some(Truncate(t))
  }

  /** The string passed to the display driver: the empty string for blank. */
  function Payload(text: Option<string>): (payload: string)
    ensures |payload| <= MaxLength
  {
    match text
    case None => ""
    case Some(t) => Truncate(t)
  }

  /** A recorded last-sent text: blank, or 1 to 36 characters. */
  predicate ShownValid(shown: Option<string>) {
    shown.None? || 0 < |shown.value| <= MaxLength
  }

  /** One call of the display driver, with the selector lines it was preceded by. */
  datatype Transmission = Transmission(dtr: int, rts: int, payload: string)

  /** Selecting display `address` and sending `text` to it. */
  function SelectAndSend(address: int, text: Option<string>): Transmission
    requires 0 <= address < 4
  {
    Transmission(address / 2, address % 2, Payload(text))
  }

  /** `send_text(-1, text)`: the same text to displays 0, 1, 2 and 3 in turn. */
  function Broadcast(text: Option<string>): (log: seq<Transmission>)
    ensures |log| == 4
  {
    [SelectAndSend(0, text), SelectAndSend(1, text), SelectAndSend(2, text), SelectAndSend(3, text)]
  }

  predicate TransmissionValid(t: Transmission) {
    0 <= t.dtr <= 1 && 0 <= t.rts <= 1 && |t.payload| <= MaxLength
  }

  /**
   * The recorded text is exactly what was sent, with `None` for a blank
   * payload; it is always a valid record and a prefix of the requested text.
   */
  lemma ShownMatchesPayload(text: Option<string>)
    ensures Shown(text).None? <==> Payload(text) == ""
    ensures Shown(text).Some? ==> Shown(text).value == Payload(text)
    ensures ShownValid(Shown(text))
    ensures Shown(text).Some? ==> text.Some? && Shown(text).value <= text.value
  {
  }

  /** Re-sending the recorded text (the keep-alive) records the same text again. */
  lemma ShownIdempotent(text: Option<string>)
    ensures Shown(Shown(text)) == Shown(text)
  {
  }

  /**
   * A text is recorded as itself exactly when it is 1 to 36 characters long;
   * an empty or a longer text never compares equal to what is recorded for it.
   */
  lemma ShownIsText(t: string)
    ensures Shown(Some(t)) == Some(t) <==> 0 < |t| <= MaxLength
  {
    if |t| > MaxLength {
      assert |Truncate(t)| < |t|;
    }
  }

  /** The selector lines encode the address in binary, so each display gets its own pair. */
  lemma SelectorEncodesAddress(address: int, text: Option<string>)
    requires 0 <= address < 4
    ensures var t := SelectAndSend(address, text);
      TransmissionValid(t) && 2 * t.dtr + t.rts == address
  {
  }
}
