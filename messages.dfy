/**
 * Content descriptors as they travel between the IBIS client and server:
 * the JSON dictionaries `{'type': 'text', ...}`, `{'type': 'time', ...}` and
 * `{'type': 'sequence', ...}`.
 */
module Messages {
  import opened Wrappers

  /** The identity of a requesting client: Python's `None` or a string. */
  type ClientId = Option<string>

  datatype Message =
      /** `{'type': 'text', 'text': text[, 'duration': d]}` */
    | Text(text: string, duration: Option<real>)
      /** `{'type': 'time', 'format': format[, 'duration': d]}` */
    | Time(format: string, duration: Option<real>)
      /** `{'type': 'sequence', 'messages': [...], 'interval': interval}` */
    | Sequence(messages: seq<Message>, interval: real)

  /** A descriptor that renders to one literal text: a text or a time item. */
  predicate IsLeaf(m: Message) {
    m.Text? || m.Time?
  }

  /** The `'duration'` of a sequence item, `None` when it carries none. */
  function Duration(m: Message): Option<real> {
    match m
    case Text(_, d) => d
    case Time(_, d) => d
    case Sequence(_, _) => None
  }

  /**
   * The stored messages a display tick can process: nothing, a text, a time,
   * or a non-empty sequence of texts and times (an empty sequence makes the
   * tick fail on its first index; nested sequences are not supported).
   */
  predicate WellFormed(m: Option<Message>) {
    match m
    case None => true
    case Some(Sequence(ms, _)) => |ms| > 0 && forall i | 0 <= i < |ms| :: IsLeaf(ms[i])
    case Some(_) => true
  }
}
