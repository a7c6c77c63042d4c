/**
 * What one call of `send_message` does to one display, as a function of the
 * entry, the last-sent text and the clock: transmit a changed text, re-send
 * unchanged content after the timeout, advance a sequence when the current
 * item's duration has elapsed, or blank a display with nothing stored.
 */
module Tick {
  import opened Wrappers
  import opened Messages
  import opened Output
  import opened Slots

  /** Whether `send_text` is called, and with which text. */
  datatype Send = Quiet | Transmit(text: Option<string>)

  datatype Outcome = Outcome(slot: Slot, send: Send)

  /** The last-sent text after the outcome. */
  function ShownAfter(send: Send, shown: Option<string>): Option<string> {
    match send
    case Quiet => shown
    case Transmit(t) => Shown(t)
  }

  /** The driver calls of the outcome for display `address`. */
  function Log(address: int, send: Send): (log: seq<Transmission>)
    requires 0 <= address < 4
    ensures |log| <= 1
  {
    match send
    case Quiet => []
    case Transmit(t) => [SelectAndSend(address, t)]
  }

  /** Python's `items[i]` for -len(items) <= i < len(items): a negative index counts from the end. */
  function PyIndex(items: seq<Message>, i: int): Message
    requires -|items| <= i < |items|
  {
    if i < 0 then items[|items| + i] else items[i]
  }

  /** The index after `current` in a sequence of `n` items, wrapping to 0. */
  function NextIndex(current: int, n: int): int {
    if current == -1 || current >= n - 1 then 0 else current + 1
  }

  /** How long the item at `current` stays: its own duration, else the sequence's interval. */
  function ItemDuration(items: seq<Message>, current: int, interval: real): real
    requires -|items| <= current < |items|
  {
    match Duration(PyIndex(items, current))
    case Some(d) => d
    case None => interval
  }

  /** The literal text of a text or time item; `strftime` renders a format at this instant. */
  function Resolve(m: Message, strftime: string -> string): string
    requires IsLeaf(m)
  {
    if m.Text? then m.text else strftime(m.format)
  }

  /** The index condition the sequence branch relies on. */
  predicate PositionOk(slot: Slot, message: Option<Message>) {
    message.Some? && message.value.Sequence? ==> -1 <= slot.current < |message.value.messages|
  }

  /** `send_message(address, message)` at time `now`. */
  function SendEffect(slot: Slot, shown: Option<string>, message: Option<Message>,
                      now: real, timeout: real, strftime: string -> string): Outcome
    requires WellFormed(message) && PositionOk(slot, message)
    decreases if message.Some? && message.value.Sequence? then 1 else 0
  {
    match message
    case None =>
      if shown.Some? then Outcome(slot.(lastUpdate := now), Transmit(None))
      else Outcome(slot, Quiet)
    case Some(Sequence(items, interval)) =>
      var next := NextIndex(slot.current, |items|);
      if slot.lastUpdate + ItemDuration(items, slot.current, interval) <= now then
        SendEffect(slot.(current := next), shown, Some(items[next]), now, timeout, strftime)
      else if slot.lastRefresh + timeout <= now then
        Outcome(slot.(lastRefresh := now), Transmit(shown))
      else
        Outcome(slot, Quiet)
    case Some(m) =>
      var text := Resolve(m, strftime);
      if shown != Some(text) then Outcome(slot.(lastRefresh := now, lastUpdate := now), Transmit(Some(text)))
      else if slot.lastRefresh + timeout <= now then Outcome(slot.(lastRefresh := now), Transmit(shown))
      else Outcome(slot, Quiet)
  }

  /** The driver calls of one tick over displays 0 .. n-1, in address order. */
  function TickLog(buffer: seq<Slot>, shown: seq<Option<string>>, n: nat,
                   now: real, timeout: real, strftime: string -> string): (log: seq<Transmission>)
    requires n <= 4 && n <= |buffer| && n <= |shown|
    requires forall a | 0 <= a < n :: WellFormed(buffer[a].message) && PositionOk(buffer[a], buffer[a].message)
    ensures |log| <= n
  {
    if n == 0 then []
    else
      var a := n - 1;
      TickLog(buffer, shown, a, now, timeout, strftime)
        + Log(a, SendEffect(buffer[a], shown[a], buffer[a].message, now, timeout, strftime).send)
  }

  /**
   * A text or time item: the resolved text is transmitted when it differs from
   * the last-sent text (both timers set to now); otherwise the last-sent text
   * is re-sent once the timeout has elapsed (only `lastRefresh` set); otherwise
   * nothing happens. Only the timers change.
   */
  lemma LeafTick(slot: Slot, shown: Option<string>, m: Message, now: real, timeout: real, strftime: string -> string)
    requires IsLeaf(m) && ShownValid(shown)
    ensures var o := SendEffect(slot, shown, Some(m), now, timeout, strftime);
      var text := Resolve(m, strftime);
      && (o.send != Quiet <==> shown != Some(text) || slot.lastRefresh + timeout <= now)
      && (shown != Some(text) ==> o.send == Transmit(Some(text)) && o.slot == slot.(lastRefresh := now, lastUpdate := now))
      && (shown == Some(text) ==> o.slot.lastUpdate == slot.lastUpdate && ShownAfter(o.send, shown) == shown)
      && (shown == Some(text) && slot.lastRefresh + timeout <= now ==>
            o.send == Transmit(shown) && o.slot == slot.(lastRefresh := now))
      && (o.send == Quiet ==> o.slot == slot)
      && o.slot.(lastRefresh := slot.lastRefresh, lastUpdate := slot.lastUpdate) == slot
  {
    var text := Resolve(m, strftime);
    if shown == Some(text) {
      ShownIsText(text);
    }
  }

  /** A display with nothing stored is blanked once: only while its last-sent text is not blank. */
  lemma BlankTick(slot: Slot, shown: Option<string>, now: real, timeout: real, strftime: string -> string)
    ensures var o := SendEffect(slot, shown, None, now, timeout, strftime);
      && (o.send != Quiet <==> shown.Some?)
      && (o.send != Quiet ==> o.send == Transmit(None) && o.slot == slot.(lastUpdate := now))
      && ShownAfter(o.send, shown) == None
      && (o.send == Quiet ==> o.slot == slot)
  {
  }

  /** The index after any valid position of a non-empty sequence is a valid item index. */
  lemma NextIndexInRange(current: int, n: int)
    requires n > 0 && -1 <= current < n
    ensures 0 <= NextIndex(current, n) < n
    ensures current < n - 1 ==> NextIndex(current, n) == current + 1
    ensures current == n - 1 ==> NextIndex(current, n) == 0
  {
  }

  /**
   * A sequence: the next index is always valid; when the current item's
   * duration (its own, else the interval; index -1 reads the last item) has
   * elapsed since `lastUpdate`, the index advances and the new item is handled
   * as a text or time item in the same tick (when its text is the last-sent
   * one, `lastUpdate` is not moved and only the keep-alive can happen);
   * otherwise the index and `lastUpdate` stay and only the keep-alive re-send
   * of the last-sent text can happen. A tick that sends nothing changes
   * nothing but the index.
   */
  lemma SequenceTick(slot: Slot, shown: Option<string>, items: seq<Message>, interval: real,
                     now: real, timeout: real, strftime: string -> string)
    requires WellFormed(Some(Sequence(items, interval))) && -1 <= slot.current < |items| && ShownValid(shown)
    ensures var o := SendEffect(slot, shown, Some(Sequence(items, interval)), now, timeout, strftime);
      var next := NextIndex(slot.current, |items|);
      var duration := ItemDuration(items, slot.current, interval);
      && 0 <= next < |items|
      && (slot.current == -1 ==> duration == ItemDuration(items, |items| - 1, interval))
      && (slot.lastUpdate + duration <= now ==>
            && o.slot.current == next
            && var text := Resolve(items[next], strftime);
            && (shown != Some(text) ==> o.send == Transmit(Some(text)) && o.slot.lastUpdate == now && o.slot.lastRefresh == now)
            && (shown == Some(text) ==>
                  && o.slot.lastUpdate == slot.lastUpdate
                  && ShownAfter(o.send, shown) == shown
                  && (o.send != Quiet <==> slot.lastRefresh + timeout <= now)
                  && (o.send != Quiet ==> o.send == Transmit(shown) && o.slot.lastRefresh == now)))
      && (now < slot.lastUpdate + duration ==>
            && o.slot.current == slot.current && o.slot.lastUpdate == slot.lastUpdate
            && (o.send != Quiet <==> slot.lastRefresh + timeout <= now)
            && (o.send != Quiet ==> o.send == Transmit(shown) && o.slot.lastRefresh == now))
      && (slot.lastUpdate + duration <= now && o.send == Quiet ==> o.slot == slot.(current := next))
      && (now < slot.lastUpdate + duration && o.send == Quiet ==> o.slot == slot)
      && o.slot.message == slot.message && o.slot.priority == slot.priority && o.slot.client == slot.client
  {
    var next := NextIndex(slot.current, |items|);
    NextIndexInRange(slot.current, |items|);
    if slot.lastUpdate + ItemDuration(items, slot.current, interval) <= now {
      LeafTick(slot.(current := next), shown, items[next], now, timeout, strftime);
    }
  }

  /**
   * A tick never touches the stored message, priority or client; it moves the
   * timers only to `now`; it keeps the entry invariant and the last-sent
   * record valid.
   */
  lemma TickKeepsEntry(slot: Slot, shown: Option<string>, now: real, timeout: real, strftime: string -> string)
    requires SlotValid(slot) && WellFormed(slot.message) && ShownValid(shown)
    ensures PositionOk(slot, slot.message)
    ensures var o := SendEffect(slot, shown, slot.message, now, timeout, strftime);
      && o.slot.message == slot.message && o.slot.priority == slot.priority && o.slot.client == slot.client
      && (o.slot.lastRefresh == slot.lastRefresh || o.slot.lastRefresh == now)
      && (o.slot.lastUpdate == slot.lastUpdate || o.slot.lastUpdate == now)
      && SlotValid(o.slot)
      && ShownValid(ShownAfter(o.send, shown))
  {
    var o := SendEffect(slot, shown, slot.message, now, timeout, strftime);
    match slot.message
    case None =>
    case Some(Sequence(items, interval)) =>
      SequenceTick(slot, shown, items, interval, now, timeout, strftime);
      if slot.lastUpdate + ItemDuration(items, slot.current, interval) <= now {
        var next := NextIndex(slot.current, |items|);
        LeafTick(slot.(current := next), shown, items[next], now, timeout, strftime);
      }
    case Some(m) =>
      LeafTick(slot, shown, m, now, timeout, strftime);
    if o.send.Transmit? {
      ShownMatchesPayload(o.send.text);
    }
  }

  /**
   * Idempotence: once a text or time item of 1 to 36 characters has been
   * handled at `now`, handling it again at the same instant transmits nothing
   * (for a positive timeout).
   */
  lemma SecondTickQuiet(slot: Slot, shown: Option<string>, m: Message, now: real, timeout: real, strftime: string -> string)
    requires IsLeaf(m) && ShownValid(shown) && 0 < |Resolve(m, strftime)| <= MaxLength && timeout > 0.0
    ensures var o := SendEffect(slot, shown, Some(m), now, timeout, strftime);
      SendEffect(o.slot, ShownAfter(o.send, shown), Some(m), now, timeout, strftime).send == Quiet
  {
    var o := SendEffect(slot, shown, Some(m), now, timeout, strftime);
    LeafTick(slot, shown, m, now, timeout, strftime);
    ShownIsText(Resolve(m, strftime));
    LeafTick(o.slot, ShownAfter(o.send, shown), m, now, timeout, strftime);
  }

  /**
   * An empty text, or one longer than 36 characters, never equals what is
   * recorded for it, so it is transmitted again on every tick.
   */
  lemma UnshowableTextResent(slot: Slot, shown: Option<string>, m: Message, now: real, timeout: real, strftime: string -> string)
    requires IsLeaf(m) && ShownValid(shown)
    requires var text := Resolve(m, strftime); text == "" || |text| > MaxLength
    ensures SendEffect(slot, shown, Some(m), now, timeout, strftime).send == Transmit(Some(Resolve(m, strftime)))
  {
  }

  /** Index of the sequence item shown after `k` advances from a fresh assignment. */
  function IndexAfter(k: nat, n: int): int {
    if k == 0 then -1 else NextIndex(IndexAfter(k - 1, n), n)
  }

  /** The first round shows the items in order: the (j+1)-th advance shows item j. */
  lemma {:induction false} FirstRound(j: nat, n: int)
    requires j < n
    ensures IndexAfter(j + 1, n) == j
  {
    if j > 0 {
      FirstRound(j - 1, n);
    }
  }

  /** After the first advance the rotation repeats with period n: it wraps from the last item to the first. */
  lemma {:induction false} RoundRobinPeriodic(k: nat, n: int)
    requires n > 0 && k > 0
    ensures IndexAfter(k + n, n) == IndexAfter(k, n)
    decreases k
  {
    if k == 1 {
      FirstRound(n - 1, n);
    } else {
      RoundRobinPeriodic(k - 1, n);
    }
  }

  /**
   * A two-item rotation, "A" for 2 seconds then "B" for 5 (interval 5,
   * timeout 120), freshly assigned (index -1, timers 0): the first tick at
   * some t0 >= 5 shows "A"; a tick one second later sends nothing; at t0 + 2
   * "B" is shown, and at t0 + 7 the rotation wraps to "A", one transmission per change.
   */
  lemma RotationExample(t0: real, strftime: string -> string)
    requires t0 >= 5.0
    ensures
      var m := Some(Sequence([Text("A", Some(2.0)), Text("B", Some(5.0))], 5.0));
      var o1 := SendEffect(Slot(m, 0, None, -1, 0.0, 0.0), None, m, t0, 120.0, strftime);
      && o1 == Outcome(Slot(m, 0, None, 0, t0, t0), Transmit(Some("A")))
      && SendEffect(o1.slot, Some("A"), m, t0 + 1.0, 120.0, strftime).send == Quiet
      && var o2 := SendEffect(o1.slot, Some("A"), m, t0 + 2.0, 120.0, strftime);
      && o2 == Outcome(Slot(m, 0, None, 1, t0 + 2.0, t0 + 2.0), Transmit(Some("B")))
      && SendEffect(o2.slot, Some("B"), m, t0 + 7.0, 120.0, strftime)
           == Outcome(Slot(m, 0, None, 0, t0 + 7.0, t0 + 7.0), Transmit(Some("A")))
  {
  }

  /**
   * An item whose text equals the one before it is not given its duration:
   * advancing onto it sends nothing and leaves `lastUpdate` where it was, so
   * the duration of the second "A" in "A" 10 s, "A" 10 s, "B" 10 s is counted
   * from the first "A" and "B" follows half a second after the advance.
   */
  lemma RepeatedItemCutShort(t: real, strftime: string -> string)
    ensures
      var m := Some(Sequence([Text("A", Some(10.0)), Text("A", Some(10.0)), Text("B", Some(10.0))], 5.0));
      var o1 := SendEffect(Slot(m, 0, None, 0, t, t), Some("A"), m, t + 10.0, 120.0, strftime);
      && o1 == Outcome(Slot(m, 0, None, 1, t, t), Quiet)
      && SendEffect(o1.slot, Some("A"), m, t + 10.5, 120.0, strftime)
           == Outcome(Slot(m, 0, None, 2, t + 10.5, t + 10.5), Transmit(Some("B")))
  {
  }
}
