/**
 * One entry of the controller's buffer and the arbitration rule that
 * `set_message` applies before replacing it.
 */
module Slots {
  import opened Wrappers
  import opened Messages
  import opened AsciiFilter

  /**
   * `buffer[address]`: the stored message, its priority and client, the
   * rotation index `current` (-1 before the first item) and the times of the
   * last transmission (`last_refresh`) and the last content change (`last_update`).
   */
  datatype Slot = Slot(
    message: Option<Message>,
    priority: int,
    client: ClientId,
    current: int,
    lastRefresh: real,
    lastUpdate: real)

  /** The initial entry of each display: nothing stored, priority -1, no client. */
  const EmptySlot := Slot(None, -1, None, -1, 0.0, 0.0)

  /** A request is discarded only when its priority is lower and it comes from another client. */
  predicate Rejects(slot: Slot, priority: int, client: ClientId) {
    priority < slot.priority && client != slot.client
  }

  /** The entry an accepted request leaves: filtered message, fresh rotation and timers. */
  function Assignment(message: Message, priority: int, client: ClientId): Slot {
    Slot(Some(FilteredMessage(message)), priority, client, -1, 0.0, 0.0)
  }

  /** The entry after `set_message` decided on a request. */
  function Arbitrate(slot: Slot, message: Message, priority: int, client: ClientId): Slot {
    if Rejects(slot, priority, client) then slot else Assignment(message, priority, client)
  }

  /**
   * What holds of every entry at all times: an empty entry has its initial
   * priority, client and index; the index is -1 or points into the stored
   * sequence; the stored message is already filtered.
   */
  predicate SlotValid(s: Slot) {
    && (s.message.None? ==> s.priority == -1 && s.client.None? && s.current == -1)
    && (s.current == -1 || (s.message.Some? && s.message.value.Sequence? && 0 <= s.current < |s.message.value.messages|))
    && (s.message.Some? ==> FilteredMessage(s.message.value) == s.message.value)
  }

  /**
   * The arbitration outcome, both ways: accepted (the entry becomes the
   * filtered request with a reset rotation) unless the priority is lower and
   * the client differs; rejected leaves the entry as it was.
   */
  lemma ArbitrateOutcome(slot: Slot, message: Message, priority: int, client: ClientId)
    ensures var r := Arbitrate(slot, message, priority, client);
      && (r == slot || r == Assignment(message, priority, client))
      && (client == slot.client ==> r == Assignment(message, priority, client))
      && (priority >= slot.priority ==> r == Assignment(message, priority, client))
      && (priority < slot.priority && client != slot.client ==> r == slot)
  {
  }

  /** Accepting a request keeps the entry invariant, and rejecting it trivially does. */
  lemma ArbitratePreservesValid(slot: Slot, message: Message, priority: int, client: ClientId)
    requires SlotValid(slot)
    ensures SlotValid(Arbitrate(slot, message, priority, client))
  {
    FilteredMessageIdempotent(message);
  }

  /**
   * After a client's request is accepted, that client can always replace it,
   * and any other client can replace it exactly when its priority is at least as high.
   */
  lemma OwnerHoldsDisplay(slot: Slot, m: Message, p: int, c: ClientId, m': Message, p': int, c': ClientId)
    requires !Rejects(slot, p, c)
    ensures var held := Arbitrate(slot, m, p, c);
      && (c' == c ==> Arbitrate(held, m', p', c') == Assignment(m', p', c'))
      && (c' != c ==> (Arbitrate(held, m', p', c') == held <==> p' < p))
  {
    var held := Arbitrate(slot, m, p, c);
    if c' != c && p' >= p {
      assert Arbitrate(held, m', p', c') == Assignment(m', p', c');
      assert Assignment(m', p', c').client != held.client;
    }
  }

  /** An empty display accepts every request of priority -1 or more, and any request from client `None`. */
  lemma EmptyAccepts(priority: int, client: ClientId)
    ensures !Rejects(EmptySlot, priority, client) <==> priority >= -1 || client.None?
  {
  }
}
