/**
 * The configuration file of the server: `save_config` writes every entry of
 * the buffer, and `load_config` replays each saved entry that holds a
 * message through `set_message`.
 */
module Persistence {
  import opened Wrappers
  import opened Messages
  import opened AsciiFilter
  import opened Slots

  /**
   * One decoded `buffer` entry of the file. `message` is `None` for a null
   * message (the key itself must be present); `priority` and `client` are
   * `None` when their key is missing.
   */
  datatype Entry = Entry(id: int, message: Option<Message>, priority: Option<int>, client: Option<ClientId>)

  /** The buffer after replaying entries, and whether every entry could be replayed. */
  datatype Loaded = Loaded(buffer: seq<Slot>, complete: bool)

  /** Four displays in their initial state. */
  const InitialBuffer: seq<Slot> := [EmptySlot, EmptySlot, EmptySlot, EmptySlot]

  /** What `save_config` writes for the buffer: every field of every entry. */
  function Snapshot(buffer: seq<Slot>): (entries: seq<Entry>)
    requires |buffer| == 4
    ensures |entries| == 4
  {
    seq(4, a requires 0 <= a < 4 =>
      Entry(a, buffer[a].message, Some(buffer[a].priority), Some(buffer[a].client)))
  }

  /**
   * The replay loop of `load_config`: entries without a message are skipped;
   * the others go through `set_message` with priority 0 and client `None` by
   * default; an id that is not a display stops the replay (the lookup fails).
   */
  function Replay(buffer: seq<Slot>, entries: seq<Entry>): (r: Loaded)
    requires |buffer| == 4
    ensures |r.buffer| == 4
    decreases |entries|
  {
    if entries == [] then Loaded(buffer, true)
    else
      var e := entries[0];
      if e.message.None? then Replay(buffer, entries[1..])
      else if !(0 <= e.id < 4) then Loaded(buffer, false)
      else
        var slot := Arbitrate(buffer[e.id], e.message.value, e.priority.GetOr(0), e.client.GetOr(None));
        Replay(buffer[e.id := slot], entries[1..])
  }

  /** The stored assignment of an entry: what must survive a restart. */
  function Assigned(s: Slot): (Option<Message>, int, ClientId) {
    (s.message, s.priority, s.client)
  }

  /**
   * Restoring entries as they were saved, without arbitration: the corrected
   * replay, in which a saved entry cannot be discarded.
   */
  function Restore(buffer: seq<Slot>, entries: seq<Entry>): (r: Loaded)
    requires |buffer| == 4
    ensures |r.buffer| == 4
    decreases |entries|
  {
    if entries == [] then Loaded(buffer, true)
    else
      var e := entries[0];
      if e.message.None? then Restore(buffer, entries[1..])
      else if !(0 <= e.id < 4) then Loaded(buffer, false)
      else
        var slot := Assignment(e.message.value, e.priority.GetOr(0), e.client.GetOr(None));
        Restore(buffer[e.id := slot], entries[1..])
  }

  /** Replaying the entries of displays a .. 3 of a snapshot changes only those displays. */
  lemma {:induction false} ReplaySnapshotFrom(saved: seq<Slot>, buffer: seq<Slot>, a: nat)
    requires |saved| == 4 && |buffer| == 4 && a <= 4
    requires forall b | a <= b < 4 :: buffer[b] == EmptySlot
    ensures var r := Replay(buffer, Snapshot(saved)[a..]);
      && r.complete
      && (forall b | 0 <= b < a :: r.buffer[b] == buffer[b])
      && (forall b | a <= b < 4 :: saved[b].message.Some? ==> r.buffer[b] == Arbitrate(EmptySlot, saved[b].message.value, saved[b].priority, saved[b].client))
      && (forall b | a <= b < 4 :: saved[b].message.None? ==> r.buffer[b] == EmptySlot)
    decreases 4 - a
  {
    if a < 4 {
      var entries := Snapshot(saved)[a..];
      assert entries[0] == Snapshot(saved)[a];
      assert entries[1..] == Snapshot(saved)[a + 1..];
      var next := if saved[a].message.None? then buffer
                  else buffer[a := Arbitrate(buffer[a], saved[a].message.value, saved[a].priority, saved[a].client)];
      ReplaySnapshotFrom(saved, next, a + 1);
    }
  }

  /** The same for the corrected restore. */
  lemma {:induction false} RestoreSnapshotFrom(saved: seq<Slot>, buffer: seq<Slot>, a: nat)
    requires |saved| == 4 && |buffer| == 4 && a <= 4
    requires forall b | a <= b < 4 :: buffer[b] == EmptySlot
    ensures var r := Restore(buffer, Snapshot(saved)[a..]);
      && r.complete
      && (forall b | 0 <= b < a :: r.buffer[b] == buffer[b])
      && (forall b | a <= b < 4 :: saved[b].message.Some? ==> r.buffer[b] == Assignment(saved[b].message.value, saved[b].priority, saved[b].client))
      && (forall b | a <= b < 4 :: saved[b].message.None? ==> r.buffer[b] == EmptySlot)
    decreases 4 - a
  {
    if a < 4 {
      var entries := Snapshot(saved)[a..];
      assert entries[0] == Snapshot(saved)[a];
      assert entries[1..] == Snapshot(saved)[a + 1..];
      var next := if saved[a].message.None? then buffer
                  else buffer[a := Assignment(saved[a].message.value, saved[a].priority, saved[a].client)];
      RestoreSnapshotFrom(saved, next, a + 1);
    }
  }

  /**
   * Round trip of the corrected restore: loading a snapshot of any valid
   * buffer into fresh displays reproduces every stored message, priority and client.
   */
  lemma RestoreRoundTrip(saved: seq<Slot>)
    requires |saved| == 4 && forall a | 0 <= a < 4 :: SlotValid(saved[a])
    ensures var r := Restore(InitialBuffer, Snapshot(saved));
      r.complete && forall a | 0 <= a < 4 :: Assigned(r.buffer[a]) == Assigned(saved[a])
  {
    RestoreSnapshotFrom(saved, InitialBuffer, 0);
    assert Snapshot(saved)[0..] == Snapshot(saved);
  }

  /**
   * Round trip of the replay as written: it reproduces the stored assignments
   * exactly when no saved entry holds a message with a priority below -1 from a client other than `None`.
   */
  lemma ReplayRoundTrip(saved: seq<Slot>)
    requires |saved| == 4 && forall a | 0 <= a < 4 :: SlotValid(saved[a])
    ensures var r := Replay(InitialBuffer, Snapshot(saved));
      && r.complete
      && ((forall a | 0 <= a < 4 :: Assigned(r.buffer[a]) == Assigned(saved[a])) <==>
          (forall a | 0 <= a < 4 :: saved[a].message.None? || !Rejects(EmptySlot, saved[a].priority, saved[a].client)))
  {
    ReplaySnapshotFrom(saved, InitialBuffer, 0);
    assert Snapshot(saved)[0..] == Snapshot(saved);
    var r := Replay(InitialBuffer, Snapshot(saved));
    forall a | 0 <= a < 4 && saved[a].message.Some?
      ensures Assigned(r.buffer[a]) == Assigned(saved[a]) <==> !Rejects(EmptySlot, saved[a].priority, saved[a].client)
    {
      FilteredMessageIdempotent(saved[a].message.value);
    }
  }

  /**
   * The discrepancy, on a reachable entry: a request at priority -5 from
   * client `None` and then one at -3 from client "A" are both accepted, but
   * saving and loading that state discards the entry of display 0.
   */
  lemma ReplayDropsLowPriority()
    ensures var m := Text("Bus", None);
      var s1 := Arbitrate(EmptySlot, m, -5, None);
      var s2 := Arbitrate(s1, m, -3, Some("A"));
      var saved := [s2, EmptySlot, EmptySlot, EmptySlot];
      && Assigned(s2) == (Some(m), -3, Some("A"))
      && (forall a | 0 <= a < 4 :: SlotValid(saved[a]))
      && Replay(InitialBuffer, Snapshot(saved)).buffer[0] == EmptySlot
  {
    var m := Text("Bus", None);
    assert Filtered("Bus") == "Bus" by {
      FilteredKeepsSupported("Bus");
    }
    assert FilteredMessage(m) == m;
    var s1 := Arbitrate(EmptySlot, m, -5, None);
    assert s1 == Slot(Some(m), -5, None, -1, 0.0, 0.0);
    var s2 := Arbitrate(s1, m, -3, Some("A"));
    assert s2 == Slot(Some(m), -3, Some("A"), -1, 0.0, 0.0);
    var saved := [s2, EmptySlot, EmptySlot, EmptySlot];
    assert SlotValid(s2);
    ReplaySnapshotFrom(saved, InitialBuffer, 0);
    assert Snapshot(saved)[0..] == Snapshot(saved);
    assert Rejects(EmptySlot, -3, Some("A"));
  }
}
