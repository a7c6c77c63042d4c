/**
 * The IBIS controller for four displays: a buffer entry and a last-sent
 * text per display, the enabled flag, and the operations that arbitrate new
 * content, tick the displays and drive the output.
 */
module Server {
  import opened Wrappers
  import opened Messages
  import opened AsciiFilter
  import opened Output
  import opened Slots
  import opened Tick
  import opened Persistence
  import opened Protocol

  class Controller {
    /** `buffer`: the entry of displays 0 .. 3. */
    var buffer: seq<Slot>
    /** `current_text`: the text last sent to each display, `None` for blank. */
    var currentText: seq<Option<string>>
    var enabled: bool
    /** `TIMEOUT`: seconds after which unchanged content is sent again. */
    const timeout: real
    /** The calls made to the display driver, oldest first. */
    ghost var sent: seq<Transmission>

    ghost predicate Valid()
      reads this
    {
      && |buffer| == 4 && |currentText| == 4
      && (forall a | 0 <= a < 4 :: SlotValid(buffer[a]) && ShownValid(currentText[a]))
      && (forall k | 0 <= k < |sent| :: TransmissionValid(sent[k]))
    }

    /** The buffer layout of `__init__`: four empty entries, nothing sent, enabled. */
    constructor (timeout: real)
      ensures Valid()
      ensures buffer == InitialBuffer && currentText == [None, None, None, None]
      ensures enabled && sent == [] && this.timeout == timeout
    {
      buffer := InitialBuffer;
      currentText := [None, None, None, None];
      enabled := true;
      this.timeout := timeout;
      sent := [];
    }

    /**
     * `send_text`: select the display, send the text truncated to 36
     * characters (blank for none) and record it; address -1 does this for
     * displays 0 to 3 in turn.
     */
    method SendText(address: int, text: Option<string>)
      requires Valid() && -1 <= address < 4
      modifies this`currentText, this`sent
      ensures Valid()
      ensures address == -1 ==> currentText == [Shown(text), Shown(text), Shown(text), Shown(text)]
      ensures address == -1 ==> sent == old(sent) + Broadcast(text)
      ensures address >= 0 ==> currentText == old(currentText)[address := Shown(text)]
      ensures address >= 0 ==> sent == old(sent) + [SelectAndSend(address, text)]
      decreases if address == -1 then 1 else 0
    {
      if address == -1 {
        for i := 0 to 4
          invariant Valid()
          invariant forall b | 0 <= b < i :: currentText[b] == Shown(text)
          invariant sent == old(sent) + Broadcast(text)[..i]
        {
          SendText(i, text);
          assert Broadcast(text)[..i + 1] == Broadcast(text)[..i] + [SelectAndSend(i, text)];
        }
        return;
      }
      SelectorEncodesAddress(address, text);
      sent := sent + [SelectAndSend(address, text)];
      ShownMatchesPayload(text);
      currentText := currentText[address := Shown(text)];
    }

    /**
     * `set_message`: a request is discarded when its priority is lower than
     * the stored one and it comes from another client; otherwise its filtered
     * message replaces the entry with a fresh rotation and timers.
     */
    method SetMessage(address: int, message: Message, priority: int, client: ClientId) returns (accepted: bool)
      requires Valid() && 0 <= address < 4
      modifies this`buffer
      ensures Valid()
      ensures accepted <==> !Rejects(old(buffer[address]), priority, client)
      ensures buffer == old(buffer)[address := Arbitrate(old(buffer[address]), message, priority, client)]
      ensures accepted ==> buffer[address] == Assignment(message, priority, client)
      ensures !accepted ==> buffer == old(buffer)
    {
      var currentPriority := buffer[address].priority;
      var currentClient := buffer[address].client;
      if priority < currentPriority && client != currentClient {
        return false;
      }
      var filtered := FilterMessage(message);
      ArbitratePreservesValid(buffer[address], message, priority, client);
      buffer := buffer[address := Slot(Some(filtered), priority, client, -1, 0.0, 0.0)];
      accepted := true;
    }

    /** `set_enabled`: store the flag; disabling blanks all four displays. */
    method SetEnabled(value: bool)
      requires Valid()
      modifies this`enabled, this`currentText, this`sent
      ensures Valid() && enabled == value
      ensures !value ==> currentText == [None, None, None, None] && sent == old(sent) + Broadcast(None)
      ensures value ==> currentText == old(currentText) && sent == old(sent)
    {
      enabled := value;
      if !enabled {
        SendText(-1, None);
      }
    }

    /**
     * `send_message` for one display at time `now`; `strftime` renders a
     * time format at this instant. The effect is `SendEffect`: at most one
     * driver call, and the entry's timers and index updated.
     */
    method SendMessage(address: int, message: Option<Message>, now: real, strftime: string -> string)
      requires Valid() && 0 <= address < 4
      requires WellFormed(message)
      requires message == buffer[address].message || (message.Some? && IsLeaf(message.value))
      modifies this`buffer, this`currentText, this`sent
      ensures Valid()
      ensures PositionOk(old(buffer[address]), message)
      ensures var o := SendEffect(old(buffer[address]), old(currentText[address]), message, now, timeout, strftime);
        && buffer == old(buffer)[address := o.slot]
        && currentText == old(currentText)[address := ShownAfter(o.send, old(currentText[address]))]
        && sent == old(sent) + Log(address, o.send)
      decreases if message.Some? && message.value.Sequence? then 1 else 0
    {
      var current := currentText[address];
      var lastRefresh := buffer[address].lastRefresh;
      var lastUpdate := buffer[address].lastUpdate;
      match message
      case None =>
        if current != None {
          SendText(address, None);
          buffer := buffer[address := buffer[address].(lastUpdate := now)];
        }
      case Some(Text(text, _)) =>
        if current != Some(text) {
          SendText(address, Some(text));
          buffer := buffer[address := buffer[address].(lastRefresh := now, lastUpdate := now)];
        } else if lastRefresh + timeout <= now {
          SendText(address, current);
          buffer := buffer[address := buffer[address].(lastRefresh := now)];
        }
      case Some(Time(format, _)) =>
        var text := strftime(format);
        if current != Some(text) {
          SendText(address, Some(text));
          buffer := buffer[address := buffer[address].(lastRefresh := now, lastUpdate := now)];
        } else if lastRefresh + timeout <= now {
          SendText(address, current);
          buffer := buffer[address := buffer[address].(lastRefresh := now)];
        }
      case Some(Sequence(messages, defaultInterval)) =>
        var cur := buffer[address].current;
        var nextMessage := if cur == -1 || cur >= |messages| - 1 then 0 else cur + 1;
        var duration := Duration(PyIndex(messages, cur));
        var interval := if duration.None? then defaultInterval else duration.value;
        if lastUpdate + interval <= now {
          NextIndexInRange(cur, |messages|);
          buffer := buffer[address := buffer[address].(current := nextMessage)];
          SendMessage(address, Some(messages[nextMessage]), now, strftime);
        } else if lastRefresh + timeout <= now {
          SendText(address, current);
          buffer := buffer[address := buffer[address].(lastRefresh := now)];
        }
    }

    /**
     * One pass of `process_buffer` at time `now`: when enabled, each display
     * in turn gets `send_message` with its stored message; when disabled,
     * nothing is sent and nothing changes.
     */
    method Tick(now: real, strftime: string -> string)
      requires Valid() && forall a | 0 <= a < 4 :: WellFormed(buffer[a].message)
      modifies this`buffer, this`currentText, this`sent
      ensures Valid()
      ensures !enabled ==> buffer == old(buffer) && currentText == old(currentText) && sent == old(sent)
      ensures enabled ==> forall a | 0 <= a < 4 ::
        && PositionOk(old(buffer[a]), old(buffer[a].message))
        && var o := SendEffect(old(buffer[a]), old(currentText[a]), old(buffer[a].message), now, timeout, strftime);
        && buffer[a] == o.slot
        && currentText[a] == ShownAfter(o.send, old(currentText[a]))
      ensures enabled ==> sent == old(sent) + TickLog(old(buffer), old(currentText), 4, now, timeout, strftime)
      ensures |sent| <= |old(sent)| + 4
    {
      if !enabled {
        return;
      }
      ghost var b0, ct0 := buffer, currentText;
      forall a | 0 <= a < 4
        ensures PositionOk(b0[a], b0[a].message)
      {
        TickKeepsEntry(b0[a], ct0[a], now, timeout, strftime);
      }
      for address := 0 to 4
        invariant Valid() && enabled
        invariant forall a | address <= a < 4 :: buffer[a] == b0[a] && currentText[a] == ct0[a]
        invariant forall a | 0 <= a < address ::
          var o := SendEffect(b0[a], ct0[a], b0[a].message, now, timeout, strftime);
          buffer[a] == o.slot && currentText[a] == ShownAfter(o.send, ct0[a])
        invariant sent == old(sent) + TickLog(b0, ct0, address, now, timeout, strftime)
      {
        var message := buffer[address].message;
        SendMessage(address, message, now, strftime);
      }
    }

    /**
     * The replay loop of `load_config`: each saved entry holding a message
     * goes through `set_message`; an entry for an unknown display stops the
     * load and leaves the flag as it was, otherwise the saved flag is restored.
     */
    method LoadConfig(entries: seq<Entry>, savedEnabled: bool) returns (loaded: bool)
      requires Valid()
      modifies this`buffer, this`enabled
      ensures Valid()
      ensures var r := Replay(old(buffer), entries); buffer == r.buffer && loaded == r.complete
      ensures enabled == if loaded then savedEnabled else old(enabled)
    {
      for i := 0 to |entries|
        invariant Valid() && enabled == old(enabled)
        invariant Replay(old(buffer), entries) == Replay(buffer, entries[i..])
      {
        assert entries[i..][1..] == entries[i + 1..];
        var entry := entries[i];
        if entry.message.Some? {
          if !(0 <= entry.id < 4) {
            return false;
          }
          var _ := SetMessage(entry.id, entry.message.value, entry.priority.GetOr(0), entry.client.GetOr(None));
        }
      }
      enabled := savedEnabled;
      loaded := true;
    }
  }

  /** The request dispatch of the listener, for one decoded request from `peer`. */
  class Listener {
    const controller: Controller

    constructor (controller: Controller)
      ensures this.controller == controller
    {
      this.controller := controller;
    }

    /**
     * `'enable'` requests set the flag (`'toggle'` negates it, any other value
     * counts by its truth); queries return the state; other requests are
     * assignments, arbitrated at priority 0 and under the peer's address
     * unless the request names its own; an unknown display is a failure.
     */
    method Handle(request: Request, peer: string) returns (reply: Reply)
      requires controller.Valid()
      modifies controller
      ensures controller.Valid()
      ensures request.EnableRequest? ==>
        && controller.enabled == (if request.enable == Str("toggle") then !old(controller.enabled) else Truthy(request.enable))
        && controller.buffer == old(controller.buffer)
        && (controller.enabled ==> controller.currentText == old(controller.currentText) && controller.sent == old(controller.sent))
        && (!controller.enabled ==> controller.currentText == [None, None, None, None] && controller.sent == old(controller.sent) + Broadcast(None))
        && reply == Success(true)
      ensures request.QueryRequest? ==>
        && controller.buffer == old(controller.buffer) && controller.currentText == old(controller.currentText)
        && controller.enabled == old(controller.enabled) && controller.sent == old(controller.sent)
        && reply == (match request.query
                     case "current" => CurrentText(controller.currentText)
                     case "buffer" => BufferReply(controller.buffer)
                     case "enabled" => Enabled(controller.enabled)
                     case _ => NoReply)
      ensures request.AssignRequest? ==>
        && controller.enabled == old(controller.enabled) && controller.currentText == old(controller.currentText)
        && controller.sent == old(controller.sent)
        && (!(0 <= request.address < 4) ==> reply == Success(false) && controller.buffer == old(controller.buffer))
        && (0 <= request.address < 4 ==>
             var a := request.address;
             var p := RequestPriority(request);
             var c := RequestClient(request, peer);
             && reply == Success(!Rejects(old(controller.buffer[a]), p, c))
             && controller.buffer == old(controller.buffer)[a := Arbitrate(old(controller.buffer[a]), request.message, p, c)])
    {
      match request
      case EnableRequest(value) =>
        if value == Str("toggle") {
          controller.SetEnabled(!controller.enabled);
        } else {
          controller.SetEnabled(Truthy(value));
        }
        reply := Success(true);
      case QueryRequest(query) =>
        if query == "current" {
          reply := CurrentText(controller.currentText);
        } else if query == "buffer" {
          reply := BufferReply(controller.buffer);
        } else if query == "enabled" {
          reply := Enabled(controller.enabled);
        } else {
          reply := NoReply;
        }
      case AssignRequest(address, message, _, _) =>
        if !(0 <= address < 4) {
          reply := Success(false);
        } else {
          var success := controller.SetMessage(address, message, RequestPriority(request), RequestClient(request, peer));
          reply := Success(success);
        }
    }
  }
}
