# IBIS display controller — a Dafny model

This project models the core of the IBIS server and client of MezgrTools.
The server drives four IBIS displays through one serial line. Two selector
lines, DTR and RTS, pick the display. The server keeps a buffer entry per
display: the stored message, its priority and client, the rotation index,
and two timestamps. It also keeps the last text sent to each display and a
global enabled flag. Clients assign content: a static text, a time format
rendered with `strftime`, or a sequence of texts and times, each shown for
its own duration or the sequence's interval.

The model covers these parts:

- **Arbitration** in `set_message`. A request is discarded only when its
  priority is strictly lower than the stored one and it comes from another
  client.
- **The tick** that `process_buffer` runs over the four displays. Each
  `send_message` call transmits a changed text, re-sends unchanged content
  after `TIMEOUT`, advances a sequence, or blanks an empty display.
- **The output bookkeeping** of `send_text`.
- **Enabling and disabling**, including the listener's `toggle`.
- **The replay** of the configuration file.
- **The client's descriptor builders** and its `a~2|b|%H:%M` sequence syntax.

Module layout, one file each:

- `wrappers.dfy`: `Option`.
- `messages.dfy`: the message descriptors.
- `filter.dfy`: `_filter_ascii`.
- `output.dfy`: truncation, the last-sent text, the selector lines.
- `slots.dfy`: buffer entries and arbitration.
- `tick.dfy`: the effect of `send_message` as a function, with its lemmas.
- `persistence.dfy`: `save_config` and `load_config`.
- `protocol.dfy`: listener requests and replies.
- `server.dfy`: the `Controller` class and the listener's dispatch.
- `client.dfy`: the client's builders and requests.
- `sequence_spec.dfy`: the sequence syntax parser.

Modelling choices:

- **The driver calls.** The serial driver is not modelled. Every call is
  recorded in the ghost log `Controller.sent` as the pair of selector bits
  plus the payload.
- **The clock.** `time.time()` becomes the parameter `now`. `time.strftime`
  becomes a parameter `strftime: string -> string`, the rendering of a
  format at that instant. Python's `float()` in the client becomes a
  parameter `parseNumber: string -> Option<real>`.
- **Times.** Timestamps, durations, intervals and the timeout are `real`
  seconds.

Behaviours of the code worth knowing:

- **Equal priority.** A request of equal priority from another client is
  accepted.
- **Duration of a fresh sequence.** While the index is -1, the duration
  checked is that of the last item, because Python's `messages[-1]` reads
  the last item.
- **First item of a fresh sequence.** A freshly assigned sequence has both
  timers at 0. It shows its first item on the first tick at which `now`
  reaches the last item's duration.
- **Re-enabling a sequence.** After the displays are re-enabled, a sequence
  whose item duration has not elapsed re-sends blank as its keep-alive. Its
  content comes back only when the index advances.
- **Texts that never match.** An empty text, or one longer than 36
  characters, never equals the recorded text. It is transmitted on every tick.
- **Repeated items.** When a sequence advances onto an item whose text is
  the one already shown, nothing is sent and `last_update` keeps its old
  value. That item's duration is then counted from the earlier change, so
  the rotation can move on at the next tick.
- **The saved flag.** `set_enabled` does not call `save_config`. Each
  entry the load replays and `set_message` accepts is saved at once, and
  that save writes `enabled` before the load restores the saved flag, that
  is, the `True` set at start-up. A saved "disabled" therefore lasts one
  restart only when the file holds a message, unless another save happens
  in between.
- **A failed load.** A load that fails part way keeps the entries replayed
  so far. The display state is not reset.

## Model

| member | source | states |
|---|---|---|
| `AsciiFilter.Filtered` | scripts/ibis/ibis_server.py:267-281 | the filtered text is no longer than the input and holds only supported characters (code ≤ 127 or one of ä ö ü Ä Ö Ü ß) |
| `AsciiFilter.FilterText` | scripts/ibis/ibis_server.py:270-274 | the character loop of `_filter_ascii` builds exactly `Filtered(s)` |
| `AsciiFilter.FilteredIsSubsequence` | scripts/ibis/ibis_server.py:270-274 | the filtered text is a subsequence of the input (original order kept) |
| `AsciiFilter.FilteredCounts` | scripts/ibis/ibis_server.py:272-273 | every occurrence of a supported character is kept and every other character dropped |
| `AsciiFilter.FilteredKeepsSupported` | scripts/ibis/ibis_server.py:272-273 | text made only of supported characters is unchanged |
| `AsciiFilter.FilteredIdempotent` | scripts/ibis/ibis_server.py:267-281 | filtering twice equals filtering once |
| `AsciiFilter.FilterItem` | scripts/ibis/ibis_server.py:267-281 | `_filter_ascii` filters the text of a text item and the format of a time item; other items are returned unchanged |
| `AsciiFilter.FilterMessage` | scripts/ibis/ibis_server.py:291-297 | the filtering step of `set_message`: a text or time is filtered, each sequence item is filtered in place |
| `AsciiFilter.FilteredMessage` | scripts/ibis/ibis_server.py:291-297 | the message `set_message` stores; its shape, filtering and idempotence are stated by `FilteredMessageShape` and `FilteredMessageIdempotent` |
| `AsciiFilter.FilteredMessageShape` | scripts/ibis/ibis_server.py:291-297 | filtering keeps the kind, durations, interval and item count, each item is filtered, texts shrink to subsequences, well-formedness is unchanged |
| `AsciiFilter.FilteredMessageIdempotent` | scripts/ibis/ibis_server.py:291-297 | storing an already stored message again stores the same message |
| `Output.Truncate` | scripts/ibis/ibis_server.py:200-202 | the payload is a prefix of the text and at most 36 characters: the whole text when it fits, otherwise exactly its first 36 characters |
| `Output.Shown` | scripts/ibis/ibis_server.py:200-210 | what `current_text[address]` becomes: always blank or 1–36 characters; `ShownMatchesPayload`, `ShownIdempotent` and `ShownIsText` relate it to the payload |
| `Output.Payload` | scripts/ibis/ibis_server.py:200-206 | the string handed to the driver, at most 36 characters, empty for blank |
| `Output.Broadcast` | scripts/ibis/ibis_server.py:183-186 | address -1 makes four driver calls, one per display |
| `Output.SelectAndSend` | scripts/ibis/ibis_server.py:187-205 | one driver call: the selector lines of the display and the payload; `SelectorEncodesAddress` states the encoding |
| `Output.ShownMatchesPayload` | scripts/ibis/ibis_server.py:200-210 | `current_text` records exactly the sent payload, `None` exactly for a blank payload (no text or an empty one), and is 1–36 characters otherwise |
| `Output.ShownIdempotent` | scripts/ibis/ibis_server.py:329-330 | re-sending the recorded text records the same text |
| `Output.ShownIsText` | scripts/ibis/ibis_server.py:200-210 | a text is recorded as itself exactly when it has 1 to 36 characters |
| `Output.SelectorEncodesAddress` | scripts/ibis/ibis_server.py:187-198 | display a is selected with DTR = a / 2 and RTS = a % 2, bits in {0, 1}, payload ≤ 36 characters |
| `Slots.Rejects` | scripts/ibis/ibis_server.py:284-289 | the discard rule; `ArbitrateOutcome` and `EmptyAccepts` state it both ways |
| `Slots.Assignment` | scripts/ibis/ibis_server.py:291-304 | the entry an accepted request leaves; `ArbitratePreservesValid` shows it satisfies the entry invariant |
| `Slots.Arbitrate` | scripts/ibis/ibis_server.py:284-304 | the entry after `set_message` decided; `ArbitrateOutcome` and `OwnerHoldsDisplay` state its outcome |
| `Slots.ArbitrateOutcome` | scripts/ibis/ibis_server.py:284-304 | a request is rejected (entry unchanged) exactly when its priority is lower and its client differs; otherwise the entry becomes the filtered message, priority and client with index -1 and timers 0; the same client or a priority at least as high is always accepted |
| `Slots.ArbitratePreservesValid` | scripts/ibis/ibis_server.py:291-304 | arbitration keeps the entry invariant: empty entries are initial, the index is -1 or inside the stored sequence, the stored message is filtered |
| `Slots.OwnerHoldsDisplay` | scripts/ibis/ibis_server.py:284-289 | after a client's request is accepted, that client can always replace it, and another client can replace it exactly when its priority is not lower |
| `Slots.EmptyAccepts` | scripts/ibis/ibis_server.py:284-289 | an empty display (priority -1, client None) accepts exactly the requests of priority ≥ -1 or from client None |
| `Tick.SendEffect` | scripts/ibis/ibis_server.py:313-364 | the effect of `send_message` on one display; `LeafTick`, `BlankTick`, `SequenceTick` and `TickKeepsEntry` state it case by case |
| `Tick.PyIndex` | scripts/ibis/ibis_server.py:352 | Python's `messages[current]`, where -1 reads the last item; `SequenceTick` states the fresh-sequence case |
| `Tick.ItemDuration` | scripts/ibis/ibis_server.py:352-354 | the item's own duration, else the sequence interval; used by `SequenceTick` |
| `Tick.NextIndex` | scripts/ibis/ibis_server.py:348-351 | the index after `current`, wrapping to 0; `NextIndexInRange`, `FirstRound` and `RoundRobinPeriodic` state its properties |
| `Tick.Resolve` | scripts/ibis/ibis_server.py:325-336 | the text of a text item, or the format rendered by `strftime`; `LeafTick` states what is sent |
| `Tick.TickLog` | scripts/ibis/ibis_server.py:405-410 | one pass over n displays makes at most n driver calls |
| `Tick.LeafTick` | scripts/ibis/ibis_server.py:324-343 | for a text or time: a resolved text that differs from `current_text` is transmitted and both timers set to now; an equal one is re-sent (the recorded text itself) when `last_refresh + TIMEOUT <= now`, setting `last_refresh` to now and nothing else; otherwise nothing changes; only the timers ever change |
| `Tick.BlankTick` | scripts/ibis/ibis_server.py:361-364 | with nothing stored, blank is transmitted and `last_update` set exactly when `current_text` is not None; the recorded text is None afterwards |
| `Tick.NextIndexInRange` | scripts/ibis/ibis_server.py:347-351 | the next index lies in [0, len): current + 1 before the last item, 0 after it or from -1 |
| `Tick.SequenceTick` | scripts/ibis/ibis_server.py:344-360 | the duration is that of `messages[current]` (index -1 reads the last item) or the interval; when it has elapsed since `last_update` the index advances and the new item is transmitted at once if its text differs, with both timers set to now; if its text equals `current_text`, `last_update` stays, the recorded text stays, and only the keep-alive re-send happens, exactly when the timeout has elapsed; before the duration has elapsed, index and `last_update` stay and only the keep-alive can happen; message, priority and client are untouched; a tick that sends nothing changes nothing but the index (on an advance) and, in particular, never moves `last_refresh` |
| `Tick.TickKeepsEntry` | scripts/ibis/ibis_server.py:313-364 | a tick leaves message, priority and client alone, moves timers only to now, and keeps the entry invariant and a valid recorded text |
| `Tick.SecondTickQuiet` | scripts/ibis/ibis_server.py:324-331 | a text or time of 1–36 characters handled at `now` transmits nothing when handled again at the same instant (positive timeout) |
| `Tick.UnshowableTextResent` | scripts/ibis/ibis_server.py:325-326 | an empty text or one longer than 36 characters is transmitted on every tick |
| `Tick.FirstRound` | scripts/ibis/ibis_server.py:348-351 | from index -1, the (j+1)-th advance selects item j |
| `Tick.RoundRobinPeriodic` | scripts/ibis/ibis_server.py:348-351 | after the first advance the rotation repeats with period len, wrapping from the last item to the first |
| `Tick.RotationExample` | scripts/ibis/ibis_server.py:344-360 | a rotation "A" for 2 s then "B" for 5 s shows A at t0, nothing new at t0+1, B at t0+2, and A again at t0+7, one transmission at each change |
| `Tick.RepeatedItemCutShort` | scripts/ibis/ibis_server.py:352-357 | in "A" 10 s, "A" 10 s, "B" 10 s, advancing onto the second "A" sends nothing and leaves `last_update` alone, so "B" is sent half a second later |
| `Persistence.Snapshot` | scripts/ibis/ibis_server.py:137-141 | the saved buffer has one entry per display holding its message, priority and client |
| `Persistence.Replay` | scripts/ibis/ibis_server.py:156-158 | the replay of saved entries through arbitration yields four entries |
| `Persistence.ReplayRoundTrip` | scripts/ibis/ibis_server.py:156-158 | loading a snapshot of a valid buffer reproduces every message, priority and client exactly when no saved message has priority below -1 and a client other than None |
| `Persistence.ReplayDropsLowPriority` | scripts/ibis/ibis_server.py:156-158 | a reachable entry (priority -5 from None, then -3 from "A") is discarded by save-then-load |
| `Persistence.RestoreRoundTrip` | scripts/ibis/ibis_server.py:156-158 | restoring saved entries without arbitration reproduces every message, priority and client of any valid buffer |
| `Persistence.Restore` | scripts/ibis/ibis_server.py:155-158 | the corrected replay, without arbitration, yielding four entries; `RestoreRoundTrip` states its round trip |
| `Server.Controller.constructor` | scripts/ibis/ibis_server.py:80-125 | four empty entries (no message, priority -1, client None, index -1, timers 0), no text shown, enabled |
| `Server.Controller.SendText` | scripts/ibis/ibis_server.py:177-210 | one driver call selecting the display with the truncated payload and `current_text[address]` set to the truncated text or None; address -1 does this for displays 0–3 in order |
| `Server.Controller.SetMessage` | scripts/ibis/ibis_server.py:284-311 | returns false and leaves the buffer unchanged exactly when priority is lower and client differs; otherwise stores the filtered message, priority and client with index -1 and timers 0 and touches no other display |
| `Server.Controller.SetEnabled` | scripts/ibis/ibis_server.py:164-175 | stores the flag; disabling blanks all four displays (four blank driver calls, every `current_text` None) |
| `Server.Controller.SendMessage` | scripts/ibis/ibis_server.py:313-364 | the display's entry, recorded text and driver calls change exactly as `SendEffect` says; other displays are untouched |
| `Server.Controller.Tick` | scripts/ibis/ibis_server.py:405-410 | when disabled nothing changes and nothing is sent; when enabled each display gets its `send_message` effect, in address order, with at most four driver calls |
| `Server.Controller.LoadConfig` | scripts/ibis/ibis_server.py:149-159 | the buffer becomes the replay of the saved entries; the saved flag is restored only when every entry could be replayed |
| `Server.Listener.Handle` | scripts/ibis/ibis_server.py:38-66 | `toggle` negates the flag, other enable values set it to their truth; queries return state unchanged; assignments are arbitrated at priority 0 and under the peer's address unless given, and an unknown display is a failure |
| `Protocol.Truthy` | scripts/ibis/ibis_server.py:48 | the truth value `set_enabled` gives a JSON value; `Listener.Handle` stores it |
| `Protocol.RequestClient` | scripts/ibis/ibis_server.py:63 | the client an assignment is arbitrated under, the peer's address by default; `Client.SetMessage` and its siblings state the default |
| `Protocol.RequestPriority` | scripts/ibis/ibis_server.py:63 | `message.get('priority', 0)`; the client requests are stated to yield 0 (`Client.SetMessage` and its siblings) |
| `Client.MakeText` | scripts/ibis/ibis_client.py:51-56 | a text descriptor of the given text, with a duration exactly when one is given and non-zero |
| `Client.MakeTime` | scripts/ibis/ibis_client.py:65-70 | a time descriptor of the given format, with a duration exactly when one is given and non-zero |
| `Client.Given` | scripts/ibis/ibis_client.py:52-53 | Python's `if duration:` on an optional duration; `ZeroDurationDropped` shows 0 counts as absent |
| `Client.ZeroDurationDropped` | scripts/ibis/ibis_client.py:51-56 | a duration of 0 is dropped like an absent one |
| `Client.SetEnabled` | scripts/ibis/ibis_client.py:37-42 | the enable request carries the value as given |
| `Client.SetMessage` | scripts/ibis/ibis_client.py:44-49 | the request names address and message only, so the server uses priority 0 and the peer's address |
| `Client.SetText` | scripts/ibis/ibis_client.py:58-63 | an assignment of `make_text(text, duration)` to the address, at priority 0 under the peer's address |
| `Client.SetTime` | scripts/ibis/ibis_client.py:72-77 | an assignment of `make_time(format, duration)` to the address, at priority 0 under the peer's address |
| `Client.SetSequence` | scripts/ibis/ibis_client.py:79-84 | an assignment of a sequence with the items unchanged and the given interval, at priority 0 under the peer's address |
| `SequenceSpec.LastIndexOf` | scripts/ibis/ibis_client.py:141-143 | the index of the last `~`, or -1 when there is none |
| `SequenceSpec.Split` | scripts/ibis/ibis_client.py:138 | at least one piece, none containing the separator |
| `SequenceSpec.Join` | scripts/ibis/ibis_client.py:143 | `"~".join(parts)`; `JoinSplit` shows it inverts `Split` |
| `SequenceSpec.JoinSplit` | scripts/ibis/ibis_client.py:138-143 | joining the pieces with the separator gives back the input |
| `SequenceSpec.SplitLast` | scripts/ibis/ibis_client.py:141-143 | `parts[-1]` is the text after the last `~`, and `"~".join(parts[:-1])` is the text before it (empty when there is no `~`) |
| `SequenceSpec.TimeFormatOneLine` | scripts/ibis/ibis_client.py:147 | on a single line, the regular expression matches exactly when `%` is followed by an ASCII letter |
| `SequenceSpec.TimeFormatExamples` | scripts/ibis/ibis_client.py:147 | `%H:%M` and `50%off` are time formats; `100%`, `5% x` and a directive after a line break are not |
| `SequenceSpec.IsTimeFormat` | scripts/ibis/ibis_client.py:147 | the regular expression test; `TimeFormatOneLine` and `TimeFormatExamples` characterise it |
| `SequenceSpec.ParsePiece` | scripts/ibis/ibis_client.py:140-145 | the `~duration` split of one piece; `PieceOutcome` states both outcomes |
| `SequenceSpec.PieceDescriptor` | scripts/ibis/ibis_client.py:140-150 | the descriptor for one piece; `ParseSequence` is proved to build one per piece |
| `SequenceSpec.PieceOutcome` | scripts/ibis/ibis_client.py:140-150 | a numeric suffix after the last `~` becomes the duration and the item is what precedes it (empty without `~`); otherwise the piece is kept whole with no duration |
| `SequenceSpec.ParseSequence` | scripts/ibis/ibis_client.py:137-151 | one descriptor per `|`-separated piece, in order, each that piece's descriptor |

## Findings

| source | as written | input that shows it | evidently intended | confidence | as-written member | corrected member |
|---|---|---|---|---|---|---|
| scripts/ibis/ibis_server.py:156-158 | `load_config` replays each saved entry through `set_message`. Arbitration then compares it against the initial entry, which has priority -1 and client None. | display 0 gets priority -5 from client None, then priority -3 from client "A". Both are accepted. After save and load the entry is gone. | every saved message, priority and client is restored | medium, not executed | `Persistence.ReplayDropsLowPriority` | `Persistence.RestoreRoundTrip` |

`Server.Controller.LoadConfig` keeps the replay as written, because it models
the code. `Persistence.Restore` is the corrected replay. Its round trip holds
for every valid buffer. `Persistence.ReplayRoundTrip` states exactly when
the replay as written round-trips.

## Left out

- Sockets and JSON transport are not modelled. This covers `Listener.run`'s
  accept, receive and reply; `Client.send_raw_message`; and the query
  helpers `get_current_text`, `get_buffer` and `get_enabled`. Requests and
  replies are datatypes.
- The serial device is not modelled. This covers `ibis.IBISMaster`,
  `send_next_stop__003c`, `setDTR` and `setRTS`. The ghost log `sent`
  records each call instead.
- The infinite `process_buffer` loop, `time.sleep`, `run`/`quit` and the
  listener thread are not modelled. `Controller.Tick` is one pass of the
  loop, and concurrency between the listener and the ticker is out of scope.
- Server.Controller.Tick: `process_buffer` reads `time.time()` once per
  `send_message`, so once per display. The model gives all four displays
  the same `now`.
- Server.Controller.SendMessage: the recursive `send_message` call for a new
  sequence item calls `time.time()` again. The model uses the same `now`
  for both calls.
- `time.strftime` is a parameter of the tick, including the UTF-8 encode
  fallback at scripts/ibis/ibis_server.py:333-336.
- The file write of `save_config` is not modelled, nor its call after every
  accepted `set_message`. As a result, a failing write is not modelled: it
  would make the listener report failure for a request that was stored.
- The file read and JSON decoding of `load_config` are not modelled.
  `__init__` calls `load_config`; here that call is the separate
  `LoadConfig`, given the decoded entries and flag.
- Floats are modelled as `real`, so NaN and infinities are out. The
  client's `float()` is a parameter.
- Unknown message types, empty sequences and nested sequences are not
  modelled. `Tick` and `SendMessage` require well-formed stored messages,
  because an empty sequence raises `IndexError` at
  scripts/ibis/ibis_server.py:352. `set_message` accepts any `Message`, as
  the code does.
- Non-integer priorities are not modelled: the listener passes the JSON
  value on as is, so a float or a null priority reaches the comparison of
  `set_message`, where Python 2 orders null below every number.
- Malformed requests are not modelled beyond an unknown display: missing
  keys, a non-integer address, an `enable` value that is a list or a
  dictionary. Exceptions raised by `set_enabled` are not modelled either.
- Printing is not modelled: the verbose and debug prints, including the
  debug print that fails on `None` at line 207. `selftest`, `argparse` and
  both `main` functions' option handling are left out too; the client's
  request builders stand for the latter.
- scripts/portscan.py is not part of this model. It shares nothing with
  the display logic.
