# Yeelight Blue control client — a verified model

This project models the command encoding and command ordering of a Python client for the
Yeelight Blue Bluetooth LE light (`YeelightService.py`). The client sends short ASCII
commands to the light's vendor GATT characteristics:

- colour and brightness (`control`, `turn_on`, `turn_off`);
- a switch-on or switch-off after a delay in minutes (`delay_on`, `delay_off`);
- status queries (`delay_status`, `control_status`);
- colour-flow animations (`start_color_flow`, `stop_color_flow`);
- colour-change effects (`effect_*`).

Each payload is either comma-separated decimal fields (colour, delay, flow steps) or a short
letter token (`"RT"`, `"S"`, `"CB"`, `"CE"`, `"TS"`, `"TE"`, `"DF"`), right-padded with `,` to
the fixed width its characteristic expects (`__format_request__`). Writes to a characteristic the device does not
expose are skipped silently. A query registers a callback with the notification delegate,
writes the query, waits for one notification and deregisters the callback again.

Modules:

- `Wrappers`: `Option`, `Result` and `Outcome`.
- `Decimal`: the text `%d` gives a non-negative integer (`Render`), with its inverse (`ValueOf`) and width bounds.
- `Framing`: `FormatRequest` (`__format_request__`). Also `Unframe`, a reference decoder that drops trailing filler. It is not the device's parser.
- `Fields`: comma-joined decimal fields (`Join`) and the reading of a framed payload back into them (`DecodeFields`). The round trip between the two is the partner of every numeric encoder.
- `Protocol`: the characteristics as opaque distinct identifiers, plus the range checks and payload of every command. It also holds the declarative list of writes `start_color_flow` issues (`FlowWrites`) and how that call ends (`FlowOutcome`).
- `Notify`: the `NotifyDelegate` class. Its callback queue is a `seq` of callback identities; `list.remove` is modelled by `RemoveFirst`.
- `Service`: the `YeelightService` class. It has a write log, the set of characteristics the device exposes, and a counter that gives each query's callback a fresh identity. Every command is a method whose `ensures` states its new log in terms of the `Protocol` function for that command's payload (`ControlRequest`, `DelayRequest`, `DelayQueryPayload`, `StatusQueryPayload`, `FlowWrites`, `FlowControlPayload`, `EffectPayload`).

A failed `assert` in the client becomes an error result, and the log is left as it was at that
point. `RangeError` covers colour and delay checks, `TooManySteps` a colour flow of more than 9
steps, and `BadStep(k)` a flow whose step k fails its checks.

Three behaviours of the client that the model keeps as they are:

- A text longer than its frame becomes all filler and raises no error (`YeelightService.py:127-128`).
- `start_color_flow` checks each step just before writing it, so a bad step k leaves steps 0..k-1 written and no commit (`YeelightService.py:186-194`).
- `control(255,255,255,100)` frames as `"255,255,255,100,,,"` (18 characters) and `delay_on(5)` as `"5,1,,,,,"` (8 characters), as `Protocol.BrightestWhiteFrame` and `Protocol.FiveMinuteDelayFrame` prove.

## Model

| member | source | states |
|---|---|---|
| Decimal.Render | YeelightService.py:150 | the `%d` text of a non-negative number: at least one character, digits only, no leading zero |
| Decimal.ValueOfRender | YeelightService.py:150 | reading the rendered digits back gives the number again |
| Decimal.RenderLength | YeelightService.py:150 | a number below 10^k renders in at most k characters |
| Decimal.RenderWidths | YeelightService.py:146-149 | digit widths for the range limits: one digit below 10, at most 3 below 1000, at most 4 below 10000 |
| Framing.Commas | YeelightService.py:125-128 | the filler run; no ensures of its own: `FormatRequest` states its length and that every character is `,`, and `UnframeAppendCommas` that it is dropped again on reading |
| Framing.FormatRequest | YeelightService.py:119-128 | the result has exactly `length` characters (none for a negative length); a non-empty text that fits is its prefix; every other character is `,` |
| Framing.Unframe | YeelightService.py:125 | drops exactly the trailing filler: a prefix of the payload, followed by commas only, not ending in a comma |
| Framing.UnframeFormatRequest | YeelightService.py:123-128 | a fitting text that does not end in filler is recovered from its frame; an empty or over-long text leaves nothing but filler |
| Framing.FormatRequestIdempotent | YeelightService.py:123-126 | framing a fitting text twice equals framing it once, and a text of exactly the frame width is unchanged |
| Fields.Join | YeelightService.py:150 | comma-joined decimal fields start and end with a digit |
| Fields.DecodeWord | YeelightService.py:150 | a word without commas that parses as a number decodes as that one field |
| Fields.DecodeJoin | YeelightService.py:150 | splitting the joined text at commas and parsing each part gives back the fields |
| Fields.FramedFieldsRoundTrip | YeelightService.py:123-126 | fields whose text fits the frame are decoded exactly from the padded payload |
| Fields.FillerCarriesNothing | YeelightService.py:127-128 | the all-filler fallback decodes to no fields |
| Fields.Join4 | YeelightService.py:150 | four joined fields are `"%d,%d,%d,%d"` |
| Fields.Join2 | YeelightService.py:157 | two joined fields are `"%d,%d"` |
| Fields.Join6 | YeelightService.py:193 | six joined fields are `"%d,%d,%d,%d,%d,%d"` |
| Protocol.ValidColor | YeelightService.py:146-149 | the four colour checks; no ensures of its own: `ControlRequest` succeeds exactly when it holds |
| Protocol.ControlText | YeelightService.py:150 | the `"%d,%d,%d,%d"` text; no ensures of its own: `ControlTextWidth` gives its closed form and width, `DecodeJoin` its read-back |
| Protocol.ControlTextWidth | YeelightService.py:146-150 | a valid colour's text is `"r,g,b,a"` and at most 15 characters, so it fits the 18-character frame |
| Protocol.ControlRequest | YeelightService.py:142-150 | succeeds exactly when 0<=r,g,b<=255 and 0<=a<=100; the payload is the text padded to 18 and decodes to [r,g,b,a]; otherwise RangeError |
| Protocol.ValidDelay | YeelightService.py:156-163 | the check `0 < mins < 1440` of `delay_on` and `delay_off`; no ensures of its own: `DelayRequest` succeeds exactly when it holds, and `BoundaryFrames` shows both limits excluded |
| Protocol.DelayText | YeelightService.py:157-164 | the `"%d,1"` and `"%d,0"` texts; no ensures of its own: `DelayTextWidth` gives their closed form and width |
| Protocol.DelayTextWidth | YeelightService.py:152-164 | a valid delay's text is `"mins,1"` or `"mins,0"` and at most 6 characters |
| Protocol.DelayRequest | YeelightService.py:152-164 | succeeds exactly when 0<mins<1440; the payload is the text padded to 8 and decodes to [mins, 1 or 0]; otherwise RangeError |
| Protocol.DelayQueryPayload | YeelightService.py:171 | the delay query is "RT", unchanged by its 2-character frame |
| Protocol.StatusQueryPayload | YeelightService.py:178 | the status query is "S", unchanged by its 1-character frame |
| Protocol.FlowControlPayload | YeelightService.py:194-200 | the commit (line 194) is "CB" and the stop command (line 200) "CE", each followed by 18 commas, 20 characters, and each reads back as its token |
| Protocol.EffectPayload | YeelightService.py:202-218 | each effect writes its token "TS", "TE" or "DF" unchanged, 2 characters |
| Protocol.EffectPayloadInjective | YeelightService.py:206-218 | distinct effects have distinct payloads |
| Protocol.ValidStep | YeelightService.py:187-192 | the five checks on one flow step; no ensures of its own: `FirstInvalid`, `FlowWritesStopped` and `FailedFlowWrites` give the first step that fails them |
| Protocol.StepText | YeelightService.py:193 | the `"%d,%d,%d,%d,%d,%d"` text of step i; no ensures of its own: `StepTextWidth` bounds it and `Join6` gives its closed form |
| Protocol.StepPayload | YeelightService.py:193 | step i's framed payload; no ensures of its own: `StepPayloadSpec` gives its length, its text and its read-back |
| Protocol.StepTextWidth | YeelightService.py:187-193 | a valid step at a single-digit position renders in at most 20 characters |
| Protocol.WidestStepFillsFrame | YeelightService.py:193 | the bound is tight: step 8 of (255,255,255,100,10) is exactly 20 characters |
| Protocol.StepPayloadSpec | YeelightService.py:193 | a step's payload is exactly 20 characters, its text padded, and decodes to (i, r, g, b, brightness, delay) |
| Protocol.CommitIsNoStep | YeelightService.py:193-194 | the commit decodes to no fields, so it differs from every step payload |
| Protocol.FirstInvalid | YeelightService.py:186-192 | the position of the first step failing its checks: all before it pass, it fails, or it is the length |
| Protocol.StepWrites | YeelightService.py:186-193 | the writes of steps 0..k-1 in index order; its ensures gives their number, and `StepWritesAt` each write |
| Protocol.StepWritesAt | YeelightService.py:186-193 | write j of the first k steps is step j's payload to the colour-flow characteristic, in index order |
| Protocol.StepWritesPayloads | YeelightService.py:186-193 | each of the first k writes is step j's payload, 20 characters long, and decodes to (j, step j) |
| Protocol.FlowWrites | YeelightService.py:185-194 | every write `start_color_flow` issues, in order; no ensures of its own: `ValidFlowWrites`, `FailedFlowWrites` and `LongFlowWritesNothing` give it for each way the call can go |
| Protocol.FlowOutcome | YeelightService.py:185-194 | how `start_color_flow` ends; no ensures of its own: the same three lemmas give Pass, BadStep(k) or TooManySteps |
| Protocol.FlowWritesComplete | YeelightService.py:185-194 | when every step passes, the writes are the step writes followed by the commit, and the call passes |
| Protocol.FlowWritesStopped | YeelightService.py:186-193 | when step k is the first to fail, the writes are those of steps 0..k-1 and the call fails with BadStep(k) |
| Protocol.ValidFlowWrites | YeelightService.py:185-194 | at most 9 valid steps give exactly n+1 writes of 20 characters to the colour-flow characteristic: write j is exactly step j's payload and decodes to (j, step j), and the last is the "CB" commit |
| Protocol.FailedFlowWrites | YeelightService.py:186-193 | if step k fails, exactly steps 0..k-1 were written, none of them a commit, and the call fails with BadStep(k) |
| Protocol.LongFlowWritesNothing | YeelightService.py:185 | more than 9 steps: no write at all and TooManySteps |
| Protocol.BrightestWhiteFrame | YeelightService.py:142-150 | control(255,255,255,100) frames as "255,255,255,100,,," (18 characters) |
| Protocol.FiveMinuteDelayFrame | YeelightService.py:152-157 | delay_on(5) frames as "5,1,,,,," (8 characters) |
| Protocol.BoundaryFrames | YeelightService.py:119-164 | 1440 and 0 minutes, r = 256 and brightness 101 fail the checks; "" framed to 8 and "toolongvalue" framed to 4 give filler only |
| Notify.FirstIndex | YeelightService.py:48-49 | the first position holding the callback |
| Notify.RemoveFirst | YeelightService.py:48-49 | the queue after `list.remove`; no ensures of its own: `RemoveFirstCount`, `RemoveFirstOrder` and `RemoveJustRegistered` state what it removes and what it keeps |
| Notify.RemoveFirstCount | YeelightService.py:48-49 | removing takes out exactly one occurrence of the callback and nothing else |
| Notify.RemoveFirstOrder | YeelightService.py:48-49 | the entries keep their order: those before the removed one stay, those after move up by one |
| Notify.RemoveJustRegistered | YeelightService.py:45-49 | appending a callback not in the queue and removing it again restores the queue |
| Notify.NotifyDelegate.constructor | YeelightService.py:41-43 | the queue starts empty |
| Notify.NotifyDelegate.Register | YeelightService.py:45-46 | the callback is appended |
| Notify.NotifyDelegate.Deregister | YeelightService.py:48-49 | the first occurrence is removed; a callback that is not registered is an error and the queue is unchanged |
| Notify.NotifyDelegate.HandleNotification | YeelightService.py:51-57 | every queued callback is invoked once, in queue order, with the same {data, handle} record |
| Service.Delivered | YeelightService.py:83-87 | the writes that reach the device, skipping those whose characteristic is missing; no ensures of its own: the four `Delivered*` lemmas below state its meaning |
| Service.DeliveredOnlyPresent | YeelightService.py:83-87 | only writes to characteristics the device exposes reach it |
| Service.DeliveredAllPresent | YeelightService.py:83-85 | every write reaches the device when all its targets are exposed |
| Service.DeliveredNonePresent | YeelightService.py:86-87 | no write reaches the device when none of its targets is exposed |
| Service.DeliveredAppend | YeelightService.py:78-87 | skipping missing characteristics distributes over consecutive batches of writes |
| Service.Collected | YeelightService.py:105-107 | a query's callback has collected a record exactly when a delivery reached it, and the record is the one in the last delivery to it, since each call overwrites the previous one |
| Service.CollectedRecord | YeelightService.py:53-57 | when one notification is delivered, the query collects exactly that notification's record |
| Service.YeelightService.constructor | YeelightService.py:60-69 | a client of a device exposing the given characteristics starts with nothing written and no callback registered |
| Service.YeelightService.WriteCharacter | YeelightService.py:78-87 | the write is appended to the log when the characteristic is present, and skipped otherwise |
| Service.YeelightService.Control | YeelightService.py:142-150 | valid input gives exactly one framed write to the control characteristic; invalid input gives RangeError and no write |
| Service.YeelightService.TurnOn | YeelightService.py:130-134 | exactly the effect of control(255,255,255,brightness), with brightness 100 by default |
| Service.YeelightService.TurnOff | YeelightService.py:136-140 | exactly the effect of control(0,0,0,0), which always passes its checks |
| Service.YeelightService.DelayOn | YeelightService.py:152-157 | a framed "mins,1" to the delay characteristic, or RangeError and no write; 5 minutes by default |
| Service.YeelightService.DelayOff | YeelightService.py:159-164 | a framed "mins,0" to the delay characteristic, or RangeError and no write; 5 minutes by default |
| Service.YeelightService.NotifyCharacter | YeelightService.py:100-117 | one write of the query; the callback queue is as before on both the notification and the timeout path; the answer is the notification's {data, handle}, or None on timeout |
| Service.YeelightService.DelayStatus | YeelightService.py:166-171 | writes "RT" to the delay-query characteristic and answers as NotifyCharacter does |
| Service.YeelightService.ControlStatus | YeelightService.py:173-178 | writes "S" to the query characteristic and answers as NotifyCharacter does |
| Service.YeelightService.StartColorFlow | YeelightService.py:180-194 | the log gains exactly the delivered part of FlowWrites(flows), in order, and the result is FlowOutcome(flows) |
| Service.YeelightService.StopColorFlow | YeelightService.py:196-200 | one write of "CE" padded to 20 to the colour-flow characteristic |
| Service.YeelightService.EffectSmooth | YeelightService.py:202-206 | one write of "TS" to the colour-effect characteristic |
| Service.YeelightService.EffectImmediate | YeelightService.py:208-212 | one write of "TE" to the colour-effect characteristic |
| Service.YeelightService.EffectCurrentColor | YeelightService.py:214-218 | one write of "DF" to the colour-effect characteristic |

## Left out

- The Bluetooth transport is a parameter of the model. It covers connecting, service discovery, characteristic lookup, `write`, `read` and `waitForNotifications`. The characteristics the device exposes are the fixed set `present`. A write is an entry in `log`. The five-second wait is an optional notification supplied by the caller.
- `__read_character__` is left out: it passes a read straight to the transport and has no logic of its own.
- `logging` calls and the demonstration block at lines 233-246 are left out, because they are output only.
- The UUID strings are opaque, distinct `Characteristic` values. The strings themselves play no part in any behaviour modelled.
- The vendor message format of the notification payloads is left out. The client returns them raw and never parses them.
- Python's `assert` disappears under `python -O`. The model treats every check as always enabled.
- Arguments are Python integers. The model does not cover floats or booleans passed through `%d`, or any other argument type.
- The model distinguishes the checks that fail, with `RangeError`, `TooManySteps` and `BadStep(k)`. The client raises a bare `AssertionError` for all of them.
- `Service.YeelightService.NotifyCharacter`: transport errors are not modelled. In the client, a `write` (YeelightService.py:109) or `waitForNotifications` (:110) that raises skips the `deregister` of :112 and :116, because there is no `try`/`finally`, so the callback stays queued and every later notification still invokes it. The model's `ensures delegate.queue == old(delegate.queue)` holds only because its transport cannot fail. A notification that bluepy dispatches while the query write is still waiting for its response is not modelled either. Neither is more than one notification per wait, or a callback that raises. The model sees only the outcome of the one wait.
- `Service.YeelightService.StartColorFlow`: a write that raises part-way through also leaves the steps before it written and no commit. The model has no such failure: only a failed check stops the flow early.
- On the notification path the client returns a dict. The model returns the equivalent `Record`. The client would return an empty dict if its callback were never invoked, but that cannot happen here, because the callback is always queued.
- Concurrent or overlapping queries are left out, because the client has only one thread. `Valid` says every queued callback came from an earlier call. In the client, a leftover entry arises only from the transport-error path above.
- The decoder (`Unframe`, `Split`, `DecodeFields`) is not code of the client, and nothing in the client reads a payload back. It is a reference decoder that drops trailing filler and splits at commas. It is not the device's parser, which belongs to the vendor format left out above. It serves to prove that the encoders lose no information.
- `self.data` (line 64) is never used, so it is not modelled.
