# Cinghialino shipment tracking: support chat and progress arithmetic

This project models two parts of a single-page shipment-tracking site and proves
properties of the model in Dafny.

- **The support-chat widget** (`SupportChat` component). Its state is:
  - whether the panel is open;
  - the list of messages, seeded with one bot welcome;
  - the draft in the input box;
  - the "bot is typing" flag.

  Event handlers change that state. They toggle the panel, edit the draft and
  submit the draft, either with the send button or with the Enter key. A submit
  arms a 1500 ms timer. When the timer fires, its callback appends a canned
  "boar noise" reply.
- **The tracking page's arithmetic**: the progress percentage clamped to [0, 100],
  the whole weeks elapsed since the order, the days remaining until the estimated
  delivery, and the constant timeline of six delivery events with its connector rule.

Layout of the project:

- `js_string.dfy` (module `JsString`) models JavaScript's `String.prototype.trim`.
  It strips the ECMAScript white-space and line-terminator characters.
- `chat_model.dfy` (module `ChatModel`) holds the widget's state as a value and one
  transition function per handler. It also holds the reply timers, modelled as a
  first-in first-out queue. Every timer has the same delay, so timers fire in the
  order they were armed. Each queue entry keeps only what its callback captured:
  the length of the message list at submit time. The module also holds the
  invariant every reachable state satisfies, a second invariant that matches
  each bot reply to the user message it answers, and the lemmas.
- `support_chat.dfy` (module `SupportChatWidget`) holds the class `SupportChat`.
  It has the component's fields and one method per handler, plus `FireReply` for
  the timer callback. Each method is proved to perform the matching transition of
  `ChatModel` and to keep the invariant.
- `shipment_tracking.dfy` (module `ShipmentTracking`) holds the date arithmetic over
  integer milliseconds and the timeline data.

Three behaviours one might expect of a chat widget do not hold in the code; the model follows the code:

- One might expect message ids to be unique and strictly increasing. In the code, a
  bot reply's id is computed from the length captured at submit time, but the
  reply is appended to the current list. So when replies overlap, a reply takes
  the id of the next user message, and ids can even decrease. The lemmas
  `OverlappingRepliesDuplicateIds` and `OverlappingRepliesBreakIdOrder` prove this.
  `SerialStep` proves that ids stay exactly 1..n while replies do not overlap.
  Each reply still answers a different user message: timers fire in submit
  order and each captured the list length at its own submit. So once no timer is
  armed, every user message has exactly one reply after it
  (`EveryMessageAnsweredOnce`).
- One might expect the typing indicator to be on exactly when a reply is pending. In
  the code, the first reply to fire turns it off even if other timers are still
  armed. The model proves only the direction that holds: no armed timer implies
  not typing.
- One might expect the reply timer to be cancelled when the widget unmounts. The code never
  cancels it, so the model has no cancellation.

## Model

| member | source | states |
|---|---|---|
| JsString.TrimStartSpec | components/support-chat.tsx:61 | trimming the start leaves a suffix of the text, preceded only by white space, whose first character is not white space |
| JsString.TrimEndSpec | components/support-chat.tsx:61 | trimming the end leaves a prefix of the text, followed only by white space, whose last character is not white space |
| JsString.TrimEmptyIffAllWhitespace | components/support-chat.tsx:61 | `trim()` gives "" exactly when every character of the draft is white space |
| ChatModel.NoiseIndex | components/support-chat.tsx:57 | `Math.floor(r * 5)` for `0 <= r < 1` is a valid index 0..4 of the reply list |
| ChatModel.GenerateBoarNoise | components/support-chat.tsx:49-58 | the generated reply is one of the five canned strings, never the welcome text |
| ChatModel.InitialState | components/support-chat.tsx:20-30 | the initial state is closed, with an empty draft, not typing, no armed timer and exactly one message, the bot welcome with id 1; it satisfies the invariant and the reply matching, and has consecutive ids |
| ChatModel.ToggleTwice | components/support-chat.tsx:33-35 | toggling twice restores the whole state |
| ChatModel.SendBlankIsNoop | components/support-chat.tsx:61 | submitting a white-space-only draft changes nothing: not the messages, not the draft, not the typing flag, not the timer queue |
| ChatModel.SendNonBlank | components/support-chat.tsx:60-77 | submitting a non-blank draft appends exactly one message at the end: a user message with the untrimmed draft and id old length + 1. Earlier messages are unchanged, the draft becomes "", typing turns on, one timer is queued capturing the old length, and the panel is untouched |
| ChatModel.KeyDownSubmitsOnlyOnEnter | components/support-chat.tsx:89-93 | a key press adds exactly one message, the user's untrimmed draft with id old length + 1, exactly when the key is Enter and the draft is not white space only; then the draft clears and typing turns on. Any other key, or Enter on a blank draft, leaves the whole state unchanged |
| ChatModel.SentInv | components/support-chat.tsx:60-87 | a submit keeps the invariant. User messages carry id = position + 1 and non-blank content; every bot reply follows the user message it answers; every armed timer points at a user message; users + 1 = bot messages + armed timers; no armed timer means not typing |
| ChatModel.RepliedInv | components/support-chat.tsx:77-86 | a firing timer keeps the same invariant |
| ChatModel.StepInv | components/support-chat.tsx:33-143 | every handler and every timer that can fire keeps the invariant; typing and submitting are possible only while the panel is open, since the input box and send button are rendered only then |
| ChatModel.RunInv | components/support-chat.tsx:19-93 | every state reached by any sequence of events from an invariant state satisfies the invariant |
| ChatModel.RunCountsUsers | components/support-chat.tsx:60-74 | over any sequence of events, the number of user messages grows by exactly the number of submits of a non-blank draft |
| ChatModel.SentMatched | components/support-chat.tsx:60-77 | a submit keeps every reply matched to the message it answers: timers stay in submit order (each captures the list length at its own submit), no two bot replies answer the same user message, and every user message is either answered already or awaited by an armed timer, never both |
| ChatModel.RepliedMatched | components/support-chat.tsx:77-86 | a firing timer answers the user message it captured, which had no reply yet and is awaited by no later timer, so the matching is kept |
| ChatModel.StepMatched | components/support-chat.tsx:33-143 | every handler and every timer that can fire keeps the reply matching |
| ChatModel.RunMatched | components/support-chat.tsx:19-93 | the reply matching holds after any sequence of events from a state that has it |
| ChatModel.EveryMessageAnsweredOnce | components/support-chat.tsx:64-84 | once no timer is armed, every user message has exactly one bot reply; it comes after the message and its id is one above the message's id |
| ChatModel.QuietRunAnswersEveryMessage | components/support-chat.tsx:19-86 | from the mounted widget, after any sequence of events that leaves no timer armed, every user message has a bot reply after it with id one above its own |
| ChatModel.ReplyAnswersItsMessage | components/support-chat.tsx:77-86 | a firing timer appends one bot message at the end and leaves earlier messages unchanged. The reply has a canned text and id = captured length + 2, one above the user message it answers. Typing turns off and the timer leaves the queue. If a user message directly follows the answered one, the reply duplicates its id |
| ChatModel.SerialStep | components/support-chat.tsx:65-84 | while no submit happens with a reply pending, at most one timer is armed and ids stay exactly 1..n: the reply's id equals the new list length |
| ChatModel.OverlappingRepliesDuplicateIds | components/support-chat.tsx:60-86 | two submits before the first reply fires: that reply gets the same id as the second user message, and typing is off while a timer is still armed |
| ChatModel.OverlappingRepliesBreakIdOrder | components/support-chat.tsx:64-84 | three submits before the first reply fires: that reply's id is lower than the id of the message just before it |
| SupportChatWidget.SupportChat.constructor | components/support-chat.tsx:20-30 | the mounted widget is closed, with an empty draft, not typing, no armed timer and only the welcome message, and it is valid: it satisfies the invariant and the reply matching |
| SupportChatWidget.SupportChat.ToggleChat | components/support-chat.tsx:33-35 | flips `isOpen` and leaves every other field unchanged |
| SupportChatWidget.SupportChat.HandleInputChange | components/support-chat.tsx:37-39 | stores the new draft verbatim and leaves every other field unchanged |
| SupportChatWidget.SupportChat.HandleSendMessage | components/support-chat.tsx:60-87 | a white-space-only draft changes nothing. Otherwise it appends the user message with id old length + 1 and the untrimmed draft, clears the draft, sets typing and queues a timer capturing the old length. Either way the new state is `Sent` of the old one, and the invariant and the reply matching still hold |
| SupportChatWidget.SupportChat.FireReply | components/support-chat.tsx:77-86 | appends a bot message with id = captured length + 2 and the chosen canned text, clears typing, removes the oldest timer, leaves panel and draft unchanged; the invariant and the reply matching still hold |
| SupportChatWidget.SupportChat.HandleKeyDown | components/support-chat.tsx:89-93 | Enter performs exactly a submit; any other key changes nothing |
| ShipmentTracking.FloorDiv | shipment-tracking.tsx:24 | `Math.floor(x / d)` for d > 0: q·d ≤ x < (q+1)·d |
| ShipmentTracking.CeilDiv | shipment-tracking.tsx:25 | `Math.ceil(x / d)` for d > 0: (q−1)·d < x ≤ q·d |
| ShipmentTracking.ProgressPercentage | shipment-tracking.tsx:21 | the percentage lies in [0, 100]; between the two dates it is the whole number of percent elapsed |
| ShipmentTracking.ElapsedWeeks | shipment-tracking.tsx:24 | weeks·604800000 ≤ elapsed < (weeks+1)·604800000 |
| ShipmentTracking.RemainingDays | shipment-tracking.tsx:25 | (days−1)·86400000 < remaining ≤ days·86400000 |
| ShipmentTracking.RawPercentInRange | shipment-tracking.tsx:21 | before clamping, the floored percentage already lies in [0, 100] between the two dates, and it is exactly 100 at the delivery date |
| ShipmentTracking.ProgressZeroBeforeOrder | shipment-tracking.tsx:19-21 | at or before the order date the progress is 0 |
| ShipmentTracking.ProgressFullAfterDelivery | shipment-tracking.tsx:19-21 | at or after the estimated delivery date the progress is 100 |
| ShipmentTracking.ProgressMonotone | shipment-tracking.tsx:14-21 | for a positive total duration, progress never decreases as the current time advances |
| ShipmentTracking.ShipmentSpansFortyWeeks | shipment-tracking.tsx:14-19 | the shipment's two dates are 40 weeks apart, so the total duration is positive |
| ShipmentTracking.TimelineIds | shipment-tracking.tsx:28-77 | the timeline has six events with ids 1..6 in order, so the ids are unique and strictly increasing |
| ShipmentTracking.ConnectorsAmongPrefix | shipment-tracking.tsx:133 | in a list of n events, the rule `index < length - 1` gives a connector to every event but the last, so n - 1 connectors in all |
| ShipmentTracking.ConnectorRule | shipment-tracking.tsx:28-133 | on the actual timeline every event except the final "Delivery" gets a connector, five in all |
| ShipmentTracking.TimelineStatusOrder | shipment-tracking.tsx:28-77 | completed events come first, then the single in-progress event (the fourth), then the pending ones |

## Left out

- Rendering (JSX, class names, icons, `cn`) is presentation only and is not modelled. So are the `date-fns` `format` calls. The first timeline event's date is kept as an opaque "formatted order date" label.
- The `scrollIntoView` effect that runs when the messages change is a DOM side effect and is not modelled.
- Message timestamps (`new Date()`) are clock reads and are omitted from `Message`. The current time of the tracking page is a parameter (`nowMs`).
- `Math.random` is not modelled. The caller supplies the reply index (`noise < 5`), and `NoiseIndex` shows that `Math.floor(r * 5)` yields such an index.
- Wall-clock timing is not modelled. A timer firing is the explicit `FireReply` event, applied to the oldest armed timer.
- ShipmentTracking.ProgressPercentage: computes `floor(elapsed * 100 / total)` exactly, not the floating-point `Math.floor((elapsed / total) * 100)`. Because of rounding, the two can differ by one at exact multiples of one percent.
- `Date` parsing is not modelled. The two shipment dates are constants in milliseconds since the epoch: the UTC midnights that `new Date("2024-11-22")` and `new Date("2025-08-29")` denote.
- ChatModel.Inv: states only that no armed timer implies not typing. The converse fails in the code, because the first reply clears the flag while later timers are still armed.
- The page layout component and the progress-bar styling wrapper (a CSS translate over an external primitive) are not part of this model.
- The class methods `HandleInputChange`, `HandleSendMessage` and `HandleKeyDown` do not require the panel to be open, just as the handlers themselves do not check it. The page offers the input box and the send button only while the panel is open, and the event runs in `ChatModel` (`Enabled`) respect this.
