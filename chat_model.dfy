/** The state of the support-chat widget as a value, the transitions its event
    handlers and its reply timer perform on it, and what those transitions keep. */
module ChatModel {
  import opened JsString

  datatype Sender = User | Bot

  /** A chat message. The creation timestamp is not modelled. */
  datatype Message = Message(id: int, content: string, sender: Sender)

  /** One armed reply timer: all it remembers is the length of the message list
      its callback closed over when the user submitted. */
  datatype PendingReply = PendingReply(capturedLength: nat)

  /** The widget's four pieces of state plus the queue of armed reply timers,
      oldest first. Every timer has the same 1500 ms delay, so they fire in this order. */
  datatype ChatState = ChatState(
    isOpen: bool,
    messages: seq<Message>,
    inputValue: string,
    isTyping: bool,
    pending: seq<PendingReply>)

  const WelcomeText: string := "Need help tracking your Cinghialino? I'm here to help!"

  const Welcome: Message := Message(1, WelcomeText, Bot)

  /** The canned replies the bot picks from. */
  const BoarNoises: seq<string> := [
    "Oink! Oink! Your Cinghialino is on its way!",
    "GRUNT! We're working hard to deliver your package!",
    "SNORT! SNORT! Tracking is active!",
    "Oink oink! Your Cinghialino is being handled with care!",
    "GRUNT! GRUNT! We appreciate your patience!"
  ]

  /** The index picked by scaling a random r in [0, 1) to the number of replies
      and rounding down. */
  function NoiseIndex(r: real): (i: int)
    requires 0.0 <= r < 1.0
    ensures 0 <= i < |BoarNoises|
  {
    (r * |BoarNoises| as real).Floor
  }

  /** The bot reply chosen by index i (the random pick is supplied by the caller). */
  function GenerateBoarNoise(i: nat): (reply: string)
    requires i < |BoarNoises|
    ensures reply in BoarNoises && reply != WelcomeText
  {
    BoarNoises[i]
  }

  // ---------------------------------------------------------------------------
  // Transitions

  function Initial(): ChatState {
    ChatState(false, [Welcome], "", false, [])
  }

  function Toggled(s: ChatState): ChatState {
    s.(isOpen := !s.isOpen)
  }

  function WithInput(s: ChatState, value: string): ChatState {
    s.(inputValue := value)
  }

  /** The message a successful submit appends. */
  function UserMessage(s: ChatState): Message {
    Message(|s.messages| + 1, s.inputValue, User)
  }

  function Sent(s: ChatState): ChatState {
    if Trim(s.inputValue) == "" then s
    else s.(messages := s.messages + [UserMessage(s)],
            inputValue := "",
            isTyping := true,
            pending := s.pending + [PendingReply(|s.messages|)])
  }

  /** The message the oldest armed timer appends: its id comes from the length
      captured at submit time, not from the list it is appended to. */
  function BotMessage(s: ChatState, noise: nat): Message
    requires s.pending != [] && noise < |BoarNoises|
  {
    Message(s.pending[0].capturedLength + 2, GenerateBoarNoise(noise), Bot)
  }

  function Replied(s: ChatState, noise: nat): ChatState
    requires s.pending != [] && noise < |BoarNoises|
  {
    s.(messages := s.messages + [BotMessage(s, noise)],
       isTyping := false,
       pending := s.pending[1..])
  }

  function KeyPressed(s: ChatState, key: string): ChatState {
    if key == "Enter" then Sent(s) else s
  }

  // ---------------------------------------------------------------------------
  // Runs of events

  datatype Event = Toggle | Input(value: string) | Send | KeyDown(key: string) | Fire(noise: nat)

  /** A timer can only fire when one is armed; the input box and the send button
      exist only while the panel is open, so typing and submitting need it open. */
  predicate Enabled(s: ChatState, e: Event) {
    (e.Fire? ==> s.pending != [] && e.noise < |BoarNoises|)
    && ((e.Input? || e.Send? || e.KeyDown?) ==> s.isOpen)
  }

  function Step(s: ChatState, e: Event): ChatState
    requires Enabled(s, e)
  {
    match e
    case Toggle => Toggled(s)
    case Input(v) => WithInput(s, v)
    case Send => Sent(s)
    case KeyDown(k) => KeyPressed(s, k)
    case Fire(n) => Replied(s, n)
  }

  /** The event submits a non-blank draft. */
  predicate Submits(s: ChatState, e: Event) {
    (e.Send? || (e.KeyDown? && e.key == "Enter")) && Trim(s.inputValue) != ""
  }

  datatype Option<T> = None | Some(value: T)

  /** The state after a sequence of events, or None if a timer fires when none is armed. */
  function Run(s: ChatState, es: seq<Event>): Option<ChatState>
    decreases |es|
  {
    if es == [] then Some(s)
    else if !Enabled(s, es[0]) then None
    else Run(Step(s, es[0]), es[1..])
  }

  /** How many events of a run submit a non-blank draft. */
  function Accepted(s: ChatState, es: seq<Event>): nat
    decreases |es|
  {
    if es == [] || !Enabled(s, es[0]) then 0
    else (if Submits(s, es[0]) then 1 else 0) + Accepted(Step(s, es[0]), es[1..])
  }

  // ---------------------------------------------------------------------------
  // Invariants

  function CountSender(m: seq<Message>, who: Sender): nat {
    if m == [] then 0
    else CountSender(m[..|m| - 1], who) + (if m[|m| - 1].sender == who then 1 else 0)
  }

  /** What every message at position i looks like in a reachable state: the
      welcome first; a user message carries id i + 1 and non-blank content; a bot
      reply carries a canned text and an id one above that of the user message it
      answers, which lies strictly before it. */
  ghost predicate WellFormedAt(m: seq<Message>, i: int)
    requires 0 <= i < |m|
  {
    if i == 0 then m[i] == Welcome
    else match m[i].sender
      case User => m[i].id == i + 1 && Trim(m[i].content) != ""
      case Bot => 3 <= m[i].id <= i + 1 && m[m[i].id - 2].sender == User && m[i].content in BoarNoises
  }

  /** Every armed timer remembers the position of the user message it answers. */
  ghost predicate PendingOk(m: seq<Message>, q: seq<PendingReply>) {
    forall k :: 0 <= k < |q| ==> 1 <= q[k].capturedLength < |m| && m[q[k].capturedLength].sender == User
  }

  ghost predicate Inv(s: ChatState) {
    |s.messages| >= 1
    && (forall i :: 0 <= i < |s.messages| ==> WellFormedAt(s.messages, i))
    && PendingOk(s.messages, s.pending)
    // as many bot messages and armed timers together as user messages plus the welcome
    && CountSender(s.messages, User) + 1 == CountSender(s.messages, Bot) + |s.pending|
    && (s.pending == [] ==> !s.isTyping)
  }

  /** Ids are exactly 1..n in list order. */
  predicate IdsConsecutive(m: seq<Message>) {
    forall i :: 0 <= i < |m| ==> m[i].id == i + 1
  }

  /** No replies overlap: at most one timer is armed, and it answers the last message. */
  predicate Serial(s: ChatState) {
    IdsConsecutive(s.messages)
    && (s.pending == [] || (|s.pending| == 1 && s.pending[0].capturedLength + 1 == |s.messages|))
  }

  // ---------------------------------------------------------------------------
  // Lemmas

  lemma CountSenderAppend(m: seq<Message>, x: Message, who: Sender)
    ensures CountSender(m + [x], who) == CountSender(m, who) + (if x.sender == who then 1 else 0)
  {
    assert (m + [x])[..|m + [x]| - 1] == m;
  }

  lemma WellFormedAppend(m: seq<Message>, x: Message, i: int)
    requires 0 <= i < |m|
    ensures WellFormedAt(m + [x], i) == WellFormedAt(m, i)
  {
    var m' := m + [x];
    assert m'[i] == m[i];
    if 3 <= m[i].id <= i + 1 {
      assert m'[m[i].id - 2] == m[m[i].id - 2];
    }
  }

  /** The initial state: closed, empty draft, not typing, no timer, only the welcome with id 1. */
  lemma InitialState()
    ensures var s := Initial();
      !s.isOpen && s.inputValue == "" && !s.isTyping && s.pending == []
      && s.messages == [Message(1, WelcomeText, Bot)]
    ensures Inv(Initial()) && Serial(Initial()) && RepliesMatched(Initial())
  {
  }

  /** Toggling twice restores the state. */
  lemma ToggleTwice(s: ChatState)
    ensures Toggled(Toggled(s)) == s
  {
  }

  /** A blank or white-space-only draft is not sent: nothing changes, not even the draft. */
  lemma SendBlankIsNoop(s: ChatState)
    requires AllWhitespace(s.inputValue)
    ensures Sent(s) == s
  {
    TrimEmptyIffAllWhitespace(s.inputValue);
  }

  /** A non-blank draft is sent verbatim as one user message at the end, with id
      old length + 1; earlier messages stay, the draft clears, the bot is typing,
      and one reply timer is armed. */
  lemma SendNonBlank(s: ChatState)
    requires !AllWhitespace(s.inputValue)
    ensures var t := Sent(s);
      |t.messages| == |s.messages| + 1 && t.messages[..|s.messages|] == s.messages
      && t.messages[|s.messages|] == Message(|s.messages| + 1, s.inputValue, User)
      && t.inputValue == "" && t.isTyping && t.isOpen == s.isOpen
      && t.pending == s.pending + [PendingReply(|s.messages|)]
  {
    TrimEmptyIffAllWhitespace(s.inputValue);
  }

  /** A key press adds a message exactly when the key is Enter and the draft is not
      white space only; that message is the user's draft, and the draft then clears.
      Any other key, or Enter on a blank draft, leaves the whole state unchanged. */
  lemma KeyDownSubmitsOnlyOnEnter(s: ChatState, key: string)
    ensures var t := KeyPressed(s, key);
      var submits := key == "Enter" && !AllWhitespace(s.inputValue);
      |t.messages| == |s.messages| + (if submits then 1 else 0)
      && t.messages[..|s.messages|] == s.messages
      && (submits ==> t.messages[|s.messages|] == Message(|s.messages| + 1, s.inputValue, User)
                      && t.inputValue == "" && t.isTyping)
      && (!submits ==> t == s)
  {
    TrimEmptyIffAllWhitespace(s.inputValue);
    if key == "Enter" && !AllWhitespace(s.inputValue) {
      SendNonBlank(s);
    }
  }

  lemma SentInv(s: ChatState)
    requires Inv(s)
    ensures Inv(Sent(s))
  {
    if Trim(s.inputValue) != "" {
      var m, x := s.messages, UserMessage(s);
      var t := Sent(s);
      forall i | 0 <= i < |t.messages| ensures WellFormedAt(t.messages, i) {
        if i < |m| { WellFormedAppend(m, x, i); }
      }
      CountSenderAppend(m, x, User);
      CountSenderAppend(m, x, Bot);
    }
  }

  lemma RepliedInv(s: ChatState, noise: nat)
    requires Inv(s) && s.pending != [] && noise < |BoarNoises|
    ensures Inv(Replied(s, noise))
  {
    var m, x := s.messages, BotMessage(s, noise);
    var t := Replied(s, noise);
    var c := s.pending[0].capturedLength;
    assert t.messages[x.id - 2] == m[c];
    forall i | 0 <= i < |t.messages| ensures WellFormedAt(t.messages, i) {
      if i < |m| { WellFormedAppend(m, x, i); }
    }
    assert PendingOk(t.messages, t.pending) by {
      forall k | 0 <= k < |t.pending|
        ensures t.pending[k] == s.pending[k + 1]
      {
      }
    }
    CountSenderAppend(m, x, User);
    CountSenderAppend(m, x, Bot);
  }

  /** Every enabled event keeps the invariant. */
  lemma StepInv(s: ChatState, e: Event)
    requires Inv(s) && Enabled(s, e)
    ensures Inv(Step(s, e))
  {
    match e
    case Toggle =>
    case Input(_) =>
    case Send => SentInv(s);
    case KeyDown(k) => if k == "Enter" { SentInv(s); }
    case Fire(n) => RepliedInv(s, n);
  }

  /** Every state reachable from one satisfying the invariant satisfies it. */
  lemma {:induction false} RunInv(s: ChatState, es: seq<Event>)
    requires Inv(s) && Run(s, es).Some?
    ensures Inv(Run(s, es).value)
    decreases |es|
  {
    if es != [] {
      StepInv(s, es[0]);
      RunInv(Step(s, es[0]), es[1..]);
    }
  }

  /** The number of user messages grows by exactly the number of accepted submits. */
  lemma {:induction false} RunCountsUsers(s: ChatState, es: seq<Event>)
    requires Run(s, es).Some?
    ensures CountSender(Run(s, es).value.messages, User) == CountSender(s.messages, User) + Accepted(s, es)
    decreases |es|
  {
    if es != [] {
      var e := es[0];
      if Submits(s, e) {
        CountSenderAppend(s.messages, UserMessage(s), User);
      } else if e.Fire? {
        CountSenderAppend(s.messages, BotMessage(s, e.noise), User);
      } else {
        assert Step(s, e).messages == s.messages;
      }
      RunCountsUsers(Step(s, e), es[1..]);
    }
  }

  // ---------------------------------------------------------------------------
  // Each user message gets exactly one reply

  /** Some armed timer captured position j, so its reply will answer that message. */
  ghost predicate Awaited(q: seq<PendingReply>, j: int) {
    exists k :: 0 <= k < |q| && q[k].capturedLength == j
  }

  /** The position of the user message that the message at position i answers, or
      -1 when it is not a bot reply. */
  ghost function Target(m: seq<Message>, i: int): int
    requires 0 <= i < |m|
  {
    if m[i].sender == Bot then m[i].id - 2 else -1
  }

  /** Some bot message answers the user message at position j: it carries id j + 2. */
  ghost predicate Answered(m: seq<Message>, j: int) {
    exists i :: 0 < i < |m| && m[i].sender == Bot && m[i].id == j + 2
  }

  /** Timers were armed in submit order, no two bot replies answer the same message,
      and every user message is either answered already or awaited by a timer,
      never both. */
  ghost predicate RepliesMatched(s: ChatState) {
    var m, q := s.messages, s.pending;
    (forall k, l :: 0 <= k < l < |q| ==> q[k].capturedLength < q[l].capturedLength)
    && (forall i, i' :: 0 < i < i' < |m| && Target(m, i) != -1 ==> Target(m, i) != Target(m, i'))
    && (forall j {:trigger Awaited(q, j)} :: 1 <= j < |m| && m[j].sender == User ==> (Answered(m, j) <==> !Awaited(q, j)))
  }

  /** Appending a message adds an answer to j only if it is a reply with id j + 2. */
  lemma AnsweredAppend(m: seq<Message>, x: Message, j: int)
    requires |m| >= 1
    ensures Answered(m + [x], j) <==> Answered(m, j) || (x.sender == Bot && x.id == j + 2)
  {
    var m' := m + [x];
    if Answered(m', j) {
      var i :| 0 < i < |m'| && m'[i].sender == Bot && m'[i].id == j + 2;
      if i < |m| { assert m'[i] == m[i]; }
    }
    if Answered(m, j) {
      var i :| 0 < i < |m| && m[i].sender == Bot && m[i].id == j + 2;
      assert m'[i] == m[i];
    }
    if x.sender == Bot && x.id == j + 2 {
      assert m'[|m|] == x;
    }
  }

  /** Arming a timer adds exactly the position it captured. */
  lemma AwaitedAppend(q: seq<PendingReply>, p: PendingReply, j: int)
    ensures Awaited(q + [p], j) <==> Awaited(q, j) || p.capturedLength == j
  {
    var q' := q + [p];
    if Awaited(q', j) {
      var k :| 0 <= k < |q'| && q'[k].capturedLength == j;
      if k < |q| { assert q'[k] == q[k]; }
    }
    if Awaited(q, j) {
      var k :| 0 <= k < |q| && q[k].capturedLength == j;
      assert q'[k] == q[k];
    }
    assert q'[|q|] == p;
  }

  /** Firing the oldest timer removes its capture from the head of the queue. */
  lemma AwaitedTail(q: seq<PendingReply>, j: int)
    requires q != []
    ensures Awaited(q, j) <==> q[0].capturedLength == j || Awaited(q[1..], j)
  {
    if Awaited(q, j) {
      var k :| 0 <= k < |q| && q[k].capturedLength == j;
      if k > 0 { assert q[1..][k - 1] == q[k]; }
    }
    if Awaited(q[1..], j) {
      var k :| 0 <= k < |q[1..]| && q[1..][k].capturedLength == j;
      assert q[k + 1] == q[1..][k];
    }
  }

  /** A submit keeps every reply matched to the message it answers. */
  lemma SentMatched(s: ChatState)
    requires Inv(s) && RepliesMatched(s)
    ensures RepliesMatched(Sent(s))
  {
    if Trim(s.inputValue) != "" {
      var m, q, t := s.messages, s.pending, Sent(s);
      var n, x := |m|, UserMessage(s);
      assert t.messages == m + [x];
      assert t.pending == q + [PendingReply(n)];
      forall i, i' | 0 < i < i' < |t.messages| && Target(t.messages, i) != -1
        ensures Target(t.messages, i) != Target(t.messages, i')
      {
        assert t.messages[i] == m[i] && WellFormedAt(m, i);
        if i' < n {
          assert t.messages[i'] == m[i'];
          assert Target(m, i) != Target(m, i');
        }
      }
      forall j | 1 <= j < |t.messages| && t.messages[j].sender == User
        ensures Answered(t.messages, j) <==> !Awaited(t.pending, j)
      {
        AnsweredAppend(m, x, j);
        AwaitedAppend(q, PendingReply(n), j);
        if j < n {
          assert t.messages[j] == m[j];
          assert Answered(m, j) <==> !Awaited(q, j);
        } else {
          // every earlier reply has an id of at most its own position + 1 <= n
          forall i | 0 < i < n && m[i].sender == Bot
            ensures m[i].id != j + 2
          {
            assert WellFormedAt(m, i);
          }
        }
      }
    }
  }

  /** A firing timer answers the message it captured, which had no reply yet. */
  lemma RepliedMatched(s: ChatState, noise: nat)
    requires Inv(s) && RepliesMatched(s) && s.pending != [] && noise < |BoarNoises|
    ensures RepliesMatched(Replied(s, noise))
  {
    var m, q, t := s.messages, s.pending, Replied(s, noise);
    var n, c, x := |m|, q[0].capturedLength, BotMessage(s, noise);
    assert t.messages == m + [x];
    assert t.pending == q[1..];
    // the answered message was still awaited, so no earlier reply carries its id
    AwaitedTail(q, c);
    assert !Answered(m, c);
    forall i, i' | 0 < i < i' < |t.messages| && Target(t.messages, i) != -1
      ensures Target(t.messages, i) != Target(t.messages, i')
    {
      assert t.messages[i] == m[i];
      if i' < n {
        assert t.messages[i'] == m[i'];
        assert Target(m, i) != Target(m, i');
      } else {
        assert t.messages[i'] == x;
      }
    }
    forall j | 1 <= j < |t.messages| && t.messages[j].sender == User
      ensures Answered(t.messages, j) <==> !Awaited(t.pending, j)
    {
      assert j < n && t.messages[j] == m[j];
      AnsweredAppend(m, x, j);
      AwaitedTail(q, j);
      if j == c {
        // a later timer never captured the same position: captures strictly increase
        forall k | 0 <= k < |q[1..]| ensures q[1..][k].capturedLength != j {
          assert q[1..][k] == q[k + 1];
        }
      } else {
        assert Answered(m, j) <==> !Awaited(q, j);
      }
    }
  }

  /** Every enabled event keeps replies matched to the messages they answer. */
  lemma StepMatched(s: ChatState, e: Event)
    requires Inv(s) && RepliesMatched(s) && Enabled(s, e)
    ensures RepliesMatched(Step(s, e))
  {
    match e
    case Toggle =>
    case Input(_) =>
    case Send => SentMatched(s);
    case KeyDown(k) => if k == "Enter" { SentMatched(s); }
    case Fire(n) => RepliedMatched(s, n);
  }

  /** Every state reachable from a matched one is matched. */
  lemma {:induction false} RunMatched(s: ChatState, es: seq<Event>)
    requires Inv(s) && RepliesMatched(s) && Run(s, es).Some?
    ensures RepliesMatched(Run(s, es).value)
    decreases |es|
  {
    if es != [] {
      StepMatched(s, es[0]);
      StepInv(s, es[0]);
      RunMatched(Step(s, es[0]), es[1..]);
    }
  }

  /** Once no timer is armed, the user message at position j has exactly one bot
      reply, placed after it, whose id is one above its own. */
  lemma EveryMessageAnsweredOnce(s: ChatState, j: int)
    requires Inv(s) && RepliesMatched(s) && s.pending == []
    requires 1 <= j < |s.messages| && s.messages[j].sender == User
    ensures exists i :: j < i < |s.messages| && s.messages[i].sender == Bot && s.messages[i].id == s.messages[j].id + 1
    ensures forall i, i' ::
      (0 < i < |s.messages| && 0 < i' < |s.messages|
       && s.messages[i].sender == Bot && s.messages[i'].sender == Bot
       && s.messages[i].id == s.messages[j].id + 1 && s.messages[i'].id == s.messages[j].id + 1)
      ==> i == i'
  {
    var m := s.messages;
    assert WellFormedAt(m, j);
    assert !Awaited(s.pending, j);
    var i :| 0 < i < |m| && m[i].sender == Bot && m[i].id == j + 2;
    assert WellFormedAt(m, i);
    forall i, i' | 0 < i < |m| && 0 < i' < |m| && m[i].sender == Bot && m[i'].sender == Bot
      && m[i].id == m[j].id + 1 && m[i'].id == m[j].id + 1
      ensures i == i'
    {
      // both answer position j, and no two replies answer the same message
      assert Target(m, i) == j && Target(m, i') == j;
    }
  }

  /** From the mounted widget, after any sequence of events that leaves no timer
      armed, every user message has its reply after it. */
  lemma QuietRunAnswersEveryMessage(es: seq<Event>)
    requires Run(Initial(), es).Some? && Run(Initial(), es).value.pending == []
    ensures var m := Run(Initial(), es).value.messages;
      forall j :: 1 <= j < |m| && m[j].sender == User ==>
        exists i :: j < i < |m| && m[i].sender == Bot && m[i].id == m[j].id + 1
  {
    var s := Run(Initial(), es).value;
    InitialState();
    RunInv(Initial(), es);
    RunMatched(Initial(), es);
    forall j | 1 <= j < |s.messages| && s.messages[j].sender == User
      ensures exists i :: j < i < |s.messages| && s.messages[i].sender == Bot && s.messages[i].id == s.messages[j].id + 1
    {
      EveryMessageAnsweredOnce(s, j);
    }
  }

  /** A firing timer appends one bot message at the end, earlier messages unchanged,
      with a canned text and id one above the user message it answers, and turns
      typing off even if other timers are still armed. If another user message was
      submitted right after the one it answers, the two ids coincide. */
  lemma ReplyAnswersItsMessage(s: ChatState, noise: nat)
    requires Inv(s) && s.pending != [] && noise < |BoarNoises|
    ensures var c, t := s.pending[0].capturedLength, Replied(s, noise);
      var bot := t.messages[|s.messages|];
      |t.messages| == |s.messages| + 1 && t.messages[..|s.messages|] == s.messages
      && c < |s.messages| && s.messages[c].sender == User
      && bot.sender == Bot && bot.content in BoarNoises && bot.id == s.messages[c].id + 1
      && !t.isTyping && t.pending == s.pending[1..]
      && (c + 1 < |s.messages| && s.messages[c + 1].sender == User ==> bot.id == s.messages[c + 1].id)
  {
    var m, c, t := s.messages, s.pending[0].capturedLength, Replied(s, noise);
    assert 1 <= c < |m| && m[c].sender == User;
    assert WellFormedAt(m, c);
    assert m[c].id == c + 1;
    assert t.messages == m + [BotMessage(s, noise)];
    assert t.messages[..|m|] == m;
    if c + 1 < |s.messages| {
      assert WellFormedAt(s.messages, c + 1);
    }
  }

  /** Without overlapping replies ids stay exactly 1..n: the bot id equals the new length. */
  lemma SerialStep(s: ChatState, e: Event)
    requires Serial(s) && Enabled(s, e)
    requires s.pending != [] ==> !Submits(s, e)
    ensures Serial(Step(s, e))
  {
    var t := Step(s, e);
    if Submits(s, e) || e.Fire? {
      var x := t.messages[|s.messages|];
      assert t.messages == s.messages + [x];
      forall i | 0 <= i < |t.messages| ensures t.messages[i].id == i + 1 {
        if i < |s.messages| {
          assert t.messages[i] == s.messages[i];
        }
      }
    } else {
      assert t.messages == s.messages;
    }
  }

  /** Two submits before the first reply fires: the first reply duplicates the id
      of the second user message, and typing is off while a timer is still armed. */
  lemma OverlappingRepliesDuplicateIds(s: ChatState, a: string, b: string, noise: nat)
    requires s.pending == [] && Trim(a) != "" && Trim(b) != "" && noise < |BoarNoises|
    ensures var s1 := Sent(WithInput(s, a));
      var s2 := Sent(WithInput(s1, b));
      var s3 := Replied(s2, noise);
      var n := |s.messages|;
      |s3.messages| == n + 3 && s3.messages[n + 1].sender == User && s3.messages[n + 2].sender == Bot
      && s3.messages[n + 1].id == s3.messages[n + 2].id
      && !s3.isTyping && s3.pending != []
  {
    TrimEmptyIffAllWhitespace(a);
    TrimEmptyIffAllWhitespace(b);
    var s0 := WithInput(s, a);
    SendNonBlank(s0);
    var s1 := Sent(s0);
    var s1' := WithInput(s1, b);
    SendNonBlank(s1');
    var s2 := Sent(s1');
    var n := |s.messages|;
    assert |s1.messages| == n + 1 && s1.pending == [PendingReply(n)];
    assert |s2.messages| == n + 2 && s2.pending == [PendingReply(n), PendingReply(n + 1)];
    assert s2.messages[n + 1] == Message(n + 2, b, User);
    var s3 := Replied(s2, noise);
    assert s3.messages[n + 1] == s2.messages[n + 1];
    assert s3.messages[n + 2].id == n + 2;
  }

  /** Three submits before the first reply fires: that reply's id is lower than
      the id of the message before it, so ids are not even non-decreasing. */
  lemma OverlappingRepliesBreakIdOrder(s: ChatState, a: string, b: string, c: string, noise: nat)
    requires s.pending == [] && Trim(a) != "" && Trim(b) != "" && Trim(c) != ""
    requires noise < |BoarNoises|
    ensures var s1 := Sent(WithInput(s, a));
      var s2 := Sent(WithInput(s1, b));
      var s3 := Sent(WithInput(s2, c));
      var s4 := Replied(s3, noise);
      var n := |s.messages|;
      |s4.messages| == n + 4 && s4.messages[n + 2].id > s4.messages[n + 3].id
  {
    TrimEmptyIffAllWhitespace(a);
    TrimEmptyIffAllWhitespace(b);
    var s0 := WithInput(s, a);
    SendNonBlank(s0);
    var s1 := Sent(s0);
    var s1' := WithInput(s1, b);
    SendNonBlank(s1');
    var s2 := Sent(s1');
    TrimEmptyIffAllWhitespace(c);
    var s2' := WithInput(s2, c);
    SendNonBlank(s2');
    var s3 := Sent(s2');
    var n := |s.messages|;
    assert |s1.messages| == n + 1 && s1.pending == [PendingReply(n)];
    assert |s2.messages| == n + 2 && s2.pending[0] == PendingReply(n);
    assert |s3.messages| == n + 3 && s3.pending[0] == PendingReply(n);
    assert s3.messages[n + 2].id == n + 3;
    var s4 := Replied(s3, noise);
    assert s4.messages[n + 2] == s3.messages[n + 2];
    assert s4.messages[n + 3].id == n + 2;
  }
}
