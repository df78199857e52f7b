/** The SupportChat component: its state fields, updated in place by its event
    handlers and by the reply timer's callback. */
module SupportChatWidget {
  import opened JsString
  import opened ChatModel

  /** The handlers take no account of whether the panel is open; the page only
      offers the input box and send button while it is. */
  class SupportChat {
    var isOpen: bool
    var messages: seq<Message>
    var inputValue: string
    var isTyping: bool
    /** Armed reply timers, oldest first; each holds what its callback captured. */
    var pending: seq<PendingReply>

    /** The widget's state as a value. */
    function State(): ChatState
      reads this
    {
      ChatState(isOpen, messages, inputValue, isTyping, pending)
    }

    /** The reachable-state invariant, and every reply matched to the message it answers. */
    ghost predicate Valid()
      reads this
    {
      Inv(State()) && RepliesMatched(State())
    }

    /** Mounting the widget: closed, empty draft, not typing, only the welcome message. */
    constructor ()
      ensures Valid() && State() == Initial()
      ensures !isOpen && messages == [Message(1, WelcomeText, Bot)] && inputValue == ""
      ensures !isTyping && pending == []
    {
      isOpen := false;
      messages := [Message(1, WelcomeText, Bot)];
      inputValue := "";
      isTyping := false;
      pending := [];
      InitialState();
    }

    method ToggleChat()
      requires Valid()
      modifies this
      ensures Valid() && State() == Toggled(old(State()))
      ensures isOpen == !old(isOpen)
      ensures messages == old(messages) && inputValue == old(inputValue)
      ensures isTyping == old(isTyping) && pending == old(pending)
    {
      isOpen := !isOpen;
    }

    method HandleInputChange(value: string)
      requires Valid()
      modifies this
      ensures Valid() && State() == WithInput(old(State()), value)
      ensures inputValue == value
      ensures isOpen == old(isOpen) && messages == old(messages)
      ensures isTyping == old(isTyping) && pending == old(pending)
    {
      inputValue := value;
    }

    /** Submitting the draft: a blank draft is ignored; otherwise it is appended as a
        user message, the draft clears, typing turns on and a reply timer is armed. */
    method HandleSendMessage()
      requires Valid()
      modifies this
      ensures Valid() && State() == Sent(old(State()))
      ensures AllWhitespace(old(inputValue)) ==> State() == old(State())
      ensures !AllWhitespace(old(inputValue)) ==>
        messages == old(messages) + [Message(|old(messages)| + 1, old(inputValue), User)]
        && inputValue == "" && isTyping
        && pending == old(pending) + [PendingReply(|old(messages)|)]
      ensures isOpen == old(isOpen)
    {
      TrimEmptyIffAllWhitespace(inputValue);
      ghost var before := State();
      if Trim(inputValue) == "" {
        return;
      }
      var captured := |messages|;
      var userMessage := Message(captured + 1, inputValue, User);
      messages := messages + [userMessage];
      inputValue := "";
      isTyping := true;
      pending := pending + [PendingReply(captured)];
      assert State() == Sent(before);
      assert Valid() by {
        SentInv(before);
        SentMatched(before);
      }
    }

    /** The oldest armed timer fires: a bot message with a canned reply and the id
        computed from the captured length is appended, and typing turns off. */
    method FireReply(noise: nat)
      requires Valid() && pending != [] && noise < |BoarNoises|
      modifies this
      ensures Valid() && State() == Replied(old(State()), noise)
      ensures messages == old(messages) + [Message(old(pending)[0].capturedLength + 2, BoarNoises[noise], Bot)]
      ensures !isTyping && pending == old(pending)[1..]
      ensures isOpen == old(isOpen) && inputValue == old(inputValue)
    {
      ghost var before := State();
      var reply := pending[0];
      var botMessage := Message(reply.capturedLength + 2, GenerateBoarNoise(noise), Bot);
      messages := messages + [botMessage];
      isTyping := false;
      pending := pending[1..];
      assert State() == Replied(before, noise);
      assert Valid() by {
        RepliedInv(before, noise);
        RepliedMatched(before, noise);
      }
    }

    /** Enter submits the draft; every other key is ignored. */
    method HandleKeyDown(key: string)
      requires Valid()
      modifies this
      ensures Valid() && State() == KeyPressed(old(State()), key)
      ensures key == "Enter" ==> State() == Sent(old(State()))
      ensures key != "Enter" ==> State() == old(State())
    {
      if key == "Enter" {
        HandleSendMessage();
      }
    }
  }
}
