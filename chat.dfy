/**
 * The chat page's state: the message log, the sidebar's list of earlier
 * chats, the text in the input box and the two panel switches.  Each handler
 * is one atomic step; the clock that names messages is a parameter.
 */
module Chat {
  import Text

  datatype Message = Message(id: string, content: string, isUser: bool)

  datatype ChatHistoryEntry = ChatHistoryEntry(id: string, title: string)

  const InitialChatHistory: seq<ChatHistoryEntry> := [
    ChatHistoryEntry("1", "Previous Chat 1"),
    ChatHistoryEntry("2", "Previous Chat 2")
  ]

  const PlaceholderReply: string := "This is a placeholder response. AI integration coming soon!"

  /** `!input.trim()`: the input holds nothing but whitespace. */
  predicate IsBlank(input: string) {
    Text.Trim(input) == ""
  }

  /**
   * The log only ever grows by a sent question followed by the placeholder
   * reply: user messages at even positions, never blank, and replies at odd
   * positions.
   */
  ghost predicate WellFormedLog(messages: seq<Message>) {
    && |messages| % 2 == 0
    && (forall i :: 0 <= i < |messages| ==> (messages[i].isUser <==> i % 2 == 0))
    && (forall i :: 0 <= i < |messages| && messages[i].isUser ==> !IsBlank(messages[i].content))
    && (forall i :: 0 <= i < |messages| && !messages[i].isUser ==> messages[i].content == PlaceholderReply)
  }

  /** Appending a non-blank question and the placeholder reply keeps the log well formed. */
  lemma LogGrows(log: seq<Message>, question: Message, reply: Message)
    requires WellFormedLog(log)
    requires question.isUser && !IsBlank(question.content)
    requires !reply.isUser && reply.content == PlaceholderReply
    ensures WellFormedLog(log + [question, reply])
  {
    var grown := log + [question, reply];
    forall i | 0 <= i < |grown| ensures grown[i].isUser <==> i % 2 == 0 {
      if i >= |log| {
        assert i == |log| || i == |log| + 1;
      }
    }
  }

  class ChatPage {
    var messages: seq<Message>
    var chatHistory: seq<ChatHistoryEntry>
    var input: string
    var showFileExplorer: bool
    var showProfile: bool

    ghost predicate Valid()
      reads this
    {
      chatHistory == InitialChatHistory && WellFormedLog(messages)
    }

    constructor ()
      ensures Valid()
      ensures messages == [] && input == "" && !showFileExplorer && !showProfile
    {
      messages := [];
      chatHistory := InitialChatHistory;
      input := "";
      showFileExplorer := false;
      showProfile := false;
    }

    /** The input box's change handler. */
    method SetInput(value: string)
      requires Valid()
      modifies this`input
      ensures Valid()
      ensures input == value
    {
      input := value;
    }

    /**
     * `handleSend`.  A blank input changes nothing.  Otherwise the input, as
     * typed, is logged as a user message named by the clock reading `now`, the
     * box is cleared, and the placeholder reply, named by a second reading
     * `later` plus one, follows it.
     */
    method HandleSend(now: nat, later: nat)
      requires Valid()
      modifies this`messages, this`input
      ensures Valid()
      ensures IsBlank(old(input)) ==> messages == old(messages) && input == old(input)
      ensures !IsBlank(old(input)) ==>
        && messages == old(messages) + [
             Message(Text.NatToDecimal(now), old(input), true),
             Message(Text.NatToDecimal(later + 1), PlaceholderReply, false)]
        && input == ""
    {
      if IsBlank(input) {
        return;
      }
      var userMessage := Message(Text.NatToDecimal(now), input, true);
      messages := messages + [userMessage];
      input := "";
      var aiResponse := Message(Text.NatToDecimal(later + 1), PlaceholderReply, false);
      LogGrows(old(messages), userMessage, aiResponse);
      messages := messages + [aiResponse];
      assert messages == old(messages) + [userMessage, aiResponse];
    }

    /** The profile button in the top bar. */
    method ToggleProfile()
      requires Valid()
      modifies this`showProfile
      ensures Valid()
      ensures showProfile == !old(showProfile)
    {
      showProfile := !showProfile;
    }

    /** The profile panel's back button. */
    method CloseProfile()
      requires Valid()
      modifies this`showProfile
      ensures Valid()
      ensures !showProfile
    {
      showProfile := false;
    }

    /** "Add Files" opens the explorer; the dialog reports its own closing. */
    method SetShowFileExplorer(open: bool)
      requires Valid()
      modifies this`showFileExplorer
      ensures Valid()
      ensures showFileExplorer == open
    {
      showFileExplorer := open;
    }
  }

  /** Whether a send goes through depends only on the input being all whitespace. */
  lemma SendIgnoredIffAllWhitespace(input: string)
    ensures IsBlank(input) <==> Text.AllWhitespace(input)
  {
    Text.TrimEmptyIffAllWhitespace(input);
  }
}
