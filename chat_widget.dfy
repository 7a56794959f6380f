/** The Preact chat widget, packages/chat-widget/src/components/ChatWidget.tsx:
    whether the window is open, the transcript, and the `isLoading` flag that
    admits one turn at a time. A turn is the async `handleUserMessage`
    (lines 51-92); its two awaited calls, the search and the generation, are
    abstract outcomes given to the steps that resume the turn. */
module ChatWidget {
  import opened Results
  import opened Prompt

  /** `Message` of types/index.ts. */
  datatype Message = Message(text: string, isUser: bool)

  /** Where the turn in flight is suspended: nowhere, at the search of line
      61, or at the generation of line 79. */
  datatype Turn =
    | Idle
    | Searching(message: string)
    | Generating(message: string, prompt: string)

  /** What the assistant says after the generation: its text, or the
      apology when it failed. */
  function Answer(generated: Option<string>): Message {
    Message(if generated.Some? then generated.value else Apology, false)
  }

  /** What the assistant says at the end of a turn: the generated text, or
      the apology when either call failed. A failed search means no
      generation is asked for, so its outcome does not matter. */
  function Reply(search: Option<seq<string>>, generated: Option<string>): (reply: Message)
    ensures !reply.isUser
    ensures reply.text == Apology <==> search.None? || generated.None? || generated.value == Apology
    ensures search.Some? && generated.Some? ==> reply.text == generated.value
  {
    if search.None? then Message(Apology, false) else Answer(generated)
  }

  /** The transcript `messages` only grows: `before` is a prefix of `after`. */
  predicate Extends(before: seq<Message>, after: seq<Message>) {
    |before| <= |after| && after[..|before|] == before
  }

  /** Growing the transcript is transitive, so every sequence of steps keeps
      what was shown before. */
  lemma ExtendsTransitive(a: seq<Message>, b: seq<Message>, c: seq<Message>)
    requires Extends(a, b) && Extends(b, c)
    ensures Extends(a, c)
  {
    assert c[..|a|] == c[..|b|][..|a|];
  }

  class Widget {
    var isOpen: bool
    var messages: seq<Message>
    var isLoading: bool
    var turn: Turn

    /** `isLoading` is set exactly while a turn is in flight, and a turn in
        flight has shown its user message last. */
    predicate Valid()
      reads this
    {
      (isLoading <==> !turn.Idle?) &&
      (!turn.Idle? ==> messages != [] && messages[|messages| - 1] == Message(turn.message, true))
    }

    /** Lines 16-18: closed, empty, not loading. */
    constructor ()
      ensures Valid()
      ensures !isOpen && messages == [] && !isLoading && turn == Idle
    {
      isOpen := false;
      messages := [];
      isLoading := false;
      turn := Idle;
    }

    /** `toggleChat` (lines 43-45). */
    method ToggleChat()
      modifies this
      ensures isOpen == !old(isOpen)
      ensures Extends(old(messages), messages)
      ensures messages == old(messages) && isLoading == old(isLoading) && turn == old(turn)
    {
      isOpen := !isOpen;
    }

    /** `closeChat` (lines 47-49): closed whatever the state, so closing twice
        is closing once. */
    method CloseChat()
      modifies this
      ensures !isOpen
      ensures Extends(old(messages), messages)
      ensures messages == old(messages) && isLoading == old(isLoading) && turn == old(turn)
    {
      isOpen := false;
    }

    /** Lines 52-61 up to the search: a message sent while a turn is in
        flight is ignored; otherwise the turn starts, the user's message is
        shown, and the search for it is issued. */
    method Submit(message: string) returns (accepted: bool)
      requires Valid()
      modifies this
      ensures Valid() && isOpen == old(isOpen)
      ensures Extends(old(messages), messages)
      ensures accepted == !old(isLoading)
      ensures !accepted ==> messages == old(messages) && isLoading && turn == old(turn)
      ensures accepted ==>
        messages == old(messages) + [Message(message, true)] && isLoading && turn == Searching(message)
    {
      if isLoading {
        return false;
      }
      isLoading := true;
      messages := messages + [Message(message, true)];
      turn := Searching(message);
      accepted := true;
    }

    /** Lines 61-79 after the search returns: a failed search shows the
        apology and ends the turn (lines 83-91); otherwise the context and
        prompt are built and the generation is issued. */
    method SearchDone(search: Option<seq<string>>)
      requires Valid() && turn.Searching?
      modifies this
      ensures Valid() && isOpen == old(isOpen)
      ensures Extends(old(messages), messages)
      ensures search.None? ==>
        messages == old(messages) + [Reply(search, None)] && !isLoading && turn == Idle
      ensures search.Some? ==>
        messages == old(messages) && isLoading &&
        turn == Generating(old(turn).message, BuildPrompt(Context(search.value), old(turn).message))
    {
      var message := turn.message;
      if search.None? {
        messages := messages + [Message(Apology, false)];
        isLoading := false;
        turn := Idle;
      } else {
        var context := Context(search.value);
        var prompt := BuildPrompt(context, message);
        turn := Generating(message, prompt);
      }
    }

    /** Lines 79-91 after the generation returns: the answer or the apology
        is shown and the turn ends. */
    method GenerationDone(generated: Option<string>)
      requires Valid() && turn.Generating?
      modifies this
      ensures Valid() && isOpen == old(isOpen)
      ensures Extends(old(messages), messages)
      ensures messages == old(messages) + [Answer(generated)]
      ensures !isLoading && turn == Idle
    {
      if generated.Some? {
        messages := messages + [Message(generated.value, false)];
      } else {
        messages := messages + [Message(Apology, false)];
      }
      isLoading := false;
      turn := Idle;
    }

    /** A whole turn with no other event in between: `search` is the search's
        outcome and `generated` the generation's outcome for the prompt that
        the search leads to. An accepted turn appends exactly the user's
        message and one reply, and ends not loading; a rejected one changes
        nothing. */
    method HandleUserMessage(message: string, search: Option<seq<string>>, generated: Option<string>)
      returns (accepted: bool)
      requires Valid()
      modifies this
      ensures Valid() && isOpen == old(isOpen)
      ensures Extends(old(messages), messages)
      ensures accepted == !old(isLoading)
      ensures !accepted ==> messages == old(messages) && isLoading && turn == old(turn)
      ensures accepted ==>
        messages == old(messages) + [Message(message, true), Reply(search, generated)] &&
        !isLoading && turn == Idle
    {
      var before := messages;
      accepted := Submit(message);
      if accepted {
        var shown := messages;
        SearchDone(search);
        ExtendsTransitive(before, shown, messages);
        if search.Some? {
          var searched := messages;
          GenerationDone(generated);
          ExtendsTransitive(before, searched, messages);
        }
      }
    }
  }
}
