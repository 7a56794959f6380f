/** The embeddable widget, public/chat-widget.js: the same chat turn as the
    Preact component, written against the DOM. Its state is the two flags of
    lines 21-22, the textarea (its value and `disabled`), and the message
    elements of the chat window, the greeting first. The search and the
    generation are abstract replies; what the script makes of them is
    modelled exactly (lines 255-285 and 314-346). */
module WidgetScript {
  import opened Results
  import opened Text
  import opened Prompt
  import opened QueryEscape
  import ChatWidget

  /** The greeting the window opens with (lines 222-224). */
  const Greeting: string := "Hi there! Ask me anything about this site."

  /** A message element of `#ai-chat-messages`: a `user-message` div, an
      `ai-message` div with text, or the `ai-message` placeholder reading
      "Thinking" while its turn is in flight. */
  datatype Element =
    | UserMessage(text: string)
    | AssistantMessage(text: string)
    | Thinking

  // ----- The two service calls -----

  /** What `fetch` of the GraphQL endpoint gave: no response (the request or
      the JSON decoding threw), or a response with its `ok` flag, whether the
      body has an `errors` member, and `data.Get.WebsiteContent` as the texts
      of its items when that path is present. */
  datatype SearchReply =
    | SearchUnreachable
    | SearchAnswered(ok: bool, hasErrors: bool, websiteContent: Option<seq<string>>)

  /** `searchWeaviate` after the request (lines 255-284): the result texts, or
      `None` when it throws. */
  function SearchResults(reply: SearchReply): (r: Option<seq<string>>)
    ensures r.Some? <==> reply.SearchAnswered? && reply.ok && !reply.hasErrors
    ensures r.Some? ==> r.value == (if reply.websiteContent.Some? then reply.websiteContent.value else [])
  {
    match reply
    case SearchUnreachable => None
    case SearchAnswered(ok, hasErrors, content) =>
      if !ok || hasErrors then None
      else if content.None? then Some([])
      else Some(content.value)
  }

  /** A candidate of the Gemini response: the texts of `content.parts`, when
      it has a `content`. */
  datatype Candidate = Candidate(content: Option<seq<string>>)

  /** What `fetch` of the Gemini endpoint gave: no response, or a response
      with its `ok` flag and its `candidates`, when present. */
  datatype GenerationReply =
    | GenerationUnreachable
    | GenerationAnswered(ok: bool, candidates: Option<seq<Candidate>>)

  /** `generateResponse` after the request (lines 324-346): the text of the
      first part of the first candidate's content, or `None` when it throws:
      no response, not `ok`, no first candidate or no content ("Invalid
      response"), or no first part (a `TypeError` reading `parts[0].text`). */
  function GeneratedText(reply: GenerationReply): (r: Option<string>)
    ensures r.Some? <==>
      reply.GenerationAnswered? && reply.ok && reply.candidates.Some? &&
      |reply.candidates.value| > 0 && reply.candidates.value[0].content.Some? &&
      |reply.candidates.value[0].content.value| > 0
    ensures r.Some? ==> r.value == reply.candidates.value[0].content.value[0]
  {
    match reply
    case GenerationUnreachable => None
    case GenerationAnswered(ok, candidates) =>
      if !ok || candidates.None? || |candidates.value| == 0 then None
      else
        var first := candidates.value[0];
        if first.content.None? || |first.content.value| == 0 then None
        else Some(first.content.value[0])
  }

  /** The text the placeholder ends with (lines 394-402): the generated text,
      or the apology when either call threw. */
  function Outcome(search: SearchReply, generation: GenerationReply): (text: string)
    ensures SearchResults(search).None? || GeneratedText(generation).None? ==> text == Apology
    ensures SearchResults(search).Some? && GeneratedText(generation).Some? ==>
      text == GeneratedText(generation).value
  {
    if SearchResults(search).None? then Apology
    else if GeneratedText(generation).None? then Apology
    else GeneratedText(generation).value
  }

  /** The script and the Preact component end a turn with the same text for
      the same replies. */
  lemma SameReplyAsComponent(search: SearchReply, generation: GenerationReply)
    ensures Outcome(search, generation) ==
      ChatWidget.Reply(SearchResults(search), GeneratedText(generation)).text
  {
  }

  /** Where the turn in flight is suspended, with the index of its
      placeholder element. */
  datatype Turn =
    | Idle
    | Searching(message: string, slot: nat)
    | Generating(message: string, slot: nat, prompt: string)

  class Widget {
    var isOpen: bool
    var isLoading: bool
    var inputDisabled: bool
    var inputValue: string
    var elements: seq<Element>

    /** Not a variable of the script: which `await` of `handleUserMessage`
        is pending. */
    var turn: Turn

    /** The greeting stays first; `isLoading` and the disabled textarea go
        together and hold exactly while a turn is in flight; the turn's
        placeholder is the last element, right after its user message; and no
        other placeholder is left on screen. */
    predicate Valid()
      reads this
    {
      elements != [] && elements[0] == AssistantMessage(Greeting) &&
      (isLoading <==> !turn.Idle?) && inputDisabled == isLoading &&
      (!turn.Idle? ==>
        turn.slot == |elements| - 1 && turn.slot >= 2 &&
        elements[turn.slot] == Thinking && elements[turn.slot - 1] == UserMessage(turn.message)) &&
      (forall k :: 0 <= k < |elements| && elements[k] == Thinking ==> !turn.Idle? && k == turn.slot)
    }

    /** `initWidget` (lines 411-450) with the state of lines 21-22: closed,
        not loading, an empty enabled textarea, the greeting alone. */
    constructor ()
      ensures Valid()
      ensures !isOpen && !isLoading && !inputDisabled && inputValue == ""
      ensures elements == [AssistantMessage(Greeting)] && turn == Idle
    {
      isOpen := false;
      isLoading := false;
      inputDisabled := false;
      inputValue := "";
      elements := [AssistantMessage(Greeting)];
      turn := Idle;
    }

    /** `toggleChat` (lines 452-466). */
    method Toggle()
      modifies this
      ensures isOpen == !old(isOpen)
      ensures isLoading == old(isLoading) && inputDisabled == old(inputDisabled)
      ensures inputValue == old(inputValue) && elements == old(elements) && turn == old(turn)
    {
      isOpen := !isOpen;
    }

    /** `closeChat` (lines 468-475). */
    method Close()
      modifies this
      ensures !isOpen
      ensures isLoading == old(isLoading) && inputDisabled == old(inputDisabled)
      ensures inputValue == old(inputValue) && elements == old(elements) && turn == old(turn)
    {
      isOpen := false;
    }

    /** The user edits the textarea, which has no effect while it is disabled
        (line 373). */
    method Type(value: string)
      modifies this
      ensures inputValue == (if old(inputDisabled) then old(inputValue) else value)
      ensures isOpen == old(isOpen) && isLoading == old(isLoading) && inputDisabled == old(inputDisabled)
      ensures elements == old(elements) && turn == old(turn)
    {
      if !inputDisabled {
        inputValue := value;
      }
    }

    /** `handleUserMessage` up to the search (lines 350-373 and 235-253):
        ignored while a turn is in flight; otherwise the user's message and
        the placeholder are shown, the textarea is disabled, and the search is
        sent with the message as a GraphQL string literal, `concept`, escaped
        as line 242 does it (see `QueryEscape` for the messages that literal
        does not carry intact). */
    method Start(message: string) returns (started: bool, concept: string)
      requires Valid()
      modifies this
      ensures Valid()
      ensures started == !old(isLoading)
      ensures isOpen == old(isOpen) && inputValue == old(inputValue)
      ensures !started ==> isLoading && elements == old(elements) && turn == old(turn)
      ensures started ==>
        elements == old(elements) + [UserMessage(message), Thinking] &&
        isLoading && turn == Searching(message, |old(elements)| + 1) &&
        concept == SentLiteral(message)
    {
      if isLoading {
        return false, "";
      }
      isLoading := true;
      elements := elements + [UserMessage(message), Thinking];
      inputDisabled := true;
      turn := Searching(message, |elements| - 1);
      concept := SentLiteral(message);
      started := true;
    }

    /** The `finally` block (lines 404-409) after the placeholder got `text`. */
    method Finish(text: string)
      requires Valid() && !turn.Idle?
      modifies this
      ensures Valid()
      ensures elements == old(elements)[old(turn).slot := AssistantMessage(text)]
      ensures !isLoading && turn == Idle
      ensures isOpen == old(isOpen) && inputValue == old(inputValue)
    {
      elements := elements[turn.slot := AssistantMessage(text)];
      isLoading := false;
      inputDisabled := false;
      turn := Idle;
    }

    /** Lines 375-392 after the search returns: a failed search puts the
        apology in the placeholder and ends the turn; otherwise the prompt
        is built from the results and the generation is sent. */
    method SearchDone(reply: SearchReply)
      requires Valid() && turn.Searching?
      modifies this
      ensures Valid()
      ensures isOpen == old(isOpen) && inputValue == old(inputValue)
      ensures SearchResults(reply).None? ==>
        elements == old(elements)[old(turn).slot := AssistantMessage(Apology)] && !isLoading && turn == Idle
      ensures SearchResults(reply).Some? ==>
        elements == old(elements) && isLoading &&
        turn == Generating(old(turn).message, old(turn).slot,
          BuildPrompt(Context(SearchResults(reply).value), old(turn).message))
    {
      var results := SearchResults(reply);
      if results.None? {
        Finish(Apology);
      } else {
        var context := Context(results.value);
        turn := Generating(turn.message, turn.slot, BuildPrompt(context, turn.message));
      }
    }

    /** Lines 394-402 after the generation returns: the placeholder gets the
        generated text, or the apology, and the turn ends. */
    method GenerationDone(reply: GenerationReply)
      requires Valid() && turn.Generating?
      modifies this
      ensures Valid()
      ensures isOpen == old(isOpen) && inputValue == old(inputValue)
      ensures elements == old(elements)[old(turn).slot :=
        AssistantMessage(if GeneratedText(reply).Some? then GeneratedText(reply).value else Apology)]
      ensures !isLoading && turn == Idle
    {
      var response := GeneratedText(reply);
      if response.Some? {
        Finish(response.value);
      } else {
        Finish(Apology);
      }
    }

    /** A whole turn with no other event in between. An accepted turn adds
        exactly the user's message and the assistant's final text, with no
        placeholder left, and ends with the textarea enabled; a rejected one
        changes nothing. */
    method HandleUserMessage(message: string, search: SearchReply, generation: GenerationReply)
      returns (started: bool)
      requires Valid()
      modifies this
      ensures Valid()
      ensures started == !old(isLoading)
      ensures isOpen == old(isOpen) && inputValue == old(inputValue)
      ensures !started ==> elements == old(elements) && turn == old(turn)
      ensures started ==>
        elements == old(elements) + [UserMessage(message), AssistantMessage(Outcome(search, generation))] &&
        !isLoading && !inputDisabled && turn == Idle
    {
      var concept;
      started, concept := Start(message);
      if started {
        ghost var shown := elements;
        SearchDone(search);
        if SearchResults(search).Some? {
          GenerationDone(generation);
        }
        assert shown[|shown| - 1 := AssistantMessage(Outcome(search, generation))] ==
          old(elements) + [UserMessage(message), AssistantMessage(Outcome(search, generation))];
      }
    }

    /** The `keydown` listener (lines 434-443): Enter without Shift sends the
        trimmed text of the textarea, when it is not blank and no turn is in
        flight, and clears the textarea; any other key changes nothing. */
    method KeyDown(key: string, shiftKey: bool) returns (started: bool)
      requires Valid()
      modifies this
      ensures Valid()
      ensures started <==> key == "Enter" && !shiftKey && Trim(old(inputValue)) != "" && !old(isLoading)
      ensures started ==>
        inputValue == "" &&
        elements == old(elements) + [UserMessage(Trim(old(inputValue))), Thinking] &&
        turn == Searching(Trim(old(inputValue)), |old(elements)| + 1)
      ensures !started ==>
        inputValue == old(inputValue) && elements == old(elements) && turn == old(turn) &&
        isLoading == old(isLoading)
      ensures isOpen == old(isOpen)
    {
      started := false;
      if key == "Enter" && !shiftKey {
        var message := Trim(inputValue);
        if message != "" && !isLoading {
          inputValue := "";
          var concept;
          started, concept := Start(message);
        }
      }
    }
  }
}
