/** The prompt both chat widgets send to the language model
    (packages/chat-widget/src/components/ChatWidget.tsx:63-76 and
    public/chat-widget.js:379-392, which are identical): the texts of the
    search results joined by blank lines, and a fixed template around that
    context and the user's question. */
module Prompt {
  import opened Text

  const Preamble: string :=
    "You are FlowAgent, a helpful assistant for this website. Use ONLY the following site information to answer the user's question in a friendly, casual and concise manner."

  /** The template text between the preamble and the context. */
  const InformationHeader: string := "\n\n# Site Information\n"

  /** The template text between the context and the user's message. */
  const QuestionHeader: string := "\n\n# User Question\n"

  /** Stands in for the context when it is empty (`context || '...'`). */
  const NoInformation: string := "No relevant information found."

  /** What a failed turn shows instead of an answer. */
  const Apology: string := "Sorry, something went wrong. Please try again in a moment."

  const Separator: string := "\n\n"

  /** The context of lines 64-67: the result texts joined by a blank line, or
      the empty string when there are no results. */
  function Context(texts: seq<string>): (context: string) {
    if |texts| > 0 then Join(texts, Separator) else ""
  }

  /** The context is empty exactly when there are no results or the only
      result has empty text: two or more results always leave a separator. */
  lemma ContextEmpty(texts: seq<string>)
    ensures Context(texts) == "" <==> texts == [] || texts == [""]
  {
    if |texts| >= 2 {
      assert |Join(texts, Separator)| >= |Separator|;
    }
  }

  /** What fills the site-information slot: the context, or the fallback
      literal when the context is empty. The literal shows up exactly for an
      empty context, and for a context that is that very literal, which the
      model then cannot tell apart. */
  function Information(context: string): (info: string)
    ensures info == NoInformation <==> context == "" || context == NoInformation
    ensures context != "" ==> info == context
    ensures info != ""
  {
    if context == "" then NoInformation else context
  }

  /** The prompt of lines 70-76. */
  function BuildPrompt(context: string, message: string): (prompt: string) {
    Preamble + InformationHeader + Information(context) + QuestionHeader + message
  }

  /** Five pieces laid end to end, each found again at its offset. */
  lemma ConcatLayout(a: string, b: string, c: string, d: string, e: string)
    ensures var s := a + b + c + d + e;
      |s| == |a| + |b| + |c| + |d| + |e| &&
      s[..|a|] == a &&
      s[|a| + |b|..|a| + |b| + |c|] == c &&
      s[|a| + |b| + |c|..|a| + |b| + |c| + |d|] == d &&
      s[|s| - |e|..] == e
  {
    var ab := a + b;
    var abc := ab + c;
    var abcd := abc + d;
    assert (abcd + e)[..|a|] == ab[..|a|];
    assert (abcd + e)[|ab|..|abc|] == abc[|ab|..];
    assert (abcd + e)[|abc|..|abcd|] == abcd[|abc|..];
  }

  /** Where the parts of the prompt lie: the preamble opens it, the
      site-information slot follows the first header, and the message,
      verbatim, closes it. */
  lemma PromptLayout(context: string, message: string)
    ensures var prompt := BuildPrompt(context, message);
      var infoStart := |Preamble| + |InformationHeader|;
      var infoEnd := infoStart + |Information(context)|;
      |prompt| == infoEnd + |QuestionHeader| + |message| &&
      prompt[..|Preamble|] == Preamble &&
      prompt[infoStart..infoEnd] == Information(context) &&
      prompt[infoEnd..infoEnd + |QuestionHeader|] == QuestionHeader &&
      prompt[|prompt| - |message|..] == message
  {
    ConcatLayout(Preamble, InformationHeader, Information(context), QuestionHeader, message);
  }

  /** The message can be recovered from the prompt: two prompts built for
      the same context differ whenever the messages do. */
  lemma PromptDeterminesMessage(context: string, m1: string, m2: string)
    requires BuildPrompt(context, m1) == BuildPrompt(context, m2)
    ensures m1 == m2
  {
    PromptLayout(context, m1);
    PromptLayout(context, m2);
  }
}
