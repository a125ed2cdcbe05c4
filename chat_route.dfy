/** The `/api/chat` route: validation, forwarding, and the keyword-matched fallback reply. */
module ChatRoute {
  import opened Wrappers
  import Text
  import opened RouteCommon

  const Greeting := "Hello! I'm your AI assistant. How can I help you today?"
  const HelpReply := "I'm here to help! I can assist you with content creation, brainstorming ideas, answering questions, and more. What would you like to work on?"
  const AbilitiesReply := "I can help you with various tasks like summarizing text, generating creative ideas, refining content, answering questions, and having conversations. What specific task interests you?"
  const ThanksReply := "You're welcome! I'm glad I could help. Is there anything else you'd like to work on?"
  const GoodbyeReply := "Goodbye! Feel free to come back anytime you need assistance with your content creation tasks."
  const IdeasReply := "I'd love to help you brainstorm! Could you tell me more about the topic or project you're working on? The more context you provide, the better ideas I can suggest."
  const WritingReply := "I can definitely help with writing and content creation! What type of content are you looking to create? Blog posts, social media content, emails, or something else?"

  /** The replies used when no keyword matches; one of them is picked at random. */
  const DefaultReplies: seq<string> := [
    "That's an interesting point! Could you tell me more about what you're thinking?",
    "I understand what you're saying. How can I help you with that?",
    "Thanks for sharing that with me. What would you like to explore further?",
    "That's a great question! Let me think about how I can best assist you with that.",
    "I appreciate you bringing that up. What specific aspect would you like to focus on?"
  ]

  const FallbackMessage := "This is a demo response. Connect your FastAPI backend for AI-powered conversations."
  const MissingMessage := "Message is required"

  /** The keyword cascade on the lower-cased message; None when no rule applies. */
  function RuleReply(message: string): Option<string> {
    var m := Text.Lower(message);
    if Text.Contains(m, "hello") || Text.Contains(m, "hi") then Some(Greeting)
    else if Text.Contains(m, "help") then Some(HelpReply)
    else if Text.Contains(m, "what") && Text.Contains(m, "do") then Some(AbilitiesReply)
    else if Text.Contains(m, "thank") then Some(ThanksReply)
    else if Text.Contains(m, "bye") || Text.Contains(m, "goodbye") then Some(GoodbyeReply)
    else if Text.Contains(m, "idea") || Text.Contains(m, "brainstorm") then Some(IdeasReply)
    else if Text.Contains(m, "write") || Text.Contains(m, "content") then Some(WritingReply)
    else None
  }

  /** The replies the fallback may give for `message`. */
  function PossibleReplies(message: string): set<string> {
    match RuleReply(message)
    case Some(reply) => {reply}
    case None => set x | x in DefaultReplies
  }

  /**
   * `generateFallbackChatResponse`. The conversation history is accepted and not used;
   * the random index is a nondeterministic choice among the five defaults.
   */
  method FallbackChatResponse<H>(message: string, history: seq<H>) returns (reply: string)
    ensures reply in PossibleReplies(message)
    ensures RuleReply(message).Some? ==> reply == RuleReply(message).value
    ensures RuleReply(message).None? ==> reply in DefaultReplies
  {
    var rule := RuleReply(message);
    if rule.Some? {
      reply := rule.value;
    } else {
      var i :| 0 <= i < |DefaultReplies|;
      reply := DefaultReplies[i];
    }
  }

  /** A message containing "hi" anywhere, in any case, is greeted, before any other rule. */
  lemma HiAnywhereGreets(message: string, i: nat)
    requires Text.OccursAt(Text.Lower(message), "hi", i)
    ensures RuleReply(message) == Some(Greeting)
  {
  }

  /** "this" and "Things to help with" both contain "hi", so both get the greeting. */
  lemma HiInsideWords()
    ensures RuleReply("this") == Some(Greeting)
    ensures RuleReply("Things to help with") == Some(Greeting)
  {
    var a := Text.Lower("this");
    assert a[1] == 'h' && a[2] == 'i';
    assert a[1..3] == "hi";
    HiAnywhereGreets("this", 1);
    var b := Text.Lower("Things to help with");
    assert b[1] == 'h' && b[2] == 'i';
    assert b[1..3] == "hi";
    HiAnywhereGreets("Things to help with", 1);
  }

  /** Without any keyword the reply is one of the five defaults, and any of them may come. */
  lemma NoKeywordMeansDefault(message: string)
    requires RuleReply(message).None?
    ensures forall x :: x in PossibleReplies(message) <==> x in DefaultReplies
    ensures forall k :: 0 <= k < 5 ==> DefaultReplies[k] in PossibleReplies(message)
  {
  }

  /**
   * The `POST` handler. `request` holds the `message` field and the history, None when
   * the body is not JSON or is `null`; any other body that is not an object has every
   * field `Missing`. `backend` is the backend's data when its call succeeds.
   */
  method Post<D, H>(request: Option<(Field, seq<H>)>, backend: Option<D>) returns (response: Response<D>)
    ensures request.None? ==> response == Failure(500, "Internal server error")
    ensures request.Some? && !IsGiven(request.value.0) ==> response == Failure(400, "Message is required")
    ensures request.Some? && IsGiven(request.value.0) && backend.Some? ==> response == Forwarded(backend.value)
    ensures request.Some? && IsGiven(request.value.0) && backend.None? ==>
              response.Fallback? && response.source == "fallback" && response.message == FallbackMessage
              && response.result in PossibleReplies(request.value.0.s)
  {
    if request.None? {
      return BadBody();
    }
    var (message, history) := request.value;
    if !IsGiven(message) {
      return Failure(400, MissingMessage);
    }
    if backend.Some? {
      return Forwarded(backend.value);
    }
    var reply := FallbackChatResponse(message.s, history);
    response := Fallback(reply, FallbackSource, FallbackMessage);
  }
}
