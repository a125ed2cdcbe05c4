/**
 * The FastAPI backend: the Gemini call's error handling and reply extraction, and what
 * each endpoint makes of its request and of the reply.
 */
module Backend {
  import opened Wrappers
  import Text

  // ---------------------------------------------------------------------------
  // Idea lines.

  /** The characters `line.strip("- •* ")` removes. */
  predicate IsIdeaMark(c: char) {
    c == '-' || c == '•' || c == '*' || c == ' '
  }

  /** One idea: the line with the marks stripped from both ends. */
  function Idea(line: string): string {
    Text.Strip(line, IsIdeaMark)
  }

  /**
   * An idea is the piece of its line left after removing marks at both ends: it neither
   * starts nor ends with a mark, and everything cut off is a mark.
   */
  lemma IdeaShape(line: string) returns (k: nat, r: string)
    ensures r == Idea(line)
    ensures k + |r| <= |line| && r == line[k..k + |r|]
    ensures forall i :: 0 <= i < k ==> IsIdeaMark(line[i])
    ensures forall i :: k + |r| <= i < |line| ==> IsIdeaMark(line[i])
    ensures r != [] ==> !IsIdeaMark(r[0]) && !IsIdeaMark(r[|r| - 1])
  {
    k, r := Text.StripShape(line, IsIdeaMark);
  }

  /** `line.strip()` is not empty: the line has a character other than Python whitespace. */
  predicate HasContent(line: string) {
    Text.Strip(line, Text.IsPySpace) != ""
  }

  /** The comprehension over the lines: keep lines with content, strip each. */
  function IdeasOf(lines: seq<string>): (r: seq<string>)
    ensures |r| <= |lines|
  {
    if |lines| == 0 then []
    else (if HasContent(lines[0]) then [Idea(lines[0])] else []) + IdeasOf(lines[1..])
  }

  /** The ideas parsed from the model's reply text. */
  function ParseIdeas(text: string): seq<string> {
    IdeasOf(Text.Lines(text))
  }

  /** The number of lines that are not whitespace-only. */
  function ContentLines(lines: seq<string>): nat {
    if |lines| == 0 then 0 else (if HasContent(lines[0]) then 1 else 0) + ContentLines(lines[1..])
  }

  /** One idea per line with content: the count matches. */
  lemma {:induction false} IdeasCount(lines: seq<string>)
    ensures |IdeasOf(lines)| == ContentLines(lines)
  {
    if |lines| > 0 {
      IdeasCount(lines[1..]);
    }
  }

  /**
   * Ideas follow the lines in order: a first line contributes its idea, or nothing when
   * it is whitespace-only, ahead of the ideas of the remaining text.
   */
  lemma ParseIdeasCons(line: string, rest: string)
    requires forall j :: 0 <= j < |line| ==> !Text.IsLineBreak(line[j])
    ensures ParseIdeas(line + "\n" + rest)
            == (if HasContent(line) then [Idea(line)] else []) + ParseIdeas(rest)
  {
    Text.LinesCons(line, rest);
    var ls := [line] + Text.Lines(rest);
    assert ls[1..] == Text.Lines(rest);
  }

  /** A whitespace-only line gives no idea, whatever else it holds. */
  lemma BlankLineDropped(line: string)
    requires forall j :: 0 <= j < |line| ==> Text.IsPySpace(line[j])
    ensures !HasContent(line)
  {
    Text.StripEmptyIff(line, Text.IsPySpace);
  }

  /** A line of marks only, such as "---", is kept as an empty idea. */
  lemma MarksOnlyGiveEmptyIdea()
    ensures ParseIdeas("---") == [""]
  {
    var s := "---";
    assert Text.LineEnd(s) == 3 by {
      assert !Text.IsLineBreak(s[0]) && !Text.IsLineBreak(s[1]) && !Text.IsLineBreak(s[2]);
      assert s[1..][1..][1..] == "";
    }
    Text.LinesWithoutBreak(s);
    assert HasContent(s) by {
      Text.StripEmptyIff(s, Text.IsPySpace);
      assert !Text.IsPySpace(s[0]);
    }
    Text.StripEmptyIff(s, IsIdeaMark);
    assert IdeasOf([s])[1..] == [] by { assert [s][1..] == []; }
  }

  /** Tabs are not among the marks: they survive at the ends of an idea. */
  lemma TabKept()
    ensures Idea("\t- x") == "\t- x"
  {
    var s := "\t- x";
    var k, r := Text.StripShape(s, IsIdeaMark);
    assert !IsIdeaMark(s[0]) && !IsIdeaMark(s[3]);
    assert k == 0;
    assert r == s[0..4] == s;
  }

  // ---------------------------------------------------------------------------
  // Request defaults.

  const DefaultInstruction := "Improve clarity, grammar, and tone while preserving meaning."

  /** `req.instruction or "..."`: an empty instruction is replaced, any other kept. */
  function Instruction(instruction: string): (r: string)
    ensures instruction != "" ==> r == instruction
    ensures instruction == "" ==> r == DefaultInstruction
    ensures r != ""
  {
    if instruction == "" then DefaultInstruction else instruction
  }

  /** Python truthiness of an optional string. */
  predicate Truthy(s: Option<string>) {
    s.Some? && s.value != ""
  }

  /** `req.message or req.query or ""`. */
  function ChatInput(message: Option<string>, query: Option<string>): (r: string)
    ensures Truthy(message) ==> r == message.value
    ensures !Truthy(message) && Truthy(query) ==> r == query.value
    ensures !Truthy(message) && !Truthy(query) ==> r == ""
  {
    if Truthy(message) then message.value else if Truthy(query) then query.value else ""
  }

  // ---------------------------------------------------------------------------
  // The Gemini call.

  /** A parsed JSON value. */
  datatype Json =
    | JNull
    | JBool(b: bool)
    | JNum(n: int)
    | JStr(s: string)
    | JArr(items: seq<Json>)
    | JObj(fields: map<string, Json>)

  /** Python `value[key]` on a parsed JSON value; None where Python raises. */
  function Key(v: Json, key: string): Option<Json> {
    if v.JObj? && key in v.fields then Some(v.fields[key]) else None
  }

  /** Python `value[0]`: the first element of a list, or the first character of a string. */
  function First(v: Json): Option<Json> {
    match v
    case JArr(items) => if |items| > 0 then Some(items[0]) else None
    case JStr(s) => if |s| > 0 then Some(JStr([s[0]])) else None
    case _ => None
  }

  function Then(o: Option<Json>, f: Json -> Option<Json>): Option<Json> {
    if o.None? then None else f(o.value)
  }

  /** `body["candidates"][0]["content"]["parts"][0]["text"]`. */
  function ExtractText(body: Json): Option<Json> {
    var candidates := Key(body, "candidates");
    var candidate := Then(candidates, First);
    var content := Then(candidate, v => Key(v, "content"));
    var parts := Then(content, v => Key(v, "parts"));
    var part := Then(parts, First);
    Then(part, v => Key(v, "text"))
  }

  /** The reply shape Gemini documents, carrying `text`. */
  function Reply(text: Json): Json {
    JObj(map["candidates" := JArr([JObj(map["content" := JObj(map["parts" :=
      JArr([JObj(map["text" := text])])])])])])
  }

  /** The documented shape is read back exactly. */
  lemma ExtractReply(text: Json)
    ensures ExtractText(Reply(text)) == Some(text)
  {
  }

  /**
   * Extraction succeeds only on objects with such a path: a non-empty `candidates` list
   * whose first element has `content.parts`, a non-empty list whose first element has `text`.
   */
  lemma ExtractTextOnlyOnPath(body: Json)
    requires ExtractText(body).Some?
    ensures body.JObj? && "candidates" in body.fields
    ensures var cs := body.fields["candidates"];
            cs.JArr? && |cs.items| > 0 && cs.items[0].JObj? && "content" in cs.items[0].fields
            && var content := cs.items[0].fields["content"];
               content.JObj? && "parts" in content.fields
               && var ps := content.fields["parts"];
                  ps.JArr? && |ps.items| > 0 && ps.items[0].JObj? && "text" in ps.items[0].fields
                  && ExtractText(body) == Some(ps.items[0].fields["text"])
  {
  }

  /** What the HTTP client gets back from Gemini. */
  datatype GeminiReply =
    | TransportError
    | HttpReply(status: nat, body: Option<Json>)

  /** The call's outcome: the extracted value, or the HTTP error the endpoint answers with. */
  datatype Outcome =
    | Ok(value: Json)
    | HttpError(status: nat, detail: string)

  const MissingKey := "GEMINI_API_KEY is not set."
  const UnexpectedReply := "Unexpected response from Gemini API"
  /** FastAPI's answer to an exception nothing handles. */
  const Unhandled := "Internal Server Error"

  /**
   * `call_gemini`. `apiKey` is the environment variable; `reply` is what the call would
   * return. Transport failures and non-2xx statuses escape the `try` and become a plain 500.
   */
  function CallGemini(apiKey: Option<string>, reply: GeminiReply): Outcome {
    if !Truthy(apiKey) then HttpError(500, MissingKey)
    else match reply
      case TransportError => HttpError(500, Unhandled)
      case HttpReply(status, body) =>
        if !(200 <= status < 300) then HttpError(500, Unhandled)
        else if body.None? then HttpError(502, UnexpectedReply)
        else match ExtractText(body.value)
          case None => HttpError(502, UnexpectedReply)
          case Some(v) => Ok(v)
  }

  /** The outcomes of the call and exactly when each happens. */
  lemma CallGeminiSpec(apiKey: Option<string>, reply: GeminiReply)
    ensures !Truthy(apiKey) ==> forall other :: CallGemini(apiKey, other) == HttpError(500, "GEMINI_API_KEY is not set.")
    ensures CallGemini(apiKey, reply).Ok?
            <==> Truthy(apiKey) && reply.HttpReply? && 200 <= reply.status < 300 && reply.body.Some?
                 && ExtractText(reply.body.value).Some?
    ensures CallGemini(apiKey, reply).Ok? ==> CallGemini(apiKey, reply).value == ExtractText(reply.body.value).value
    ensures CallGemini(apiKey, reply) == HttpError(502, "Unexpected response from Gemini API")
            <==> Truthy(apiKey) && reply.HttpReply? && 200 <= reply.status < 300
                 && (reply.body.None? || ExtractText(reply.body.value).None?)
    ensures Truthy(apiKey) && (reply.TransportError? || !(200 <= reply.status < 300)) ==>
              CallGemini(apiKey, reply) == HttpError(500, "Internal Server Error")
    ensures Truthy(apiKey) && reply.HttpReply? && 200 <= reply.status < 300 && reply.body.Some? ==>
              forall t :: reply.body.value == Reply(t) ==> CallGemini(apiKey, reply) == Ok(t)
  {
    if Truthy(apiKey) && reply.HttpReply? && 200 <= reply.status < 300 && reply.body.Some? {
      forall t | reply.body.value == Reply(t) ensures CallGemini(apiKey, reply) == Ok(t) {
        ExtractReply(t);
      }
    }
  }

  // ---------------------------------------------------------------------------
  // The endpoints, each given the Gemini reply to its prompt.

  function SummarizePrompt(text: string): string {
    "Summarize this text concisely:\n\n" + text
  }

  function IdeasPrompt(topic: string): string {
    "Generate 8 creative, practical ideas for the topic below. "
      + "Return each idea on its own line without numbering.\n\n"
      + "Topic: " + topic
  }

  function RefinePrompt(text: string, instruction: string): string {
    "Refine the following text according to this instruction: '" + Instruction(instruction)
      + "'.\n\nText:\n" + text
  }

  function ChatPrompt(message: Option<string>, query: Option<string>): string {
    "You are a helpful assistant. Answer clearly and concisely.\n\nUser: " + ChatInput(message, query)
  }

  /** The ideas endpoint's answer: the parsed idea list, or the call's error. */
  datatype IdeasOutcome = Ideas(ideas: seq<string>) | IdeasError(status: nat, detail: string)

  /** `generate_ideas`: a non-string reply has no `splitlines` and fails unhandled. */
  function GenerateIdeas(apiKey: Option<string>, reply: GeminiReply): (r: IdeasOutcome)
    ensures r.Ideas? <==> CallGemini(apiKey, reply).Ok? && CallGemini(apiKey, reply).value.JStr?
    ensures r.Ideas? ==> r.ideas == ParseIdeas(CallGemini(apiKey, reply).value.s)
    ensures CallGemini(apiKey, reply).HttpError? ==>
              r == IdeasError(CallGemini(apiKey, reply).status, CallGemini(apiKey, reply).detail)
  {
    match CallGemini(apiKey, reply)
    case HttpError(status, detail) => IdeasError(status, detail)
    case Ok(v) => if v.JStr? then Ideas(ParseIdeas(v.s)) else IdeasError(500, Unhandled)
  }

  /** The refinement prompt carries the instruction, or the default when it is empty. */
  lemma RefinePromptInstruction(text: string, instruction: string)
    ensures var p := RefinePrompt(text, instruction);
            var pre := "Refine the following text according to this instruction: '";
            p[..|pre|] == pre
            && p[|pre|..|pre| + |Instruction(instruction)|]
               == (if instruction == "" then DefaultInstruction else instruction)
  {
  }
}
