/**
 * lib/openai.ts: metadata generation grounded by retrieved matches.
 * The prompt is the template with `{context}` and then `{retrievedMetadata}`
 * replaced (each `replace` acting on the first occurrence only), the matches
 * rendered one per line, or "No similar metadata found." when there are none;
 * then the shared three-attempt loop; every failure is rethrown as
 * "Failed to generate metadata: " + its message.
 */
module OpenAi {
  import opened Common
  import opened JsText
  import opened MetadataSchema
  import opened Completion

  const TemplateHead: string :=
    "\nINSTRUCTIONS: Based on the provided "
    + "context and retrieved metadata, "
    + "generate a YouTube video title, "
    + "description, hashtags, and category."
    + "\nContext: "
  const ContextSlot: string := "{context}"
  const TemplateMiddle: string := "\nRetrieved Metadata: "
  const RetrievedSlot: string := "{retrievedMetadata}"
  const TemplateTail: string :=
    "\n- Generate a catchy, SEO-friendly title (max 100 characters).\n"
    + "- Generate a description (max 500 characters) with keywords and a call-to-action.\n"
    + "- Generate 3-5 relevant hashtags.\n"
    + "- \"category\": One word or phrase indicating the video category (e.g., \"Travel\", \"Technology\", \"Education\").\n"
    + "Output format:\n{\n  \"title\": \"<title>\",\n  \"description\": \"<description>\",\n"
    + "  \"hashtags\": [\"#tag1\", \"#tag2\", \"#tag3\"],\n  \"category\": \"<category>\"\n}\n"
  const Template: string := TemplateHead + ContextSlot + TemplateMiddle + RetrievedSlot + TemplateTail

  const NoMatchesText: string := "No similar metadata found."
  /** Number of nearest neighbours asked of the vector index. */
  const TopK: nat := 3

  /** The metadata stored with one match of the vector index. */
  datatype MatchMetadata = MatchMetadata(title: string, description: string, hashtags: seq<string>, category: string)

  /** What a query with `topK: 3` can return: at most that many matches. */
  type Matches = m: seq<MatchMetadata> | |m| <= TopK

  /** One match as a line of the prompt. */
  function DescribeMatch(m: MatchMetadata): (line: string)
    ensures "Title: " <= line
  {
    "Title: " + m.title + ", Description: " + m.description
      + ", Hashtags: " + Join(m.hashtags, ", ") + ", Category: " + m.category
  }

  /** The matches, one per line. */
  function RetrievedText(matches: seq<MatchMetadata>): (text: string)
    ensures text == [] <==> |matches| == 0
  {
    var lines := seq(|matches|, i requires 0 <= i < |matches| => DescribeMatch(matches[i]));
    assert |matches| > 0 ==> "Title: " <= lines[0];
    Join(lines, "\n")
  }

  /** `retrievedMetadata || "No similar metadata found."`. */
  function GroundingText(matches: seq<MatchMetadata>): (t: string)
    ensures t != []
    ensures |matches| == 0 ==> t == NoMatchesText
    ensures |matches| > 0 ==> t == RetrievedText(matches)
  {
    var text := RetrievedText(matches);
    if text == [] then NoMatchesText else text
  }

  /** The prompt sent to the model. Whatever the context and the matches,
      even text holding `$` patterns or a slot name, the instructions before
      the context and after the retrieved metadata arrive intact. */
  function Prompt(context: string, matches: seq<MatchMetadata>): (p: string)
    ensures TemplateHead <= p && EndsWith(p, TemplateTail)
  {
    TemplateHeadHasNoBrace();
    TwoSlotFrame(TemplateHead, ContextSlot, TemplateMiddle, RetrievedSlot, TemplateTail, context, GroundingText(matches));
    Replace(Replace(Template, ContextSlot, context), RetrievedSlot, GroundingText(matches))
  }

  lemma TemplateHeadHasNoBrace()
    ensures '{' !in TemplateHead
  {
    var p0 := "\nINSTRUCTIONS: Based on the provided ";
    assert forall k | 0 <= k < |p0| :: p0[k] != '{';
    var p1 := "context and retrieved metadata, ";
    assert forall k | 0 <= k < |p1| :: p1[k] != '{';
    var p2 := "generate a YouTube video title, ";
    assert forall k | 0 <= k < |p2| :: p2[k] != '{';
    var p3 := "description, hashtags, and category.";
    assert forall k | 0 <= k < |p3| :: p3[k] != '{';
    var p4 := "\nContext: ";
    assert forall k | 0 <= k < |p4| :: p4[k] != '{';
    assert TemplateHead == p0 + p1 + p2 + p3 + p4;
  }

  /** With a context free of `{` and `$` and grounding text free of `$`, the
      prompt is the template with both slots filled verbatim. */
  lemma PromptFillsSlots(context: string, matches: seq<MatchMetadata>)
    requires '{' !in context && '$' !in context && '$' !in GroundingText(matches)
    ensures Prompt(context, matches)
      == TemplateHead + context + TemplateMiddle + GroundingText(matches) + TemplateTail
  {
    TemplateHeadHasNoBrace();
    assert '{' !in TemplateMiddle;
    FillTwoSlots(TemplateHead, ContextSlot, TemplateMiddle, RetrievedSlot, TemplateTail,
                 context, GroundingText(matches));
  }

  /** With no matches the prompt says "No similar metadata found.", whatever the context. */
  lemma PromptWithoutMatches(context: string)
    ensures Contains(Prompt(context, []), NoMatchesText)
  {
    TemplateHeadHasNoBrace();
    SecondSlotLands(TemplateHead, ContextSlot, TemplateMiddle, RetrievedSlot, TemplateTail,
                    context, NoMatchesText);
  }

  /** The request every attempt sends. */
  function Request(model: string, prompt: string): (req: ChatRequest)
    ensures req.model == model && req.messages == [Message(User, prompt)]
    ensures req.temperature == 0.7 && req.maxTokens == 4000
  {
    ChatRequest(model, [Message(User, prompt)], Temperature, MaxTokens)
  }

  /** What `generateMetadata(context)` returns, or the message it throws. */
  function Generated(context: string, retrieval: Result<Matches, string>, modelEnv: Option<string>,
                     provider: nat -> Outcome, parse: string -> Option<Json>): (r: Result<Metadata, string>)
    ensures r.Success? ==> WithinBounds(r.value)
    ensures r.Failure? ==> GenerationErrorPrefix <= r.error
    ensures retrieval.Failure? ==> r == Failure(GenerationErrorPrefix + retrieval.error)
  {
    match retrieval
    case Failure(e) => Failure(GenerationErrorPrefix + e)
    case Success(_) =>
      RunWithinBounds(provider, parse);
      match RunFrom(Attempts(provider, parse), 1).result
      case Success(m) => Success(m)
      case Failure(e) => Failure(GenerationErrorPrefix + e.message)
  }

  /** `generateMetadata(context)`. `retrieval` is the outcome of embedding the
      context and querying the index for its `TopK` nearest matches;
      `provider(a)` is the endpoint's answer to attempt `a`. Returns the
      metadata or the message of the error thrown, the requests sent in order,
      and the waits made. */
  method GenerateMetadata(
    context: string,
    retrieval: Result<Matches, string>,
    modelEnv: Option<string>,
    provider: nat -> Outcome,
    parse: string -> Option<Json>)
    returns (r: Result<Metadata, string>, requests: seq<ChatRequest>, waits: seq<nat>)
    ensures retrieval.Failure? ==>
      r == Failure(GenerationErrorPrefix + retrieval.error) && requests == [] && waits == []
    ensures retrieval.Success? ==>
      var run := RunFrom(Attempts(provider, parse), 1);
      && |requests| == run.attempts
      && (forall k :: 0 <= k < |requests| ==>
            requests[k] == Request(ModelName(modelEnv), Prompt(context, retrieval.value)))
      && waits == run.waits
      && r == (match run.result
               case Success(m) => Success(m)
               case Failure(e) => Failure(GenerationErrorPrefix + e.message))
    ensures r == Generated(context, retrieval, modelEnv, provider, parse)
    ensures 1 <= |requests| <= MaxAttempts || (retrieval.Failure? && requests == [])
  {
    if retrieval.Failure? {
      return Failure(GenerationErrorPrefix + retrieval.error), [], [];
    }
    var prompt := Prompt(context, retrieval.value);
    var request := Request(ModelName(modelEnv), prompt);
    var result, attempts;
    result, attempts, waits := Retry(provider, parse);
    RunWithinBounds(provider, parse);
    requests := seq(attempts, _ => request);
    match result {
      case Success(m) => r := Success(m);
      case Failure(e) => r := Failure(GenerationErrorPrefix + e.message);
    }
  }
}
