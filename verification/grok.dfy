/**
 * lib/grok.ts: metadata generation from the context alone. The prompt is the
 * template with `{context}` replaced; every call goes through
 * `createChatCompletion`, which fills in the default sampling settings and
 * rethrows any error as a fresh `Error` — one without a `status` — so that
 * the loop never stops early on a provider error.
 */
module Grok {
  import opened Common
  import opened JsText
  import opened MetadataSchema
  import opened Completion

  const TemplateHead: string :=
    "\nINSTRUCTIONS: Based on the provided "
    + "context, generate a YouTube video "
    + "title, description, and hashtags."
    + "\nContext: "
  const ContextSlot: string := "{context}"
  const TemplateTail: string :=
    "\n- Generate a catchy, SEO-friendly title (max 100 characters).\n"
    + "- Generate a description (max 500 characters) with keywords and a call-to-action.\n"
    + "- Generate 3-5 relevant hashtags.\n"
    + "- - \"category\": One word or phrase indicating the video category (e.g. \"Travel\", \"Technology\", \"Education\")\n"
    + "Output format:\n{\n  \"title\": \"<title>\",\n  \"description\": \"<description>\",\n"
    + "  \"hashtags\": [\"#tag1\", \"#tag2\", \"#tag3\"],\n  \"category\":\"<category>\"\n}\n"
  const Template: string := TemplateHead + ContextSlot + TemplateTail

  const CompletionErrorPrefix: string := "Failed to create chat completion: "

  /** The prompt sent to the model. Whatever the context, even one holding
      `$` patterns, the instructions before and after it arrive intact. */
  function Prompt(context: string): (p: string)
    ensures TemplateHead <= p && EndsWith(p, TemplateTail)
  {
    TemplateHeadHasNoBrace();
    SlotFrame(TemplateHead, ContextSlot, TemplateTail, context);
    Replace(Template, ContextSlot, context)
  }

  lemma TemplateHeadHasNoBrace()
    ensures '{' !in TemplateHead
  {
    var p0 := "\nINSTRUCTIONS: Based on the provided ";
    assert forall k | 0 <= k < |p0| :: p0[k] != '{';
    var p1 := "context, generate a YouTube video ";
    assert forall k | 0 <= k < |p1| :: p1[k] != '{';
    var p2 := "title, description, and hashtags.";
    assert forall k | 0 <= k < |p2| :: p2[k] != '{';
    var p3 := "\nContext: ";
    assert forall k | 0 <= k < |p3| :: p3[k] != '{';
    assert TemplateHead == p0 + p1 + p2 + p3;
  }

  /** A context without `$` is inserted verbatim where the slot was. */
  lemma PromptFillsSlot(context: string)
    requires '$' !in context
    ensures Prompt(context) == TemplateHead + context + TemplateTail
  {
    TemplateHeadHasNoBrace();
    ReplaceAfterPrefix(TemplateHead, ContextSlot, TemplateTail, context);
    SubstitutionLiteral(ContextSlot, TemplateHead, TemplateTail, context);
  }

  /** `$&` in the context stands for the matched slot, so a context of exactly
      "$&" leaves the template as it was. */
  lemma PromptDollarAmpersand()
    ensures Prompt("$&") == Template
  {
    TemplateHeadHasNoBrace();
    ReplaceWithMatch(TemplateHead, ContextSlot, TemplateTail);
  }

  /** The argument object of `createChatCompletion`; the sampling settings may be omitted. */
  datatype ChatArgs = ChatArgs(model: string, messages: seq<Message>, temperature: Option<real>, maxTokens: Option<int>)

  /** The body `createChatCompletion` sends: omitted settings take 0.7 and 4000. */
  function RequestOf(args: ChatArgs): (req: ChatRequest)
    ensures req.model == args.model && req.messages == args.messages
    ensures req.temperature == (if args.temperature.Some? then args.temperature.value else 0.7)
    ensures req.maxTokens == (if args.maxTokens.Some? then args.maxTokens.value else 4000)
  {
    ChatRequest(args.model, args.messages, args.temperature.GetOr(Temperature), args.maxTokens.GetOr(MaxTokens))
  }

  /** What `createChatCompletion` gives back for the endpoint's `answer`: the
      completion unchanged, or a new error whose message carries the old one
      and which has no `status`. */
  function CreateChatCompletion(answer: Outcome): (r: Outcome)
    ensures answer.Content? ==> r == answer
    ensures answer.Threw? ==> r.Threw? && r.error.status.None?
    ensures answer.Threw? ==> r.error.message == CompletionErrorPrefix + answer.error.message
  {
    match answer
    case Content(_) => answer
    case Threw(e) => Threw(Error(CompletionErrorPrefix + e.message, None))
  }

  /** The endpoint's answers as seen by the loop, through `createChatCompletion`. */
  function Wrapped(provider: nat -> Outcome): nat -> Outcome {
    (a: nat) => CreateChatCompletion(provider(a))
  }

  /** No error the loop sees carries a status, so a failing run always makes
      all three attempts and waits 1000 ms and then 2000 ms. */
  lemma {:induction false} FailureTakesAllAttempts(provider: nat -> Outcome, parse: string -> Option<Json>)
    ensures var run := RunFrom(Attempts(Wrapped(provider), parse), 1);
      run.result.Failure? ==> run.attempts == MaxAttempts && run.waits == [1000, 2000]
  {
    var step := Attempts(Wrapped(provider), parse);
    var run := RunFrom(step, 1);
    if run.result.Failure? {
      var o := CreateChatCompletion(provider(run.attempts));
      assert run.result == Attempt(o, parse);
      assert run.result.error.status.None?;
      assert run.attempts == MaxAttempts;
      assert run.waits == [run.waits[0], run.waits[1]];
    }
  }

  /** The request every attempt sends. */
  function Request(model: string, prompt: string): (req: ChatRequest)
    ensures req.model == model && req.messages == [Message(User, prompt)]
    ensures req.temperature == 0.7 && req.maxTokens == 4000
  {
    RequestOf(ChatArgs(model, [Message(User, prompt)], Some(Temperature), Some(MaxTokens)))
  }

  /** `generateMetadata(context)`: `provider(a)` is the endpoint's answer to
      attempt `a`. Returns the metadata or the message of the error thrown,
      the requests sent in order and the waits made. */
  method GenerateMetadata(context: string, modelEnv: Option<string>, provider: nat -> Outcome, parse: string -> Option<Json>)
    returns (r: Result<Metadata, string>, requests: seq<ChatRequest>, waits: seq<nat>)
    ensures var run := RunFrom(Attempts(Wrapped(provider), parse), 1);
      && |requests| == run.attempts
      && (forall k :: 0 <= k < |requests| ==> requests[k] == Request(ModelName(modelEnv), Prompt(context)))
      && waits == run.waits
      && r == (match run.result
               case Success(m) => Success(m)
               case Failure(e) => Failure(GenerationErrorPrefix + e.message))
    ensures 1 <= |requests| <= MaxAttempts
    ensures r.Success? ==> WithinBounds(r.value)
    ensures r.Failure? ==> |requests| == MaxAttempts && waits == [1000, 2000]
  {
    var request := Request(ModelName(modelEnv), Prompt(context));
    var result, attempts;
    result, attempts, waits := Retry(Wrapped(provider), parse);
    RunWithinBounds(Wrapped(provider), parse);
    FailureTakesAllAttempts(provider, parse);
    requests := seq(attempts, _ => request);
    match result {
      case Success(m) => r := Success(m);
      case Failure(e) => r := Failure(GenerationErrorPrefix + e.message);
    }
  }
}
