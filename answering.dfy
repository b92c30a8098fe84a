/** How the service answers an eligibility question: the credential gate that
    decides whether the language model may be used, the retrieval-only answer,
    and the two endpoints that choose between them. */
module Answering {
  import opened Results
  import opened PyStrings
  import opened Documents
  import Config

  /** `USE_OPENAI` (and `USE_LLM`, which is the same value): the OpenAI key is
      set, starts with `sk-`, holds no `your-` placeholder in any letter case
      and is longer than twenty characters. The contract reads the placeholder
      test window by window, and shows the test for an empty key is subsumed
      by the length test. */
  predicate UseOpenAI(key: Option<string>): (open: bool)
    ensures open <==>
      && key.Some? && |key.value| > 20 && key.value[..3] == "sk-"
      && forall i: nat :: !WindowLowersTo(key.value, "your-", i)
  {
    if key.None? then false
    else
      ContainsLower(key.value, "your-");
      key.value != "" && StartsWith(key.value, "sk-")
      && !Contains(Lower(key.value), "your-") && |key.value| > 20
  }

  /** `LLM_PROVIDER`. */
  function LlmProvider(key: Option<string>): (provider: string)
    ensures provider == "openai" <==> UseOpenAI(key)
    ensures provider == "none" <==> !UseOpenAI(key)
  {
    if UseOpenAI(key) then "openai" else "none"
  }

  /** A key that holds `your-` in any mix of letter case is a placeholder and
      never enables the model. */
  lemma PlaceholderKeyRejected(key: string, i: nat)
    requires i + 5 <= |key| && Lower(key[i..i + 5]) == "your-"
    ensures !UseOpenAI(Some(key))
  {
    assert Lower(key)[i..i + 5] == Lower(key[i..i + 5]);
    assert OccursAt(Lower(key), "your-", i);
  }

  /** The gate is stricter than the `openai_configured` flag of the settings
      summary: whenever the gate opens, the summary reports OpenAI as
      configured and an LLM as available. */
  lemma GateImpliesConfigured(env: Config.Env)
    requires UseOpenAI(Config.Getenv(env, "OPENAI_API_KEY"))
    ensures Config.GetInfo(Config.Load(env)).openaiConfigured
    ensures Config.GetInfo(Config.Load(env)).llmAvailable
  {
  }

  /** ... and strictly so: a placeholder key, short or long, is reported as
      configured while the service answers by retrieval only. */
  lemma ConfiguredPlaceholderKeyIsGated()
    ensures Config.GetInfo(Config.Load(map["OPENAI_API_KEY" := "sk-your-key"])).openaiConfigured
    ensures !UseOpenAI(Config.Getenv(map["OPENAI_API_KEY" := "sk-your-key"], "OPENAI_API_KEY"))
    ensures Config.GetInfo(Config.Load(map["OPENAI_API_KEY" := "sk-your-key-goes-here-0123"])).openaiConfigured
    ensures !UseOpenAI(Config.Getenv(map["OPENAI_API_KEY" := "sk-your-key-goes-here-0123"], "OPENAI_API_KEY"))
  {
    var long := "sk-your-key-goes-here-0123";
    assert long[3..8] == "your-" by {
      assert long[3] == 'y' && long[4] == 'o' && long[5] == 'u' && long[6] == 'r' && long[7] == '-';
    }
    PlaceholderKeyRejected(long, 3);
    assert "sk-your-key"[..3] == "sk-";
    assert long[..3] == "sk-";
  }

  /** The answer when no passage matches. */
  const NotFoundMessage: string :=
    "\U{274C}" + " No relevant visa information found for your query. Please try different search terms or contact support."

  const ExcerptHeader: string :=
    "\U{1F50D}" + " **VISA ELIGIBILITY ASSESSMENT**\n\nBased on the most relevant visa policy document:\n\n\U{1F4CB} "

  const ExcerptFooter: string :=
    "\n\n---\n\U{1F4A1} **Note**: This result is based on official visa policy documents. For the most accurate and up-to-date information, please verify with the official embassy or consulate."

  /** The template that presents the best passage as a policy excerpt: the
      fixed header, the stripped passage and the fixed footer. */
  function Excerpt(content: string): (e: string)
    ensures StartsWith(e, ExcerptHeader) && EndsWith(e, ExcerptFooter)
    ensures |e| == |ExcerptHeader| + |Strip(content)| + |ExcerptFooter|
    ensures Contains(e, Strip(content))
  {
    ContainsMiddle(ExcerptHeader, Strip(content), ExcerptFooter);
    ExcerptHeader + Strip(content) + ExcerptFooter
  }

  /** `run_retrieval_only`: ask the retriever; no passage gives the fixed
      not-found message, otherwise the first passage, stripped, in the
      excerpt template. A retriever failure is raised again. */
  function RunRetrievalOnly(retrieve: Retriever, query: string): (r: Result<string>)
    ensures r.Err? <==> retrieve(query).Err?
    ensures r.Err? ==> r.error == retrieve(query).error
    ensures retrieve(query) == Ok([]) ==> r == Ok(NotFoundMessage)
    ensures retrieve(query).Ok? && retrieve(query).value != [] ==>
      r == Ok(Excerpt(retrieve(query).value[0].pageContent))
  {
    match retrieve(query)
    case Err(e) => Err(e)
    case Ok(docs) => if docs == [] then Ok(NotFoundMessage) else Ok(Excerpt(docs[0].pageContent))
  }

  /** Only the best passage matters: passages after the first never change
      the retrieval-only answer. */
  lemma RetrievalOnlyUsesFirstPassage(r1: Retriever, r2: Retriever, query: string)
    requires r1(query).Ok? && r2(query).Ok?
    requires r1(query).value != [] && r2(query).value != []
    requires r1(query).value[0].pageContent == r2(query).value[0].pageContent
    ensures RunRetrievalOnly(r1, query) == RunRetrievalOnly(r2, query)
  {
  }

  /** The best passage, stripped, appears verbatim in the answer and in the
      passage itself, and can be read back out of the answer. */
  lemma ExcerptQuotesPassage(content: string)
    ensures Contains(Excerpt(content), Strip(content))
    ensures Contains(content, Strip(content))
    ensures Excerpt(content)[|ExcerptHeader|..|Excerpt(content)| - |ExcerptFooter|] == Strip(content)
  {
    var e := Excerpt(content);
    assert e[|ExcerptHeader|..|ExcerptHeader| + |Strip(content)|] == Strip(content);
    assert OccursAt(e, Strip(content), |ExcerptHeader|);
    StripIsSubstring(content);
  }

  /** The not-found message can never be mistaken for an excerpt. */
  lemma NotFoundIsNoExcerpt(content: string)
    ensures NotFoundMessage != Excerpt(content)
  {
  }

  /** The fields of the eligibility form, all strings. */
  datatype VisaRequest = VisaRequest(
    countryOfCitizenship: string,
    destinationCountry: string,
    purposeOfVisit: string,
    lengthOfStay: string,
    age: string)

  /** Every field of the form appears in `q`. */
  predicate MentionsAllFields(q: string, req: VisaRequest) {
    && Contains(q, req.countryOfCitizenship)
    && Contains(q, req.destinationCountry)
    && Contains(q, req.purposeOfVisit)
    && Contains(q, req.lengthOfStay)
    && Contains(q, req.age)
  }

  /** A five-slot template filled with `f1` .. `f5` quotes every one of them. */
  lemma TemplateQuotesFields(
    l0: string, f1: string, l1: string, f2: string, l2: string, f3: string,
    l3: string, f4: string, l4: string, f5: string, l5: string)
    ensures var q := l0 + f1 + l1 + f2 + l2 + f3 + l3 + f4 + l4 + f5 + l5;
      Contains(q, f1) && Contains(q, f2) && Contains(q, f3) && Contains(q, f4) && Contains(q, f5)
  {
    var a1 := l0;
    var a2 := a1 + f1 + l1;
    var a3 := a2 + f2 + l2;
    var a4 := a3 + f3 + l3;
    var a5 := a4 + f4 + l4;
    var q := a5 + f5 + l5;
    assert q == a1 + f1 + (l1 + f2 + l2 + f3 + l3 + f4 + l4 + f5 + l5);
    assert q == a2 + f2 + (l2 + f3 + l3 + f4 + l4 + f5 + l5);
    assert q == a3 + f3 + (l3 + f4 + l4 + f5 + l5);
    assert q == a4 + f4 + (l4 + f5 + l5);
    ContainsMiddle(a1, f1, l1 + f2 + l2 + f3 + l3 + f4 + l4 + f5 + l5);
    ContainsMiddle(a2, f2, l2 + f3 + l3 + f4 + l4 + f5 + l5);
    ContainsMiddle(a3, f3, l3 + f4 + l4 + f5 + l5);
    ContainsMiddle(a4, f4, l4 + f5 + l5);
    ContainsMiddle(a5, f5, l5);
  }

  /** The question `/check-eligibility` puts to the collaborators; it quotes
      every field of the form. */
  function EligibilityQuery(req: VisaRequest): (q: string)
    ensures MentionsAllFields(q, req)
  {
    var l0, l1, l2 := "Determine eligibility for a ", " visa to ", " for a citizen of ";
    var l3, l4, l5 := ", aged ", ", staying ", " days. Provide reasoning and reference policy data.";
    TemplateQuotesFields(l0, req.purposeOfVisit, l1, req.destinationCountry, l2, req.countryOfCitizenship,
                         l3, req.age, l4, req.lengthOfStay, l5);
    l0 + req.purposeOfVisit + l1 + req.destinationCountry + l2 + req.countryOfCitizenship + l3
    + req.age + l4 + req.lengthOfStay + l5
  }

  /** The question `/analyze-profile` puts to the collaborators; it quotes
      every field of the form. */
  function ProfileQuery(req: VisaRequest): (q: string)
    ensures MentionsAllFields(q, req)
  {
    var l0, l1, l2 := "Analyze visa eligibility comprehensively for:\n- Citizen of: ", "\n- Destination: ", "\n- Purpose: ";
    var l3, l4 := "\n- Duration: ", " days\n- Age: ";
    var l5 := " years\n\nProvide: 1) Eligibility status, 2) Key requirements, 3) Recommendations, 4) Next steps";
    TemplateQuotesFields(l0, req.countryOfCitizenship, l1, req.destinationCountry, l2, req.purposeOfVisit,
                         l3, req.lengthOfStay, l4, req.age, l5);
    l0 + req.countryOfCitizenship + l1 + req.destinationCountry + l2 + req.purposeOfVisit + l3
    + req.lengthOfStay + l4 + req.age + l5
  }

  /** `run_rag_with_llm`: raises when the gate is closed, otherwise whatever
      the chain returns or raises. */
  function RunRagWithLlm(key: Option<string>, llm: Llm, query: string): (r: Result<string>)
    ensures !UseOpenAI(key) ==> r == Err("No LLM configured")
    ensures UseOpenAI(key) ==> r == llm(query)
  {
    if UseOpenAI(key) then llm(query) else Err("No LLM configured")
  }

  /** The body of a `/check-eligibility` response. */
  datatype EligibilityResponse = EligibilityResponse(eligibility: string, provider: string, timestamp: string)

  /** `/check-eligibility`, with the clock reading `now`. `Err` is an exception
      that escapes the handler. */
  function CheckEligibility(key: Option<string>, llm: Llm, retrieve: Retriever, req: VisaRequest, now: string)
    : (r: Result<EligibilityResponse>)
    ensures var q := EligibilityQuery(req);
      UseOpenAI(key) && llm(q).Ok? ==> r == Ok(EligibilityResponse(llm(q).value, "openai", now))
    ensures var q := EligibilityQuery(req);
      !UseOpenAI(key) || llm(q).Err? ==>
        match RunRetrievalOnly(retrieve, q)
        case Ok(text) => r == Ok(EligibilityResponse(text, "retrieval-only", now))
        case Err(e) => r == Err(e)
    ensures r.Err? ==> retrieve(EligibilityQuery(req)).Err?
  {
    var query := EligibilityQuery(req);
    if UseOpenAI(key) && RunRagWithLlm(key, llm, query).Ok? then
      Ok(EligibilityResponse(RunRagWithLlm(key, llm, query).value, LlmProvider(key), now))
    else
      match RunRetrievalOnly(retrieve, query)
      case Ok(text) => Ok(EligibilityResponse(text, "retrieval-only", now))
      case Err(e) => Err(e)
  }

  /** Without a usable key the model is never consulted: the response does not
      depend on it at all, and it names retrieval as its provider. */
  lemma NoKeyNeverConsultsLlm(key: Option<string>, llm1: Llm, llm2: Llm, retrieve: Retriever, req: VisaRequest, now: string)
    requires !UseOpenAI(key)
    ensures CheckEligibility(key, llm1, retrieve, req, now) == CheckEligibility(key, llm2, retrieve, req, now)
    ensures CheckEligibility(key, llm1, retrieve, req, now).Ok? ==>
      CheckEligibility(key, llm1, retrieve, req, now).value.provider == "retrieval-only"
  {
  }

  /** A failing model is invisible to the caller: the response is exactly the
      one the service gives when no key is configured. */
  lemma LlmFailureFallsBack(key: Option<string>, llm: Llm, retrieve: Retriever, req: VisaRequest, now: string)
    requires UseOpenAI(key) && llm(EligibilityQuery(req)).Err?
    ensures CheckEligibility(key, llm, retrieve, req, now) == CheckEligibility(None, llm, retrieve, req, now)
  {
  }

  /** The provider always names the path that produced the text. */
  lemma ProviderNamesPath(key: Option<string>, llm: Llm, retrieve: Retriever, req: VisaRequest, now: string)
    requires CheckEligibility(key, llm, retrieve, req, now).Ok?
    ensures var resp := CheckEligibility(key, llm, retrieve, req, now).value;
      var q := EligibilityQuery(req);
      (resp.provider == "openai" && UseOpenAI(key) && llm(q) == Ok(resp.eligibility))
      || (resp.provider == "retrieval-only" && RunRetrievalOnly(retrieve, q) == Ok(resp.eligibility))
  {
  }

  /** The body of an `/analyze-profile` response; `note` is present only on the
      retrieval path. */
  datatype ProfileResponse =
    | ProfileSuccess(analysis: string, provider: string, profile: VisaRequest, timestamp: string, note: Option<string>)
    | ProfileError(error: string, profile: VisaRequest)
  {
    /** The `status` field. */
    function Status(): string {
      if ProfileSuccess? then "success" else "error"
    }
  }

  const RetrievalNote: string := "LLM not available - using document retrieval"

  /** `/analyze-profile`: the same gate, no fallback, and every failure turned
      into an error body that echoes the request. */
  function AnalyzeProfile(key: Option<string>, llm: Llm, retrieve: Retriever, req: VisaRequest, now: string)
    : (r: ProfileResponse)
    ensures r.profile == req
    ensures var q := ProfileQuery(req);
      UseOpenAI(key) ==>
        match llm(q)
        case Ok(text) => r == ProfileSuccess(text, "openai", req, now, None)
        case Err(e) => r == ProfileError(e, req)
    ensures var q := ProfileQuery(req);
      !UseOpenAI(key) ==>
        match RunRetrievalOnly(retrieve, q)
        case Err(e) => r == ProfileError(e, req)
        case Ok(text) => r == ProfileSuccess(text, "retrieval-only", req, now, Some(RetrievalNote))
    ensures r.ProfileSuccess? ==> (r.note.Some? <==> r.provider == "retrieval-only")
  {
    var query := ProfileQuery(req);
    if UseOpenAI(key) then
      match RunRagWithLlm(key, llm, query)
      case Ok(text) => ProfileSuccess(text, LlmProvider(key), req, now, None)
      case Err(e) => ProfileError(e, req)
    else
      match RunRetrievalOnly(retrieve, query)
      case Ok(text) => ProfileSuccess(text, "retrieval-only", req, now, Some(RetrievalNote))
      case Err(e) => ProfileError(e, req)
  }

  /** Unlike `/check-eligibility`, `/analyze-profile` has no fallback: with a
      usable key and a failing model it reports an error although retrieval
      would have answered, while `/check-eligibility` answers by retrieval. */
  lemma AnalyzeProfileHasNoFallback(key: Option<string>, llm: Llm, retrieve: Retriever, req: VisaRequest, now: string)
    requires UseOpenAI(key)
    requires llm(ProfileQuery(req)).Err? && llm(EligibilityQuery(req)).Err?
    requires retrieve(ProfileQuery(req)).Ok? && retrieve(EligibilityQuery(req)).Ok?
    ensures AnalyzeProfile(key, llm, retrieve, req, now).Status() == "error"
    ensures CheckEligibility(key, llm, retrieve, req, now).Ok?
    ensures CheckEligibility(key, llm, retrieve, req, now).value.provider == "retrieval-only"
  {
  }
}
