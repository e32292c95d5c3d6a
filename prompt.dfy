/**
 * Prompt assembly and the answer chain (`_build_prompt`, `templateFR` and
 * `execute_chain_json` in CHAT.py): strip the query, compute its context,
 * substitute both into the fixed French-deployment template, and hand the
 * prompt to the language model.
 */
module Prompt {
  import opened Wrappers
  import opened Text
  import opened Retrieval

  /** The role statement at the top of the template. */
  const Preamble: string :=
    "\nAssume I am a Resource Manager at Schneider Electric. I have data about the projects my teams work on,\n"
    + "the human resources involved, and the organizations to which these resources belong. Can you help me find and use those informations to answer natural questions\n"
    + "and retrieve the most relevant details ? If the information is not available, please state that clearly and do not provide incorrect information.\n"

  /** The three synonym hints of the template. */
  const SynonymHints: string :=
    "\nConsider synonyms and related terms for better understanding. For example, \"managing\" can also mean \"manager of\", \"leading\", \"overseeing\", or \"supervising\".\n"
    + "Consider synonyms and related terms for better understanding. For example, \"capacity\" refers to \"Current Availability of resources\".\n"
    + "Consider synonyms and related terms for better understanding. For example, \"internal resources\" refers to \"resources with Contract Type as internal\".\n"

  /** Everything in front of the query slot. */
  const TemplateHead: string := Preamble + SynonymHints + "\nQuery:\n"
  /** What separates the query slot from the context slot. */
  const ContextHeading: string := "\nContext:\n"
  /** What follows the context slot. */
  const AnswerHeading: string := "\n\nAnswer:\n"

  /** The template with its `{query}` and `{context}` slots filled in. */
  function FormatPrompt(query: string, context: string): (p: string)
    ensures |p| == |TemplateHead| + |query| + |ContextHeading| + |context| + |AnswerHeading|
  {
    TemplateHead + query + ContextHeading + context + AnswerHeading
  }

  /** The query the prompt is built for: the `query` entry, missing or None read as empty, stripped. */
  function PromptQuery(query: Option<string>): (q: string)
    ensures IsStripped(q)
  {
    Strip(query.GetOr(""))
  }

  /**
   * `p` is `head`, then `query`, then `middle`, then `context`, then `tail`,
   * each at the position the lengths before it give.
   */
  predicate FilledSlots(p: string, head: string, query: string, middle: string, context: string, tail: string) {
    var c0 := |head| + |query| + |middle|;
    && |p| == c0 + |context| + |tail|
    && p[..|head|] == head
    && p[|head|..|head| + |query|] == query
    && p[|head| + |query|..c0] == middle
    && p[c0..c0 + |context|] == context
    && p[c0 + |context|..] == tail
  }

  /** `_build_prompt`: the template filled with the stripped query and the context `RAG_rm` computes for it. */
  function BuildPrompt(query: Option<string>, search: SearchBackend, similarity: Similarity): (p: string)
    ensures FilledSlots(p, TemplateHead, PromptQuery(query), ContextHeading,
                        RagContext(PromptQuery(query), search(PromptQuery(query), DefaultResultCount), similarity, DefaultMaxContextLength),
                        AnswerHeading)
  {
    var q := PromptQuery(query);
    var context := RagContext(q, search(q, DefaultResultCount), similarity, DefaultMaxContextLength);
    FormatPromptSlots(q, context);
    FormatPrompt(q, context)
  }

  /** What the language model call gives: a completion, or an exception. */
  datatype Completion = Completed(text: string) | CompletionFailed

  /** The language model, called with the whole prompt. */
  type LanguageModel = string -> Completion

  /** `execute_chain_json`: build the prompt and invoke the model on it. */
  function ExecuteChain(query: Option<string>, search: SearchBackend, similarity: Similarity, llm: LanguageModel): Completion {
    llm(BuildPrompt(query, search, similarity))
  }

  /** The five pieces of a concatenation sit at the positions their lengths give. */
  lemma ConcatenationSlots(a: string, b: string, c: string, d: string, e: string)
    ensures FilledSlots(a + b + c + d + e, a, b, c, d, e)
  {
    var s := a + b + c + d + e;
    var i := |a| + |b| + |c|;
    assert s[..i + |d|] == a + b + c + d;
    assert s[..i] == a + b + c;
    assert s[..|a| + |b|] == a + b;
  }

  /** The query and the context can be read back from a prompt at the positions their lengths give. */
  lemma FormatPromptSlots(query: string, context: string)
    ensures FilledSlots(FormatPrompt(query, context), TemplateHead, query, ContextHeading, context, AnswerHeading)
  {
    ConcatenationSlots(TemplateHead, query, ContextHeading, context, AnswerHeading);
  }

  /** Two prompts with queries of the same length are equal only when their queries and contexts are. */
  lemma FormatPromptInjective(q1: string, c1: string, q2: string, c2: string)
    requires |q1| == |q2|
    ensures FormatPrompt(q1, c1) == FormatPrompt(q2, c2) <==> q1 == q2 && c1 == c2
  {
    if FormatPrompt(q1, c1) == FormatPrompt(q2, c2) {
      FormatPromptSlots(q1, c1);
      FormatPromptSlots(q2, c2);
      assert |c1| == |c2|;
    }
  }

  /** Whitespace around the query, and a missing or blank query, do not change the prompt. */
  lemma BuildPromptIgnoresSurroundingWhitespace(s: string, search: SearchBackend, similarity: Similarity)
    ensures BuildPrompt(Some(s), search, similarity) == BuildPrompt(Some(Strip(s)), search, similarity)
    ensures AllSpace(s) ==> BuildPrompt(Some(s), search, similarity) == BuildPrompt(None, search, similarity)
  {
    StripIdempotent(s);
    StripEmptyIffBlank(s);
  }

  /**
   * When the search for the stripped query fails or finds nothing, the
   * prompt's context slot holds the sentinel.
   */
  lemma BuildPromptWithoutDocuments(query: Option<string>, search: SearchBackend, similarity: Similarity)
    requires var q := PromptQuery(query);
      search(q, DefaultResultCount) == SearchFailed || search(q, DefaultResultCount) == Retrieved([])
    ensures BuildPrompt(query, search, similarity) == FormatPrompt(PromptQuery(query), Sentinel)
  {
  }
}
