/**
 * The chat column's Send button (app.py): the per-browser-session state is the
 * list of answered turns and the last accepted question. A submission is
 * rejected when its trimmed text is blank, when RAG is switched off, or when
 * it repeats the last accepted question; otherwise the question is recorded,
 * the answer pipeline runs, and its cleaned reply is appended as a new turn.
 */
module Session {
  import opened Text
  import opened Sanitizer
  import opened Prompt

  /** One answered exchange: the trimmed question and the cleaned reply. */
  datatype ChatTurn = ChatTurn(user: string, response: string)

  /** The two session-state entries the Send handler reads and writes. */
  datatype SessionState = SessionState(history: seq<ChatTurn>, lastQuestion: string)

  /** The state of a fresh session: no turns, and the empty string as last question. */
  const InitialState: SessionState := SessionState([], "")

  /** What the handler shows the user. */
  datatype Notice =
    | PleaseEnterQuestion   // warning: blank input
    | EnableRag             // info: RAG is switched off
    | AlreadyAsked          // info: same question as the last accepted one
    | Answered              // a turn was appended
    | PipelineFailed        // the answer pipeline raised; the question still counts as asked

  /** The state after a click and what was shown. */
  datatype Outcome = Outcome(state: SessionState, notice: Notice)

  /** The answer pipeline, called with the trimmed question. */
  type Pipeline = string -> Completion

  /** A submission that leaves the state alone. */
  predicate Rejected(n: Notice) {
    n == PleaseEnterQuestion || n == EnableRag || n == AlreadyAsked
  }

  /** One click on Send with the text area holding `text`. */
  function Submit(s: SessionState, text: string, useRag: bool, pipeline: Pipeline): (r: Outcome)
    ensures r.state == s <==> Rejected(r.notice)
    ensures var h := r.state.history;
      |s.history| <= |h| <= |s.history| + 1 && h[..|s.history|] == s.history
  {
    var q := Strip(text);
    if q == "" then Outcome(s, PleaseEnterQuestion)
    else if !useRag then Outcome(s, EnableRag)
    else if q == s.lastQuestion then Outcome(s, AlreadyAsked)
    else
      match pipeline(q)
      case CompletionFailed => Outcome(s.(lastQuestion := q), PipelineFailed)
      case Completed(raw) => Outcome(SessionState(s.history + [ChatTurn(q, Cleaned(raw))], q), Answered)
  }

  /**
   * What every reachable state satisfies: questions are trimmed and non-blank,
   * replies are clean, and once a turn exists the last question is non-blank.
   */
  predicate Valid(s: SessionState) {
    && IsStripped(s.lastQuestion)
    && (s.history != [] ==> s.lastQuestion != "")
    && forall i :: 0 <= i < |s.history| ==> TurnValid(s.history[i])
  }

  /** A recorded turn: a trimmed non-blank question and a reply that cleaning leaves as it is. */
  predicate TurnValid(t: ChatTurn) {
    t.user != "" && IsStripped(t.user) && Cleaned(t.response) == t.response
  }

  /** The Send handler over the session state, which lives as long as the browser session. */
  class ChatSession {
    var chatHistory: seq<ChatTurn>
    var lastQuestion: string

    /** The handler's view of the session state. */
    function State(): SessionState
      reads this
    {
      SessionState(chatHistory, lastQuestion)
    }

    /** First run of the page: both entries are initialised. */
    constructor ()
      ensures State() == InitialState && Valid(State())
    {
      chatHistory := [];
      lastQuestion := "";
    }

    /** A click on Send. */
    method Send(text: string, useRag: bool, pipeline: Pipeline) returns (notice: Notice)
      modifies this
      ensures Outcome(State(), notice) == Submit(old(State()), text, useRag, pipeline)
      ensures old(Valid(State())) ==> Valid(State())
    {
      if Valid(State()) {
        SubmitPreservesValid(State(), text, useRag, pipeline);
      }
      var q := Strip(text);
      if q == "" {
        return PleaseEnterQuestion;
      }
      if !useRag {
        return EnableRag;
      }
      if q == lastQuestion {
        return AlreadyAsked;
      }
      lastQuestion := q;
      var raw := pipeline(q);
      if raw.CompletionFailed? {
        return PipelineFailed;
      }
      var cleaned := CleanResponse(raw.text);
      chatHistory := chatHistory + [ChatTurn(q, cleaned)];
      notice := Answered;
    }
  }

  /** The three rejections, with the order in which they are checked. */
  lemma SubmitRejections(s: SessionState, text: string, useRag: bool, pipeline: Pipeline)
    ensures var n := Submit(s, text, useRag, pipeline).notice;
      && (n == PleaseEnterQuestion <==> AllSpace(text))
      && (n == EnableRag <==> !AllSpace(text) && !useRag)
      && (n == AlreadyAsked <==> !AllSpace(text) && useRag && Strip(text) == s.lastQuestion)
  {
    StripEmptyIffBlank(text);
  }

  /**
   * An accepted submission records the trimmed text as the last question
   * before the pipeline runs, so even a failed one counts as asked, and
   * appends exactly one turn only when the pipeline answers.
   */
  lemma SubmitAccepted(s: SessionState, text: string, useRag: bool, pipeline: Pipeline)
    requires !Rejected(Submit(s, text, useRag, pipeline).notice)
    ensures var o := Submit(s, text, useRag, pipeline);
      && useRag && !AllSpace(text) && Strip(text) != s.lastQuestion
      && o.state.lastQuestion == Strip(text)
      && (o.notice == PipelineFailed <==> pipeline(Strip(text)).CompletionFailed?)
      && (o.notice == PipelineFailed ==> o.state.history == s.history)
      && (o.notice == Answered ==>
            o.state.history == s.history + [ChatTurn(Strip(text), Cleaned(pipeline(Strip(text)).text))])
  {
    StripEmptyIffBlank(text);
  }

  /** Submitting the same trimmed text right after it was accepted is rejected as already asked. */
  lemma ImmediateDuplicateRejected(s: SessionState, text: string, again: string, useRag: bool, pipeline: Pipeline)
    requires !Rejected(Submit(s, text, useRag, pipeline).notice)
    requires Strip(again) == Strip(text)
    ensures var s1 := Submit(s, text, useRag, pipeline).state;
      Submit(s1, again, useRag, pipeline) == Outcome(s1, AlreadyAsked)
  {
    StripEmptyIffBlank(text);
  }

  /**
   * The duplicate check only looks at the last accepted question: A, B, A is
   * answered three times when the pipeline answers.
   */
  lemma AlternatingQuestionsAccepted(s: SessionState, a: string, b: string, pipeline: Pipeline)
    requires Strip(a) != "" && Strip(b) != "" && Strip(a) != Strip(b) && Strip(a) != s.lastQuestion
    requires pipeline(Strip(a)).Completed? && pipeline(Strip(b)).Completed?
    ensures var o1 := Submit(s, a, true, pipeline);
      var o2 := Submit(o1.state, b, true, pipeline);
      var o3 := Submit(o2.state, a, true, pipeline);
      && o1.notice == Answered && o2.notice == Answered && o3.notice == Answered
      && |o3.state.history| == |s.history| + 3
  {
  }

  /** The initial empty last question never blocks anything: blank input is rejected before the duplicate check. */
  lemma EmptyLastQuestionNeverBlocks(s: SessionState, text: string, useRag: bool, pipeline: Pipeline)
    requires s.lastQuestion == ""
    ensures Submit(s, text, useRag, pipeline).notice != AlreadyAsked
  {
  }

  /** A fresh session is valid. */
  lemma InitialStateValid()
    ensures Valid(InitialState)
  {
  }

  /** Every submission keeps the session valid. */
  lemma SubmitPreservesValid(s: SessionState, text: string, useRag: bool, pipeline: Pipeline)
    requires Valid(s)
    ensures Valid(Submit(s, text, useRag, pipeline).state)
  {
    var o := Submit(s, text, useRag, pipeline);
    if o.notice == Answered {
      var raw := pipeline(Strip(text)).text;
      CleanedIdempotent(raw);
      StripIdempotent(text);
      var h := o.state.history;
      forall i | 0 <= i < |h| ensures TurnValid(h[i]) {
        if i < |s.history| {
          assert h[i] == s.history[i];
        }
      }
    }
  }
}
