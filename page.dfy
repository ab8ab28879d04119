/** The page controller: the form state the page holds and how submitting,
    copying and typing in the editor change it.  The request itself is an
    input: each submission settles with one `Response`. */
module Page {
  import opened Wrappers
  import opened Text
  import opened Gemini
  import Editor

  const TRIPLE_QUOTE: string := "\"\"\""

  /** The snippet the editor starts with. */
  const SAMPLE_CODE: string :=
    "def fibonacci(n):\n    "
    + TRIPLE_QUOTE + "Return the first n numbers in the Fibonacci sequence." + TRIPLE_QUOTE + "\n"
    + "    seq = [0, 1]\n"
    + "    while len(seq) < n:\n"
    + "        seq.append(seq[-1] + seq[-2])\n"
    + "    return seq[:n]\n\n"
    + "print(fibonacci(10))"

  const UNABLE_MESSAGE: string := "Unable to generate explanation"
  const UNEXPECTED_MESSAGE: string := "Something unexpected happened."
  const NO_EXPLANATION: string := "No explanation returned."

  /** The page's state variables; `error` is `None` for null. */
  datatype PageState = PageState(
    code: string,
    level: Level,
    loading: bool,
    error: Option<string>,
    result: string,
    copied: bool)

  const INITIAL: PageState := PageState(SAMPLE_CODE, Intermediate, false, None, "", false)

  /** How a request settles.  `Ok`: the response was ok and its body had
      `explanation` (`None` when null or missing).  `NotOk`: the response
      was not ok and its body had `detail` (`None` when missing or the body
      was not JSON).  `Failed`: the request or the reading of an ok body
      threw, with the error's message (`None` when what was thrown was not
      an `Error`). */
  datatype Response =
    | Ok(explanation: Option<string>)
    | NotOk(detail: Option<string>)
    | Failed(message: Option<string>)

  /** The JSON body posted to the explain endpoint. */
  datatype ExplainRequest = ExplainRequest(code: string, level: Level)

  /** `!code.trim()`: nothing but white space, in JavaScript's sense. */
  predicate IsBlank(code: string)
    ensures IsBlank(code) <==> AllSpace(code, JavaScript)
  {
    TrimEmptyIffBlank(code, JavaScript);
    Trim(code, JavaScript) == ""
  }

  /** The request a submission sends, if it sends one. */
  function RequestFor(s: PageState): (request: Option<ExplainRequest>)
    ensures request.None? <==> AllSpace(s.code, JavaScript)
    ensures request.Some? ==> request.value == ExplainRequest(s.code, s.level)
  {
    if IsBlank(s.code) then None else Some(ExplainRequest(s.code, s.level))
  }

  /** The first part of `handleSubmit`, up to the request. */
  function BeginSubmit(s: PageState): (t: PageState)
    ensures AllSpace(s.code, JavaScript) ==> t == s
    ensures !AllSpace(s.code, JavaScript) ==> t.loading && t.error == None && t.result == ""
    ensures t.(loading := s.loading, error := s.error, result := s.result) == s
  {
    if IsBlank(s.code) then s
    else s.(loading := true, error := None, result := "")
  }

  /** The message an unsuccessful response leaves in `error`. */
  function ErrorMessage(response: Response): (message: string)
    requires !response.Ok?
    ensures response.NotOk? ==> message != ""
    ensures response.Failed? && response.message.Some? ==> message == response.message.value
    ensures response.Failed? && response.message.None? ==> message == UNEXPECTED_MESSAGE
  {
    match response
    case NotOk(detail) => if detail.Some? && detail.value != "" then detail.value else UNABLE_MESSAGE
    case Failed(message) => message.GetOr(UNEXPECTED_MESSAGE)
  }

  /** The rest of `handleSubmit`, once the request has settled, including
      the `finally` that clears `loading`. */
  function FinishSubmit(s: PageState, response: Response): (t: PageState)
    ensures !t.loading
    ensures t.(loading := s.loading, error := s.error, result := s.result) == s
    ensures response.Ok? ==> t.error == s.error && t.result == response.explanation.GetOr(NO_EXPLANATION)
    ensures !response.Ok? ==> t.result == s.result && t.error == Some(ErrorMessage(response))
  {
    match response
    case Ok(explanation) => s.(result := explanation.GetOr(NO_EXPLANATION), loading := false)
    case _ => s.(error := Some(ErrorMessage(response)), loading := false)
  }

  /** `handleCopy`: nothing happens without a result; otherwise the result
      is written to the clipboard and, if that succeeds, `copied` is set. */
  function Copy(s: PageState, writeSucceeds: bool): (t: PageState)
    ensures t == s.(copied := t.copied)
    ensures t.copied <==> s.copied || (s.result != "" && writeSucceeds)
  {
    if s.result == "" || !writeSucceeds then s else s.(copied := true)
  }

  /** The timer `handleCopy` starts clears `copied` when it fires. */
  function AfterCopyTimer(s: PageState): (t: PageState)
    ensures !t.copied && t.(copied := s.copied) == s
  {
    s.(copied := false)
  }

  /** The editor's keyboard handler applied to the page. */
  function KeyDown(s: PageState, effect: Editor.KeyEffect): (t: PageState)
    ensures t.(code := s.code) == s
    ensures effect.Indent? ==> t.code == effect.text
    ensures !effect.Indent? ==> t == s
  {
    if effect.Indent? then s.(code := effect.text) else s
  }

  /** A blank snippet is white space and nothing else, and submitting it
      changes nothing and sends nothing. */
  lemma BlankSubmitChangesNothing(s: PageState)
    requires AllSpace(s.code, JavaScript)
    ensures BeginSubmit(s) == s && RequestFor(s) == None
  {
    TrimEmptyIffBlank(s.code, JavaScript);
  }

  /** A submission of a non-blank snippet sets `loading`, clears `error`
      and `result`, and touches nothing else. */
  lemma SubmitResets(s: PageState)
    requires !AllSpace(s.code, JavaScript)
    ensures BeginSubmit(s) == s.(loading := true, error := None, result := "")
    ensures RequestFor(s) == Some(ExplainRequest(s.code, s.level))
  {
    TrimEmptyIffBlank(s.code, JavaScript);
  }

  /** One whole submission of a non-blank snippet: an error is shown
      exactly when the response was not a success; a success shows the
      explanation (or the placeholder when there was none) and no error;
      anything else shows the server's detail or a fixed message and no
      result. */
  lemma SubmitCycle(s: PageState, response: Response)
    requires !AllSpace(s.code, JavaScript)
    ensures var t := FinishSubmit(BeginSubmit(s), response);
            && !t.loading
            && (t.error.Some? <==> !response.Ok?)
            && (response.Ok? ==> t.result == response.explanation.GetOr(NO_EXPLANATION))
            && (!response.Ok? ==> t.result == "" && t.error == Some(ErrorMessage(response)))
            && t.code == s.code && t.level == s.level && t.copied == s.copied
  {
    SubmitResets(s);
  }

  /** A not-ok response always leaves a non-empty message: the server's
      detail when it has one, the fixed message otherwise. */
  lemma NotOkMessage(detail: Option<string>)
    ensures ErrorMessage(NotOk(detail)) != ""
    ensures detail.Some? && detail.value != "" ==> ErrorMessage(NotOk(detail)) == detail.value
    ensures (detail.None? || detail.value == "") ==> ErrorMessage(NotOk(detail)) == UNABLE_MESSAGE
  {
  }

  /** A success whose explanation is the empty string leaves an empty
      result and no error, so there is then nothing to copy. */
  lemma EmptyExplanationLeavesNothingToCopy(s: PageState, writeSucceeds: bool)
    requires !AllSpace(s.code, JavaScript)
    ensures var t := FinishSubmit(BeginSubmit(s), Ok(Some("")));
            t.result == "" && t.error == None && Copy(t, writeSucceeds) == t
  {
    SubmitResets(s);
  }

  /** Copying does nothing without a result; with one, `copied` is set
      exactly when the clipboard write succeeds, and nothing else changes. */
  lemma CopyGuard(s: PageState, writeSucceeds: bool)
    ensures s.result == "" ==> Copy(s, writeSucceeds) == s
    ensures s.result != "" && writeSucceeds ==> Copy(s, writeSucceeds) == s.(copied := true)
    ensures !writeSucceeds ==> Copy(s, writeSucceeds) == s
  {
  }

  /** `loading` does not guard submission: with a request in flight, a
      second submission (Ctrl/Cmd+Enter still reaches the form while the
      button is disabled) sends another request.  If the first then fails
      and the second succeeds, `loading` is already false after the first,
      and the page ends up showing an error and a result together, which a
      single submission never does (`SubmitCycle`). */
  lemma LoadingDoesNotGuardSubmit(s: PageState, failure: Option<string>, explanation: Option<string>)
    requires s.loading && !AllSpace(s.code, JavaScript)
    ensures RequestFor(s) == Some(ExplainRequest(s.code, s.level))
    ensures var afterFirst := FinishSubmit(BeginSubmit(s), Failed(failure));
            && !afterFirst.loading
            && afterFirst.error == Some(ErrorMessage(Failed(failure)))
            && var afterSecond := FinishSubmit(afterFirst, Ok(explanation));
               && afterSecond.error == Some(ErrorMessage(Failed(failure)))
               && afterSecond.result == explanation.GetOr(NO_EXPLANATION)
  {
  }

  /** The page starts with the sample snippet, which can be submitted. */
  lemma InitialCanSubmit()
    ensures RequestFor(INITIAL) == Some(ExplainRequest(SAMPLE_CODE, Intermediate))
    ensures !INITIAL.loading && INITIAL.error == None && INITIAL.result == ""
  {
    assert SAMPLE_CODE[0] == 'd';
    assert !AllSpace(SAMPLE_CODE, JavaScript);
  }

  /** The page component, whose state variables are updated in place by
      its event handlers. */
  class Home {
    var code: string
    var level: Level
    var loading: bool
    var error: Option<string>
    var result: string
    var copied: bool

    function State(): PageState
      reads this
    {
      PageState(code, level, loading, error, result, copied)
    }

    constructor ()
      ensures State() == INITIAL
    {
      code, level, loading, error, result, copied := SAMPLE_CODE, Intermediate, false, None, "", false;
    }

    /** `handleSubmit` up to the request: returns the request it sends. */
    method StartSubmit() returns (request: Option<ExplainRequest>)
      modifies this
      ensures request == RequestFor(old(State()))
      ensures State() == BeginSubmit(old(State()))
    {
      if Trim(code, JavaScript) == "" {
        return None;
      }
      loading := true;
      error := None;
      result := "";
      request := Some(ExplainRequest(code, level));
    }

    /** `handleSubmit` after the request has settled with `response`. */
    method CompleteSubmit(response: Response)
      modifies this
      ensures State() == FinishSubmit(old(State()), response)
    {
      match response {
        case Ok(explanation) =>
          result := explanation.GetOr(NO_EXPLANATION);
        case NotOk(detail) =>
          error := Some(if detail.Some? && detail.value != "" then detail.value else UNABLE_MESSAGE);
        case Failed(message) =>
          error := Some(message.GetOr(UNEXPECTED_MESSAGE));
      }
      loading := false;
    }

    /** `handleCopy`: returns the text handed to the clipboard, if any. */
    method HandleCopy(writeSucceeds: bool) returns (clipboardText: Option<string>)
      modifies this
      ensures clipboardText == if old(result) == "" then None else Some(old(result))
      ensures State() == Copy(old(State()), writeSucceeds)
    {
      if result == "" {
        return None;
      }
      clipboardText := Some(result);
      if writeSucceeds {
        copied := true;
      }
    }

    /** The timer started by `handleCopy` fires. */
    method CopyTimerFires()
      modifies this
      ensures State() == AfterCopyTimer(old(State()))
    {
      copied := false;
    }

    /** `handleKeyDown` on the editor, whose text is `code`. */
    method HandleKeyDown(key: string, metaKey: bool, ctrlKey: bool,
                         selectionStart: Option<nat>, selectionEnd: Option<nat>)
      returns (effect: Editor.KeyEffect)
      modifies this
      ensures effect == Editor.OnKeyDown(old(code), key, metaKey, ctrlKey, selectionStart, selectionEnd)
      ensures State() == KeyDown(old(State()), effect)
    {
      effect := Editor.OnKeyDown(code, key, metaKey, ctrlKey, selectionStart, selectionEnd);
      if effect.Indent? {
        code := effect.text;
      }
    }
  }
}
