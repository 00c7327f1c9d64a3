/** The retry contract shared by `translate_page` (bookTranslation.py) and
    `extract_text_from_image` (vision_ocr.py): tenacity's
    `@retry(wait=wait_exponential(multiplier=1, min=4, max=60), stop=stop_after_attempt(3),
    retry=retry_if_exception_type(ResourceExhausted), reraise=True)`. */
module Retry {
  import opened Outcomes
  import opened Text

  const MaxAttempts: nat := 3
  const MinWait: nat := 4
  const MaxWait: nat := 60

  function Pow2(n: nat): (r: nat)
    ensures r >= 1
  {
    if n == 0 then 1 else 2 * Pow2(n - 1)
  }

  /** `wait_exponential(multiplier=1, min=4, max=60)`: seconds waited after failed
      attempt number `n` (1-based), `max(min, min(2^(n-1), max))`. */
  function BackoffWait(n: nat): (w: nat)
    requires n >= 1
    ensures MinWait <= w <= MaxWait
  {
    var e := Pow2(n - 1);
    if e < MinWait then MinWait else if e > MaxWait then MaxWait else e
  }

  lemma {:induction false} Pow2Monotone(m: nat, n: nat)
    requires m <= n
    ensures Pow2(m) <= Pow2(n)
    decreases n
  {
    if m < n {
      Pow2Monotone(m, n - 1);
    }
  }

  /** Waits grow with the attempt number until they reach the cap. */
  lemma BackoffNonDecreasing(m: nat, n: nat)
    requires 1 <= m <= n
    ensures BackoffWait(m) <= BackoffWait(n)
  {
    Pow2Monotone(m - 1, n - 1);
  }

  /** The wait after attempt `n`: the 4-second floor for the first three attempts,
      then `2^(n-1)` seconds (8, 16, 32), then the 60-second cap from attempt seven on. */
  lemma BackoffValues(n: nat)
    requires n >= 1
    ensures n <= 3 ==> BackoffWait(n) == MinWait
    ensures 3 <= n <= 6 ==> BackoffWait(n) == Pow2(n - 1)
    ensures n >= 7 ==> BackoffWait(n) == MaxWait
  {
    assert Pow2(2) == 4 && Pow2(5) == 32 && Pow2(6) == 64;
    if n <= 3 {
      Pow2Monotone(n - 1, 2);
    } else if n <= 6 {
      Pow2Monotone(2, n - 1);
      Pow2Monotone(n - 1, 5);
    } else {
      Pow2Monotone(6, n - 1);
    }
  }

  /** The waits taken between `calls` calls: one after every failed call but the last. */
  function Waits(calls: nat): (ws: seq<nat>)
    ensures |ws| == if calls == 0 then 0 else calls - 1
    ensures forall i :: 0 <= i < |ws| ==> MinWait <= ws[i] <= MaxWait
  {
    seq(if calls == 0 then 0 else calls - 1, i requires 0 <= i => BackoffWait(i + 1))
  }

  /** Under three attempts the policy waits at most twice, 4 seconds each time. */
  lemma PolicyWaits()
    ensures Waits(MaxAttempts) == [MinWait, MinWait]
  {
    BackoffValues(1);
    BackoffValues(2);
  }

  /** Outcome of a guarded call: the reply passed to the caller (a value or the
      exception re-raised) and how many times the remote model was called. */
  datatype Retried = Retried(reply: Reply, calls: nat)

  /** The policy from attempt `k` (0-based) on: a call that raises ResourceExhausted
      is repeated while fewer than three attempts have been made; any other outcome,
      or the third attempt, ends it with that outcome. */
  function RetryFrom(call: Oracle, arg: string, k: nat): Retried
    requires k < MaxAttempts
    decreases MaxAttempts - k
  {
    var reply := call(arg, k);
    if reply == Err(ResourceExhausted) && k + 1 < MaxAttempts then RetryFrom(call, arg, k + 1)
    else Retried(reply, k + 1)
  }

  function Retry(call: Oracle, arg: string): Retried
  {
    RetryFrom(call, arg, 0)
  }

  /** What the policy guarantees: between one and three calls; every call but the
      last raised ResourceExhausted; the result is the last call's own outcome (so
      after the last attempt the original exception is re-raised); and a
      ResourceExhausted result means all three attempts were spent. */
  lemma {:induction false} RetryFromPolicy(call: Oracle, arg: string, k: nat)
    requires k < MaxAttempts
    ensures var r := RetryFrom(call, arg, k);
      && k < r.calls <= MaxAttempts
      && r.reply == call(arg, r.calls - 1)
      && (forall j :: k <= j < r.calls - 1 ==> call(arg, j) == Err(ResourceExhausted))
      && (r.reply == Err(ResourceExhausted) ==> r.calls == MaxAttempts)
    decreases MaxAttempts - k
  {
    if call(arg, k) == Err(ResourceExhausted) && k + 1 < MaxAttempts {
      RetryFromPolicy(call, arg, k + 1);
    }
  }

  /** Any failure other than ResourceExhausted on the first attempt propagates at
      once: one call, no wait. */
  lemma NonQuotaFailureNotRetried(call: Oracle, arg: string)
    requires call(arg, 0).Err? && call(arg, 0) != Err(ResourceExhausted)
    ensures Retry(call, arg) == Retried(call(arg, 0), 1)
    ensures Waits(Retry(call, arg).calls) == []
  {
  }

  /** ResourceExhausted twice, then a success: the success is returned after two
      waits. ResourceExhausted three times: it is re-raised after the third call. */
  lemma QuotaScenarios(call: Oracle, arg: string)
    requires call(arg, 0) == Err(ResourceExhausted) && call(arg, 1) == Err(ResourceExhausted)
    ensures call(arg, 2).Ok? ==> Retry(call, arg) == Retried(call(arg, 2), 3)
    ensures call(arg, 2) == Err(ResourceExhausted) ==> Retry(call, arg) == Retried(Err(ResourceExhausted), 3)
    ensures |Waits(Retry(call, arg).calls)| == 2
  {
    assert RetryFrom(call, arg, 1) == RetryFrom(call, arg, 2);
  }

  /** The loop tenacity runs around the wrapped function. */
  method CallWithRetry(call: Oracle, arg: string) returns (reply: Reply, calls: nat, waits: seq<nat>)
    ensures Retried(reply, calls) == Retry(call, arg)
    ensures waits == Waits(calls)
  {
    calls := 0;
    waits := [];
    while true
      invariant calls < MaxAttempts
      invariant Retry(call, arg) == RetryFrom(call, arg, calls)
      invariant waits == seq(calls, i requires 0 <= i => BackoffWait(i + 1))
      decreases MaxAttempts - calls
    {
      reply := call(arg, calls);
      calls := calls + 1;
      if reply != Err(ResourceExhausted) || calls == MaxAttempts {
        return;
      }
      waits := waits + [BackoffWait(calls)];
    }
  }

  /** `translate_page` as the callers see it, decorator included: a blank prompt is
      refused with ValueError before the model is called (ValueError is not retried),
      any other prompt is sent under the policy. */
  function TranslateSpec(prompt: string, model: Oracle): (r: Retried)
  {
    if IsBlank(prompt) then Retried(Err(ValueError), 0) else Retry(model, prompt)
  }

  /** A non-blank prompt whose first attempt succeeds is answered by that attempt. */
  lemma FirstAttemptAnswers(prompt: string, model: Oracle)
    requires !IsBlank(prompt) && model(prompt, 0).Ok?
    ensures TranslateSpec(prompt, model).reply == model(prompt, 0)
  {
  }

  method TranslatePage(prompt: string, model: Oracle) returns (reply: Reply, calls: nat, waits: seq<nat>)
    ensures Retried(reply, calls) == TranslateSpec(prompt, model)
    ensures IsBlank(prompt) <==> calls == 0
    ensures IsBlank(prompt) ==> reply == Err(ValueError) && waits == []
    ensures calls <= MaxAttempts && |waits| < MaxAttempts
    ensures forall i :: 0 <= i < |waits| ==> MinWait <= waits[i] <= MaxWait
  {
    if IsBlank(prompt) {
      return Err(ValueError), 0, [];
    }
    reply, calls, waits := CallWithRetry(model, prompt);
    RetryFromPolicy(model, prompt, 0);
  }

  /** `extract_text_from_image` as the Kindle driver sees it: the OCR call under the
      same policy, its text stripped of surrounding whitespace. */
  function ExtractSpec(ocr: Oracle, ocrPrompt: string): (r: Reply)
    ensures r.Ok? ==> r.text == [] || (!IsSpace(r.text[0]) && !IsSpace(r.text[|r.text| - 1]))
  {
    match Retry(ocr, ocrPrompt).reply
    case Ok(t) => StripProperties(t); Ok(Strip(t))
    case Err(e) => Err(e)
  }

  /** The OCR step fails exactly when the retried call fails, with the same error,
      and its text is empty exactly when the model's text is blank. */
  lemma ExtractSpecReply(ocr: Oracle, ocrPrompt: string)
    ensures var r := ExtractSpec(ocr, ocrPrompt);
      && (r.Ok? <==> Retry(ocr, ocrPrompt).reply.Ok?)
      && (r.Ok? ==> (r.text == [] <==> IsBlank(Retry(ocr, ocrPrompt).reply.text)))
      && (r.Err? ==> r == Retry(ocr, ocrPrompt).reply)
  {
    var raw := Retry(ocr, ocrPrompt).reply;
    if raw.Ok? {
      StripProperties(raw.text);
    }
  }

  method ExtractTextFromImage(ocr: Oracle, ocrPrompt: string) returns (reply: Reply)
    ensures reply == ExtractSpec(ocr, ocrPrompt)
  {
    var raw, calls, waits := CallWithRetry(ocr, ocrPrompt);
    match raw
    case Ok(t) => reply := Ok(Strip(t));
    case Err(e) => reply := Err(e);
  }
}
