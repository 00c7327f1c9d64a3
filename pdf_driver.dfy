/** bookTranslation.py `process_pdf`: translate every page of a PDF in order, carrying
    the last successful (source, translation) pair into the next prompt, and append
    one record per page to the log. */
module PdfDriver {
  import opened Outcomes
  import opened Text
  import opened Prompt
  import opened Retry
  import opened Records

  /** Setup failures raised before any page is processed. */
  datatype PdfError = FileNotFound | NoPages

  const PreviewLength: nat := 100

  /** `text_page[:100] + '...' if text_page else None`. */
  function Preview(text: string): (r: Option<string>)
    ensures r.None? <==> text == []
    ensures r.Some? ==> EndsWith(r.value, "...")
    ensures r.Some? ==> |r.value| == (if |text| < PreviewLength then |text| else PreviewLength) + 3
    ensures r.Some? ==> var shown := r.value[..|r.value| - 3];
      && |shown| <= |text| && shown == text[..|shown|]
      && (|text| <= PreviewLength ==> shown == text)
  {
    if text == [] then None
    else
      var shown := if |text| <= PreviewLength then text else text[..PreviewLength];
      assert (shown + "...")[..|shown|] == shown;
      Some(shown + "...")
  }

  /** The status `process_pdf` records for an exception it caught. */
  function PdfFailureStatus(e: ErrorKind): Status
  {
    match e
    case ResourceExhausted => FailedAfterRetries
    case DeadlineExceeded => FailedAfterRetries
    case InvalidArgument => FailedInvalidArgument
    case ValueError => FailedInvalidArgument
    case OtherError => FailedGenericError
  }

  datatype PageOutcome = PageOutcome(rec: Record, history: History)

  /** What every pass guarantees for page index `i` with text `text` and history
      `h`: a PDF record numbered `i + 1` with the text's preview; skipped exactly when
      the text is blank; a translation exactly on success; an error exactly on
      failure, and the status it maps to; and a history that changes only on success,
      to this page's pair. */
  predicate PageFacts(o: PageOutcome, i: nat, text: string, h: History)
  {
    && o.rec.PdfRecord? && o.rec.pageNumber == i + 1 && o.rec.preview == Preview(text)
    && (o.rec.status == SkippedEmptyPage <==> IsBlank(text))
    && o.rec.status != Undefined && o.rec.status != FailedRateLimit
    && (o.rec.translated.Some? <==> o.rec.status == Success)
    && (o.rec.error.Some? <==> o.rec.status != Success && o.rec.status != SkippedEmptyPage)
    && (o.rec.error.Some? ==> o.rec.status == PdfFailureStatus(o.rec.error.value))
    && o.history == if o.rec.status == Success then History(text, o.rec.translated.value) else h
  }

  /** The record and history follow `translate_page`'s reply `rep`: its text is the
      translation and the next history on success; its exception is the error, with
      the status it maps to, and the history is kept on failure. */
  predicate RecordsReply(o: PageOutcome, text: string, h: History, rep: Reply)
  {
    match rep
    case Ok(t) =>
      o.rec.status == Success && o.rec.translated == Some(t) && o.rec.error == None
      && o.history == History(text, t)
    case Err(e) =>
      o.rec.status == PdfFailureStatus(e) && o.rec.error == Some(e) && o.rec.translated == None
      && o.history == h
  }

  /** One pass of the loop body, `finally` block included, for page index `i`: a
      page with text is recorded from the reply to its prompt, built from the
      template, the text and the history. */
  function PdfPage(template: string, model: Oracle, i: nat, text: string, h: History): (o: PageOutcome)
    ensures PageFacts(o, i, text, h)
    ensures !IsBlank(text) ==>
      RecordsReply(o, text, h, TranslateSpec(CustomizePrompt(template, text, h.source, h.translation), model).reply)
  {
    if IsBlank(text) then
      PageOutcome(PdfRecord(i + 1, SkippedEmptyPage, Preview(text), None, None), h)
    else
      match TranslateSpec(CustomizePrompt(template, text, h.source, h.translation), model).reply
      case Ok(t) => PageOutcome(PdfRecord(i + 1, Success, Preview(text), Some(t), None), History(text, t))
      case Err(e) => PageOutcome(PdfRecord(i + 1, PdfFailureStatus(e), Preview(text), None, Some(e)), h)
  }

  /** The loop body as the loop sees it: page index, page text and history in. */
  type PdfBody = (nat, string, History) -> PageOutcome

  /** The pass with template `template`; `models(i)` is the model as page `i` finds it. */
  function PdfPass(template: string, models: nat -> Oracle): PdfBody
  {
    (i: nat, text: string, h: History) => PdfPage(template, models(i), i, text, h)
  }

  ghost predicate PdfBodyFacts(body: PdfBody)
  {
    forall i: nat, text: string, h: History :: PageFacts(body(i, text, h), i, text, h)
  }

  /** The part of `PageFacts` the history argument needs. */
  ghost predicate KeepsHistory(body: PdfBody)
  {
    forall i: nat, text: string, h: History ::
      var o := body(i, text, h);
      && (o.rec.translated.Some? <==> o.rec.status == Success)
      && o.history == if o.rec.status == Success then History(text, o.rec.translated.value) else h
  }

  lemma PdfPassFacts(template: string, models: nat -> Oracle)
    ensures PdfBodyFacts(PdfPass(template, models))
    ensures KeepsHistory(PdfPass(template, models))
  {
    forall i: nat, text: string, h: History
      ensures PageFacts(PdfPass(template, models)(i, text, h), i, text, h)
    {
      assert PdfPass(template, models)(i, text, h) == PdfPage(template, models(i), i, text, h);
    }
  }

  /** The records pages `i`.. append, starting from history `h`. */
  function PdfRun(body: PdfBody, pages: seq<string>, i: nat, h: History): seq<Record>
    requires i <= |pages|
    decreases |pages| - i
  {
    if i == |pages| then []
    else
      var o := body(i, pages[i], h);
      [o.rec] + PdfRun(body, pages, i + 1, o.history)
  }

  /** One record per page, in page order, numbered from `i + 1`; empty pages too. */
  lemma {:induction false} PdfRunOneRecordPerPage(body: PdfBody, pages: seq<string>, i: nat, h: History)
    requires PdfBodyFacts(body)
    requires i <= |pages|
    ensures var rs := PdfRun(body, pages, i, h);
      && |rs| == |pages| - i
      && Consecutive(rs, i + 1)
      && (forall j :: 0 <= j < |rs| ==> (rs[j].status == SkippedEmptyPage <==> IsBlank(pages[i + j])))
    decreases |pages| - i
  {
    if i < |pages| {
      var o := body(i, pages[i], h);
      assert PageFacts(o, i, pages[i], h);
      PdfRunOneRecordPerPage(body, pages, i + 1, o.history);
    }
  }

  /** The history the log implies before record `j`: the page and translation of the
      latest successful record before it, or `h` if there is none. */
  function HistoryFromLog(pages: seq<string>, rs: seq<Record>, i: nat, h: History, j: nat): History
    requires j <= |rs| && i + |rs| <= |pages|
  {
    match LastSuccess(rs, j)
    case Some(k) => History(pages[i + k], if rs[k].translated.Some? then rs[k].translated.value else "")
    case None => h
  }

  lemma {:induction false} PdfRunLength(body: PdfBody, pages: seq<string>, i: nat, h: History)
    requires i <= |pages|
    ensures |PdfRun(body, pages, i, h)| == |pages| - i
    decreases |pages| - i
  {
    if i < |pages| {
      PdfRunLength(body, pages, i + 1, body(i, pages[i], h).history);
    }
  }

  /** Every page is translated with the history of the latest successful page before
      it: failed and empty pages never feed the next prompt. */
  lemma {:induction false} PdfRunUsesLastSuccess(body: PdfBody, pages: seq<string>, i: nat, h: History, j: nat)
    requires KeepsHistory(body)
    requires i + j < |pages|
    ensures var rs := PdfRun(body, pages, i, h);
      && |rs| == |pages| - i
      && rs[j] == body(i + j, pages[i + j], HistoryFromLog(pages, rs, i, h, j)).rec
    decreases j
  {
    PdfRunLength(body, pages, i, h);
    var o := body(i, pages[i], h);
    var rest := PdfRun(body, pages, i + 1, o.history);
    var rs := PdfRun(body, pages, i, h);
    assert rs == [o.rec] + rest;
    if j == 0 {
      assert HistoryFromLog(pages, rs, i, h, 0) == h;
      assert rs[0] == o.rec;
    } else {
      PdfRunUsesLastSuccess(body, pages, i + 1, o.history, j - 1);
      var h1 := HistoryFromLog(pages, rest, i + 1, o.history, j - 1);
      assert rest[j - 1] == body(i + j, pages[i + j], h1).rec by {
        assert i + 1 + (j - 1) == i + j;
      }
      LastSuccessCons(o.rec, rest, j - 1);
      HistoryFromLogCons(pages, o.rec, rest, i, h, o.history, j - 1);
      assert HistoryFromLog(pages, rs, i, h, j) == h1;
      assert rs[j] == rest[j - 1];
    }
  }

  /** Moving the start of the log one record on moves the history it implies
      accordingly. */
  lemma HistoryFromLogCons(pages: seq<string>, r: Record, rest: seq<Record>, i: nat, h: History, h': History, j: nat)
    requires j <= |rest| && i + 1 + |rest| <= |pages|
    requires h' == if r.status == Success then History(pages[i], if r.translated.Some? then r.translated.value else "") else h
    requires LastSuccess([r] + rest, j + 1) ==
      match LastSuccess(rest, j)
      case Some(k) => Some(k + 1)
      case None => if r.status == Success then Some(0) else None
    ensures HistoryFromLog(pages, [r] + rest, i, h, j + 1) == HistoryFromLog(pages, rest, i + 1, h', j)
  {
    var rs := [r] + rest;
    match LastSuccess(rest, j)
    case Some(k) =>
      assert rs[k + 1] == rest[k];
    case None =>
      assert rs[0] == r;
  }

  /** Three pages, the middle one blank, and a model that answers on the first
      attempt: the statuses are success, skipped, success, and the third page's prompt
      carries the first page's source and translation. */
  lemma ThirdPageCarriesFirstPage(template: string, models: nat -> Oracle, a: string, b: string, c: string)
    requires !IsBlank(a) && IsBlank(b) && !IsBlank(c)
    requires forall k: nat, p: string :: models(k)(p, 0).Ok?
    ensures var rs := PdfRun(PdfPass(template, models), [a, b, c], 0, NoHistory);
      var ta := models(0)(CustomizePrompt(template, a, "", ""), 0).text;
      && |rs| == 3
      && rs[0].status == Success && rs[1].status == SkippedEmptyPage && rs[2].status == Success
      && rs[2].translated == Some(models(2)(CustomizePrompt(template, c, a, ta), 0).text)
  {
    var o0 := PdfPage(template, models(0), 0, a, NoHistory);
    AnsweredPdfPage(template, models(0), 0, a, NoHistory);
    var o1 := PdfPage(template, models(1), 1, b, o0.history);
    var o2 := PdfPage(template, models(2), 2, c, o1.history);
    AnsweredPdfPage(template, models(2), 2, c, o1.history);
    var body := PdfPass(template, models);
    assert body(0, a, NoHistory) == o0 && body(1, b, o0.history) == o1 && body(2, c, o1.history) == o2;
    ThreePages(body, a, b, c, NoHistory);
    var rs := PdfRun(body, [a, b, c], 0, NoHistory);
    assert rs[0] == o0.rec && rs[1] == o1.rec && rs[2] == o2.rec;
    assert o1.history == o0.history == History(a, models(0)(CustomizePrompt(template, a, "", ""), 0).text);
  }

  /** A page with text whose prompt the model answers on the first attempt is a
      success with that answer, and the next history is this page's pair. */
  lemma AnsweredPdfPage(template: string, model: Oracle, i: nat, text: string, h: History)
    requires !IsBlank(text)
    requires model(CustomizePrompt(template, text, h.source, h.translation), 0).Ok?
    ensures var t := model(CustomizePrompt(template, text, h.source, h.translation), 0).text;
      var o := PdfPage(template, model, i, text, h);
      o.rec.status == Success && o.rec.translated == Some(t) && o.history == History(text, t)
  {
    var prompt := CustomizePrompt(template, text, h.source, h.translation);
    PromptNeverBlank(template, text, h.source, h.translation);
    FirstAttemptAnswers(prompt, model);
  }

  /** A page whose prompt the model refuses with ResourceExhausted on all three
      attempts is recorded as failed after retries, with that error, and the history
      is kept. */
  lemma QuotaExhaustedPdfPage(template: string, model: Oracle, i: nat, text: string, h: History)
    requires !IsBlank(text)
    requires var prompt := CustomizePrompt(template, text, h.source, h.translation);
      forall k :: 0 <= k < MaxAttempts ==> model(prompt, k) == Err(ResourceExhausted)
    ensures var o := PdfPage(template, model, i, text, h);
      o.rec.status == FailedAfterRetries && o.rec.error == Some(ResourceExhausted) && o.history == h
  {
    var prompt := CustomizePrompt(template, text, h.source, h.translation);
    PromptNeverBlank(template, text, h.source, h.translation);
    assert model(prompt, 0) == Err(ResourceExhausted) && model(prompt, 1) == Err(ResourceExhausted);
    assert model(prompt, 2) == Err(ResourceExhausted);
    QuotaScenarios(model, prompt);
  }

  /** A run over three pages is the three passes, each with the history the one
      before it left. */
  lemma ThreePages(body: PdfBody, a: string, b: string, c: string, h: History)
    ensures var o0 := body(0, a, h); var o1 := body(1, b, o0.history); var o2 := body(2, c, o1.history);
      PdfRun(body, [a, b, c], 0, h) == [o0.rec, o1.rec, o2.rec]
  {
    var pages := [a, b, c];
    var o0 := body(0, a, h);
    var o1 := body(1, b, o0.history);
    var o2 := body(2, c, o1.history);
    calc {
      PdfRun(body, pages, 0, h);
      [o0.rec] + PdfRun(body, pages, 1, o0.history);
      [o0.rec] + ([o1.rec] + PdfRun(body, pages, 2, o1.history));
      [o0.rec] + ([o1.rec] + ([o2.rec] + PdfRun(body, pages, 3, o2.history)));
    }
  }

  /** `body` is the pass with template `template` and models `models`; the trigger
      keeps the pass's definition out of sight until a page is actually run. */
  ghost predicate RunsPdfPass(body: PdfBody, template: string, models: nat -> Oracle)
  {
    forall i: nat, text: string, h: History {:trigger PdfPage(template, models(i), i, text, h)} ::
      body(i, text, h) == PdfPage(template, models(i), i, text, h)
  }

  /** `process_pdf`, with the PDF given as the text `extract_text()` returns for each
      page (`None` when the file does not exist). */
  method ProcessPdf(log: JsonlLog, pdf: Option<seq<string>>, template: string, models: nat -> Oracle)
    returns (err: Option<PdfError>)
    modifies log
    ensures pdf.None? ==> err == Some(FileNotFound)
    ensures pdf == Some([]) ==> err == Some(NoPages)
    ensures err.Some? ==> log.records == old(log.records)
    ensures pdf.Some? && pdf.value != [] ==>
      err.None? && log.records == old(log.records) + PdfRun(PdfPass(template, models), pdf.value, 0, NoHistory)
  {
    if pdf.None? {
      return Some(FileNotFound);
    }
    var pages := pdf.value;
    if |pages| == 0 {
      return Some(NoPages);
    }
    assert RunsPdfPass(PdfPass(template, models), template, models);
    TranslatePdfPages(log, pages, template, models, PdfPass(template, models));
    return None;
  }

  /** The `for page_num in range(num_pages)` loop: every page is written in order,
      with the history of the latest successful page. */
  method TranslatePdfPages(log: JsonlLog, pages: seq<string>, template: string, models: nat -> Oracle,
                           ghost body: PdfBody)
    requires RunsPdfPass(body, template, models)
    modifies log
    ensures log.records == old(log.records) + PdfRun(body, pages, 0, NoHistory)
  {
    var historyIt, historyIng := "", "";
    for i := 0 to |pages|
      invariant old(log.records) + PdfRun(body, pages, 0, NoHistory)
        == log.records + PdfRun(body, pages, i, History(historyIt, historyIng))
    {
      ghost var h := History(historyIt, historyIng);
      ghost var logBefore := log.records;
      var o := WritePdfPage(log, template, models, i, pages[i], History(historyIt, historyIng), body);
      historyIt, historyIng := o.history.source, o.history.translation;
      Associate(logBefore, [o.rec], PdfRun(body, pages, i + 1, o.history));
    }
  }

  /** One pass of the loop body, `finally` block included: the page's record is
      appended, and the history moves on when the page succeeds. */
  method WritePdfPage(log: JsonlLog, template: string, models: nat -> Oracle, i: nat, text: string,
                      h: History, ghost body: PdfBody) returns (o: PageOutcome)
    requires RunsPdfPass(body, template, models)
    modifies log
    ensures o == body(i, text, h)
    ensures log.records == old(log.records) + [o.rec]
  {
    var historyIt, historyIng := h.source, h.translation;
    var status := Undefined;
    var translated: Option<string> := None;
    var error: Option<ErrorKind> := None;
    if IsBlank(text) {
      status := SkippedEmptyPage;
    } else {
      var prompt := CustomizePrompt(template, text, historyIt, historyIng);
      var reply, calls, waits := TranslatePage(prompt, models(i));
      match reply
      case Ok(t) =>
        translated := Some(t);
        status := Success;
      case Err(e) =>
        status := PdfFailureStatus(e);
        error := Some(e);
    }
    if status == Success {
      historyIt, historyIng := text, translated.value;
    }
    o := PageOutcome(PdfRecord(i + 1, status, Preview(text), translated, error), History(historyIt, historyIng));
    assert o == PdfPage(template, models(i), i, text, h);
    log.Append(o.rec);
  }
}
