/** kindleTranslation.py `process_kindle_book`: screenshot, OCR and translate the
    pages of a book open in a Kindle Web reader, one record and one checkpoint per
    page, resuming after the last checkpointed page. */
module KindleDriver {
  import opened Outcomes
  import opened Text
  import opened Prompt
  import opened Retry
  import opened Records
  import opened Checkpoint

  /** What the reader shows at one position, seen through the calls the driver makes:
      whether `capture_page` succeeds, the OCR and translation models for this
      screen, whether `next_page()` succeeds from here, and what `is_last_page()`
      answers while this screen is shown. */
  datatype Screen = Screen(captured: bool, ocr: Oracle, model: Oracle, turns: bool, lastPage: bool)

  const MaxConsecutiveEmpty: nat := 5

  /** How the translation step is reached: as the source writes it, or as evidently
      intended (see `TranslateAsWritten`). */
  datatype TranslateCall = AsWritten | Corrected

  datatype Settings = Settings(template: string, ocrPrompt: string, maxPages: Option<int>)

  /** `max_pages and page_number > max_pages`: a `None` or zero limit means no limit. */
  predicate LimitReached(maxPages: Option<int>, page: int)
  {
    maxPages.Some? && maxPages.value != 0 && page > maxPages.value
  }

  /** The status `process_kindle_book` records for an exception it caught. */
  function KindleFailureStatus(e: ErrorKind): Status
  {
    match e
    case ResourceExhausted => FailedRateLimit
    case InvalidArgument => FailedInvalidArgument
    case _ => FailedGenericError
  }

  /** The call at line 152 as written: `translate_page(client, model_name,
      current_prompt)` passes three arguments to the two-parameter `translate_page`
      of bookTranslation.py, so Python raises TypeError before any model is reached,
      and TypeError is not retried. */
  function TranslateAsWritten(prompt: string, model: Oracle): (r: Reply)
    ensures r == Err(OtherError)
  {
    Err(OtherError)
  }

  function KindleTranslate(call: TranslateCall, prompt: string, model: Oracle): Reply
  {
    match call
    case AsWritten => TranslateAsWritten(prompt, model)
    case Corrected => TranslateSpec(prompt, model).reply
  }

  /** The empty-page counter after one record: one more for a skipped page, reset
      by any non-empty OCR text (even if translation then fails), unchanged when no
      text was obtained. */
  function NextStreak(r: Record, empties: nat): nat
  {
    if r.status == SkippedEmptyPage then empties + 1
    else if r.KindleRecord? && r.original.Some? then 0
    else empties
  }

  /** What one pass of the loop body hands on: the record it writes, the empty-page
      counter and the history. */
  datatype Step = Step(rec: Record, empties: nat, history: History)

  /** What every pass guarantees for page `n`, entered with counter `empties` and
      history `h`: a Kindle record for that page with one of the statuses this loop
      writes; a translation exactly on success; an error exactly on failure, and the
      status it maps to; empty OCR text on a skipped page; the counter as `NextStreak`
      says; and a history that changes only on success, to this page's pair. */
  predicate StepFacts(st: Step, n: int, empties: nat, h: History)
  {
    && st.rec.KindleRecord? && st.rec.pageNumber == n
    && st.rec.status != Undefined && st.rec.status != FailedAfterRetries
    && (st.rec.translated.Some? <==> st.rec.status == Success)
    && (st.rec.error.Some? <==> st.rec.status != Success && st.rec.status != SkippedEmptyPage)
    && (st.rec.error.Some? ==> st.rec.status == KindleFailureStatus(st.rec.error.value))
    && (st.rec.status == SkippedEmptyPage ==> st.rec.original == Some(""))
    && (st.rec.status == Success ==> st.rec.original.Some?)
    && st.empties == NextStreak(st.rec, empties)
    && st.history == (if st.rec.status == Success
                      then History(st.rec.original.value, st.rec.translated.value) else h)
  }

  /** The empty-page stop: a skipped page that brings the counter to five ends the
      loop once its record is written. */
  predicate EmptyStop(st: Step)
  {
    st.rec.status == SkippedEmptyPage && st.empties >= MaxConsecutiveEmpty
  }

  /** What the calls of one pass give back: `capture_page` raised, OCR raised, OCR
      gave blank text, or OCR gave text and the translation step answered `reply`. */
  datatype Observation = NotCaptured | OcrFailed(e: ErrorKind) | BlankText(text: string)
                       | Answered(text: string, reply: Reply)

  function Observe(call: TranslateCall, s: Settings, scr: Screen, h: History): (o: Observation)
    ensures o.BlankText? ==> o.text == []
    ensures o.Answered? ==> !IsBlank(o.text)
  {
    if !scr.captured then NotCaptured
    else
      match ExtractSpec(scr.ocr, s.ocrPrompt)
      case Err(e) => OcrFailed(e)
      case Ok(text) =>
        if IsBlank(text) then BlankText(text)
        else Answered(text, KindleTranslate(call, CustomizePrompt(s.template, text, h.source, h.translation), scr.model))
  }

  /** What each observation leads to: a screen that could not be captured is a
      generic failure and an OCR exception is that exception's failure, both with no
      OCR text and the counter and history kept; blank OCR text is a skipped page and
      raises the counter; OCR text is recorded as the original and resets the
      counter, and the reply to it is the translation and the next history on
      success, or the error, with the history kept, on failure. */
  predicate FollowsObservation(st: Step, o: Observation, empties: nat, h: History)
  {
    && st.rec.KindleRecord?
    && match o
       case NotCaptured =>
         st.rec.status == FailedGenericError && st.rec.original == None
         && st.rec.error == Some(OtherError) && st.empties == empties && st.history == h
       case OcrFailed(e) =>
         st.rec.status == KindleFailureStatus(e) && st.rec.original == None
         && st.rec.error == Some(e) && st.empties == empties && st.history == h
       case BlankText(text) =>
         st.rec.status == SkippedEmptyPage && st.rec.original == Some(text)
         && st.empties == empties + 1 && st.history == h
       case Answered(text, reply) =>
         st.rec.original == Some(text) && st.empties == 0
         && match reply
            case Ok(t) =>
              st.rec.status == Success && st.rec.translated == Some(t) && st.history == History(text, t)
            case Err(e) =>
              st.rec.status == KindleFailureStatus(e) && st.rec.error == Some(e) && st.history == h
  }

  /** The record, counter and history an observation leads to for page `n`; the
      `finally` block writes the record whatever happened. */
  function PageStep(o: Observation, n: int, empties: nat, h: History): (st: Step)
    requires o.BlankText? ==> o.text == []
    ensures StepFacts(st, n, empties, h)
    ensures FollowsObservation(st, o, empties, h)
  {
    match o
    case NotCaptured => Step(KindleRecord(n, FailedGenericError, None, None, Some(OtherError)), empties, h)
    case OcrFailed(e) => Step(KindleRecord(n, KindleFailureStatus(e), None, None, Some(e)), empties, h)
    case BlankText(text) => Step(KindleRecord(n, SkippedEmptyPage, Some(text), None, None), empties + 1, h)
    case Answered(text, reply) =>
      match reply
      case Ok(t) => Step(KindleRecord(n, Success, Some(text), Some(t), None), 0, History(text, t))
      case Err(e) => Step(KindleRecord(n, KindleFailureStatus(e), Some(text), None, Some(e)), 0, h)
  }

  /** One pass of the loop body for page `n`. */
  function KindlePage(call: TranslateCall, s: Settings, scr: Screen, n: int, empties: nat, h: History): (st: Step)
    ensures StepFacts(st, n, empties, h)
    ensures FollowsObservation(st, Observe(call, s, scr, h), empties, h)
  {
    PageStep(Observe(call, s, scr, h), n, empties, h)
  }

  /** The loop body as the loop sees it: screen, page number, counter and history in. */
  type Body = (Screen, int, nat, History) -> Step

  function Pass(call: TranslateCall, s: Settings): Body
  {
    (scr: Screen, n: int, e: nat, h: History) => KindlePage(call, s, scr, n, e, h)
  }

  ghost predicate BodyFacts(body: Body)
  {
    forall scr: Screen, n: int, e: nat, h: History :: StepFacts(body(scr, n, e, h), n, e, h)
  }

  lemma PassFacts(call: TranslateCall, s: Settings)
    ensures BodyFacts(Pass(call, s))
  {
  }

  /** `next_page()` from position `pos`: it fails when the page turn fails or the
      book has no further screen. */
  predicate CanAdvance(book: seq<Screen>, pos: nat)
  {
    pos < |book| && book[pos].turns && pos + 1 < |book|
  }

  /** After the pass for screen `pos`: the empty-page stop, a failed `next_page()` or
      `is_last_page()` answering true ends the loop. */
  predicate LoopEnds(st: Step, book: seq<Screen>, pos: nat)
  {
    EmptyStop(st) || !CanAdvance(book, pos) || book[pos + 1].lastPage
  }

  /** The records the loop appends, the reader showing `book[pos]`, `page` the last
      page number used, `empties` the empty-page counter and `h` the history. */
  function KindleLoop(body: Body, maxPages: Option<int>, book: seq<Screen>, pos: nat, page: int,
                      empties: nat, h: History): seq<Record>
    requires pos < |book|
    decreases |book| - pos
  {
    var n := page + 1;
    if LimitReached(maxPages, n) then []
    else
      var st := body(book[pos], n, empties, h);
      if LoopEnds(st, book, pos) then [st.rec]
      else [st.rec] + KindleLoop(body, maxPages, book, pos + 1, n, st.empties, st.history)
  }

  /** Reader position after `count` calls of `next_page()` whose results are ignored. */
  function Skip(book: seq<Screen>, pos: nat, count: nat): (r: nat)
    requires pos < |book|
    ensures pos <= r < |book|
    decreases count
  {
    if count == 0 then pos else Skip(book, if CanAdvance(book, pos) then pos + 1 else pos, count - 1)
  }

  /** `progress.get("pages_completed", 0)`: the page the run continues after. */
  function StartPage(hasProgressFile: bool, saved: Option<Progress>): int
  {
    if hasProgressFile then LoadSpec(saved).pagesCompleted else 0
  }

  /** Everything one call of `process_kindle_book` appends to the log. */
  function KindleBook(call: TranslateCall, s: Settings, book: seq<Screen>, hasProgressFile: bool,
                      saved: Option<Progress>): seq<Record>
    requires |book| > 0
  {
    KindleRun(Pass(call, s), s.maxPages, book, hasProgressFile, saved)
  }

  /** The same for any loop body: the reader is moved past the checkpointed pages,
      then the loop runs from the page after them. */
  function KindleRun(body: Body, maxPages: Option<int>, book: seq<Screen>, hasProgressFile: bool,
                     saved: Option<Progress>): seq<Record>
    requires |book| > 0
  {
    var start := StartPage(hasProgressFile, saved);
    KindleLoop(body, maxPages, book, Skip(book, 0, if start > 0 then start else 0), start, 0, NoHistory)
  }

  /** Page numbers go up by one per record from `page + 1`; the loop appends nothing
      exactly when the first page is already past the limit; no recorded page is past
      a (truthy) `max_pages`, counted as an absolute page number; the reader moves one
      screen per record. */
  lemma {:induction false} KindleLoopPages(body: Body, maxPages: Option<int>, book: seq<Screen>, pos: nat,
                                            page: int, empties: nat, h: History)
    requires pos < |book| && BodyFacts(body)
    ensures var rs := KindleLoop(body, maxPages, book, pos, page, empties, h);
      && Consecutive(rs, page + 1)
      && (rs == [] <==> LimitReached(maxPages, page + 1))
      && (forall j :: 0 <= j < |rs| ==> !LimitReached(maxPages, rs[j].pageNumber))
      && pos + |rs| <= |book|
    decreases |book| - pos
  {
    var rs := KindleLoop(body, maxPages, book, pos, page, empties, h);
    if !LimitReached(maxPages, page + 1) {
      var st := body(book[pos], page + 1, empties, h);
      if !LoopEnds(st, book, pos) {
        var rest := KindleLoop(body, maxPages, book, pos + 1, page + 1, st.empties, st.history);
        KindleLoopPages(body, maxPages, book, pos + 1, page + 1, st.empties, st.history);
        assert rs == [st.rec] + rest;
        forall j | 0 < j < |rs|
          ensures rs[j].pageNumber == page + 1 + j && !LimitReached(maxPages, rs[j].pageNumber)
        {
          assert rs[j] == rest[j - 1];
        }
      }
    }
  }

  /** The empty-page counter as the log implies it after its first `j` records. */
  function StreakFromLog(rs: seq<Record>, empties: nat, j: nat): nat
    requires j <= |rs|
  {
    if j == 0 then empties else NextStreak(rs[j - 1], StreakFromLog(rs, empties, j - 1))
  }

  lemma {:induction false} StreakFromLogCons(r: Record, rest: seq<Record>, empties: nat, j: nat)
    requires j <= |rest|
    ensures StreakFromLog([r] + rest, empties, j + 1) == StreakFromLog(rest, NextStreak(r, empties), j)
  {
    if j > 0 {
      StreakFromLogCons(r, rest, empties, j - 1);
      assert ([r] + rest)[j] == rest[j - 1];
    }
  }

  /** The history the log implies before record `j`: the OCR text and translation of
      the latest successful record, or `h` if there is none. */
  function HistoryFromKindleLog(rs: seq<Record>, h: History, j: nat): History
    requires j <= |rs|
  {
    match LastSuccess(rs, j)
    case Some(k) =>
      History(if rs[k].KindleRecord? && rs[k].original.Some? then rs[k].original.value else "",
              if rs[k].translated.Some? then rs[k].translated.value else "")
    case None => h
  }

  /** Record `j` is what the loop body makes of screen `pos + j`, page `page + 1 + j`,
      with the counter and the history the earlier records imply: the counter and the
      history are fully determined by the log, and only successes feed the next prompt. */
  lemma KindleLoopRecordAt(body: Body, maxPages: Option<int>, book: seq<Screen>, pos: nat,
                           page: int, empties: nat, h: History, j: nat)
    requires pos < |book| && BodyFacts(body)
    requires j < |KindleLoop(body, maxPages, book, pos, page, empties, h)|
    ensures var rs := KindleLoop(body, maxPages, book, pos, page, empties, h);
      && pos + j < |book|
      && rs[j] == body(book[pos + j], page + 1 + j, StreakFromLog(rs, empties, j), HistoryFromKindleLog(rs, h, j)).rec
  {
    var rs := KindleLoop(body, maxPages, book, pos, page, empties, h);
    ResumesAtStart(body, maxPages, book, pos, page, empties, h, rs);
    KindleLoopSuffix(body, maxPages, book, pos, page, empties, h, rs, j);
    var tail := KindleLoop(body, maxPages, book, pos + j, page + j, StreakFromLog(rs, empties, j), HistoryFromKindleLog(rs, h, j));
    assert tail == rs[j..];
    SliceStep(rs, j);
  }

  /** A log with more than one record went past its first pass: the limit was not
      reached, the loop did not end after it, and the rest of the log is the loop
      from the next screen with the counter and history that pass handed on. */
  lemma KindleLoopTail(body: Body, maxPages: Option<int>, book: seq<Screen>, pos: nat,
                       page: int, empties: nat, h: History)
    requires pos < |book| && 1 < |KindleLoop(body, maxPages, book, pos, page, empties, h)|
    ensures var st := body(book[pos], page + 1, empties, h);
      !LimitReached(maxPages, page + 1) && !LoopEnds(st, book, pos) && pos + 1 < |book|
    ensures var st := body(book[pos], page + 1, empties, h);
      KindleLoop(body, maxPages, book, pos, page, empties, h)
      == [st.rec] + KindleLoop(body, maxPages, book, pos + 1, page + 1, st.empties, st.history)
  {
  }

  /** The log `rs` from record `j` on is the loop restarted at screen `pos + j`,
      after page `page + j`, with the counter and the history the first `j` records
      imply. */
  predicate ResumesAt(body: Body, maxPages: Option<int>, book: seq<Screen>, pos: nat, page: int,
                      empties: nat, h: History, rs: seq<Record>, j: nat)
  {
    pos + j < |book| && j <= |rs|
    && KindleLoop(body, maxPages, book, pos + j, page + j, StreakFromLog(rs, empties, j), HistoryFromKindleLog(rs, h, j))
       == rs[j..]
  }

  /** A log that is the loop from screen `pos` resumes there at record 0. */
  lemma ResumesAtStart(body: Body, maxPages: Option<int>, book: seq<Screen>, pos: nat,
                       page: int, empties: nat, h: History, rs: seq<Record>)
    requires pos < |book| && rs == KindleLoop(body, maxPages, book, pos, page, empties, h)
    ensures ResumesAt(body, maxPages, book, pos, page, empties, h, rs, 0)
  {
    assert StreakFromLog(rs, empties, 0) == empties && HistoryFromKindleLog(rs, h, 0) == h;
    assert rs[0..] == rs && pos + 0 == pos && page + 0 == page;
  }

  /** Induction over the records: a log that resumes at record 0 resumes at each of
      its records. */
  lemma KindleLoopSuffix(body: Body, maxPages: Option<int>, book: seq<Screen>, pos: nat,
                         page: int, empties: nat, h: History, rs: seq<Record>, j: nat)
    requires BodyFacts(body) && j < |rs|
    requires ResumesAt(body, maxPages, book, pos, page, empties, h, rs, 0)
    ensures ResumesAt(body, maxPages, book, pos, page, empties, h, rs, j)
  {
    var k := 0;
    while k < j
      invariant k <= j && ResumesAt(body, maxPages, book, pos, page, empties, h, rs, k)
    {
      SuffixStep(body, maxPages, book, pos, page, empties, h, rs, k);
      k := k + 1;
    }
  }

  /** One step of `KindleLoopSuffix`: a log that resumes at record `i` and has a
      further record resumes at record `i + 1`. */
  lemma SuffixStep(body: Body, maxPages: Option<int>, book: seq<Screen>, pos: nat, page: int,
                   empties: nat, h: History, rs: seq<Record>, i: nat)
    requires BodyFacts(body) && i + 1 < |rs|
    requires ResumesAt(body, maxPages, book, pos, page, empties, h, rs, i)
    ensures ResumesAt(body, maxPages, book, pos, page, empties, h, rs, i + 1)
  {
    var p, g := pos + i, page + i;
    var e, hj := StreakFromLog(rs, empties, i), HistoryFromKindleLog(rs, h, i);
    var tail := KindleLoop(body, maxPages, book, p, g, e, hj);
    // the loop restarted at record `i` goes past its first pass
    KindleLoopTail(body, maxPages, book, p, g, e, hj);
    var st := body(book[p], g + 1, e, hj);
    assert StepFacts(st, g + 1, e, hj);
    var next := KindleLoop(body, maxPages, book, p + 1, g + 1, st.empties, st.history);
    SliceStep(rs, i);
    ConsParts(tail, st.rec, next);
    assert StreakFromLog(rs, empties, i + 1) == st.empties && HistoryFromKindleLog(rs, h, i + 1) == st.history;
    assert p + 1 == pos + (i + 1) && g + 1 == page + (i + 1);
  }

  lemma SliceStep<T>(s: seq<T>, k: nat)
    requires k < |s|
    ensures s[k..][0] == s[k] && s[k..][1..] == s[k + 1..]
  {
  }

  lemma ConsParts<T>(t: seq<T>, x: T, r: seq<T>)
    requires t == [x] + r
    ensures t[0] == x && t[1..] == r
  {
  }

  /** Every record but the last is followed by a page turn that worked, onto a
      screen that is not the last page, and the pass that wrote it did not reach the
      empty-page stop. */
  lemma KindleLoopGoesOn(body: Body, maxPages: Option<int>, book: seq<Screen>, pos: nat,
                         page: int, empties: nat, h: History, j: nat)
    requires pos < |book| && BodyFacts(body)
    requires j + 1 < |KindleLoop(body, maxPages, book, pos, page, empties, h)|
    ensures pos + j + 1 < |book|
    ensures var rs := KindleLoop(body, maxPages, book, pos, page, empties, h);
      var st := body(book[pos + j], page + 1 + j, StreakFromLog(rs, empties, j), HistoryFromKindleLog(rs, h, j));
      !EmptyStop(st) && CanAdvance(book, pos + j) && !book[pos + j + 1].lastPage
  {
    var rs := KindleLoop(body, maxPages, book, pos, page, empties, h);
    ResumesAtStart(body, maxPages, book, pos, page, empties, h, rs);
    KindleLoopSuffix(body, maxPages, book, pos, page, empties, h, rs, j);
    assert ResumesAt(body, maxPages, book, pos, page, empties, h, rs, j);
    var tail := KindleLoop(body, maxPages, book, pos + j, page + j, StreakFromLog(rs, empties, j), HistoryFromKindleLog(rs, h, j));
    assert |tail| == |rs| - j >= 2;
  }

  /** After the last record the loop ended: the empty-page stop, a failed page turn
      or the last page, or else the next page number is past `max_pages`. */
  lemma KindleLoopStops(body: Body, maxPages: Option<int>, book: seq<Screen>, pos: nat,
                        page: int, empties: nat, h: History, j: nat)
    requires pos < |book| && BodyFacts(body)
    requires j + 1 == |KindleLoop(body, maxPages, book, pos, page, empties, h)|
    ensures pos + j < |book|
    ensures var rs := KindleLoop(body, maxPages, book, pos, page, empties, h);
      var st := body(book[pos + j], page + 1 + j, StreakFromLog(rs, empties, j), HistoryFromKindleLog(rs, h, j));
      LoopEnds(st, book, pos + j) || LimitReached(maxPages, page + 2 + j)
  {
    var rs := KindleLoop(body, maxPages, book, pos, page, empties, h);
    ResumesAtStart(body, maxPages, book, pos, page, empties, h, rs);
    KindleLoopSuffix(body, maxPages, book, pos, page, empties, h, rs, j);
    assert ResumesAt(body, maxPages, book, pos, page, empties, h, rs, j);
    var e, hj := StreakFromLog(rs, empties, j), HistoryFromKindleLog(rs, h, j);
    var tail := KindleLoop(body, maxPages, book, pos + j, page + j, e, hj);
    assert |tail| == 1;
    var st := body(book[pos + j], page + j + 1, e, hj);
    if !LoopEnds(st, book, pos + j) {
      KindleLoopPages(body, maxPages, book, pos + j + 1, page + j + 1, st.empties, st.history);
    }
  }

  /** Only the last record can bring the empty-page counter to five: the loop never
      goes on past a fifth consecutive empty page. */
  lemma {:induction false} KindleLoopEmptyStop(body: Body, maxPages: Option<int>, book: seq<Screen>, pos: nat,
                                                page: int, empties: nat, h: History, j: nat)
    requires pos < |book| && BodyFacts(body) && empties < MaxConsecutiveEmpty
    requires j + 1 < |KindleLoop(body, maxPages, book, pos, page, empties, h)|
    ensures StreakFromLog(KindleLoop(body, maxPages, book, pos, page, empties, h), empties, j + 1) < MaxConsecutiveEmpty
    decreases j
  {
    var rs := KindleLoop(body, maxPages, book, pos, page, empties, h);
    var st := body(book[pos], page + 1, empties, h);
    var rest := KindleLoop(body, maxPages, book, pos + 1, page + 1, st.empties, st.history);
    assert rs == [st.rec] + rest;
    StreakFromLogCons(st.rec, rest, empties, j);
    if j > 0 {
      KindleLoopEmptyStop(body, maxPages, book, pos + 1, page + 1, st.empties, st.history, j - 1);
    }
  }

  /** With the call as written a pass never succeeds: a page with OCR text that is
      not blank is recorded as failed_generic_error. */
  lemma AsWrittenPage(s: Settings, scr: Screen, n: int, empties: nat, h: History)
    ensures var r := KindlePage(AsWritten, s, scr, n, empties, h).rec;
      && r.KindleRecord? && r.status != Success
      && (r.original.Some? && r.status != SkippedEmptyPage ==> r.status == FailedGenericError)
  {
  }

  /** With the call as written no page of a run is ever translated, so the history
      never leaves its starting value. */
  lemma AsWrittenNeverTranslates(s: Settings, book: seq<Screen>, pos: nat, page: int,
                                 empties: nat, h: History, j: nat)
    requires pos < |book|
    requires j < |KindleLoop(Pass(AsWritten, s), s.maxPages, book, pos, page, empties, h)|
    ensures var rs := KindleLoop(Pass(AsWritten, s), s.maxPages, book, pos, page, empties, h);
      && rs[j].KindleRecord? && rs[j].status != Success
      && (rs[j].original.Some? && rs[j].status != SkippedEmptyPage ==> rs[j].status == FailedGenericError)
      && HistoryFromKindleLog(rs, h, j) == h
  {
    var rs := KindleLoop(Pass(AsWritten, s), s.maxPages, book, pos, page, empties, h);
    PassFacts(AsWritten, s);
    forall k | 0 <= k <= j
      ensures rs[k].status != Success
      ensures rs[k].KindleRecord?
      ensures rs[k].original.Some? && rs[k].status != SkippedEmptyPage ==> rs[k].status == FailedGenericError
    {
      KindleLoopRecordAt(Pass(AsWritten, s), s.maxPages, book, pos, page, empties, h, k);
      AsWrittenPage(s, book[pos + k], page + 1 + k, StreakFromLog(rs, empties, k), HistoryFromKindleLog(rs, h, k));
    }
  }

  /** The call at kindleTranslation.py:152: for a screen whose OCR gives non-blank
      text and whose model answers the first attempt, the call as written records
      failed_generic_error, while the corrected call records success with the model's
      translation of the composed prompt. */
  lemma TranslateCallFinding(s: Settings, scr: Screen, n: int, empties: nat, h: History)
    requires scr.captured
    requires ExtractSpec(scr.ocr, s.ocrPrompt).Ok? && !IsBlank(ExtractSpec(scr.ocr, s.ocrPrompt).text)
    requires scr.model(CustomizePrompt(s.template, ExtractSpec(scr.ocr, s.ocrPrompt).text, h.source, h.translation), 0).Ok?
    ensures KindlePage(AsWritten, s, scr, n, empties, h).rec.status == FailedGenericError
    ensures var text := ExtractSpec(scr.ocr, s.ocrPrompt).text;
      var prompt := CustomizePrompt(s.template, text, h.source, h.translation);
      var st := KindlePage(Corrected, s, scr, n, empties, h);
      st.rec.status == Success && st.rec.translated == Some(scr.model(prompt, 0).text)
      && st.history == History(text, scr.model(prompt, 0).text)
  {
    AsWrittenFailsOnText(s, scr, n, empties, h);
    CorrectedTranslatesText(s, scr, n, empties, h);
  }

  /** The as-written half: a page with non-blank OCR text fails with
      failed_generic_error. */
  lemma AsWrittenFailsOnText(s: Settings, scr: Screen, n: int, empties: nat, h: History)
    requires scr.captured
    requires ExtractSpec(scr.ocr, s.ocrPrompt).Ok? && !IsBlank(ExtractSpec(scr.ocr, s.ocrPrompt).text)
    ensures KindlePage(AsWritten, s, scr, n, empties, h).rec.status == FailedGenericError
  {
    var text := ExtractSpec(scr.ocr, s.ocrPrompt).text;
    ObserveText(AsWritten, s, scr, h);
    var o := Observe(AsWritten, s, scr, h);
    assert o == Answered(text, Err(OtherError));
    assert KindlePage(AsWritten, s, scr, n, empties, h) == PageStep(o, n, empties, h);
    AnsweredStep(text, Err(OtherError), n, empties, h);
    assert PageStep(o, n, empties, h).rec.status == KindleFailureStatus(OtherError);
  }

  /** The corrected half: the same page succeeds with the model's first answer. */
  lemma CorrectedTranslatesText(s: Settings, scr: Screen, n: int, empties: nat, h: History)
    requires scr.captured
    requires ExtractSpec(scr.ocr, s.ocrPrompt).Ok? && !IsBlank(ExtractSpec(scr.ocr, s.ocrPrompt).text)
    requires scr.model(CustomizePrompt(s.template, ExtractSpec(scr.ocr, s.ocrPrompt).text, h.source, h.translation), 0).Ok?
    ensures var text := ExtractSpec(scr.ocr, s.ocrPrompt).text;
      var prompt := CustomizePrompt(s.template, text, h.source, h.translation);
      var st := KindlePage(Corrected, s, scr, n, empties, h);
      st.rec.status == Success && st.rec.translated == Some(scr.model(prompt, 0).text)
      && st.history == History(text, scr.model(prompt, 0).text)
  {
    var text := ExtractSpec(scr.ocr, s.ocrPrompt).text;
    var reply := scr.model(CustomizePrompt(s.template, text, h.source, h.translation), 0);
    ObserveText(Corrected, s, scr, h);
    var o := Observe(Corrected, s, scr, h);
    assert o == Answered(text, reply);
    assert KindlePage(Corrected, s, scr, n, empties, h) == PageStep(o, n, empties, h);
    AnsweredStep(text, reply, n, empties, h);
  }

  /** An answered pass records the model's reply: success with its text, or the
      error's status. */
  lemma AnsweredStep(text: string, reply: Reply, n: int, empties: nat, h: History)
    ensures var st := PageStep(Answered(text, reply), n, empties, h);
      && (reply.Ok? ==> st.rec.status == Success && st.rec.translated == Some(reply.text)
                         && st.history == History(text, reply.text))
      && (reply.Err? ==> st.rec.status == KindleFailureStatus(reply.error) && st.history == h)
  {
  }

  /** For a captured screen with non-blank OCR text, the pass sends the composed
      prompt; with the corrected call a model that answers its first attempt gives
      that answer. */
  lemma ObserveText(call: TranslateCall, s: Settings, scr: Screen, h: History)
    requires scr.captured
    requires ExtractSpec(scr.ocr, s.ocrPrompt).Ok? && !IsBlank(ExtractSpec(scr.ocr, s.ocrPrompt).text)
    ensures var text := ExtractSpec(scr.ocr, s.ocrPrompt).text;
      var prompt := CustomizePrompt(s.template, text, h.source, h.translation);
      && Observe(call, s, scr, h) == Answered(text, KindleTranslate(call, prompt, scr.model))
      && (call == Corrected && scr.model(prompt, 0).Ok? ==> KindleTranslate(call, prompt, scr.model) == scr.model(prompt, 0))
  {
    var text := ExtractSpec(scr.ocr, s.ocrPrompt).text;
    var prompt := CustomizePrompt(s.template, text, h.source, h.translation);
    if call == Corrected && scr.model(prompt, 0).Ok? {
      PromptNeverBlank(s.template, text, h.source, h.translation);
      FirstAttemptAnswers(prompt, scr.model);
    }
  }

  /** The reader is advanced `count` times on resume when every screen on the way
      turns. */
  lemma {:induction false} SkipAdvances(book: seq<Screen>, pos: nat, count: nat)
    requires pos + count < |book|
    requires forall i :: pos <= i < pos + count ==> book[i].turns
    ensures Skip(book, pos, count) == pos + count
    decreases count
  {
    if count > 0 {
      SkipAdvances(book, pos + 1, count - 1);
    }
  }

  /** With no progress file, or a progress file that does not exist yet, the run
      starts at page 1 with the reader where the user left it. */
  lemma FreshRunStartsAtPageOne(body: Body, maxPages: Option<int>, book: seq<Screen>, hasProgressFile: bool)
    requires |book| > 0 && BodyFacts(body)
    ensures var rs := KindleRun(body, maxPages, book, hasProgressFile, None);
      rs == KindleLoop(body, maxPages, book, 0, 0, 0, NoHistory) && Consecutive(rs, 1)
  {
    KindleLoopPages(body, maxPages, book, 0, 0, 0, NoHistory);
  }

  /** A run resumed from the checkpoint another run left (its last page number in
      both fields) starts right after that page, so the two runs together log
      strictly increasing page numbers and no page twice. */
  lemma ResumeAfterCheckpoint(body: Body, maxPages: Option<int>, book: seq<Screen>, book2: seq<Screen>,
                              hasProgressFile: bool, saved: Option<Progress>)
    requires |book| > 0 && |book2| > 0 && BodyFacts(body)
    requires KindleRun(body, maxPages, book, hasProgressFile, saved) != []
    ensures var run1 := KindleRun(body, maxPages, book, hasProgressFile, saved);
      var last := run1[|run1| - 1].pageNumber;
      var run2 := KindleRun(body, maxPages, book2, true, Some(Progress(last, last)));
      Consecutive(run2, last + 1) && StrictlyIncreasing(run1 + run2)
  {
    var start1 := StartPage(hasProgressFile, saved);
    var pos1 := Skip(book, 0, if start1 > 0 then start1 else 0);
    KindleLoopPages(body, maxPages, book, pos1, start1, 0, NoHistory);
    var run1 := KindleRun(body, maxPages, book, hasProgressFile, saved);
    var last := run1[|run1| - 1].pageNumber;
    assert last == start1 + |run1|;
    var pos2 := Skip(book2, 0, if last > 0 then last else 0);
    KindleLoopPages(body, maxPages, book2, pos2, last, 0, NoHistory);
    ConsecutiveJoin(run1, KindleRun(body, maxPages, book2, true, Some(Progress(last, last))), start1 + 1);
  }

  /** The resume step: `next_page()` called `count` times, its answers ignored. */
  method SkipPages(book: seq<Screen>, count: nat) returns (pos: nat)
    requires |book| > 0
    ensures pos == Skip(book, 0, count)
  {
    pos := 0;
    for i := 0 to count
      invariant pos < |book|
      invariant Skip(book, 0, count) == Skip(book, pos, count - i)
    {
      if CanAdvance(book, pos) {
        pos := pos + 1;
      }
    }
  }

  /** One turn of the loop, as the loop method sees it: with `done` the records
      written so far and `total` all the loop writes, the page's record joins `done`,
      and either that is everything or the loop goes on from the next screen. */
  lemma LoopAdvance(body: Body, maxPages: Option<int>, book: seq<Screen>, pos: nat, page: int,
                    empties: nat, h: History, done: seq<Record>, total: seq<Record>)
    requires pos < |book| && !LimitReached(maxPages, page + 1)
    requires done + KindleLoop(body, maxPages, book, pos, page, empties, h) == total
    ensures var st := body(book[pos], page + 1, empties, h);
      && (LoopEnds(st, book, pos) ==> done + [st.rec] == total)
      && (!LoopEnds(st, book, pos) ==>
            (done + [st.rec]) + KindleLoop(body, maxPages, book, pos + 1, page + 1, st.empties, st.history) == total)
  {
    var st := body(book[pos], page + 1, empties, h);
    if !LoopEnds(st, book, pos) {
      Associate(done, [st.rec], KindleLoop(body, maxPages, book, pos + 1, page + 1, st.empties, st.history));
    }
  }

  /** The limit check ends the loop with nothing more to write. */
  lemma LoopLimit(body: Body, maxPages: Option<int>, book: seq<Screen>, pos: nat, page: int,
                  empties: nat, h: History, done: seq<Record>, total: seq<Record>)
    requires pos < |book| && LimitReached(maxPages, page + 1)
    requires done + KindleLoop(body, maxPages, book, pos, page, empties, h) == total
    ensures done == total
  {
    assert KindleLoop(body, maxPages, book, pos, page, empties, h) == [];
    assert done + [] == done;
  }

  /** The `try` block of one pass: capture, OCR, the blank check and the
      translation (corrected call), each step reached only if the previous one did
      not raise. */
  method ObservePage(s: Settings, scr: Screen, h: History) returns (o: Observation)
    ensures o == Observe(Corrected, s, scr, h)
  {
    if !scr.captured {
      // capture_page raised
      return NotCaptured;
    }
    var ocr := ExtractTextFromImage(scr.ocr, s.ocrPrompt);
    if ocr.Err? {
      return OcrFailed(ocr.error);
    }
    if IsBlank(ocr.text) {
      return BlankText(ocr.text);
    }
    var prompt := CustomizePrompt(s.template, ocr.text, h.source, h.translation);
    var reply, calls, waits := TranslatePage(prompt, scr.model);
    return Answered(ocr.text, reply);
  }

  /** One pass of the loop body: the `try` block, then the `finally` block, which
      updates the history on success and builds the record. */
  method ProcessPage(s: Settings, scr: Screen, pageNumber: int, empties: nat, h: History) returns (st: Step)
    ensures st == KindlePage(Corrected, s, scr, pageNumber, empties, h)
    ensures st.rec.pageNumber == pageNumber
  {
    var o := ObservePage(s, scr, h);
    st := PageStep(o, pageNumber, empties, h);
  }

  /** The progress file after a run that found `before` there and wrote the records
      `run`: the last page written, or `before` when the run wrote nothing. */
  function Checkpointed(before: Option<Progress>, run: seq<Record>): Option<Progress>
  {
    if run == [] then before else Some(Progress(run[|run| - 1].pageNumber, run[|run| - 1].pageNumber))
  }

  /** `body` is the corrected pass for settings `s`. The trigger keeps the pass's
      definition out of proofs that never name `KindlePage`. */
  ghost predicate RunsCorrectedPass(body: Body, s: Settings)
  {
    forall scr: Screen, n: int, e: nat, h: History {:trigger KindlePage(Corrected, s, scr, n, e, h)} ::
      body(scr, n, e, h) == KindlePage(Corrected, s, scr, n, e, h)
  }

  /** `process_kindle_book` with the translation call corrected. `store` is the
      progress file, `null` when none is given. */
  method ProcessKindleBook(log: JsonlLog, store: ProgressStore?, s: Settings, book: seq<Screen>)
    requires |book| > 0
    modifies log, store
    ensures log.records == old(log.records)
      + KindleBook(Corrected, s, book, store != null, if store != null then old(store.saved) else None)
    ensures store != null ==>
              store.saved == Checkpointed(old(store.saved), KindleBook(Corrected, s, book, true, old(store.saved)))
  {
    var start := 0;
    if store != null {
      var progress := store.Load();
      start := progress.pagesCompleted;
    }
    var pos := 0;
    if start > 0 {
      pos := SkipPages(book, start);
    }
    assert RunsCorrectedPass(Pass(Corrected, s), s);
    TranslatePages(log, store, s, book, pos, start, Pass(Corrected, s));
  }

  /** One pass of the `while True` loop: the page's record is written, then the
      page is checkpointed. */
  method WritePage(log: JsonlLog, store: ProgressStore?, s: Settings, scr: Screen, pageNumber: int,
                   empties: nat, h: History, ghost body: Body) returns (st: Step)
    requires RunsCorrectedPass(body, s)
    modifies log, store
    ensures st == body(scr, pageNumber, empties, h)
    ensures st.rec.pageNumber == pageNumber
    ensures log.records == old(log.records) + [st.rec]
    ensures store != null ==> store.saved == Some(Progress(pageNumber, pageNumber))
  {
    st := ProcessPage(s, scr, pageNumber, empties, h);
    log.Append(st.rec);
    if store != null {
      store.Save(pageNumber, pageNumber);
    }
  }

  /** The `while True` loop of `process_kindle_book`, from the reader at `book[pos0]`
      with `start` the last page number used. */
  method TranslatePages(log: JsonlLog, store: ProgressStore?, s: Settings, book: seq<Screen>, pos0: nat,
                        start: int, ghost body: Body)
    requires pos0 < |book|
    requires RunsCorrectedPass(body, s)
    modifies log, store
    ensures log.records == old(log.records) + KindleLoop(body, s.maxPages, book, pos0, start, 0, NoHistory)
    ensures store != null ==>
              store.saved == Checkpointed(old(store.saved), KindleLoop(body, s.maxPages, book, pos0, start, 0, NoHistory))
  {
    var pos := pos0;
    var historyIt, historyIng := "", "";
    var pageNumber := start;
    var consecutiveEmpty := 0;
    ghost var total := KindleLoop(body, s.maxPages, book, pos0, start, 0, NoHistory);
    ghost var done: seq<Record> := [];
    while true
      invariant pos < |book|
      invariant log.records == old(log.records) + done
      invariant done + KindleLoop(body, s.maxPages, book, pos, pageNumber, consecutiveEmpty, History(historyIt, historyIng)) == total
      invariant store != null ==> store.saved == Checkpointed(old(store.saved), done)
      decreases |book| - pos
    {
      ghost var page, h := pageNumber, History(historyIt, historyIng);
      pageNumber := pageNumber + 1;
      if LimitReached(s.maxPages, pageNumber) {
        LoopLimit(body, s.maxPages, book, pos, page, consecutiveEmpty, h, done, total);
        break;
      }
      LoopAdvance(body, s.maxPages, book, pos, page, consecutiveEmpty, h, done, total);
      var st := WritePage(log, store, s, book[pos], pageNumber, consecutiveEmpty, History(historyIt, historyIng), body);
      consecutiveEmpty := st.empties;
      historyIt, historyIng := st.history.source, st.history.translation;
      Associate(old(log.records), done, [st.rec]);
      done := done + [st.rec];
      if LoopEnds(st, book, pos) {
        break;
      }
      pos := pos + 1;
    }
  }
}
