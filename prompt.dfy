/** bookTranslation.py `customize_prompt`: the full instruction sent to the model,
    built from the template, the page and the previous (source, translation) pair.
    The constants are the literal pieces of the two f-strings, indentation included. */
module Prompt {
  import opened Text

  /** The one history slot the drivers keep (`history_it`, `history_ing`): the source
      and translation of the latest successfully translated page. */
  datatype History = History(source: string, translation: string)

  const NoHistory := History("", "")

  const Lead := "\n        "
  const AfterTemplate := "\n\n        "
  const ExampleHeader := "\n        ### EXAMPLE OF PREVIOUS TRANSLATION\n        \n        #### Original Text (Italian):\n        "
  const ReferenceHeader := "\n\n        #### Reference Translation (English):\n        "
  const ExampleFooter := "\n        ---\n        "
  /** The line that opens the section holding the page; its tenth character is '#'. */
  const Marker := "\n        ### TEXT TO BE TRANSLATED\n        "
  const Trailer := "\n        "

  /** `history_section`: the worked example, present only when both halves of the
      history are non-empty strings (Python truthiness). */
  function HistorySection(historyIt: string, historyIng: string): (r: string)
    ensures r == [] <==> historyIt == [] || historyIng == []
  {
    if historyIt != [] && historyIng != [] then
      ExampleHeader + historyIt + ReferenceHeader + historyIng + ExampleFooter
    else
      ""
  }

  function CustomizePrompt(prompt: string, page: string, historyIt: string, historyIng: string): (r: string)
    ensures |r| >= |Lead| + |prompt| + |AfterTemplate| + |Marker| + |page| + |Trailer|
    // the template comes first, verbatim
    ensures r[..|Lead| + |prompt|] == Lead + prompt
    // the page comes last, verbatim and untruncated, right after the marker
    ensures r[|r| - |Trailer| - |page| - |Marker|..|r| - |Trailer|] == Marker + page
    ensures EndsWith(r, Trailer)
  {
    var head := Lead + prompt;
    var tail := Marker + page;
    var r := head + (AfterTemplate + HistorySection(historyIt, historyIng)) + tail + Trailer;
    assert r[..|head|] == head;
    assert r[|r| - |Trailer| - |tail|..|r| - |Trailer|] == tail;
    assert r[|r| - |Trailer|..] == Trailer;
    r
  }

  /** Between the template and the marker the prompt holds the blank separator
      line and then exactly the history block. */
  lemma HistoryBlockPlacement(prompt: string, page: string, historyIt: string, historyIng: string)
    ensures var r := CustomizePrompt(prompt, page, historyIt, historyIng);
      var start := |Lead| + |prompt| + |AfterTemplate|;
      start <= |r| - |Trailer| - |page| - |Marker|
      && r[|Lead| + |prompt|..start] == AfterTemplate
      && r[start..|r| - |Trailer| - |page| - |Marker|] == HistorySection(historyIt, historyIng)
  {
    var h := HistorySection(historyIt, historyIng);
    var r := CustomizePrompt(prompt, page, historyIt, historyIng);
    assert r == (Lead + prompt) + (AfterTemplate + h) + (Marker + page) + Trailer;
    MiddleSlice(Lead + prompt, AfterTemplate, h, Marker + page, Trailer);
  }

  /** In `a + (b + c) + d + e`, `b` follows `a`, and the slice after `a + b` and
      before `d + e` is `c`. */
  lemma MiddleSlice(a: string, b: string, c: string, d: string, e: string)
    ensures var r := a + (b + c) + d + e;
      r[|a|..|a| + |b|] == b && r[|a| + |b|..|r| - |e| - |d|] == c
  {
    var r := a + (b + c) + d + e;
    var x := a + (b + c);
    assert r[..|x|] == x;
    assert x[|a|..] == b + c;
  }

  /** When present, the history block shows both halves of the history verbatim:
      the source text after its heading, the reference translation before the
      closing rule. */
  lemma HistoryBlockShowsBoth(historyIt: string, historyIng: string)
    requires historyIt != [] && historyIng != []
    ensures var h := HistorySection(historyIt, historyIng);
      && h[..|ExampleHeader|] == ExampleHeader
      && h[|ExampleHeader|..|ExampleHeader| + |historyIt|] == historyIt
      && h[|h| - |ExampleFooter| - |historyIng|..|h| - |ExampleFooter|] == historyIng
  {
    var h := HistorySection(historyIt, historyIng);
    var front := ExampleHeader + historyIt;
    var back := historyIng + ExampleFooter;
    assert h == front + ReferenceHeader + back;
    assert h[..|front|] == front;
    assert h[|h| - |back|..] == back;
  }

  /** The history changes the prompt if and only if both of its halves are non-empty:
      with either half empty the prompt is the one built from no history at all. */
  lemma HistoryUsedIff(prompt: string, page: string, historyIt: string, historyIng: string)
    ensures CustomizePrompt(prompt, page, historyIt, historyIng) == CustomizePrompt(prompt, page, "", "")
            <==> historyIt == [] || historyIng == []
  {
    if historyIt != [] && historyIng != [] {
      assert |CustomizePrompt(prompt, page, historyIt, historyIng)| > |CustomizePrompt(prompt, page, "", "")|;
    }
  }

  /** The composed prompt is never blank, since the marker always holds a '#'. So the
      empty-prompt guard of `translate_page` cannot fire on a composed prompt. */
  lemma PromptNeverBlank(prompt: string, page: string, historyIt: string, historyIng: string)
    ensures !IsBlank(CustomizePrompt(prompt, page, historyIt, historyIng))
  {
    var r := CustomizePrompt(prompt, page, historyIt, historyIng);
    var m := |r| - |Trailer| - |page| - |Marker|;
    assert r[m..|r| - |Trailer|][9] == Marker[9] == '#';
    assert r[m + 9] == '#';
  }
}
