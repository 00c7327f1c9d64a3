/** The file names `main_async` in kindleTranslation.py derives from what the user
    types: the log, the progress file beside it and the prompt template. */
module KindleFiles {
  import opened Text

  const LogExtension := ".jsonl"
  const ProgressSuffix := "_progress.json"
  const DefaultPromptFile := "prompts/prompt_ing.txt"

  /** The log name: the entry stripped, with `.jsonl` added unless it already ends
      with it. The comparison is case-sensitive and a blank entry is not refused. */
  function OutputFileName(entry: string): (r: string)
    ensures EndsWith(r, LogExtension)
    ensures r == [] || (!IsSpace(r[0]) && !IsSpace(r[|r| - 1]))
    ensures IsBlank(entry) ==> r == LogExtension
  {
    StripEnds(entry);
    ExtensionTrimmed();
    WithExtension(Strip(entry), LogExtension)
  }

  lemma ExtensionTrimmed()
    ensures LogExtension != [] && !IsSpace(LogExtension[0]) && !IsSpace(LogExtension[|LogExtension| - 1])
  {
    assert LogExtension[0] == '.' && LogExtension[|LogExtension| - 1] == 'l';
  }

  /** `name` if it already ends with `ext`, else `name + ext`. */
  function WithExtension(name: string, ext: string): (r: string)
    requires ext != [] && !IsSpace(ext[0]) && !IsSpace(ext[|ext| - 1])
    requires name == [] || (!IsSpace(name[0]) && !IsSpace(name[|name| - 1]))
    ensures EndsWith(r, ext)
    ensures !IsSpace(r[0]) && !IsSpace(r[|r| - 1])
    ensures name == [] ==> r == ext
    ensures EndsWith(name, ext) ==> r == name
    ensures !EndsWith(name, ext) ==> r == name + ext
  {
    if EndsWith(name, ext) then name
    else
      AppendTrimmed(name, ext);
      name + ext
  }

  /** The log name is the stripped entry itself when that already ends with `.jsonl`,
      and the stripped entry followed by `.jsonl` otherwise. */
  lemma OutputFileNameKeepsEntry(entry: string)
    ensures EndsWith(Strip(entry), LogExtension) ==> OutputFileName(entry) == Strip(entry)
    ensures !EndsWith(Strip(entry), LogExtension) ==> OutputFileName(entry) == Strip(entry) + LogExtension
  {
  }

  /** `output_file.replace('.jsonl', '_progress.json')`: every occurrence is
      rewritten, not only the extension. */
  function ProgressFileName(output: string): string
  {
    ReplaceAll(output, LogExtension, ProgressSuffix)
  }

  /** Joining two strings without whitespace at their ends gives one without
      whitespace at its ends, which ends with the second. */
  lemma AppendTrimmed(a: string, b: string)
    requires a == [] || (!IsSpace(a[0]) && !IsSpace(a[|a| - 1]))
    requires b != [] && !IsSpace(b[0]) && !IsSpace(b[|b| - 1])
    ensures var r := a + b; !IsSpace(r[0]) && !IsSpace(r[|r| - 1])
    ensures EndsWith(a + b, b) && (a == [] ==> a + b == b)
  {
    var r := a + b;
    assert r[|a|..] == b;
    assert r[|r| - 1] == b[|b| - 1];
    assert r[0] == if a == [] then b[0] else a[0];
  }

  /** The prompt template file: the entry stripped, or the default when it is blank. */
  function PromptFileName(entry: string): (r: string)
    ensures !IsBlank(r)
    ensures IsBlank(entry) ==> r == DefaultPromptFile
    ensures !IsBlank(entry) ==> r == Strip(entry)
  {
    var name := Strip(entry);
    StripProperties(entry);
    if name == [] then assert DefaultPromptFile[0] == 'p'; DefaultPromptFile else name
  }

  /** Typing the derived name back in gives the same name. */
  lemma OutputFileNameIdempotent(entry: string)
    ensures OutputFileName(OutputFileName(entry)) == OutputFileName(entry)
  {
    var r := OutputFileName(entry);
    StripOfStripped(r);
  }

  /** `.jsonl` cannot overlap itself, so if it does not occur in `base` it occurs in
      `base + ".jsonl"` only at the end. */
  lemma ExtensionOnlyAtEnd(base: string)
    requires forall k :: !OccursAt(base, LogExtension, k)
    ensures forall k :: 0 <= k < |base| ==> !OccursAt(base + LogExtension, LogExtension, k)
  {
    var s := base + LogExtension;
    forall k | 0 <= k < |base|
      ensures !OccursAt(s, LogExtension, k)
    {
      if k + |LogExtension| <= |base| {
        assert s[k..k + |LogExtension|] == base[k..k + |LogExtension|];
        assert !OccursAt(base, LogExtension, k);
      } else {
        // an occurrence here would hold the '.' at index |base| past its first character
        assert s[k..k + |LogExtension|][|base| - k] == s[|base|] == '.';
        assert LogExtension[|base| - k] != '.';
      }
    }
  }

  /** Whatever the user types, the progress file is never the log itself: the log
      name always holds `.jsonl`, and each of its occurrences becomes the longer
      `_progress.json`. */
  lemma ProgressFileNeverLog(entry: string)
    ensures ProgressFileName(OutputFileName(entry)) != OutputFileName(entry)
  {
    ReplaceAllChanges(OutputFileName(entry), LogExtension, ProgressSuffix);
  }

  /** For a name that does not itself contain `.jsonl`, the log gets the extension
      and the progress file sits beside it with `_progress.json` instead, so the
      checkpoint never overwrites the log. */
  lemma ProgressFileBesideLog(entry: string)
    requires forall k :: !OccursAt(Strip(entry), LogExtension, k)
    ensures OutputFileName(entry) == Strip(entry) + LogExtension
    ensures ProgressFileName(OutputFileName(entry)) == Strip(entry) + ProgressSuffix
    ensures ProgressFileName(OutputFileName(entry)) != OutputFileName(entry)
  {
    var base := Strip(entry);
    assert !OccursAt(base, LogExtension, |base| - |LogExtension|);
    assert !EndsWith(base, LogExtension);
    assert OutputFileName(entry) == base + LogExtension;
    ProgressNameOf(base);
  }

  lemma ProgressNameOf(base: string)
    requires forall k :: !OccursAt(base, LogExtension, k)
    ensures ProgressFileName(base + LogExtension) == base + ProgressSuffix
    ensures base + ProgressSuffix != base + LogExtension
  {
    ExtensionOnlyAtEnd(base);
    ReplaceAllFinal(base, LogExtension, ProgressSuffix);
    // the two names differ right after `base`: '_' against '.'
    assert (base + ProgressSuffix)[|base|] != (base + LogExtension)[|base|];
  }
}
