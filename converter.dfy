/** jsonl_to_docx.py: turn a translation log into a Word document holding, page by
    page, the successful translations (and optionally the OCR text they came from).
    The document is the sequence of paragraphs appended to it; styling is not part
    of the model. */
module Converter {
  import opened Outcomes
  import opened Text
  import opened Records

  /** The JSON values the log's fields hold. */
  datatype Value = Null | Str(s: string) | Int(i: int)

  /** The four keys the converter reads from a JSON object; `None` when the key is
      absent. */
  datatype Fields = Fields(pageNumber: Option<Value>, status: Option<Value>,
                           translatedText: Option<Value>, originalText: Option<Value>)

  /** What `json.loads` makes of a line: a decoding error, a value that is not an
      object (on which `data.get` raises AttributeError), or an object. */
  datatype Parsed = Invalid | NotAnObject | Object(fields: Fields)

  /** A line of the file: its text and what it parses to. */
  datatype Line = Line(raw: string, parsed: Parsed)

  datatype Paragraph = Paragraph(text: string, bold: bool)

  /** How an f-string or `add_paragraph` shows a value. */
  function Show(v: Value): string
  {
    match v
    case Null => "None"
    case Str(s) => s
    case Int(i) => IntToString(i)
  }

  /** Truth of `data.get(key, '')`: an absent key gives the falsy `''`. */
  predicate Truthy(v: Option<Value>)
  {
    match v
    case None => false
    case Some(Null) => false
    case Some(Str(s)) => s != []
    case Some(Int(i)) => i != 0
  }

  function TextOf(v: Option<Value>): string
  {
    if v.Some? then Show(v.value) else ""
  }

  /** The record is a page to convert: `status == 'success'` and a truthy
      `translated_text`; an absent status reads as `'unknown'`. */
  predicate Renders(f: Fields)
  {
    f.status == Some(Str("success")) && Truthy(f.translatedText)
  }

  /** `--- Page {page_number} ---`, with `?` for an absent page number. */
  function Header(f: Fields): (r: string)
    ensures |r| >= 13 && r[..9] == "--- Page " && EndsWith(r, " ---")
    ensures r[9..|r| - 4] == if f.pageNumber.Some? then Show(f.pageNumber.value) else "?"
  {
    "--- Page " + (if f.pageNumber.Some? then Show(f.pageNumber.value) else "?") + " ---"
  }

  /** A JSON number, which `add_paragraph` cannot take: python-docx walks the text
      character by character and raises TypeError on an `int`. */
  predicate IsNumber(v: Option<Value>)
  {
    v.Some? && v.value.Int?
  }

  /** A converted page makes `add_paragraph` raise: its translation is a number, or
      its original is a (truthy) number and the original is asked for. */
  predicate TextRaises(f: Fields, includeOriginal: bool)
  {
    IsNumber(f.translatedText) || (includeOriginal && Truthy(f.originalText) && IsNumber(f.originalText))
  }

  /** The paragraphs one converted page adds: the bold header, then, when the
      original is asked for and present, a bold "Original:", the original and a
      spacer, then the translation and a spacer. */
  function Block(f: Fields, includeOriginal: bool): (ps: seq<Paragraph>)
    ensures |ps| == if includeOriginal && Truthy(f.originalText) then 6 else 3
    ensures ps[0] == Paragraph(Header(f), true)
    ensures ps[|ps| - 2] == Paragraph(TextOf(f.translatedText), false) && ps[|ps| - 1] == Paragraph("", false)
    ensures |ps| == 6 ==> ps[1] == Paragraph("Original:", true) && ps[2] == Paragraph(TextOf(f.originalText), false)
                          && ps[3] == Paragraph("", false)
  {
    [Paragraph(Header(f), true)]
    + (if includeOriginal && Truthy(f.originalText)
       then [Paragraph("Original:", true), Paragraph(TextOf(f.originalText), false), Paragraph("", false)]
       else [])
    + [Paragraph(TextOf(f.translatedText), false), Paragraph("", false)]
  }

  /** The document so far and the two counters. */
  datatype Tally = Tally(paragraphs: seq<Paragraph>, processed: nat, skipped: nat)

  /** One turn of the `for line in f` loop; `None` when it raises. */
  function LineStep(t: Tally, line: Line, includeOriginal: bool): Option<Tally>
  {
    if IsBlank(line.raw) then Some(t)
    else
      match line.parsed
      case Invalid => Some(t)
      case NotAnObject => None
      case Object(f) =>
        if !Renders(f) then Some(t.(skipped := t.skipped + 1))
        else if TextRaises(f, includeOriginal) then None
        else Some(Tally(t.paragraphs + Block(f, includeOriginal), t.processed + 1, t.skipped))
  }

  /** The loop over the lines read so far. */
  function ConvertLines(lines: seq<Line>, includeOriginal: bool): Option<Tally>
    decreases |lines|
  {
    if lines == [] then Some(Tally([], 0, 0))
    else
      match ConvertLines(lines[..|lines| - 1], includeOriginal)
      case None => None
      case Some(t) => LineStep(t, lines[|lines| - 1], includeOriginal)
  }

  // An independent description of the same result: which objects the file holds,
  // which of them are converted, and the blocks those give.

  /** The objects among the lines that are not blank, in file order. */
  function Objects(lines: seq<Line>): (fs: seq<Fields>)
    ensures |fs| <= |lines|
    decreases |lines|
  {
    if lines == [] then []
    else
      var last := lines[|lines| - 1];
      Objects(lines[..|lines| - 1])
      + (if !IsBlank(last.raw) && last.parsed.Object? then [last.parsed.fields] else [])
  }

  /** A line on which the loop raises: it is not blank and decodes to a JSON value
      that is not an object (AttributeError on `data.get`), or to a page to convert
      whose text `add_paragraph` refuses (TypeError). */
  predicate Raises(line: Line, includeOriginal: bool)
  {
    !IsBlank(line.raw)
    && (line.parsed == NotAnObject
        || (line.parsed.Object? && Renders(line.parsed.fields) && TextRaises(line.parsed.fields, includeOriginal)))
  }

  /** Some line of the file raises. */
  predicate Aborts(lines: seq<Line>, includeOriginal: bool)
  {
    exists i :: 0 <= i < |lines| && Raises(lines[i], includeOriginal)
  }

  /** The records that are converted, in order. */
  function Converted(fs: seq<Fields>): (cs: seq<Fields>)
    ensures |cs| <= |fs|
    ensures forall j :: 0 <= j < |cs| ==> Renders(cs[j])
    decreases |fs|
  {
    if fs == [] then []
    else Converted(fs[..|fs| - 1]) + (if Renders(fs[|fs| - 1]) then [fs[|fs| - 1]] else [])
  }

  function Blocks(fs: seq<Fields>, includeOriginal: bool): seq<Paragraph>
    decreases |fs|
  {
    if fs == [] then [] else Blocks(fs[..|fs| - 1], includeOriginal) + Block(fs[|fs| - 1], includeOriginal)
  }

  /** What the reference description predicts for a file that does not raise. */
  function Reference(lines: seq<Line>, includeOriginal: bool): Tally
  {
    RefOf(Objects(lines), includeOriginal)
  }

  /** The document and counters the objects `fs` give. */
  function RefOf(fs: seq<Fields>, includeOriginal: bool): Tally
  {
    var cs := Converted(fs);
    Tally(Blocks(cs, includeOriginal), |cs|, |fs| - |cs|)
  }

  function Expected(lines: seq<Line>, includeOriginal: bool): Option<Tally>
  {
    if Aborts(lines, includeOriginal) then None else Some(Reference(lines, includeOriginal))
  }

  lemma AbortsPrefix(lines: seq<Line>, includeOriginal: bool)
    requires lines != []
    ensures Aborts(lines, includeOriginal) <==>
              Aborts(lines[..|lines| - 1], includeOriginal) || Raises(lines[|lines| - 1], includeOriginal)
  {
    var init := lines[..|lines| - 1];
    if Aborts(lines, includeOriginal) {
      var i :| 0 <= i < |lines| && Raises(lines[i], includeOriginal);
      if i < |init| {
        assert init[i] == lines[i];
      }
    }
    if Aborts(init, includeOriginal) {
      var i :| 0 <= i < |init| && Raises(init[i], includeOriginal);
      assert lines[i] == init[i];
    }
  }

  /** The loop's result is the reference one: it raises exactly when some non-blank
      line is a JSON value that is not an object, or a page to convert whose
      translation (or, when asked for, original) is a number; otherwise the document is the
      blocks of the converted records in file order, `pages_processed` counts them
      and `pages_skipped` counts the other objects. Blank and undecodable lines
      count in neither. */
  lemma {:induction false} ConvertLinesMatchesExpected(lines: seq<Line>, includeOriginal: bool)
    ensures ConvertLines(lines, includeOriginal) == Expected(lines, includeOriginal)
    decreases |lines|
  {
    if lines != [] {
      var init := lines[..|lines| - 1];
      var last := lines[|lines| - 1];
      ConvertLinesMatchesExpected(init, includeOriginal);
      AbortsPrefix(lines, includeOriginal);
      if !Aborts(lines, includeOriginal) {
        assert ConvertLines(lines, includeOriginal) == LineStep(Reference(init, includeOriginal), last, includeOriginal);
        assert lines == init + [last];
        ObjectsStep(init, last, includeOriginal);
      }
    }
  }

  lemma ObjectsSnoc(init: seq<Line>, last: Line)
    ensures Objects(init + [last]) == Objects(init)
                                      + (if !IsBlank(last.raw) && last.parsed.Object? then [last.parsed.fields] else [])
  {
    assert (init + [last])[..|init|] == init;
  }

  lemma ConvertedSnoc(fs: seq<Fields>, f: Fields)
    ensures Converted(fs + [f]) == Converted(fs) + (if Renders(f) then [f] else [])
  {
    assert (fs + [f])[..|fs|] == fs;
  }

  lemma BlocksSnoc(cs: seq<Fields>, f: Fields, includeOriginal: bool)
    ensures Blocks(cs + [f], includeOriginal) == Blocks(cs, includeOriginal) + Block(f, includeOriginal)
  {
    assert (cs + [f])[..|cs|] == cs;
  }

  /** The tally after one more object: converted or skipped. */
  function Take(t: Tally, f: Fields, includeOriginal: bool): Tally
  {
    if Renders(f) then Tally(t.paragraphs + Block(f, includeOriginal), t.processed + 1, t.skipped)
    else t.(skipped := t.skipped + 1)
  }

  /** The tally after a line that does not raise: an object is taken, any other
      line changes nothing. */
  function Advance(t: Tally, line: Line, includeOriginal: bool): Tally
  {
    if !IsBlank(line.raw) && line.parsed.Object? then Take(t, line.parsed.fields, includeOriginal) else t
  }

  /** One more line moves the reference result as one turn of the loop does. */
  lemma ObjectsStep(init: seq<Line>, last: Line, includeOriginal: bool)
    requires !Raises(last, includeOriginal)
    ensures LineStep(Reference(init, includeOriginal), last, includeOriginal)
              == Some(Reference(init + [last], includeOriginal))
  {
    LineStepCases(Reference(init, includeOriginal), last, includeOriginal);
    ReferenceStep(init, last, includeOriginal);
  }

  /** One turn of the loop on a line that does not raise. */
  lemma LineStepCases(t: Tally, line: Line, includeOriginal: bool)
    requires !Raises(line, includeOriginal)
    ensures LineStep(t, line, includeOriginal) == Some(Advance(t, line, includeOriginal))
  {
  }

  /** The reference result of one more line. */
  lemma ReferenceStep(init: seq<Line>, last: Line, includeOriginal: bool)
    ensures Reference(init + [last], includeOriginal) == Advance(Reference(init, includeOriginal), last, includeOriginal)
  {
    var fs := Objects(init);
    ObjectsSnoc(init, last);
    if !IsBlank(last.raw) && last.parsed.Object? {
      var f := last.parsed.fields;
      assert Objects(init + [last]) == fs + [f];
      RefOfSnoc(fs, f, includeOriginal);
    } else {
      assert Objects(init + [last]) == fs;
    }
  }

  /** One more object moves the reference result by `Take`. */
  lemma RefOfSnoc(fs: seq<Fields>, f: Fields, includeOriginal: bool)
    ensures RefOf(fs + [f], includeOriginal) == Take(RefOf(fs, includeOriginal), f, includeOriginal)
  {
    ObjectStep(fs, f, RefOf(fs, includeOriginal), RefOf(fs + [f], includeOriginal), includeOriginal);
  }

  lemma ObjectStep(fs: seq<Fields>, f: Fields, t: Tally, t': Tally, includeOriginal: bool)
    requires t == RefOf(fs, includeOriginal) && t' == RefOf(fs + [f], includeOriginal)
    ensures t' == if Renders(f) then Tally(t.paragraphs + Block(f, includeOriginal), t.processed + 1, t.skipped)
                  else t.(skipped := t.skipped + 1)
  {
    var cs := Converted(fs);
    ConvertedSnoc(fs, f);
    if Renders(f) {
      BlocksSnoc(cs, f, includeOriginal);
    } else {
      assert Converted(fs + [f]) == cs;
    }
  }

  /** A success record whose translation is a number makes the whole conversion
      raise, however the file goes on: `add_paragraph(5)` raises TypeError. */
  lemma NumberTranslationRaises(lines: seq<Line>, raw: string, n: int, includeOriginal: bool)
    requires !IsBlank(raw) && n != 0
    ensures var f := Fields(None, Some(Str("success")), Some(Int(n)), None);
      ConvertLines([Line(raw, Object(f))] + lines, includeOriginal).None?
  {
    var all := [Line(raw, Object(Fields(None, Some(Str("success")), Some(Int(n)), None)))] + lines;
    assert all[..1][..0] == [];
    assert ConvertLines(all[..1], includeOriginal).None?;
    AbortIsFinal(all, 1, includeOriginal);
  }

  /** `pages_processed + pages_skipped` is the number of non-blank lines that
      decode to an object. */
  lemma CountsAddUp(lines: seq<Line>, includeOriginal: bool)
    requires ConvertLines(lines, includeOriginal).Some?
    ensures var t := ConvertLines(lines, includeOriginal).value;
      t.processed + t.skipped == |Objects(lines)| && t.processed == |Converted(Objects(lines))|
  {
    ConvertLinesMatchesExpected(lines, includeOriginal);
  }

  lemma {:induction false} ObjectsAppend(a: seq<Line>, b: seq<Line>)
    ensures Objects(a + b) == Objects(a) + Objects(b)
    decreases |b|
  {
    if b != [] {
      var b' := b[..|b| - 1];
      var x := b[|b| - 1];
      var tail := if !IsBlank(x.raw) && x.parsed.Object? then [x.parsed.fields] else [];
      assert (a + b)[..|a + b| - 1] == a + b';
      assert (a + b)[|a + b| - 1] == x;
      ObjectsAppend(a, b');
      assert Objects(a + b) == Objects(a + b') + tail;
      assert b[..|b| - 1] == b';
      assert Objects(b) == Objects(b') + tail;
      assert (Objects(a) + Objects(b')) + tail == Objects(a) + (Objects(b') + tail);
    } else {
      assert a + b == a;
    }
  }

  /** A blank or undecodable line may be inserted anywhere without changing the
      document or the counters. */
  lemma IgnoredLine(a: seq<Line>, line: Line, b: seq<Line>, includeOriginal: bool)
    requires IsBlank(line.raw) || line.parsed == Invalid
    ensures ConvertLines(a + [line] + b, includeOriginal) == ConvertLines(a + b, includeOriginal)
  {
    IgnoredLineObjects(a, line, b);
    IgnoredLineAborts(a, line, b, includeOriginal);
    ConvertLinesMatchesExpected(a + [line] + b, includeOriginal);
    ConvertLinesMatchesExpected(a + b, includeOriginal);
  }

  lemma IgnoredLineObjects(a: seq<Line>, line: Line, b: seq<Line>)
    requires IsBlank(line.raw) || line.parsed == Invalid
    ensures Objects(a + [line] + b) == Objects(a + b)
  {
    ObjectsAppend(a + [line], b);
    ObjectsAppend(a, [line]);
    ObjectsAppend(a, b);
    assert Objects([line]) == [] by {
      assert [line][..0] == [];
    }
    assert Objects(a) + [] == Objects(a);
  }

  lemma IgnoredLineAborts(a: seq<Line>, line: Line, b: seq<Line>, includeOriginal: bool)
    requires IsBlank(line.raw) || line.parsed == Invalid
    ensures Aborts(a + [line] + b, includeOriginal) == Aborts(a + b, includeOriginal)
  {
    var with := a + [line] + b;
    var without := a + b;
    if Aborts(with, includeOriginal) {
      var i :| 0 <= i < |with| && Raises(with[i], includeOriginal);
      if i < |a| {
        assert without[i] == with[i];
      } else {
        assert without[i - 1] == with[i];
      }
    }
    if Aborts(without, includeOriginal) {
      var i :| 0 <= i < |without| && Raises(without[i], includeOriginal);
      if i < |a| {
        assert with[i] == without[i];
      } else {
        assert with[i + 1] == without[i];
      }
    }
  }

  /** Once the loop has raised, reading more lines does not bring it back. */
  lemma {:induction false} AbortIsFinal(lines: seq<Line>, i: nat, includeOriginal: bool)
    requires i <= |lines| && ConvertLines(lines[..i], includeOriginal).None?
    ensures ConvertLines(lines, includeOriginal).None?
    decreases |lines| - i
  {
    if i < |lines| {
      assert lines[..i + 1][..i] == lines[..i];
      AbortIsFinal(lines, i + 1, includeOriginal);
    } else {
      assert lines[..i] == lines;
    }
  }

  // The default output name: `str(Path(jsonl_file).with_suffix('.docx'))`.

  /** Index of the last `c` in `s`, or -1. */
  function LastIndex(s: string, c: char): (i: int)
    ensures -1 <= i < |s|
    ensures i >= 0 ==> s[i] == c
    ensures forall k :: i < k < |s| ==> s[k] != c
    decreases |s|
  {
    if s == [] then -1 else if s[|s| - 1] == c then |s| - 1 else LastIndex(s[..|s| - 1], c)
  }

  lemma LastIndexIs(s: string, c: char, i: int)
    requires -1 <= i < |s| && (i >= 0 ==> s[i] == c)
    requires forall k :: i < k < |s| ==> s[k] != c
    ensures LastIndex(s, c) == i
  {
  }

  /** `PurePath.name`: the text after the last `/`. */
  function BaseName(path: string): string
  {
    path[LastIndex(path, '/') + 1..]
  }

  function DirPart(path: string): string
  {
    path[..LastIndex(path, '/') + 1]
  }

  /** `PurePath.suffix`: from the last `.` of the name, unless that dot is the name's
      first or last character. */
  function Suffix(name: string): (r: string)
    ensures r == [] || (r[0] == '.' && |r| >= 2 && |r| < |name| && name[|name| - |r|..] == r)
  {
    var i := LastIndex(name, '.');
    if 0 < i < |name| - 1 then name[i..] else []
  }

  /** `PurePath.with_suffix(suffix)`: the name loses its suffix and gains `suffix`;
      a path with an empty name raises ValueError. */
  function WithSuffix(path: string, suffix: string): Option<string>
  {
    var name := BaseName(path);
    if name == [] then None else Some(DirPart(path) + name[..|name| - |Suffix(name)|] + suffix)
  }

  const DocxSuffix := ".docx"

  function DefaultDocxName(jsonlFile: string): (r: Option<string>)
    ensures r.None? <==> BaseName(jsonlFile) == []
    ensures r.Some? ==> EndsWith(r.value, DocxSuffix)
  {
    WithSuffix(jsonlFile, DocxSuffix)
  }

  /** A path made of a directory part ending in `/` (or empty) and a name without
      `/` splits back into the two. */
  lemma SplitPath(dir: string, name: string)
    requires dir == [] || dir[|dir| - 1] == '/'
    requires forall k :: 0 <= k < |name| ==> name[k] != '/'
    ensures BaseName(dir + name) == name && DirPart(dir + name) == dir
  {
    var path := dir + name;
    forall k | |dir| - 1 < k < |path| ensures path[k] != '/' {
      assert path[k] == name[k - |dir|];
    }
    LastIndexIs(path, '/', |dir| - 1);
  }

  /** The suffix of `stem.ext`, for a non-empty `stem` and a non-empty `ext` without
      a dot, is `.ext`. */
  lemma SuffixOf(stem: string, ext: string)
    requires stem != []
    requires ext != [] && forall k :: 0 <= k < |ext| ==> ext[k] != '.'
    ensures Suffix(stem + "." + ext) == "." + ext
    ensures var name := stem + "." + ext; name[..|name| - |Suffix(name)|] == stem
  {
    var name := stem + "." + ext;
    forall k | |stem| < k < |name| ensures name[k] != '.' {
      assert name[k] == ext[k - |stem| - 1];
    }
    LastIndexIs(name, '.', |stem|);
    assert name[|stem|..] == "." + ext;
    assert name[..|stem|] == stem;
  }

  /** `dir/stem.ext` becomes `dir/stem.docx`: the directory is kept and only the last
      extension is replaced (`a.b.jsonl` gives `a.b.docx`). */
  lemma DefaultDocxNameReplacesSuffix(dir: string, stem: string, ext: string)
    requires dir == [] || dir[|dir| - 1] == '/'
    requires stem != [] && forall k :: 0 <= k < |stem| ==> stem[k] != '/'
    requires ext != [] && forall k :: 0 <= k < |ext| ==> ext[k] != '/' && ext[k] != '.'
    ensures DefaultDocxName(dir + stem + "." + ext) == Some(dir + stem + DocxSuffix)
  {
    var name := stem + "." + ext;
    assert dir + stem + "." + ext == dir + name;
    forall k | 0 <= k < |name| ensures name[k] != '/' {
      if k < |stem| {
        assert name[k] == stem[k];
      } else if k > |stem| {
        assert name[k] == ext[k - |stem| - 1];
      }
    }
    SplitPath(dir, name);
    SuffixOf(stem, ext);
  }

  /** A name without a suffix (no dot, a leading dot only, or a trailing dot) keeps
      all of itself and gains `.docx`: `book` gives `book.docx`, `.bashrc` gives
      `.bashrc.docx`, `a.` gives `a..docx`. */
  lemma DefaultDocxNameAddsSuffix(jsonlFile: string)
    requires BaseName(jsonlFile) != [] && Suffix(BaseName(jsonlFile)) == []
    ensures DefaultDocxName(jsonlFile) == Some(jsonlFile + DocxSuffix)
  {
    WithSuffixAppends(jsonlFile, DocxSuffix);
  }

  /** `with_suffix` on a name that has no suffix appends the new one to the path. */
  lemma WithSuffixAppends(path: string, suffix: string)
    requires BaseName(path) != [] && Suffix(BaseName(path)) == []
    ensures WithSuffix(path, suffix) == Some(path + suffix)
  {
    var name := BaseName(path);
    Split(path, LastIndex(path, '/') + 1);
    KeepAll(name, Suffix(name));
    assert DirPart(path) + name == path;
  }

  lemma KeepAll(name: string, suffix: string)
    requires suffix == []
    ensures name[..|name| - |suffix|] == name
  {
  }

  /** Applying the default naming to its own result changes nothing. */
  lemma DefaultDocxNameIdempotent(jsonlFile: string)
    requires DefaultDocxName(jsonlFile).Some?
    ensures DefaultDocxName(DefaultDocxName(jsonlFile).value) == DefaultDocxName(jsonlFile)
  {
    var name := BaseName(jsonlFile);
    var dir := DirPart(jsonlFile);
    var stem := name[..|name| - |Suffix(name)|];
    StemParts(jsonlFile);
    assert DefaultDocxName(jsonlFile).value == dir + stem + DocxSuffix;
    assert dir + stem + DocxSuffix == dir + stem + "." + "docx";
    DefaultDocxNameReplacesSuffix(dir, stem, "docx");
  }

  /** A path with a non-empty name splits into a directory part ending in `/` (or
      empty) and a non-empty stem without `/`. */
  lemma StemParts(path: string)
    requires BaseName(path) != []
    ensures var dir := DirPart(path); dir == [] || dir[|dir| - 1] == '/'
    ensures var name := BaseName(path); var stem := name[..|name| - |Suffix(name)|];
      stem != [] && forall k :: 0 <= k < |stem| ==> stem[k] != '/'
  {
    var name := BaseName(path);
    var stem := name[..|name| - |Suffix(name)|];
    var i := LastIndex(path, '/');
    forall k | 0 <= k < |stem| ensures stem[k] != '/' {
      assert stem[k] == path[i + 1 + k];
    }
    assert stem != [] by {
      if Suffix(name) != [] {
        assert LastIndex(name, '.') > 0;
      }
    }
  }

  /** The document being built: paragraphs are only ever appended. */
  class Document {
    var paragraphs: seq<Paragraph>

    constructor ()
      ensures paragraphs == []
    {
      paragraphs := [];
    }

    method AddParagraph(p: Paragraph)
      modifies this
      ensures paragraphs == old(paragraphs) + [p]
    {
      paragraphs := paragraphs + [p];
    }
  }

  /** Why the conversion fails: `with_suffix` on an empty name, `open` on a missing
      file, or a line that raises (AttributeError or TypeError, not told apart). */
  datatype ConvertError = EmptyName | FileNotFound | LineRaised

  datatype Conversion = Conversion(docxFile: string, document: seq<Paragraph>, processed: nat, skipped: nat)

  datatype Outcome = Done(conversion: Conversion) | Failed(error: ConvertError)

  /** `convert_jsonl_to_docx`: `file` is the content of `jsonl_file`, `None` when it
      cannot be opened. */
  function ConvertSpec(jsonlFile: string, docxFile: Option<string>, file: Option<seq<Line>>,
                       includeOriginal: bool): Outcome
  {
    var name := if docxFile.Some? then docxFile else DefaultDocxName(jsonlFile);
    if name.None? then Failed(EmptyName)
    else if file.None? then Failed(FileNotFound)
    else
      match ConvertLines(file.value, includeOriginal)
      case None => Failed(LineRaised)
      case Some(t) => Done(Conversion(name.value, t.paragraphs, t.processed, t.skipped))
  }

  /** The paragraphs of one converted page, appended one call at a time; python-docx
      takes only strings. */
  method AddPage(doc: Document, f: Fields, includeOriginal: bool)
    requires !TextRaises(f, includeOriginal)
    modifies doc
    ensures doc.paragraphs == old(doc.paragraphs) + Block(f, includeOriginal)
  {
    doc.AddParagraph(Paragraph(Header(f), true));
    if includeOriginal && Truthy(f.originalText) {
      doc.AddParagraph(Paragraph("Original:", true));
      doc.AddParagraph(Paragraph(TextOf(f.originalText), false));
      doc.AddParagraph(Paragraph("", false));
    }
    doc.AddParagraph(Paragraph(TextOf(f.translatedText), false));
    doc.AddParagraph(Paragraph("", false));
  }

  method ConvertJsonlToDocx(jsonlFile: string, docxFile: Option<string>, file: Option<seq<Line>>,
                            includeOriginal: bool) returns (r: Outcome)
    ensures r == ConvertSpec(jsonlFile, docxFile, file, includeOriginal)
  {
    var name := docxFile;
    if name.None? {
      name := DefaultDocxName(jsonlFile);
      if name.None? {
        return Failed(EmptyName);
      }
    }
    if file.None? {
      return Failed(FileNotFound);
    }
    var lines := file.value;
    var doc := new Document();
    var processed, skipped := 0, 0;
    for i := 0 to |lines|
      invariant ConvertLines(lines[..i], includeOriginal) == Some(Tally(doc.paragraphs, processed, skipped))
    {
      assert lines[..i + 1][..i] == lines[..i];
      var ok;
      ok, processed, skipped := ConvertLine(doc, lines[i], includeOriginal, processed, skipped);
      if !ok {
        AbortIsFinal(lines, i + 1, includeOriginal);
        return Failed(LineRaised);
      }
    }
    assert lines[..|lines|] == lines;
    return Done(Conversion(name.value, doc.paragraphs, processed, skipped));
  }

  /** One turn of the `for line in f` loop on the document and the two counters;
      `ok` is false when the line raises. */
  method ConvertLine(doc: Document, line: Line, includeOriginal: bool, processed: nat, skipped: nat)
    returns (ok: bool, processed': nat, skipped': nat)
    modifies doc
    ensures var r := LineStep(Tally(old(doc.paragraphs), processed, skipped), line, includeOriginal);
      (ok <==> r.Some?) && (ok ==> r == Some(Tally(doc.paragraphs, processed', skipped')))
  {
    ok, processed', skipped' := true, processed, skipped;
    if IsBlank(line.raw) {
      return;
    }
    match line.parsed
    case Invalid =>
    case NotAnObject =>
      // `data.get` raises AttributeError
      ok := false;
    case Object(f) =>
      if !Renders(f) {
        skipped' := skipped + 1;
      } else if TextRaises(f, includeOriginal) {
        // `add_paragraph` raises TypeError on a number
        ok := false;
      } else {
        AddPage(doc, f, includeOriginal);
        processed' := processed + 1;
      }
  }

  // The logs the two drivers write, as the converter reads them back.

  function StatusValue(s: Status): Value
  {
    Str(StatusName(s))
  }

  function OptText(t: Option<string>): Value
  {
    if t.Some? then Str(t.value) else Null
  }

  /** The keys of a record that the converter reads: the PDF driver writes no
      `original_text` key, the Kindle driver does. */
  function FieldsOf(r: Record): Fields
  {
    match r
    case PdfRecord(n, st, _, t, _) => Fields(Some(Int(n)), Some(StatusValue(st)), Some(OptText(t)), None)
    case KindleRecord(n, st, o, t, _) =>
      Fields(Some(Int(n)), Some(StatusValue(st)), Some(OptText(t)), Some(OptText(o)))
  }

  /** A log record is converted exactly when it is a success with a non-empty
      translation. */
  predicate ConvertsRecord(r: Record)
  {
    r.status == Success && r.translated.Some? && r.translated.value != []
  }

  function CountConverted(rs: seq<Record>): (n: nat)
    ensures n <= |rs|
    decreases |rs|
  {
    if rs == [] then 0 else CountConverted(rs[..|rs| - 1]) + (if ConvertsRecord(rs[|rs| - 1]) then 1 else 0)
  }

  /** The lines a log gives once written: each record on its own non-blank line
      that decodes to the record's keys. */
  predicate LinesOfLog(lines: seq<Line>, rs: seq<Record>)
  {
    |lines| == |rs|
    && forall i :: 0 <= i < |rs| ==> !IsBlank(lines[i].raw) && lines[i].parsed == Object(FieldsOf(rs[i]))
  }

  lemma StatusNameInjective(s: Status)
    ensures StatusName(s) == "success" <==> s == Success
  {
  }

  /** Converting a log the drivers wrote never raises; every record is counted once,
      as converted exactly when it is a success with a non-empty translation, and
      skipped otherwise. */
  lemma {:induction false} ConvertDriverLog(lines: seq<Line>, rs: seq<Record>, includeOriginal: bool)
    requires LinesOfLog(lines, rs)
    ensures ConvertLines(lines, includeOriginal).Some?
    ensures var t := ConvertLines(lines, includeOriginal).value;
      t.processed == CountConverted(rs) && t.skipped == |rs| - CountConverted(rs)
    decreases |rs|
  {
    if rs != [] {
      var init := lines[..|lines| - 1];
      var r := rs[|rs| - 1];
      assert LinesOfLog(init, rs[..|rs| - 1]) by {
        forall i | 0 <= i < |init| ensures !IsBlank(init[i].raw) && init[i].parsed == Object(FieldsOf(rs[..|rs| - 1][i])) {
          assert init[i] == lines[i];
        }
      }
      ConvertDriverLog(init, rs[..|rs| - 1], includeOriginal);
      var t := ConvertLines(init, includeOriginal).value;
      assert ConvertLines(lines, includeOriginal) == LineStep(t, lines[|lines| - 1], includeOriginal);
      RecordLineStep(t, lines[|lines| - 1], r, includeOriginal);
      assert CountConverted(rs) == CountConverted(rs[..|rs| - 1]) + (if ConvertsRecord(r) then 1 else 0);
    }
  }

  /** The line of a log record is skipped or converted as the record says. */
  lemma RecordLineStep(t: Tally, line: Line, r: Record, includeOriginal: bool)
    requires !IsBlank(line.raw) && line.parsed == Object(FieldsOf(r))
    ensures LineStep(t, line, includeOriginal).Some?
    ensures var t' := LineStep(t, line, includeOriginal).value;
      t'.processed == t.processed + (if ConvertsRecord(r) then 1 else 0)
      && t'.skipped == t.skipped + (if ConvertsRecord(r) then 0 else 1)
  {
    StatusNameInjective(r.status);
    assert Renders(FieldsOf(r)) <==> ConvertsRecord(r);
  }

  /** For a log of the PDF driver, asking for the original changes nothing: its
      records have no `original_text` key. */
  lemma {:induction false} PdfLogIgnoresIncludeOriginal(lines: seq<Line>, rs: seq<Record>)
    requires LinesOfLog(lines, rs)
    requires forall i :: 0 <= i < |rs| ==> rs[i].PdfRecord?
    ensures ConvertLines(lines, true) == ConvertLines(lines, false)
    decreases |rs|
  {
    if rs != [] {
      var init := lines[..|lines| - 1];
      assert LinesOfLog(init, rs[..|rs| - 1]) by {
        forall i | 0 <= i < |init| ensures !IsBlank(init[i].raw) && init[i].parsed == Object(FieldsOf(rs[..|rs| - 1][i])) {
          assert init[i] == lines[i];
        }
      }
      PdfLogIgnoresIncludeOriginal(init, rs[..|rs| - 1]);
      assert lines[|lines| - 1].parsed == Object(FieldsOf(rs[|rs| - 1]));
    }
  }
}
