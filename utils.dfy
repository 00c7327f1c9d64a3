/** utils.py: asking for a file name and giving it the expected extension. */
module Utils {
  import opened Outcomes
  import opened Text

  /** The name `input_name_file` settles on for a non-blank entry: the entry itself
      when its lower-cased form already ends with `ext`, otherwise the entry with
      `ext` appended. */
  function WithExtension(name: string, ext: string): string
  {
    if EndsWith(Lower(name), ext) then name else name + ext
  }

  /** The entry is kept as typed (a prefix of the result); the extension is added
      exactly when the case-insensitive match fails. */
  lemma WithExtensionKeepsName(name: string, ext: string)
    ensures var r := WithExtension(name, ext);
      r[..|name|] == name && (r == name <==> EndsWith(Lower(name), ext))
  {
    var r := WithExtension(name, ext);
    if !EndsWith(Lower(name), ext) {
      assert r[..|name|] == name;
    }
  }

  lemma LowerAppend(a: string, b: string)
    ensures Lower(a + b) == Lower(a) + Lower(b)
  {
  }

  lemma LowerOfLower(s: string)
    requires IsLower(s)
    ensures Lower(s) == s
  {
  }

  /** For a lower-case extension such as ".pdf", the lower-cased result always ends
      with the extension, and a non-blank entry never yields a blank name. */
  lemma WithExtensionEndsWith(name: string, ext: string)
    requires IsLower(ext)
    requires !IsBlank(name)
    ensures EndsWith(Lower(WithExtension(name, ext)), ext)
    ensures !IsBlank(WithExtension(name, ext))
  {
    var r := WithExtension(name, ext);
    var i :| 0 <= i < |name| && !IsSpace(name[i]);
    assert r[i] == name[i];
    if !EndsWith(Lower(name), ext) {
      LowerAppend(name, ext);
      LowerOfLower(ext);
      assert Lower(r)[|Lower(r)| - |ext|..] == ext;
    }
  }

  /** Feeding a normalised name back in returns it unchanged, whatever the case of
      the letters the user typed ("BOOK.PDF" stays "BOOK.PDF"). */
  lemma WithExtensionIdempotent(name: string, ext: string)
    requires IsLower(ext)
    ensures WithExtension(WithExtension(name, ext), ext) == WithExtension(name, ext)
  {
    var r := WithExtension(name, ext);
    if !EndsWith(Lower(name), ext) {
      LowerAppend(name, ext);
      LowerOfLower(ext);
      assert Lower(r)[|Lower(r)| - |ext|..] == ext;
    }
  }

  /** `input_name_file`: reads entries (the lines `input()` returns, in order) until
      one is not blank, then gives it the extension. `None` stands for `input()`
      raising EOFError because the entries ran out. `asked` is how many entries
      were read. */
  method InputNameFile(entries: seq<string>, ext: string) returns (name: Option<string>, asked: nat)
    ensures asked <= |entries|
    ensures forall i :: 0 <= i < asked - 1 ==> IsBlank(entries[i])
    ensures name.None? <==> forall i :: 0 <= i < |entries| ==> IsBlank(entries[i])
    ensures name.None? ==> asked == |entries|
    ensures name.Some? ==>
              && 0 < asked && !IsBlank(entries[asked - 1])
              && name.value == WithExtension(entries[asked - 1], ext)
  {
    asked := 0;
    while true
      invariant asked <= |entries|
      invariant forall i :: 0 <= i < asked ==> IsBlank(entries[i])
      decreases |entries| - asked
    {
      if asked == |entries| {
        return None, asked;
      }
      var entry := entries[asked];
      asked := asked + 1;
      if IsBlank(entry) {
        continue;
      }
      if !EndsWith(Lower(entry), ext) {
        entry := entry + ext;
      }
      return Some(entry), asked;
    }
  }
}
