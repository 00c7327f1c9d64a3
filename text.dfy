/** The few Python string operations the pipeline relies on, on `seq<char>`. */
module Text {

  /** Python's `str.isspace` for one character (the characters `str.strip()` removes). */
  predicate IsSpace(c: char)
  {
    var n := c as int;
    (9 <= n <= 13) || (28 <= n <= 32) || n == 0x85 || n == 0xA0 || n == 0x1680
    || (0x2000 <= n <= 0x200A) || n == 0x2028 || n == 0x2029 || n == 0x202F
    || n == 0x205F || n == 0x3000
  }

  /** `not s.strip()`: the string is empty or holds only whitespace. */
  predicate IsBlank(s: string)
  {
    forall i :: 0 <= i < |s| ==> IsSpace(s[i])
  }

  function TrimStart(s: string): (r: string)
    ensures |r| <= |s| && r == s[|s| - |r|..]
    ensures r == [] || !IsSpace(r[0])
    ensures forall i :: 0 <= i < |s| - |r| ==> IsSpace(s[i])
  {
    if s != [] && IsSpace(s[0]) then TrimStart(s[1..]) else s
  }

  function TrimEnd(s: string): (r: string)
    ensures |r| <= |s| && r == s[..|r|]
    ensures r == [] || !IsSpace(r[|r| - 1])
    ensures forall i :: |r| <= i < |s| ==> IsSpace(s[i])
  {
    if s != [] && IsSpace(s[|s| - 1]) then TrimEnd(s[..|s| - 1]) else s
  }

  /** Python's `s.strip()`: the longest infix without whitespace at either end. */
  function Strip(s: string): (r: string)
  {
    TrimEnd(TrimStart(s))
  }

  /** Stripping is empty exactly for blank strings, leaves no whitespace at either end,
      and gives an infix of its input (`StripAt` says what lies around it). */
  lemma StripProperties(s: string)
    ensures Strip(s) == [] <==> IsBlank(s)
    ensures Strip(s) != [] ==> !IsSpace(Strip(s)[0]) && !IsSpace(Strip(s)[|Strip(s)| - 1])
    ensures exists k :: OccursAt(s, Strip(s), k)
  {
    var t := TrimStart(s);
    var k := |s| - |t|;
    assert OccursAt(s, Strip(s), k);
    if Strip(s) == [] {
      // a non-empty `t` would start with a non-space that `TrimEnd` removed
      assert t == [];
    }
  }

  /** What `strip()` leaves has no whitespace at either end, and nothing is left of
      a blank string. */
  lemma StripEnds(s: string)
    ensures Strip(s) == [] || (!IsSpace(Strip(s)[0]) && !IsSpace(Strip(s)[|Strip(s)| - 1]))
    ensures IsBlank(s) ==> Strip(s) == []
  {
    if IsBlank(s) {
      assert TrimStart(s) == [];
    }
  }

  /** `strip()` removes only whitespace: it keeps the infix starting where
      `TrimStart` stopped, and what lies on either side of it is blank. */
  lemma StripAt(s: string)
    ensures var k := |s| - |TrimStart(s)|;
      OccursAt(s, Strip(s), k) && IsBlank(s[..k]) && IsBlank(s[k + |Strip(s)|..])
  {
    var t := TrimStart(s);
    var r := TrimEnd(t);
    BlankBefore(s, |s| - |t|);
    BlankFrom(t, |r|);
    InfixAt(s, |s| - |t|, t, r);
  }

  /** With `t` the suffix of `s` from `k` and `r` a prefix of `t`, `r` occurs in `s`
      at `k`, and what follows it in `s` is what follows it in `t`. */
  lemma InfixAt(s: string, k: nat, t: string, r: string)
    requires k <= |s| && t == s[k..] && |r| <= |t| && r == t[..|r|]
    ensures OccursAt(s, r, k) && s[k + |r|..] == t[|r|..]
  {
    Split(s, k);
    Split(t, |r|);
    InfixBetween(s, s[..k], r, t[|r|..]);
  }

  lemma Split(s: string, k: nat)
    requires k <= |s|
    ensures s == s[..k] + s[k..]
  {
  }

  /** In `front + r + back`, `r` occurs right after `front`, with `front` before it
      and `back` after it. */
  lemma InfixBetween(s: string, front: string, r: string, back: string)
    requires s == front + (r + back)
    ensures OccursAt(s, r, |front|) && s[..|front|] == front && s[|front| + |r|..] == back
  {
  }

  /** What `TrimStart` drops is whitespace. */
  lemma BlankBefore(s: string, k: nat)
    requires k <= |s| && forall i :: 0 <= i < k ==> IsSpace(s[i])
    ensures IsBlank(s[..k])
  {
    forall i | 0 <= i < k ensures IsSpace(s[..k][i]) {
      assert s[..k][i] == s[i];
    }
  }

  /** What `TrimEnd` drops is whitespace. */
  lemma BlankFrom(t: string, m: nat)
    requires m <= |t| && forall i :: m <= i < |t| ==> IsSpace(t[i])
    ensures IsBlank(t[m..])
  {
    forall i | 0 <= i < |t| - m ensures IsSpace(t[m..][i]) {
      assert t[m..][i] == t[m + i];
    }
  }

  /** A string with no whitespace at either end is its own `strip()`. */
  lemma StripOfStripped(s: string)
    requires s == [] || (!IsSpace(s[0]) && !IsSpace(s[|s| - 1]))
    ensures Strip(s) == s
  {
  }

  /** Python's `lower()` on one character; only ASCII letters are folded. */
  function LowerChar(c: char): char
  {
    if 'A' <= c <= 'Z' then (c as int + 32) as char else c
  }

  function Lower(s: string): (r: string)
    ensures |r| == |s|
    ensures forall i :: 0 <= i < |s| ==> r[i] == LowerChar(s[i])
  {
    seq(|s|, i requires 0 <= i < |s| => LowerChar(s[i]))
  }

  /** The string has no upper-case ASCII letter, so `lower()` leaves it alone. */
  predicate IsLower(s: string)
  {
    forall i :: 0 <= i < |s| ==> !('A' <= s[i] <= 'Z')
  }

  /** Python's `s.endswith(suffix)`. */
  predicate EndsWith(s: string, suffix: string)
  {
    |suffix| <= |s| && s[|s| - |suffix|..] == suffix
  }

  /** `pat` occurs in `s` starting at index `i`. */
  predicate OccursAt(s: string, pat: string, i: int)
  {
    0 <= i && i + |pat| <= |s| && s[i..i + |pat|] == pat
  }

  /** Python's `s.replace(pat, rep)`: every non-overlapping occurrence of a
      non-empty `pat`, scanning left to right, is replaced by `rep`. */
  function ReplaceAll(s: string, pat: string, rep: string): string
    requires pat != []
    decreases |s|
  {
    if |s| < |pat| then s
    else if s[..|pat|] == pat then rep + ReplaceAll(s[|pat|..], pat, rep)
    else [s[0]] + ReplaceAll(s[1..], pat, rep)
  }

  /** When `pat` occurs in `base + pat` only at the very end, `replace` rewrites that
      one occurrence and nothing else. */
  lemma {:induction false} ReplaceAllFinal(base: string, pat: string, rep: string)
    requires pat != []
    requires forall k :: 0 <= k < |base| ==> !OccursAt(base + pat, pat, k)
    ensures ReplaceAll(base + pat, pat, rep) == base + rep
    decreases |base|
  {
    var s := base + pat;
    if base == [] {
      assert s == pat;
      assert s[|pat|..] == [];
    } else {
      assert !OccursAt(s, pat, 0);
      assert s[1..] == base[1..] + pat;
      forall k | 0 <= k < |base[1..]|
        ensures !OccursAt(base[1..] + pat, pat, k)
      {
        assert !OccursAt(s, pat, k + 1);
        assert s[k + 1..k + 1 + |pat|] == (base[1..] + pat)[k..k + |pat|];
      }
      ReplaceAllFinal(base[1..], pat, rep);
      assert [s[0]] + (base[1..] + rep) == base + rep;
    }
  }

  /** A replacement at least as long as the pattern never shortens the string, and
      one strictly longer lengthens every string the pattern occurs in. */
  lemma {:induction false} ReplaceAllLonger(s: string, pat: string, rep: string, k: int)
    requires pat != [] && |rep| >= |pat|
    ensures |ReplaceAll(s, pat, rep)| >= |s|
    ensures OccursAt(s, pat, k) && |rep| > |pat| ==> |ReplaceAll(s, pat, rep)| > |s|
    decreases |s|
  {
    if |s| < |pat| {
    } else if s[..|pat|] == pat {
      ReplaceAllLonger(s[|pat|..], pat, rep, k);
    } else {
      if OccursAt(s, pat, k) {
        assert k != 0;
        assert s[1..][k - 1..k - 1 + |pat|] == s[k..k + |pat|];
      }
      ReplaceAllLonger(s[1..], pat, rep, k - 1);
    }
  }

  /** A string ending in `pat` is changed by replacing `pat` with something longer. */
  lemma ReplaceAllChanges(s: string, pat: string, rep: string)
    requires pat != [] && |rep| > |pat| && EndsWith(s, pat)
    ensures ReplaceAll(s, pat, rep) != s
  {
    assert OccursAt(s, pat, |s| - |pat|);
    ReplaceAllLonger(s, pat, rep, |s| - |pat|);
  }

  function DigitChar(d: nat): char
    requires d < 10
  {
    ('0' as int + d) as char
  }

  function NatToString(n: nat): (r: string)
    ensures |r| > 0
    ensures forall i :: 0 <= i < |r| ==> '0' <= r[i] <= '9'
    decreases n
  {
    if n < 10 then [DigitChar(n)] else NatToString(n / 10) + [DigitChar(n % 10)]
  }

  /** Python's `str(n)` for an int. */
  function IntToString(n: int): (r: string)
    ensures |r| > 0 && !IsBlank(r)
  {
    var r := if n < 0 then "-" + NatToString(-n) else NatToString(n);
    assert !IsSpace(r[|r| - 1]);
    r
  }
}
