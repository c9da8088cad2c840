/** String operations of Python and JavaScript that the system relies on, written
    out over `seq<char>`: whitespace trimming, case folding for ASCII file names,
    splitting and joining, substring removal and decimal formatting. */
module Text {

  /** Characters for which Python's `str.isspace()` holds (what `str.strip()` removes). */
  predicate IsPySpace(c: char) {
    || ('\t' <= c <= '\r')
    || ('\U{1C}' <= c <= ' ')
    || c == '\U{85}' || c == '\U{A0}' || c == '\U{1680}'
    || ('\U{2000}' <= c <= '\U{200A}')
    || c == '\U{2028}' || c == '\U{2029}' || c == '\U{202F}' || c == '\U{205F}' || c == '\U{3000}'
  }

  /** Characters removed by JavaScript's `String.prototype.trim()` (WhiteSpace and LineTerminator). */
  predicate IsJsSpace(c: char) {
    || ('\t' <= c <= '\r')
    || c == ' '
    || c == '\U{A0}' || c == '\U{1680}'
    || ('\U{2000}' <= c <= '\U{200A}')
    || c == '\U{2028}' || c == '\U{2029}' || c == '\U{202F}' || c == '\U{205F}' || c == '\U{3000}'
    || c == '\U{FEFF}'
  }

  /** True when every character of `s` satisfies `ws`. */
  predicate AllSpace(s: string, ws: char -> bool) {
    forall k | 0 <= k < |s| :: ws(s[k])
  }

  /** Drops leading characters satisfying `ws`. */
  function TrimStart(s: string, ws: char -> bool): (r: string)
    ensures |r| <= |s| && r == s[|s| - |r|..]
    ensures AllSpace(s[..|s| - |r|], ws)
    ensures r == [] || !ws(r[0])
    decreases |s|
  {
    if |s| > 0 && ws(s[0]) then TrimStart(s[1..], ws) else s
  }

  /** Drops trailing characters satisfying `ws`. */
  function TrimEnd(s: string, ws: char -> bool): (r: string)
    ensures |r| <= |s| && r == s[..|r|]
    ensures AllSpace(s[|r|..], ws)
    ensures r == [] || !ws(r[|r| - 1])
    decreases |s|
  {
    if |s| > 0 && ws(s[|s| - 1]) then
      var r := TrimEnd(s[..|s| - 1], ws);
      assert s[|r|..] == s[..|s| - 1][|r|..] + [s[|s| - 1]];
      r
    else s
  }

  /** Removes leading and trailing `ws` characters: the result neither starts nor ends
      with such a character, and it is empty exactly when `s` consists of such
      characters only. `TrimIsSlice` shows it is the middle of `s`. */
  function Trim(s: string, ws: char -> bool): (r: string)
    ensures |r| <= |s|
    ensures r == [] || (!ws(r[0]) && !ws(r[|r| - 1]))
    ensures r == [] <==> AllSpace(s, ws)
  {
    var t := TrimStart(s, ws);
    var r := TrimEnd(t, ws);
    assert r != [] ==> r[0] == t[0];
    assert r == [] ==> AllSpace(s, ws) by {
      if r == [] {
        assert AllSpace(t, ws) by { assert t[|r|..] == t; }
        assert s[..|s|] == s;
      }
    }
    r
  }

  /** The trimmed string is a slice `s[i..j]` with only whitespace, in the sense of `ws`,
      before `i` and from `j` on. */
  lemma TrimIsSlice(s: string, ws: char -> bool) returns (i: nat, j: nat)
    ensures i <= j <= |s|
    ensures Trim(s, ws) == s[i..j]
    ensures AllSpace(s[..i], ws) && AllSpace(s[j..], ws)
  {
    var t := TrimStart(s, ws);
    var r := TrimEnd(t, ws);
    i := |s| - |t|;
    j := i + |r|;
    SliceOfSuffix(s, t, r, ws);
  }

  /** A prefix `r` of a tail `t` of `s` is the slice of `s` starting where `t` does; when the
      rest of `t` is whitespace, so is the rest of `s`. */
  lemma SliceOfSuffix(s: string, t: string, r: string, ws: char -> bool)
    requires |t| <= |s| && t == s[|s| - |t|..]
    requires |r| <= |t| && r == t[..|r|]
    requires AllSpace(t[|r|..], ws)
    ensures r == s[|s| - |t|..|s| - |t| + |r|]
    ensures AllSpace(s[|s| - |t| + |r|..], ws)
  {
    var i := |s| - |t|;
    assert s[i + |r|..] == t[|r|..];
  }

  /** Python's `s.strip()`. */
  function PyStrip(s: string): string {
    Trim(s, IsPySpace)
  }

  /** JavaScript's `s.trim()`. */
  function JsTrim(s: string): string {
    Trim(s, IsJsSpace)
  }

  /** Trailing `ws` characters make no difference to `TrimEnd`. */
  lemma {:induction false} TrimEndAppendSpace(x: string, w: string, ws: char -> bool)
    requires AllSpace(w, ws)
    ensures TrimEnd(x + w, ws) == TrimEnd(x, ws)
    decreases |w|
  {
    if |w| > 0 {
      var s := x + w;
      assert s[|s| - 1] == w[|w| - 1];
      assert s[..|s| - 1] == x + w[..|w| - 1];
      TrimEndAppendSpace(x, w[..|w| - 1], ws);
    } else {
      assert x + w == x;
    }
  }

  /** Trailing `ws` characters survive `TrimStart` exactly when something else does. */
  lemma {:induction false} TrimStartAppendSpace(u: string, w: string, ws: char -> bool)
    requires AllSpace(w, ws)
    ensures TrimStart(u + w, ws) == (if TrimStart(u, ws) == "" then "" else TrimStart(u, ws) + w)
    decreases |u|
  {
    if |u| == 0 {
      assert u + w == w;
    } else if ws(u[0]) {
      assert (u + w)[1..] == u[1..] + w;
      TrimStartAppendSpace(u[1..], w, ws);
    }
  }

  /** Trailing `ws` characters make no difference to `Trim`. */
  lemma TrimAppendSpace(u: string, w: string, ws: char -> bool)
    requires AllSpace(w, ws)
    ensures Trim(u + w, ws) == Trim(u, ws)
  {
    TrimStartAppendSpace(u, w, ws);
    var t := TrimStart(u, ws);
    if t != "" {
      TrimEndAppendSpace(t, w, ws);
    }
  }

  /** A string that neither starts nor ends with a trimmed character is its own trim. */
  lemma TrimUnchanged(s: string, ws: char -> bool)
    requires s == [] || (!ws(s[0]) && !ws(s[|s| - 1]))
    ensures Trim(s, ws) == s
  {
  }

  /** Trimming a word followed by a separator of trimmed characters and a tail: a blank
      tail leaves the word alone, any other tail stays after the separator with its own
      trailing characters removed. */
  lemma TrimWordSpaceTail(word: string, sep: string, t: string, ws: char -> bool)
    requires word != [] && !ws(word[0]) && !ws(word[|word| - 1])
    requires AllSpace(sep, ws)
    ensures AllSpace(t, ws) ==> Trim(word + sep + t, ws) == word
    ensures !AllSpace(t, ws) ==> Trim(word + sep + t, ws) == word + sep + TrimEnd(t, ws)
  {
    if AllSpace(t, ws) {
      TrimWordBlankTail(word, sep, t, ws);
    } else {
      TrimWordTail(word, sep, t, ws);
    }
  }

  lemma TrimWordBlankTail(word: string, sep: string, t: string, ws: char -> bool)
    requires word != [] && !ws(word[0]) && !ws(word[|word| - 1])
    requires AllSpace(sep, ws) && AllSpace(t, ws)
    ensures Trim(word + sep + t, ws) == word
  {
    assert word + sep + t == word + (sep + t);
    TrimAppendSpace(word, sep + t, ws);
    TrimUnchanged(word, ws);
  }

  lemma TrimWordTail(word: string, sep: string, t: string, ws: char -> bool)
    requires word != [] && !ws(word[0])
    requires !AllSpace(t, ws)
    ensures Trim(word + sep + t, ws) == word + sep + TrimEnd(t, ws)
  {
    var u := TrimEnd(t, ws);
    var w := t[|u|..];
    assert u != [] by { assert t[0..] == t; }
    var v := word + sep + u;
    assert word + sep + t == v + w by { assert t == u + w; }
    assert v[0] == word[0] && v[|v| - 1] == u[|u| - 1];
    TrimAppendSpace(v, w, ws);
    TrimUnchanged(v, ws);
  }

  /** Trimming a narrower class of characters from the end first does not change a trim:
      `strip()` after removing trailing characters it would remove anyway. */
  lemma TrimAfterTrimEnd(s: string, narrow: char -> bool, ws: char -> bool)
    requires forall c :: narrow(c) ==> ws(c)
    ensures Trim(TrimEnd(s, narrow), ws) == Trim(s, ws)
  {
    var u := TrimEnd(s, narrow);
    var w := s[|u|..];
    assert s == u + w;
    assert AllSpace(w, ws) by {
      forall k | 0 <= k < |w| ensures ws(w[k]) { assert narrow(w[k]); }
    }
    TrimAppendSpace(u, w, ws);
  }

  /** Lower-cases one character as Python's `str.lower()` does for every character whose
      lower-case form is ASCII: the letters A-Z and the Kelvin sign. Any other character
      is kept; its true lower-case form is non-ASCII and so can never match an ASCII name. */
  function LowerChar(c: char): char {
    if 'A' <= c <= 'Z' then (c as int + 32) as char
    else if c == '\U{212A}' then 'k'
    else c
  }

  /** Python's `s.lower()` restricted as described at `LowerChar`. */
  function Lower(s: string): (r: string)
    ensures |r| == |s|
    ensures forall k | 0 <= k < |s| :: r[k] == LowerChar(s[k])
    ensures forall k | 0 <= k < |r| :: !('A' <= r[k] <= 'Z')
    ensures forall k | 0 <= k < |s| && r[k] != s[k] :: 'A' <= s[k] <= 'Z' || s[k] == '\U{212A}'
  {
    seq(|s|, k requires 0 <= k < |s| => LowerChar(s[k]))
  }

  /** Python's `s.rfind(c)`: the last index of `c` in `s`, or -1. */
  function LastIndexOf(s: string, c: char): (i: int)
    ensures -1 <= i < |s|
    ensures i >= 0 ==> s[i] == c
    ensures forall k | i < k < |s| :: s[k] != c
    decreases |s|
  {
    if |s| == 0 then -1
    else if s[|s| - 1] == c then |s| - 1
    else LastIndexOf(s[..|s| - 1], c)
  }

  /** In `p + [c] + d` with no `c` in `d`, the last `c` is the one after `p`. */
  lemma {:induction false} LastIndexAfter(p: string, c: char, d: string)
    requires c !in d
    ensures LastIndexOf(p + [c] + d, c) == |p|
    decreases |d|
  {
    var s := p + [c] + d;
    if |d| == 0 {
      assert s == p + [c];
    } else {
      assert s[|s| - 1] == d[|d| - 1];
      assert s[..|s| - 1] == p + [c] + d[..|d| - 1];
      LastIndexAfter(p, c, d[..|d| - 1]);
    }
  }

  /** Number of occurrences of `c` in `s`. */
  function CountChar(s: string, c: char): nat
    decreases |s|
  {
    if |s| == 0 then 0 else (if s[0] == c then 1 else 0) + CountChar(s[1..], c)
  }

  /** Python's `s.split(sep)` for a one-character separator: the pieces between the
      separators, one more piece than there are separators, none of them holding `sep`. */
  function Split(s: string, sep: char): (parts: seq<string>)
    ensures |parts| == CountChar(s, sep) + 1
    ensures forall k | 0 <= k < |parts| :: sep !in parts[k]
    decreases |s|
  {
    if |s| == 0 then [""]
    else
      var rest := Split(s[1..], sep);
      if s[0] == sep then [""] + rest
      else [[s[0]] + rest[0]] + rest[1..]
  }

  /** The first piece of a split is the longest separator-free prefix: it is followed by
      the separator unless it is the whole string. */
  lemma {:induction false} SplitHead(s: string, sep: char)
    ensures Split(s, sep)[0] <= s
    ensures |Split(s, sep)[0]| < |s| ==> s[|Split(s, sep)[0]|] == sep
    decreases |s|
  {
    if |s| > 0 && s[0] != sep {
      SplitHead(s[1..], sep);
      var h := Split(s[1..], sep)[0];
      assert Split(s, sep)[0] == [s[0]] + h;
      assert s == [s[0]] + s[1..];
    }
  }

  /** Python's `sep.join(parts)`. */
  function Join(parts: seq<string>, sep: string): string
    decreases |parts|
  {
    if |parts| == 0 then ""
    else if |parts| == 1 then parts[0]
    else parts[0] + sep + Join(parts[1..], sep)
  }

  /** Joining the pieces of a split with the separator gives back the original string. */
  lemma {:induction false} JoinSplit(s: string, sep: char)
    ensures Join(Split(s, sep), [sep]) == s
    decreases |s|
  {
    if |s| == 0 {
    } else {
      var rest := Split(s[1..], sep);
      JoinSplit(s[1..], sep);
      if s[0] == sep {
        assert Split(s, sep) == [""] + rest;
        assert ([""] + rest)[1..] == rest;
        assert s == [sep] + s[1..];
      } else {
        var parts := [[s[0]] + rest[0]] + rest[1..];
        assert Split(s, sep) == parts;
        if |rest| == 1 {
          assert s == [s[0]] + s[1..];
        } else {
          assert parts[1..] == rest[1..];
          assert Join(rest, [sep]) == rest[0] + [sep] + Join(rest[1..], [sep]);
          assert s == [s[0]] + s[1..];
        }
      }
    }
  }

  /** `pat` occurs in `s` starting at position `i`. */
  predicate OccursAt(s: string, pat: string, i: int) {
    0 <= i && i + |pat| <= |s| && s[i..i + |pat|] == pat
  }

  /** `pat` occurs in `s` at some position. */
  predicate Contains(s: string, pat: string) {
    exists i | 0 <= i <= |s| :: OccursAt(s, pat, i)
  }

  /** An occurrence in a prefix is an occurrence in the whole string. */
  lemma ContainsPrefix(u: string, t: string, pat: string)
    requires u <= t
    ensures Contains(u, pat) ==> Contains(t, pat)
  {
    if Contains(u, pat) {
      var i :| 0 <= i <= |u| && OccursAt(u, pat, i);
      assert t[i..i + |pat|] == u[i..i + |pat|];
      assert OccursAt(t, pat, i);
    }
  }

  /** Python's `s.replace(pat, "")`: every occurrence of `pat`, found left to right
      without overlap, is deleted. */
  function RemoveAll(s: string, pat: string): (r: string)
    requires |pat| > 0
    ensures |r| <= |s|
    decreases |s|
  {
    if |s| < |pat| then s
    else if s[..|pat|] == pat then RemoveAll(s[|pat|..], pat)
    else [s[0]] + RemoveAll(s[1..], pat)
  }

  /** A string without an occurrence of `pat` is left unchanged by `RemoveAll`. */
  lemma {:induction false} RemoveAllAbsent(s: string, pat: string)
    requires |pat| > 0
    requires !Contains(s, pat)
    ensures RemoveAll(s, pat) == s
    decreases |s|
  {
    if |s| >= |pat| {
      assert !OccursAt(s, pat, 0);
      assert !Contains(s[1..], pat) by {
        forall i | OccursAt(s[1..], pat, i) ensures false {
          assert s[1..][i..i + |pat|] == s[i + 1..i + 1 + |pat|];
          assert OccursAt(s, pat, i + 1);
        }
      }
      RemoveAllAbsent(s[1..], pat);
      assert s == [s[0]] + s[1..];
    }
  }

  /** A string holding `pat` loses at least one occurrence: the left-to-right scan reaches
      the first occurrence unless an earlier removal already happened. With
      `RemoveAllAbsent`, `RemoveAll(s, pat) == s` exactly when `pat` does not occur in `s`. */
  lemma {:induction false} RemoveAllShrinks(s: string, pat: string)
    requires |pat| > 0
    requires Contains(s, pat)
    ensures |RemoveAll(s, pat)| <= |s| - |pat|
    decreases |s|
  {
    var i :| 0 <= i <= |s| && OccursAt(s, pat, i);
    if s[..|pat|] != pat {
      assert i != 0;
      assert s[1..][i - 1..i - 1 + |pat|] == s[i..i + |pat|];
      assert OccursAt(s[1..], pat, i - 1);
      RemoveAllShrinks(s[1..], pat);
    }
  }

  /** A leading `pat` is removed and the scan continues after it. */
  lemma RemoveAllLeading(pat: string, t: string)
    requires |pat| > 0
    ensures RemoveAll(pat + t, pat) == RemoveAll(t, pat)
  {
    assert (pat + t)[..|pat|] == pat;
    assert (pat + t)[|pat|..] == t;
  }

  /** A character where no occurrence starts is kept, and the scan moves on by one: the
      removal is a single pass, so text that only forms `pat` once an occurrence has been
      cut out is not removed again. */
  lemma RemoveAllKeeps(s: string, pat: string)
    requires |pat| > 0
    requires 0 < |s| && !OccursAt(s, pat, 0)
    ensures RemoveAll(s, pat) == [s[0]] + RemoveAll(s[1..], pat)
  {
  }

  /** The character for a decimal digit. */
  function DigitChar(d: nat): char
    requires d < 10
  {
    ('0' as int + d) as char
  }

  /** True when `s` consists of ASCII decimal digits only. */
  predicate AllDigits(s: string) {
    forall k | 0 <= k < |s| :: '0' <= s[k] <= '9'
  }

  /** Python's `str(n)` / `f"{n}"` for a non-negative integer: a non-empty run of digits. */
  function NatToString(n: nat): (r: string)
    ensures |r| > 0 && AllDigits(r)
    ensures |r| > 1 ==> r[0] != '0'
    decreases n
  {
    if n < 10 then [DigitChar(n)] else NatToString(n / 10) + [DigitChar(n % 10)]
  }

  /** The value of a run of decimal digits (Python's `int(s)` on such a string). */
  function DigitsValue(s: string): nat
    requires AllDigits(s)
    decreases |s|
  {
    if |s| == 0 then 0
    else DigitsValue(s[..|s| - 1]) * 10 + (s[|s| - 1] as int - '0' as int)
  }

  /** Reading back the decimal text of `n` gives `n`. */
  lemma {:induction false} DecimalRoundTrip(n: nat)
    ensures DigitsValue(NatToString(n)) == n
    decreases n
  {
    if n >= 10 {
      var s := NatToString(n);
      assert s[..|s| - 1] == NatToString(n / 10);
      DecimalRoundTrip(n / 10);
    }
  }

  /** Distinct numbers have distinct decimal texts. */
  lemma NatToStringInjective(a: nat, b: nat)
    requires NatToString(a) == NatToString(b)
    ensures a == b
  {
    DecimalRoundTrip(a);
    DecimalRoundTrip(b);
  }

  /** `n` copies of `c` (Python's `c * n`). */
  function Repeat(c: char, n: nat): (r: string)
    ensures |r| == n
    ensures forall k | 0 <= k < n :: r[k] == c
  {
    seq(n, _ => c)
  }
}
