/** The Python `str` operations the handlers use, over `string` (`seq<char>`):
    `in` (substring), `startswith`, `split()`, `split(sep)`, `' '.join`,
    `strip(chars)`, `replace`, `isalnum`, `str(int)` and `int(str)`. */
module Text {
  import opened Results

  /** The characters Python's `str.isspace` accepts; `split()`, `strip()` and
      `int()` treat exactly these as whitespace. */
  const Whitespace: set<char> := {
    ' ', '\t', '\n', '\r', '\U{0b}', '\U{0c}', '\U{1c}', '\U{1d}', '\U{1e}', '\U{1f}',
    '\U{85}', '\U{a0}', '\U{1680}', '\U{2000}', '\U{2001}', '\U{2002}', '\U{2003}',
    '\U{2004}', '\U{2005}', '\U{2006}', '\U{2007}', '\U{2008}', '\U{2009}', '\U{200a}',
    '\U{2028}', '\U{2029}', '\U{202f}', '\U{205f}', '\U{3000}' }

  /** Membership in `Whitespace`, written as code point ranges. */
  predicate IsSpace(c: char) {
    || c == ' ' || '\t' <= c <= '\r' || '\U{1c}' <= c <= '\U{1f}' || c == '\U{85}' || c == '\U{a0}'
    || c == '\U{1680}' || '\U{2000}' <= c <= '\U{200a}' || c == '\U{2028}' || c == '\U{2029}'
    || c == '\U{202f}' || c == '\U{205f}' || c == '\U{3000}'
  }

  lemma IsSpaceIsWhitespace(c: char)
    ensures IsSpace(c) <==> c in Whitespace
  {
  }

  // ---------------------------------------------------------------------------
  // Prefixes and substrings

  /** Python's `s.startswith(p)`. */
  predicate StartsWith(s: string, p: string) {
    |p| <= |s| && s[..|p|] == p
  }

  /** Python's `needle in hay` on strings; the empty string is in every string. */
  predicate IsSubstring(needle: string, hay: string)
    decreases |hay|
  {
    StartsWith(hay, needle) || (|hay| > 0 && IsSubstring(needle, hay[1..]))
  }

  /** `needle` occurs in `hay` starting at index `i`. */
  predicate OccursAt(needle: string, hay: string, i: int) {
    0 <= i && i + |needle| <= |hay| && hay[i..i + |needle|] == needle
  }

  /** An occurrence at any index makes `needle` a substring. */
  lemma {:induction false} OccurrenceIsSubstring(needle: string, hay: string, i: int)
    requires OccursAt(needle, hay, i)
    ensures IsSubstring(needle, hay)
    decreases i
  {
    if i > 0 {
      assert hay[1..][i - 1..i - 1 + |needle|] == hay[i..i + |needle|];
      OccurrenceIsSubstring(needle, hay[1..], i - 1);
    }
  }

  /** A substring occurs at some index. */
  lemma {:induction false} SubstringOccurs(needle: string, hay: string)
    requires IsSubstring(needle, hay)
    ensures exists i :: OccursAt(needle, hay, i)
    decreases |hay|
  {
    if StartsWith(hay, needle) {
      assert OccursAt(needle, hay, 0);
    } else {
      SubstringOccurs(needle, hay[1..]);
      var j :| OccursAt(needle, hay[1..], j);
      assert hay[1..][j..j + |needle|] == hay[j + 1..j + 1 + |needle|];
      assert OccursAt(needle, hay, j + 1);
    }
  }

  /** `in` is "occurs at some index". */
  lemma SubstringIffOccurs(needle: string, hay: string)
    ensures IsSubstring(needle, hay) <==> exists i :: OccursAt(needle, hay, i)
  {
    if IsSubstring(needle, hay) {
      SubstringOccurs(needle, hay);
    }
    if exists i :: OccursAt(needle, hay, i) {
      var i :| OccursAt(needle, hay, i);
      OccurrenceIsSubstring(needle, hay, i);
    }
  }

  /** Extending the haystack on the right keeps every substring. */
  lemma SubstringOfLonger(needle: string, a: string, b: string)
    requires IsSubstring(needle, a)
    ensures IsSubstring(needle, a + b)
  {
    SubstringOccurs(needle, a);
    var i :| OccursAt(needle, a, i);
    assert (a + b)[i..i + |needle|] == a[i..i + |needle|];
    OccurrenceIsSubstring(needle, a + b, i);
  }

  /** Extending the haystack on the left keeps every substring. */
  lemma SubstringOfLongerLeft(needle: string, a: string, b: string)
    requires IsSubstring(needle, b)
    ensures IsSubstring(needle, a + b)
  {
    SubstringOccurs(needle, b);
    var i :| OccursAt(needle, b, i);
    assert (a + b)[|a| + i..|a| + i + |needle|] == b[i..i + |needle|];
    OccurrenceIsSubstring(needle, a + b, |a| + i);
  }

  /** A string that is a suffix of `s` is in `s`. */
  lemma SuffixIsSubstring(a: string, b: string)
    ensures IsSubstring(b, a + b)
  {
    assert (a + b)[|a|..|a| + |b|] == b;
    OccurrenceIsSubstring(b, a + b, |a|);
  }

  /** A middle part of a concatenation is in it. */
  lemma MiddleIsSubstring(a: string, b: string, c: string)
    ensures IsSubstring(b, a + b + c)
  {
    assert (a + b + c)[|a|..|a| + |b|] == b;
    OccurrenceIsSubstring(b, a + b + c, |a|);
  }

  /** A needle holding a character the haystack lacks is not in it. */
  lemma {:induction false} MissingCharNotSubstring(needle: string, hay: string, c: char)
    requires c in needle && c !in hay
    ensures !IsSubstring(needle, hay)
  {
    var k :| 0 <= k < |needle| && needle[k] == c;
    forall i | 0 <= i && i + |needle| <= |hay|
      ensures !OccursAt(needle, hay, i)
    {
      assert hay[i..i + |needle|][k] != needle[k];
    }
    SubstringIffOccurs(needle, hay);
  }

  // ---------------------------------------------------------------------------
  // Words: Python's `s.split()` and `' '.join(words)`

  /** A word as `split()` produces it: non-empty, no whitespace. */
  predicate IsWord(w: string) {
    |w| > 0 && forall i :: 0 <= i < |w| ==> !IsSpace(w[i])
  }

  predicate AllWords(ws: seq<string>) {
    forall i :: 0 <= i < |ws| ==> IsWord(ws[i])
  }

  /** Length of the run of non-whitespace characters that begins `s`. */
  function WordLength(s: string): (k: nat)
    ensures k <= |s|
    ensures forall i :: 0 <= i < k ==> !IsSpace(s[i])
    ensures k < |s| ==> IsSpace(s[k])
  {
    if |s| == 0 || IsSpace(s[0]) then 0 else 1 + WordLength(s[1..])
  }

  /** Python's `s.split()`: the maximal runs of non-whitespace characters, in order. */
  function Words(s: string): (ws: seq<string>)
    ensures AllWords(ws)
    decreases |s|
  {
    if |s| == 0 then []
    else if IsSpace(s[0]) then Words(s[1..])
    else
      var k := WordLength(s);
      [s[..k]] + Words(s[k..])
  }

  /** Python's `sep.join(ws)`, read from the right the way the handlers' loops build it. */
  function Join(ws: seq<string>, sep: string): string {
    if |ws| == 0 then ""
    else if |ws| == 1 then ws[0]
    else Join(ws[..|ws| - 1], sep) + sep + ws[|ws| - 1]
  }

  lemma JoinSnoc(ws: seq<string>, w: string, sep: string)
    ensures Join(ws + [w], sep) == if ws == [] then w else Join(ws, sep) + sep + w
  {
    assert (ws + [w])[..|ws|] == ws;
  }

  lemma {:induction false} JoinCons(w: string, ws: seq<string>, sep: string)
    requires ws != []
    ensures Join([w] + ws, sep) == w + sep + Join(ws, sep)
    decreases |ws|
  {
    if |ws| == 1 {
      assert ([w] + ws)[..1] == [w];
    } else {
      var init := ws[..|ws| - 1];
      assert ([w] + ws)[..|ws|] == [w] + init;
      JoinCons(w, init, sep);
    }
  }

  /** The word run of `a + t` stops where `a`'s does, or runs on into `t`. */
  lemma {:induction false} WordLengthAppend(a: string, t: string)
    ensures WordLength(a + t) == if WordLength(a) < |a| then WordLength(a) else |a| + WordLength(t)
    decreases |a|
  {
    if |a| > 0 && !IsSpace(a[0]) {
      assert (a + t)[1..] == a[1..] + t;
      WordLengthAppend(a[1..], t);
    } else if |a| == 0 {
      assert a + t == t;
    }
  }

  /** `split()` of one word is that word. */
  lemma WordsOfWord(w: string)
    requires IsWord(w)
    ensures Words(w) == [w]
  {
    var k := WordLength(w);
    assert k == |w|;
    assert w[..k] == w;
    assert w[k..] == [];
  }

  /** `(a + " " + b).split() == [a, b]` for two words. */
  lemma TwoWords(a: string, b: string)
    requires IsWord(a) && IsWord(b)
    ensures Words(a + " " + b) == [a, b]
  {
    WordsAroundSpace(a, ' ', b);
    WordsOfWord(a);
    WordsOfWord(b);
  }

  /** `(a + " " + b + " " + c).split() == [a, b, c]` for three words. */
  lemma ThreeWords(a: string, b: string, c: string)
    requires IsWord(a) && IsWord(b) && IsWord(c)
    ensures Words(a + " " + b + " " + c) == [a, b, c]
  {
    WordsAroundSpace(a + " " + b, ' ', c);
    TwoWords(a, b);
    WordsOfWord(c);
  }

  /** Splitting at a whitespace character splits the word lists: `(a + c + b).split() == a.split() + b.split()`. */
  lemma {:induction false} WordsAroundSpace(a: string, c: char, b: string)
    requires IsSpace(c)
    ensures Words(a + [c] + b) == Words(a) + Words(b)
    decreases |a|
  {
    var s := a + [c] + b;
    if |a| == 0 {
      assert s[1..] == b;
    } else if IsSpace(a[0]) {
      assert s[1..] == a[1..] + [c] + b;
      WordsAroundSpace(a[1..], c, b);
    } else {
      var ka := WordLength(a);
      WordLengthAppend(a, [c] + b);
      assert s == a + ([c] + b);
      if ka < |a| {
        assert s[..ka] == a[..ka];
        assert s[ka..] == a[ka..] + [c] + b;
        WordsAroundSpace(a[ka..], c, b);
      } else {
        assert ([c] + b)[0] == c;
        assert WordLength([c] + b) == 0;
        assert WordLength(s) == ka;
        assert s[..ka] == a;
        assert a[..ka] == a;
        assert s[ka..] == [c] + b;
        assert s[ka..][1..] == b;
        assert a[ka..] == [];
      }
    }
  }

  /** `' '.join(ws).split() == ws` when every element is a word. */
  lemma {:induction false} WordsOfJoin(ws: seq<string>)
    requires AllWords(ws)
    ensures Words(Join(ws, " ")) == ws
    decreases |ws|
  {
    if |ws| == 1 {
      WordsOfWord(ws[0]);
    } else if |ws| > 1 {
      var init := ws[..|ws| - 1];
      var last := ws[|ws| - 1];
      assert AllWords(init);
      WordsOfJoin(init);
      assert Join(ws, " ") == Join(init, " ") + [' '] + last;
      WordsAroundSpace(Join(init, " "), ' ', last);
      WordsOfWord(last);
      assert init + [last] == ws;
    }
  }

  /** Appending `" " + w` adds the word `w` after the existing words. */
  lemma AppendWord(s: string, w: string)
    requires IsWord(w)
    ensures IsSubstring(w, s + " " + w)
    ensures Words(s + " " + w) == Words(s) + [w]
  {
    assert s + " " + w == s + [' '] + w;
    assert s + " " + w == (s + " ") + w;
    SuffixIsSubstring(s + " ", w);
    WordsAroundSpace(s, ' ', w);
    WordsOfWord(w);
  }

  /** No leading or trailing whitespace, and each whitespace character is a lone `' '` between non-space characters. */
  predicate SingleSpaced(s: string) {
    && (|s| > 0 ==> !IsSpace(s[0]) && !IsSpace(s[|s| - 1]))
    && forall i :: 0 <= i < |s| && IsSpace(s[i]) ==>
         s[i] == ' ' && 0 < i < |s| - 1 && !IsSpace(s[i - 1]) && !IsSpace(s[i + 1])
  }

  /** Joining words with one space gives a single-spaced string. */
  lemma {:induction false} JoinSingleSpaced(ws: seq<string>)
    requires AllWords(ws)
    ensures SingleSpaced(Join(ws, " "))
    decreases |ws|
  {
    if |ws| == 1 {
      assert IsWord(ws[0]);
    } else if |ws| > 1 {
      var init := ws[..|ws| - 1];
      var last := ws[|ws| - 1];
      assert AllWords(init);
      assert IsWord(last);
      JoinSingleSpaced(init);
      var j := Join(init, " ");
      var s := j + " " + last;
      assert Join(ws, " ") == s;
      assert |j| > 0 by {
        assert IsWord(init[0]);
        JoinNonEmpty(init, " ");
      }
      forall i | 0 <= i < |s| && IsSpace(s[i])
        ensures s[i] == ' ' && 0 < i < |s| - 1 && !IsSpace(s[i - 1]) && !IsSpace(s[i + 1])
      {
        if i < |j| {
          assert s[i] == j[i];
          assert s[i - 1] == j[i - 1] && s[i + 1] == j[i + 1];
        } else if i > |j| {
          assert false;
        }
      }
    }
  }

  lemma {:induction false} JoinNonEmpty(ws: seq<string>, sep: string)
    requires |ws| > 0 && |ws[0]| > 0
    ensures |Join(ws, sep)| > 0
    decreases |ws|
  {
    if |ws| > 1 {
      JoinNonEmpty(ws[..|ws| - 1], sep);
    }
  }

  // ---------------------------------------------------------------------------
  // Python's `s.split(sep)` for a one-character separator

  function IndexOf(s: string, c: char): (i: nat)
    requires c in s
    ensures i < |s| && s[i] == c && c !in s[..i]
  {
    if s[0] == c then 0 else 1 + IndexOf(s[1..], c)
  }

  /** Python's `s.split(sep)`: the pieces between separators, always at least one. */
  function Split(s: string, sep: char): (parts: seq<string>)
    ensures |parts| >= 1
    ensures forall i :: 0 <= i < |parts| ==> sep !in parts[i]
    decreases |s|
  {
    if sep !in s then [s]
    else
      var i := IndexOf(s, sep);
      [s[..i]] + Split(s[i + 1..], sep)
  }

  /** `sep.join(s.split(sep)) == s`. */
  lemma {:induction false} JoinSplit(s: string, sep: char)
    ensures Join(Split(s, sep), [sep]) == s
    decreases |s|
  {
    if sep in s {
      var i := IndexOf(s, sep);
      var rest := Split(s[i + 1..], sep);
      JoinSplit(s[i + 1..], sep);
      JoinCons(s[..i], rest, [sep]);
      assert s == s[..i] + [sep] + s[i + 1..];
    }
  }

  /** Splitting `a + sep + b` where `a` holds no separator: `a` comes first, then `b`'s pieces. */
  lemma SplitAt(a: string, sep: char, b: string)
    requires sep !in a
    ensures Split(a + [sep] + b, sep) == [a] + Split(b, sep)
  {
    var s := a + [sep] + b;
    assert s[|a|] == sep;
    var i := IndexOf(s, sep);
    assert s[..|a|] == a;
    assert forall k :: 0 <= k < |a| ==> s[k] != sep;
    assert i == |a|;
    assert s[..i] == a;
    assert s[i + 1..] == b;
  }

  /** The last piece of `s.split(sep)`, that is `s.split(sep)[-1]`. */
  function LastPiece(s: string, sep: char): string {
    var parts := Split(s, sep);
    parts[|parts| - 1]
  }

  /** The last piece holds no separator and ends `s`; it is all of `s` when `s` has no separator. */
  lemma LastPieceIsSuffix(s: string, sep: char)
    ensures sep !in LastPiece(s, sep)
    ensures exists k :: 0 <= k <= |s| && s[k..] == LastPiece(s, sep)
    ensures sep !in s ==> LastPiece(s, sep) == s
  {
    var parts := Split(s, sep);
    JoinSplit(s, sep);
    var last := parts[|parts| - 1];
    if |parts| == 1 {
      assert s[0..] == last;
    } else {
      var init := parts[..|parts| - 1];
      assert Join(parts, [sep]) == Join(init, [sep]) + [sep] + last;
      var k := |Join(init, [sep])| + 1;
      assert s[k..] == last;
    }
  }

  // ---------------------------------------------------------------------------
  // Python's `s.strip(chars)`

  /** How many leading characters of `s` are in `cs`. */
  function LeadingCount(s: string, cs: set<char>): (k: nat)
    ensures k <= |s|
    ensures forall i :: 0 <= i < k ==> s[i] in cs
    ensures k < |s| ==> s[k] !in cs
  {
    if |s| > 0 && s[0] in cs then 1 + LeadingCount(s[1..], cs) else 0
  }

  /** How many trailing characters of `s` are in `cs`. */
  function TrailingCount(s: string, cs: set<char>): (k: nat)
    ensures k <= |s|
    ensures forall i :: |s| - k <= i < |s| ==> s[i] in cs
    ensures k < |s| ==> s[|s| - 1 - k] !in cs
  {
    if |s| > 0 && s[|s| - 1] in cs then 1 + TrailingCount(s[..|s| - 1], cs) else 0
  }

  /** Python's `s.strip(chars)`: the slice left after removing every leading and
      trailing character that is in `cs`. */
  function Strip(s: string, cs: set<char>): (r: string)
    ensures LeadingCount(s, cs) + |r| <= |s|
    ensures r == s[LeadingCount(s, cs)..LeadingCount(s, cs) + |r|]
    ensures |r| > 0 ==> r[0] !in cs && r[|r| - 1] !in cs
    ensures forall i :: 0 <= i < |s| && !(LeadingCount(s, cs) <= i < LeadingCount(s, cs) + |r|) ==> s[i] in cs
  {
    var k := LeadingCount(s, cs);
    var rest := s[k..];
    rest[..|rest| - TrailingCount(rest, cs)]
  }

  /** A string with nothing to strip at either end is unchanged. */
  lemma StripNothing(s: string, cs: set<char>)
    requires |s| > 0 ==> s[0] !in cs && s[|s| - 1] !in cs
    ensures Strip(s, cs) == s
  {
    assert LeadingCount(s, cs) == 0;
    assert s[0..] == s;
  }

  /** Stripping twice strips nothing more. */
  lemma StripIdempotent(s: string, cs: set<char>)
    ensures Strip(Strip(s, cs), cs) == Strip(s, cs)
  {
    StripNothing(Strip(s, cs), cs);
  }

  // ---------------------------------------------------------------------------
  // Python's `s.replace(old, new)` and `s.replace(old, new, 1)`

  /** Python's `s.replace(pat, rep)`: every non-overlapping occurrence, left to right. */
  function ReplaceAll(s: string, pat: string, rep: string): string
    requires |pat| > 0
    decreases |s|
  {
    if |s| == 0 then ""
    else if StartsWith(s, pat) then rep + ReplaceAll(s[|pat|..], pat, rep)
    else [s[0]] + ReplaceAll(s[1..], pat, rep)
  }

  /** A string without the pattern's first character has nothing to replace. */
  lemma {:induction false} ReplaceAllAbsent(s: string, pat: string, rep: string)
    requires |pat| > 0 && pat[0] !in s
    ensures ReplaceAll(s, pat, rep) == s
    decreases |s|
  {
    if |s| > 0 {
      assert !StartsWith(s, pat) by {
        assert s[0] != pat[0];
        if |pat| <= |s| {
          assert s[..|pat|][0] == s[0];
        }
      }
      assert pat[0] !in s[1..] by {
        forall j | 0 <= j < |s| - 1
          ensures s[1..][j] != pat[0]
        {
          assert s[1..][j] == s[j + 1];
        }
      }
      ReplaceAllAbsent(s[1..], pat, rep);
      assert ReplaceAll(s, pat, rep) == [s[0]] + ReplaceAll(s[1..], pat, rep);
      assert [s[0]] + s[1..] == s;
    }
  }

  /** Replacing a pattern at the start consumes the pattern first. */
  lemma ReplaceAllAtStart(pat: string, t: string, rep: string)
    requires |pat| > 0
    ensures ReplaceAll(pat + t, pat, rep) == rep + ReplaceAll(t, pat, rep)
  {
    var s := pat + t;
    assert s[..|pat|] == pat;
    assert s[|pat|..] == t;
  }

  /** Python's `s.replace(pat, rep, 1)`: only the leftmost occurrence. */
  function ReplaceFirst(s: string, pat: string, rep: string): string
    decreases |s|
  {
    if StartsWith(s, pat) then rep + s[|pat|..]
    else if |s| == 0 then s
    else [s[0]] + ReplaceFirst(s[1..], pat, rep)
  }

  // ---------------------------------------------------------------------------
  // Digits: Python's `str(n)`, `int(s)` and `s.isalnum()`

  predicate IsDigit(c: char) {
    '0' <= c <= '9'
  }

  predicate IsAsciiLetter(c: char) {
    ('a' <= c <= 'z') || ('A' <= c <= 'Z')
  }

  /** Python's `s.isalnum()` restricted to ASCII: non-empty, every character a letter or digit. */
  predicate IsAlnum(s: string) {
    |s| > 0 && forall i :: 0 <= i < |s| ==> IsDigit(s[i]) || IsAsciiLetter(s[i])
  }

  function DigitChar(d: nat): (c: char)
    requires d < 10
    ensures IsDigit(c) && c as int - '0' as int == d
  {
    (('0' as int) + d) as char
  }

  /** Python's `str(n)` for a non-negative integer: decimal, no leading zeros. */
  function NatToString(n: nat): (s: string)
    ensures |s| > 0 && forall i :: 0 <= i < |s| ==> IsDigit(s[i])
  {
    if n < 10 then [DigitChar(n)] else NatToString(n / 10) + [DigitChar(n % 10)]
  }

  /** Python's `str(i)` for any integer. */
  function IntToString(i: int): string {
    if i < 0 then "-" + NatToString(-i) else NatToString(i)
  }

  /** The digits of a Python integer literal: ASCII digits, with single
      underscores allowed only between two digits. */
  predicate IsDigitGroup(s: string) {
    && |s| > 0 && IsDigit(s[0]) && IsDigit(s[|s| - 1])
    && (forall i :: 0 <= i < |s| ==> IsDigit(s[i]) || s[i] == '_')
    && (forall i :: 0 <= i < |s| - 1 ==> !(s[i] == '_' && s[i + 1] == '_'))
  }

  /** Decimal value of digits and underscores, the underscores skipped. */
  function DigitsValue(s: string): nat
    requires forall i :: 0 <= i < |s| ==> IsDigit(s[i]) || s[i] == '_'
  {
    if |s| == 0 then 0
    else if s[|s| - 1] == '_' then DigitsValue(s[..|s| - 1])
    else
      assert IsDigit(s[|s| - 1]);
      DigitsValue(s[..|s| - 1]) * 10 + (s[|s| - 1] as int - '0' as int)
  }

  /** Python's `int(s)` on a string: `None` where Python raises `ValueError`.
      Surrounding whitespace is ignored and one leading sign is accepted. */
  function ParseInt(s: string): Option<int> {
    var t := Strip(s, Whitespace);
    if |t| > 0 && (t[0] == '+' || t[0] == '-') then
      if IsDigitGroup(t[1..]) then
        var v: int := DigitsValue(t[1..]);
        Some(if t[0] == '-' then -v else v)
      else None
    else if IsDigitGroup(t) then Some(DigitsValue(t))
    else None
  }

  lemma DigitNotSpace(c: char)
    requires IsDigit(c)
    ensures !IsSpace(c) && c !in Whitespace
  {
    IsSpaceIsWhitespace(c);
  }

  lemma {:induction false} DigitsValueOfNat(n: nat)
    ensures DigitsValue(NatToString(n)) == n
  {
    var s := NatToString(n);
    if n >= 10 {
      DigitsValueOfNat(n / 10);
      assert s[..|s| - 1] == NatToString(n / 10);
    }
  }

  /** `int(str(n)) == n`. */
  lemma ParseNatToString(n: nat)
    ensures ParseInt(NatToString(n)) == Some(n)
  {
    var s := NatToString(n);
    DigitNotSpace(s[0]);
    DigitNotSpace(s[|s| - 1]);
    StripNothing(s, Whitespace);
    assert Strip(s, Whitespace) == s;
    assert s[0] != '+' && s[0] != '-';
    assert IsDigitGroup(s);
    DigitsValueOfNat(n);
  }

  /** `int(s)` of a string without `'-'` is never negative. */
  lemma ParseIntWithoutMinus(s: string)
    requires '-' !in s
    ensures ParseInt(s).Some? ==> ParseInt(s).value >= 0
  {
    var t := Strip(s, Whitespace);
    assert |t| > 0 ==> t[0] == s[LeadingCount(s, Whitespace)];
  }
}
