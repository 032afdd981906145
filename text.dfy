/** Characters and strings as the shopping bot's Python code sees them.

    Python's `str.lower`, `str.capitalize`, `str.strip`, `str.split`, the
    substring test `a in b`, the ordering used by `sorted` and the regular
    expression classes `\d` and `\s` are modelled on `seq<char>`. Case
    mapping covers the Latin and Cyrillic alphabets, digits are the ASCII
    digits and whitespace is ASCII whitespace. */
module Text {

  /** The regex class `\d`. */
  predicate IsDigit(c: char)
  {
    '0' <= c <= '9'
  }

  /** The regex class `\s`, also the set of characters `strip()` and
      `split()` treat as whitespace. */
  predicate IsSpace(c: char)
  {
    c == ' ' || c == '\t' || c == '\n' || c == '\r' || c == '\U{000B}' || c == '\U{000C}'
  }

  /** The decimal separators the unit patterns accept: `[.,]`. */
  predicate IsSeparator(c: char)
  {
    c == '.' || c == ','
  }

  /** `str.lower` on one character: A-Z, А-Я and Ѐ-Џ map to their small letters. */
  function LowerChar(c: char): (r: char)
    ensures IsDigit(r) <==> IsDigit(c)
    ensures IsSpace(r) <==> IsSpace(c)
    ensures IsSeparator(r) <==> IsSeparator(c)
    ensures !('A' <= r <= 'Z') && !('\U{0410}' <= r <= '\U{042F}')
  {
    if 'A' <= c <= 'Z' then (c as int + 32) as char
    else if '\U{0410}' <= c <= '\U{042F}' then (c as int + 32) as char
    else if '\U{0400}' <= c <= '\U{040F}' then (c as int + 80) as char
    else c
  }

  /** `str.upper` on one character, the inverse of `LowerChar` on small letters. */
  function UpperChar(c: char): (r: char)
    ensures IsDigit(r) <==> IsDigit(c)
    ensures IsSpace(r) <==> IsSpace(c)
    ensures !('a' <= r <= 'z') && !('\U{0430}' <= r <= '\U{044F}')
  {
    if 'a' <= c <= 'z' then (c as int - 32) as char
    else if '\U{0430}' <= c <= '\U{044F}' then (c as int - 32) as char
    else if '\U{0450}' <= c <= '\U{045F}' then (c as int - 80) as char
    else c
  }

  /** `s.lower()`, character by character. */
  function Lower(s: string): (r: string)
    ensures |r| == |s|
    ensures forall i :: 0 <= i < |s| ==> r[i] == LowerChar(s[i])
  {
    seq(|s|, i requires 0 <= i < |s| => LowerChar(s[i]))
  }

  /** `s.capitalize()`: the first character in upper case, the rest in lower case. */
  function Capitalize(s: string): (r: string)
    ensures |r| == |s|
    ensures s != [] ==> r[0] == UpperChar(s[0]) && r[1..] == Lower(s[1..])
  {
    if s == [] then [] else [UpperChar(s[0])] + Lower(s[1..])
  }

  predicate NoDigit(s: string)
  {
    forall i :: 0 <= i < |s| ==> !IsDigit(s[i])
  }

  /** `s.lstrip()`: the longest suffix of `s` that does not start with whitespace. */
  function LStrip(s: string): (r: string)
    ensures |r| <= |s| && r == s[|s| - |r|..]
    ensures r == [] || !IsSpace(r[0])
    ensures forall i :: 0 <= i < |s| - |r| ==> IsSpace(s[i])
  {
    if s != [] && IsSpace(s[0]) then LStrip(s[1..]) else s
  }

  /** `s.rstrip()`: the longest prefix of `s` that does not end with whitespace. */
  function RStrip(s: string): (r: string)
    ensures |r| <= |s| && r == s[..|r|]
    ensures r == [] || !IsSpace(r[|r| - 1])
    ensures forall i :: |r| <= i < |s| ==> IsSpace(s[i])
  {
    if s != [] && IsSpace(s[|s| - 1]) then RStrip(s[..|s| - 1]) else s
  }

  /** `s.strip()`: the input with the whitespace at both ends removed. */
  function Strip(s: string): (r: string)
    ensures r == [] || (!IsSpace(r[0]) && !IsSpace(r[|r| - 1]))
  {
    LStrip(RStrip(s))
  }

  /** `strip()` keeps a contiguous block of the input and removes only
      whitespace around it. */
  lemma StripMeaning(s: string)
    ensures exists i, j :: 0 <= i <= j <= |s| && Strip(s) == s[i..j] &&
              forall k :: (0 <= k < i || j <= k < |s|) ==> IsSpace(s[k])
  {
    var t := RStrip(s);
    var r := LStrip(t);
    var i, j := |t| - |r|, |t|;
    assert r == s[i..j];
    forall k | 0 <= k < i || j <= k < |s|
      ensures IsSpace(s[k])
    {
      if k < i {
        assert s[k] == t[k];
      }
    }
  }

  /** A text with no whitespace at either end is its own `strip()`. */
  lemma StripUnpadded(t: string)
    requires t != [] && !IsSpace(t[0]) && !IsSpace(t[|t| - 1])
    ensures Strip(t) == t
  {
    assert RStrip(t) == t;
  }

  /** Whitespace around a text that neither starts nor ends with whitespace
      is exactly what `strip()` removes. */
  lemma StripPadded(pre: string, x: string, post: string)
    requires x != [] && !IsSpace(x[0]) && !IsSpace(x[|x| - 1])
    requires forall i :: 0 <= i < |pre| ==> IsSpace(pre[i])
    requires forall i :: 0 <= i < |post| ==> IsSpace(post[i])
    ensures Strip(pre + x + post) == x
  {
    var s := pre + x + post;
    var r := RStrip(s);
    assert s[|pre| + |x| - 1] == x[|x| - 1];
    assert |r| == |pre| + |x|;
    assert r == pre + x;
    var l := LStrip(r);
    assert r[|pre|] == x[0];
    assert |l| == |x|;
  }

  /** `re.sub(r'[,\s]+$', '', s)`: the longest prefix of `s` that does not
      end with a comma or whitespace. */
  function RStripCommaSpace(s: string): (r: string)
    ensures |r| <= |s| && r == s[..|r|]
    ensures r == [] || (!IsSpace(r[|r| - 1]) && r[|r| - 1] != ',')
    ensures forall i :: |r| <= i < |s| ==> IsSpace(s[i]) || s[i] == ','
  {
    if s != [] && (IsSpace(s[|s| - 1]) || s[|s| - 1] == ',') then RStripCommaSpace(s[..|s| - 1]) else s
  }

  predicate IsPrefix(a: string, b: string)
  {
    |a| <= |b| && b[..|a|] == a
  }

  /** Python's `a in b` on strings: `a` occurs in `b` as a contiguous block. */
  predicate IsSubstring(a: string, b: string)
    decreases |b|
  {
    IsPrefix(a, b) || (|a| < |b| && IsSubstring(a, b[1..]))
  }

  /** The substring test agrees with its definition by position. */
  lemma {:induction false} SubstringAt(a: string, b: string)
    ensures IsSubstring(a, b) <==> exists i :: 0 <= i <= |b| - |a| && IsPrefix(a, b[i..])
    decreases |b|
  {
    if IsSubstring(a, b) {
      if !IsPrefix(a, b) {
        SubstringAt(a, b[1..]);
        var i :| 0 <= i <= |b| - 1 - |a| && IsPrefix(a, b[1..][i..]);
        assert b[1..][i..] == b[i + 1..];
      } else {
        assert b[0..] == b;
      }
    }
    if exists i :: 0 <= i <= |b| - |a| && IsPrefix(a, b[i..]) {
      var i :| 0 <= i <= |b| - |a| && IsPrefix(a, b[i..]);
      if i == 0 {
        assert b[0..] == b;
      } else {
        assert b[1..][i - 1..] == b[i..];
        SubstringAt(a, b[1..]);
      }
    }
  }

  /** The longest prefix of `s` without whitespace. */
  function TakeWord(s: string): (r: string)
    ensures |r| <= |s| && r == s[..|r|]
    ensures forall i :: 0 <= i < |r| ==> !IsSpace(r[i])
    ensures |r| < |s| ==> IsSpace(s[|r|])
  {
    if s != [] && !IsSpace(s[0]) then [s[0]] + TakeWord(s[1..]) else []
  }

  /** A non-empty run of non-whitespace characters. */
  predicate IsWord(w: string)
  {
    w != [] && forall i :: 0 <= i < |w| ==> !IsSpace(w[i])
  }

  /** `s.split()`: the maximal runs of non-whitespace characters, in order. */
  function Words(s: string): (r: seq<string>)
    ensures forall k :: 0 <= k < |r| ==> IsWord(r[k])
    decreases |s|
  {
    var t := LStrip(s);
    if t == [] then []
    else
      var w := TakeWord(t);
      assert IsWord(w) by { assert !IsSpace(t[0]); }
      [w] + Words(t[|w|..])
  }

  /** The characters of `s` that are not whitespace, in order. */
  function NonSpace(s: string): (r: string)
    ensures |r| <= |s|
  {
    if s == [] then [] else (if IsSpace(s[0]) then [] else [s[0]]) + NonSpace(s[1..])
  }

  /** The pieces of a split, joined without separators. */
  function Joined(ws: seq<string>): string
  {
    if ws == [] then [] else ws[0] + Joined(ws[1..])
  }

  lemma {:induction false} NonSpaceAppend(a: string, b: string)
    ensures NonSpace(a + b) == NonSpace(a) + NonSpace(b)
    decreases |a|
  {
    if a == [] {
      assert a + b == b;
    } else {
      assert (a + b)[0] == a[0] && (a + b)[1..] == a[1..] + b;
      NonSpaceAppend(a[1..], b);
    }
  }

  lemma {:induction false} NonSpaceOfSpaces(s: string)
    requires forall k :: 0 <= k < |s| ==> IsSpace(s[k])
    ensures NonSpace(s) == []
    decreases |s|
  {
    if s != [] {
      NonSpaceOfSpaces(s[1..]);
    }
  }

  lemma {:induction false} NonSpaceOfWord(w: string)
    requires forall k :: 0 <= k < |w| ==> !IsSpace(w[k])
    ensures NonSpace(w) == w
    decreases |w|
  {
    if w != [] {
      NonSpaceOfWord(w[1..]);
    }
  }

  /** `split()` finds nothing exactly in a text made of whitespace only. */
  lemma WordsEmpty(s: string)
    ensures Words(s) == [] <==> forall k :: 0 <= k < |s| ==> IsSpace(s[k])
  {
    var t := LStrip(s);
    if t != [] {
      assert s[|s| - |t|] == t[0];
    }
  }

  /** Every character of `s` that is not whitespace lies in exactly one
      piece of `split()`, and the pieces keep the order of the text. */
  lemma {:induction false} WordsCoverText(s: string)
    ensures Joined(Words(s)) == NonSpace(s)
    decreases |s|
  {
    if LStrip(s) == [] {
      NonSpaceOfLStrip(s);
    } else {
      var t := LStrip(s);
      var w := TakeWord(t);
      var rest := t[|w|..];
      WordsStep(s);
      WordsCoverText(rest);
      assert Joined([w] + Words(rest)) == w + Joined(Words(rest)) by {
        assert ([w] + Words(rest))[1..] == Words(rest);
      }
    }
  }

  /** One step of `split()`: the first word, and what it leaves. */
  lemma WordsStep(s: string)
    requires LStrip(s) != []
    ensures var t := LStrip(s); var w := TakeWord(t);
      && |t[|w|..]| < |s|
      && Words(s) == [w] + Words(t[|w|..])
      && NonSpace(s) == w + NonSpace(t[|w|..])
  {
    var t := LStrip(s);
    var w := TakeWord(t);
    var rest := t[|w|..];
    assert IsWord(w) by { assert !IsSpace(t[0]); }
    assert NonSpace(t) == w + NonSpace(rest) by {
      assert t == w + rest;
      NonSpaceAppend(w, rest);
      NonSpaceOfWord(w);
    }
    NonSpaceOfLStrip(s);
  }

  /** The whitespace `lstrip()` removes holds no other character. */
  lemma NonSpaceOfLStrip(s: string)
    ensures NonSpace(s) == NonSpace(LStrip(s))
  {
    var t := LStrip(s);
    var skipped := s[..|s| - |t|];
    assert s == skipped + t;
    NonSpaceAppend(skipped, t);
    NonSpaceOfSpaces(skipped);
  }

  /** A non-empty string without whitespace splits into itself alone. */
  lemma {:induction false} WordsOfSingleWord(s: string)
    requires s != [] && forall i :: 0 <= i < |s| ==> !IsSpace(s[i])
    ensures Words(s) == [s]
  {
    assert LStrip(s) == s;
    TakeWordWhole(s);
    assert s[|s|..] == [];
  }

  lemma {:induction false} TakeWordWhole(s: string)
    requires forall i :: 0 <= i < |s| ==> !IsSpace(s[i])
    ensures TakeWord(s) == s
  {
    if s != [] {
      TakeWordWhole(s[1..]);
    }
  }

  /** The order of Python's `sorted` on strings: lexicographic by code point. */
  predicate LexLe(a: string, b: string)
  {
    a == [] || (b != [] && (a[0] < b[0] || (a[0] == b[0] && LexLe(a[1..], b[1..]))))
  }

  lemma {:induction false} LexLeRefl(a: string)
    ensures LexLe(a, a)
  {
    if a != [] {
      LexLeRefl(a[1..]);
    }
  }

  lemma {:induction false} LexLeTotal(a: string, b: string)
    ensures LexLe(a, b) || LexLe(b, a)
  {
    if a != [] && b != [] && a[0] == b[0] {
      LexLeTotal(a[1..], b[1..]);
    }
  }

  lemma {:induction false} LexLeAntisymmetric(a: string, b: string)
    requires LexLe(a, b) && LexLe(b, a)
    ensures a == b
  {
    if a != [] && b != [] {
      LexLeAntisymmetric(a[1..], b[1..]);
      assert a == [a[0]] + a[1..] && b == [b[0]] + b[1..];
    }
  }

  lemma {:induction false} LexLeTransitive(a: string, b: string, c: string)
    requires LexLe(a, b) && LexLe(b, c)
    ensures LexLe(a, c)
  {
    if a != [] && b != [] && c != [] && a[0] == b[0] && b[0] == c[0] {
      LexLeTransitive(a[1..], b[1..], c[1..]);
    }
  }

  predicate StrictlySorted(r: seq<string>)
  {
    forall i, j :: 0 <= i < j < |r| ==> LexLe(r[i], r[j]) && r[i] != r[j]
  }

  /** Every finite non-empty set of strings has a least element. */
  lemma {:induction false} LeastExists(s: set<string>)
    requires s != {}
    ensures exists m :: m in s && IsLeast(m, s)
  {
    var x :| x in s;
    LexLeRefl(x);
    if s == {x} {
      assert IsLeast(x, s);
    } else {
      var rest := s - {x};
      LeastExists(rest);
      var m :| m in rest && IsLeast(m, rest);
      if LexLe(m, x) {
        assert IsLeast(m, s);
      } else {
        LexLeTotal(m, x);
        forall y | y in rest ensures LexLe(x, y) {
          LexLeTransitive(x, m, y);
        }
        assert IsLeast(x, s);
      }
    }
  }

  /** `m` is below every element of `s`. */
  predicate IsLeast(m: string, s: set<string>)
  {
    forall y :: y in s ==> LexLe(m, y)
  }

  /** The least string of a non-empty set. */
  function Least(s: set<string>): (m: string)
    requires s != {}
    ensures m in s && IsLeast(m, s)
  {
    LeastExists(s);
    forall a, b | LexLe(a, b) && LexLe(b, a) ensures a == b {
      LexLeAntisymmetric(a, b);
    }
    var m :| m in s && IsLeast(m, s);
    m
  }

  /** `sorted(s)` for a set of strings: its elements in increasing order. */
  function SortSet(s: set<string>): (r: seq<string>)
    ensures |r| == |s|
    ensures forall x :: x in r <==> x in s
    ensures StrictlySorted(r)
    decreases |s|
  {
    if s == {} then []
    else
      var m := Least(s);
      var rest := SortSet(s - {m});
      [m] + rest
  }
}
