/** The product-name normalizer `normalize_product_name`.

    A raw catalog or query name is lower-cased and stripped, then six regular
    expression substitutions delete quantity tokens (percentages, litres,
    grams, kilograms, piece counts and pack counts), and finally trailing
    commas and whitespace are removed and the result is stripped again.

    Every deletion pattern has the shape `\d+[.,]?\d*\s*UNIT` (or `\d+\s*UNIT`)
    where no unit letter is a digit, a space, `.` or `,`. Because of that, a
    match starting at a given position is unique, so `re.sub` is modelled as a
    deterministic left-to-right scan: `MatchLen` gives the length of the match
    at the start of a string, `Delete` removes the leftmost non-overlapping
    matches. `MatchLenExact` proves that `MatchLen` finds precisely the
    prefixes the regular expression describes. */
module Normalizer {
  import opened Text
  import opened Wrappers

  /** `\d+[.,]?\d*\s*UNIT` when `fraction` holds, `\d+\s*UNIT` otherwise;
      `unit` holds the character class of each unit letter in turn. */
  datatype UnitPattern = UnitPattern(fraction: bool, unit: seq<set<char>>)

  /** `\d+[.,]?\d*\s*%` */
  const Percent := UnitPattern(true, [{'%'}])
  /** `\d+[.,]?\d*\s*[лЛlL]` */
  const Litre := UnitPattern(true, [{'л', 'Л', 'l', 'L'}])
  /** `\d+[.,]?\d*\s*[гГgG]` */
  const Gram := UnitPattern(true, [{'г', 'Г', 'g', 'G'}])
  /** `\d+[.,]?\d*\s*[кК][гГ]` */
  const Kilogram := UnitPattern(true, [{'к', 'К'}, {'г', 'Г'}])
  /** `\d+\s*шт` */
  const Pieces := UnitPattern(false, [{'ш'}, {'т'}])
  /** `\d+\s*пак` */
  const Packs := UnitPattern(false, [{'п'}, {'а'}, {'к'}])

  /** A unit is at least one letter, and no unit letter is a digit, a space or a separator. */
  predicate WellFormed(p: UnitPattern)
  {
    |p.unit| > 0 &&
    forall k, c :: 0 <= k < |p.unit| && c in p.unit[k] ==> !IsDigit(c) && !IsSpace(c) && !IsSeparator(c)
  }

  lemma PatternsWellFormed()
    ensures WellFormed(Percent) && WellFormed(Litre) && WellFormed(Gram)
    ensures WellFormed(Kilogram) && WellFormed(Pieces) && WellFormed(Packs)
  {
    assert WellFormed(Percent) && WellFormed(Litre) && WellFormed(Gram) by {
      SingleLettersWellFormed();
    }
    assert WellFormed(Kilogram) && WellFormed(Pieces) && WellFormed(Packs) by {
      WordsWellFormed();
    }
  }

  lemma SingleLettersWellFormed()
    ensures WellFormed(Percent) && WellFormed(Litre) && WellFormed(Gram)
  {
  }

  lemma WordsWellFormed()
    ensures WellFormed(Kilogram) && WellFormed(Pieces) && WellFormed(Packs)
  {
  }

  predicate AllDigits(s: string, i: int, j: int)
    requires 0 <= i <= j <= |s|
  {
    forall k :: i <= k < j ==> IsDigit(s[k])
  }

  predicate AllSpaces(s: string, i: int, j: int)
    requires 0 <= i <= j <= |s|
  {
    forall k :: i <= k < j ==> IsSpace(s[k])
  }

  /** The end of the longest run of digits in `s` that starts at `i`. */
  function DigitsEnd(s: string, i: nat): (e: nat)
    requires i <= |s|
    ensures i <= e <= |s| && AllDigits(s, i, e)
    ensures e == |s| || !IsDigit(s[e])
    decreases |s| - i
  {
    if i < |s| && IsDigit(s[i]) then DigitsEnd(s, i + 1) else i
  }

  /** The end of the longest run of whitespace in `s` that starts at `i`. */
  function SpacesEnd(s: string, i: nat): (e: nat)
    requires i <= |s|
    ensures i <= e <= |s| && AllSpaces(s, i, e)
    ensures e == |s| || !IsSpace(s[e])
    decreases |s| - i
  {
    if i < |s| && IsSpace(s[i]) then SpacesEnd(s, i + 1) else i
  }

  /** The unit letters of `p` occur in `s` from position `i` on. */
  predicate UnitAt(p: UnitPattern, s: string, i: nat)
  {
    i + |p.unit| <= |s| && forall k :: 0 <= k < |p.unit| ==> s[i + k] in p.unit[k]
  }

  /** The length of the match of `p` at the start of `s`, found greedily. */
  function MatchLen(p: UnitPattern, s: string): (r: Option<nat>)
    requires WellFormed(p)
    ensures r.Some? ==> 0 < r.value <= |s|
  {
    if s != [] && IsDigit(s[0]) then
      var a := DigitsEnd(s, 0);
      var b := if p.fraction && a < |s| && IsSeparator(s[a]) then DigitsEnd(s, a + 1) else a;
      var c := SpacesEnd(s, b);
      if UnitAt(p, s, c) then Some(c + |p.unit|) else None
    else None
  }

  /** The pattern as a regular expression: `s[..n]` splits into a run of
      digits `s[..a]`, an optional fraction `s[a..b]`, a run of whitespace
      `s[b..c]` and the unit letters `s[c..n]`. */
  predicate Split(p: UnitPattern, s: string, n: int, a: int, b: int, c: int)
  {
    && 0 < a <= b <= c && c + |p.unit| == n <= |s|
    && AllDigits(s, 0, a)
    && (AllDigits(s, a, b) || (p.fraction && a < b && IsSeparator(s[a]) && AllDigits(s, a + 1, b)))
    && AllSpaces(s, b, c)
    && UnitAt(p, s, c)
  }

  /** The regular expression `p` matches the prefix `s[..n]`. */
  ghost predicate RegexMatchesPrefix(p: UnitPattern, s: string, n: int)
  {
    exists a, b, c :: Split(p, s, n, a, b, c)
  }

  /** `MatchLen` is the regular expression: it reports `n` exactly when the
      expression matches `s[..n]`, so any regex engine finds the same match,
      and it reports nothing when no prefix matches. */
  lemma MatchLenExact(p: UnitPattern, s: string, n: int)
    requires WellFormed(p)
    ensures MatchLen(p, s) == Some(n) <==> RegexMatchesPrefix(p, s, n)
    ensures MatchLen(p, s).None? ==> !RegexMatchesPrefix(p, s, n)
  {
    if MatchLen(p, s) == Some(n) {
      var a := DigitsEnd(s, 0);
      var b := if p.fraction && a < |s| && IsSeparator(s[a]) then DigitsEnd(s, a + 1) else a;
      var c := SpacesEnd(s, b);
      assert Split(p, s, n, a, b, c);
    }
    if RegexMatchesPrefix(p, s, n) {
      var a, b, c :| Split(p, s, n, a, b, c);
      GreedyFindsSplit(p, s, n, a, b, c);
    }
  }

  /** Any split that the regular expression allows is the one the greedy scan finds. */
  lemma GreedyFindsSplit(p: UnitPattern, s: string, n: int, a: int, b: int, c: int)
    requires WellFormed(p) && Split(p, s, n, a, b, c)
    ensures MatchLen(p, s) == Some(n)
  {
    assert s[c] in p.unit[0];
    assert !IsDigit(s[c]) && !IsSeparator(s[c]) && !IsSpace(s[c]);
    assert IsDigit(s[0]);
    if AllDigits(s, a, b) {
      DigitsEndAt(s, 0, b);
      assert DigitsEnd(s, 0) == b;
      assert !IsSeparator(s[b]);
    } else {
      DigitsEndAt(s, 0, a);
      DigitsEndAt(s, a + 1, b);
    }
    SpacesEndAt(s, b, c);
  }

  lemma {:induction false} DigitsEndAt(s: string, i: nat, e: nat)
    requires i <= e < |s| && AllDigits(s, i, e) && !IsDigit(s[e])
    ensures DigitsEnd(s, i) == e
    decreases e - i
  {
    if i < e {
      DigitsEndAt(s, i + 1, e);
    }
  }

  lemma {:induction false} SpacesEndAt(s: string, i: nat, e: nat)
    requires i <= e < |s| && AllSpaces(s, i, e) && !IsSpace(s[e])
    ensures SpacesEnd(s, i) == e
    decreases e - i
  {
    if i < e {
      SpacesEndAt(s, i + 1, e);
    }
  }

  /** `re.sub(p, '', s)`: delete the leftmost match, resume after it, and
      keep every character at which no match starts. */
  function Delete(p: UnitPattern, s: string): (r: string)
    requires WellFormed(p)
    ensures |r| <= |s|
    decreases |s|
  {
    if s == [] then []
    else
      match MatchLen(p, s)
      case Some(n) => Delete(p, s[n..])
      case None => [s[0]] + Delete(p, s[1..])
  }

  /** Every match starts with a digit, so a digit-free string is left alone. */
  lemma {:induction false} DeleteWithoutDigits(p: UnitPattern, s: string)
    requires WellFormed(p) && NoDigit(s)
    ensures Delete(p, s) == s
    decreases |s|
  {
    if s != [] {
      assert MatchLen(p, s).None?;
      DeleteWithoutDigits(p, s[1..]);
    }
  }

  /** The six deletions, in source order. */
  function DeleteQuantities(s: string): string
  {
    PatternsWellFormed();
    var s1 := Delete(Percent, s);
    var s2 := Delete(Litre, s1);
    var s3 := Delete(Gram, s2);
    var s4 := Delete(Kilogram, s3);
    var s5 := Delete(Pieces, s4);
    Delete(Packs, s5)
  }

  /** `normalize_product_name`. */
  function Normalize(name: string): (r: string)
    ensures r == [] || (!IsSpace(r[0]) && !IsSpace(r[|r| - 1]) && r[|r| - 1] != ',')
  {
    var cleaned := RStripCommaSpace(DeleteQuantities(Strip(Lower(name))));
    StripAfterCommaStrip(cleaned);
    Strip(cleaned)
  }

  /** Stripping a string that ends in neither a comma nor whitespace only
      removes leading whitespace and keeps the last character. */
  lemma StripAfterCommaStrip(s: string)
    requires s == [] || (!IsSpace(s[|s| - 1]) && s[|s| - 1] != ',')
    ensures Strip(s) == LStrip(s)
    ensures Strip(s) == [] || Strip(s)[|Strip(s)| - 1] == s[|s| - 1]
  {
    assert RStrip(s) == s;
  }

  lemma StripNoop(s: string)
    requires s == [] || (!IsSpace(s[0]) && !IsSpace(s[|s| - 1]))
    ensures Strip(s) == s
  {
    assert RStrip(s) == s;
  }

  /** A name without digits only loses case, surrounding whitespace and
      trailing commas: `name.lower().strip()` with `[,\s]+$` removed. */
  lemma NormalizeWithoutDigits(name: string)
    requires NoDigit(name)
    ensures Normalize(name) == RStripCommaSpace(Strip(Lower(name)))
  {
    var s := Strip(Lower(name));
    assert NoDigit(Lower(name));
    assert NoDigit(s) by {
      var t := RStrip(Lower(name));
      assert NoDigit(t);
    }
    PatternsWellFormed();
    DeleteWithoutDigits(Percent, s);
    DeleteWithoutDigits(Litre, s);
    DeleteWithoutDigits(Gram, s);
    DeleteWithoutDigits(Kilogram, s);
    DeleteWithoutDigits(Pieces, s);
    DeleteWithoutDigits(Packs, s);
    assert DeleteQuantities(s) == s;
    var cleaned := RStripCommaSpace(s);
    StripNoop(cleaned);
  }

  /** A pattern deletes nothing from a string that lacks its first unit letter. */
  lemma {:induction false} DeleteWithoutUnitLetter(p: UnitPattern, s: string)
    requires WellFormed(p)
    requires forall i :: 0 <= i < |s| ==> s[i] !in p.unit[0]
    ensures Delete(p, s) == s
    decreases |s|
  {
    if s != [] {
      assert MatchLen(p, s).None?;
      DeleteWithoutUnitLetter(p, s[1..]);
    }
  }

  /** Normalizing twice can remove more than normalizing once: in "2 1гл" the
      litre pass runs before the gram pass deletes "1г", which only then
      leaves the litre token "2 л". */
  lemma NormalizeNotIdempotent()
    ensures Normalize("2 1гл") == "2 л"
    ensures Normalize(Normalize("2 1гл")) == ""
  {
    FirstRound();
    SecondRound();
  }

  lemma FirstRound()
    ensures Normalize("2 1гл") == "2 л"
  {
    PatternsWellFormed();
    var s := "2 1гл";
    LowerAndStripKeep(s);
    DeleteWithoutUnitLetter(Percent, s);
    FirstRoundLitre();
    FirstRoundGram();
    var t := "2 л";
    LaterPassesKeep(t);
    assert DeleteQuantities(s) == t;
    assert RStripCommaSpace(t) == t;
    StripNoop(t);
  }

  lemma SecondRound()
    ensures Normalize("2 л") == ""
  {
    PatternsWellFormed();
    var t := "2 л";
    LowerAndStripKeep(t);
    DeleteWithoutUnitLetter(Percent, t);
    assert DigitsEnd(t, 0) == 1;
    assert SpacesEnd(t, 1) == 2;
    assert 'л' in Litre.unit[0];
    assert UnitAt(Litre, t, 2) by { assert t[2] == 'л'; }
    assert MatchLen(Litre, t) == Some(3);
    assert t[3..] == "";
    assert Delete(Litre, t) == "";
    assert DeleteQuantities(t) == "";
  }

  lemma LaterPassesKeep(t: string)
    requires t == "2 л"
    ensures WellFormed(Kilogram) && WellFormed(Pieces) && WellFormed(Packs)
    ensures Delete(Kilogram, t) == t && Delete(Pieces, t) == t && Delete(Packs, t) == t
  {
    PatternsWellFormed();
    assert t[0] == '2' && t[1] == ' ' && t[2] == 'л';
    assert forall i :: 0 <= i < |t| ==> t[i] == '2' || t[i] == ' ' || t[i] == 'л';
    assert '2' !in Kilogram.unit[0] && ' ' !in Kilogram.unit[0] && 'л' !in Kilogram.unit[0];
    DeleteWithoutUnitLetter(Kilogram, t);
    assert '2' !in Pieces.unit[0] && ' ' !in Pieces.unit[0] && 'л' !in Pieces.unit[0];
    DeleteWithoutUnitLetter(Pieces, t);
    assert '2' !in Packs.unit[0] && ' ' !in Packs.unit[0] && 'л' !in Packs.unit[0];
    DeleteWithoutUnitLetter(Packs, t);
  }

  lemma LowerAndStripKeep(s: string)
    requires s == "2 1гл" || s == "2 л"
    ensures Strip(Lower(s)) == s
  {
    assert Lower(s) == s;
    StripNoop(s);
  }

  lemma FirstRoundLitre()
    ensures WellFormed(Litre)
    ensures Delete(Litre, "2 1гл") == "2 1гл"
  {
    LitreKeepsTail();
    LitreSkipsDigit();
    KeepFirst(Litre, "2 1гл", " 1гл");
  }

  /** Where no match starts, `Delete` keeps the first character. */
  lemma KeepFirst(p: UnitPattern, s: string, rest: string)
    requires WellFormed(p) && s != [] && MatchLen(p, s) == None && s[1..] == rest
    ensures Delete(p, s) == [s[0]] + Delete(p, rest)
  {
  }

  lemma LitreSkipsDigit()
    ensures WellFormed(Litre)
    ensures MatchLen(Litre, "2 1гл") == None && MatchLen(Litre, " 1гл") == None
    ensures "2 1гл"[1..] == " 1гл" && " 1гл"[1..] == "1гл"
  {
    PatternsWellFormed();
    var s := "2 1гл";
    assert DigitsEnd(s, 0) == 1;
    assert SpacesEnd(s, 1) == 2;
    assert '1' !in Litre.unit[0];
    assert !UnitAt(Litre, s, 2) by { assert s[2] == '1'; }
  }

  lemma LitreKeepsTail()
    ensures WellFormed(Litre)
    ensures Delete(Litre, " 1гл") == " 1гл"
  {
    PatternsWellFormed();
    assert Delete(Litre, "гл") == "гл" by {
      assert MatchLen(Litre, "л") == None;
      assert Delete(Litre, "л") == "л";
      assert MatchLen(Litre, "гл") == None;
    }
    var u := "1гл";
    assert DigitsEnd(u, 0) == 1;
    assert SpacesEnd(u, 1) == 1;
    assert 'г' !in Litre.unit[0];
    assert !UnitAt(Litre, u, 1) by { assert u[1] == 'г'; }
    assert MatchLen(Litre, u) == None;
    assert Delete(Litre, u) == u;
    assert " 1гл"[1..] == u;
  }

  lemma FirstRoundGram()
    ensures WellFormed(Gram)
    ensures Delete(Gram, "2 1гл") == "2 л"
  {
    GramDeletesTail();
    GramSkipsDigit();
    KeepFirst(Gram, "2 1гл", " 1гл");
    assert [' '] + "л" == " л";
    assert ['2'] + " л" == "2 л";
  }

  lemma GramSkipsDigit()
    ensures WellFormed(Gram)
    ensures MatchLen(Gram, "2 1гл") == None && MatchLen(Gram, " 1гл") == None
    ensures "2 1гл"[1..] == " 1гл" && " 1гл"[1..] == "1гл"
  {
    PatternsWellFormed();
    var s := "2 1гл";
    assert DigitsEnd(s, 0) == 1;
    assert SpacesEnd(s, 1) == 2;
    assert '1' !in Gram.unit[0];
    assert !UnitAt(Gram, s, 2) by { assert s[2] == '1'; }
  }

  lemma GramDeletesTail()
    ensures WellFormed(Gram)
    ensures Delete(Gram, " 1гл") == " л"
  {
    PatternsWellFormed();
    var u := "1гл";
    assert DigitsEnd(u, 0) == 1;
    assert SpacesEnd(u, 1) == 1;
    assert 'г' in Gram.unit[0];
    assert UnitAt(Gram, u, 1) by { assert u[1] == 'г'; }
    assert MatchLen(Gram, u) == Some(2);
    assert u[2..] == "л";
    assert Delete(Gram, "л") == "л";
    assert Delete(Gram, u) == "л";
    assert " 1гл"[1..] == u;
  }
}
