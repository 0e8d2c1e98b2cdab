/**
 The header test of the component assembler, the anchored regular expression
 `^(\d+\.|[A-Z][a-zA-Z\s\-]+set)`. `HeaderRegex` states the language of the
 expression directly (there is some way to match it at the start of the line);
 `IsHeader` is a left-to-right scanner, and `IsHeaderIsRegexMatch` proves the
 two agree on every line. `\d` and `\s` are the ASCII digit and whitespace sets.
 */
module HeaderPattern {
  import opened TextUtil

  predicate IsDigit(c: char) { '0' <= c <= '9' }

  predicate IsUpperLetter(c: char) { 'A' <= c <= 'Z' }

  /** The character class `[a-zA-Z\s\-]`. */
  predicate InTitleClass(c: char) {
    'a' <= c <= 'z' || 'A' <= c <= 'Z' || IsSpace(c) || c == '-'
  }

  /** First alternative, `\d+\.`: a non-empty run of digits, then a period. */
  ghost predicate MatchesOrdinal(l: string) {
    exists k :: 1 <= k < |l| && l[k] == '.' && forall i :: 0 <= i < k ==> IsDigit(l[i])
  }

  /** The literal `set` starts at offset `j` of `l`. */
  predicate SetAt(l: string, j: nat) {
    j + 3 <= |l| && l[j..j + 3] == "set"
  }

  /** `set` starts at offset `j'`, no earlier than `from` and no earlier than
      2, and every character from `from` up to `j'` is in the class. */
  ghost predicate SetEndsRun(l: string, from: nat, j': nat) {
    from <= j' && 2 <= j' && SetAt(l, j') && forall i :: from <= i < j' ==> InTitleClass(l[i])
  }

  /** Second alternative, `[A-Z][a-zA-Z\s\-]+set`: an upper-case letter, at
      least one character of the class, then the literal `set`. */
  ghost predicate MatchesSetTitle(l: string) {
    |l| > 0 && IsUpperLetter(l[0]) && exists j :: SetEndsRun(l, 1, j)
  }

  /** The expression matches at the start of `l`. */
  ghost predicate HeaderRegex(l: string) {
    MatchesOrdinal(l) || MatchesSetTitle(l)
  }

  /** End of the maximal run of digits starting at `i`. */
  function DigitRunEnd(l: string, i: nat): (k: nat)
    requires i <= |l|
    ensures i <= k <= |l|
    ensures forall m :: i <= m < k ==> IsDigit(l[m])
    ensures k == |l| || !IsDigit(l[k])
    decreases |l| - i
  {
    if i < |l| && IsDigit(l[i]) then DigitRunEnd(l, i + 1) else i
  }

  /** Scans the class run from position `j`, looking for `set` at an offset of
      two or more. */
  predicate SetInTitleRun(l: string, j: nat)
    decreases |l| - j
  {
    if j + 3 > |l| then false
    else if 2 <= j && SetAt(l, j) then true
    else InTitleClass(l[j]) && SetInTitleRun(l, j + 1)
  }

  /** The header test as the extractor runs it on a stripped line. */
  predicate IsHeader(l: string) {
    var k := DigitRunEnd(l, 0);
    (0 < k < |l| && l[k] == '.') || (|l| > 0 && IsUpperLetter(l[0]) && SetInTitleRun(l, 1))
  }

  lemma OrdinalScan(l: string)
    ensures var k := DigitRunEnd(l, 0); (0 < k < |l| && l[k] == '.') <==> MatchesOrdinal(l)
  {
  }

  /** The scanner from `j` succeeds exactly when `set` sits at some offset
      `j' >= max(j, 2)` with the characters from `j` up to `j'` in the class. */
  lemma {:induction false} SetScan(l: string, j: nat)
    requires 1 <= j
    ensures SetInTitleRun(l, j) <==> exists j' :: SetEndsRun(l, j, j')
    decreases |l| - j
  {
    if j + 3 > |l| {
    } else if 2 <= j && SetAt(l, j) {
      assert SetEndsRun(l, j, j);
    } else {
      SetScan(l, j + 1);
      if j' :| SetEndsRun(l, j, j') {
        assert j' != j;
        assert InTitleClass(l[j]);
        assert SetEndsRun(l, j + 1, j');
      }
      if InTitleClass(l[j]) && SetInTitleRun(l, j + 1) {
        var j' :| SetEndsRun(l, j + 1, j');
        assert SetEndsRun(l, j, j');
      }
    }
  }

  /** The scanner decides exactly the regular expression's language. */
  lemma IsHeaderIsRegexMatch(l: string)
    ensures IsHeader(l) <==> HeaderRegex(l)
  {
    OrdinalScan(l);
    SetScan(l, 1);
  }

  /** `"1."` passes the header test; the assembler still skips it because it
      is shorter than three characters. */
  lemma ShortOrdinalIsHeader()
    ensures IsHeader("1.") && |"1."| < 3
  {
    assert DigitRunEnd("1.", 1) == 1;
  }
}
