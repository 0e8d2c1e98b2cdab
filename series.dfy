/**
 The series detector, `extract_series_from_text`: the first keyword of a
 fixed, ordered list that occurs in the page text, ignoring case, or
 `"Unknown"` when none does. The keywords contain no regular-expression
 metacharacters (the `-` in `ORGA-LINE` stands for itself outside a class),
 so `re.search` with `re.IGNORECASE` is a case-insensitive substring test.
 */
module SeriesDetector {
  import opened TextUtil

  /** `SERIES_PATTERNS`, in list order: the order is the tie-break. */
  const SERIES_PATTERNS: seq<string> := [
    "AVENTOS", "CLIP", "LEGRABOX", "TANDEMBOX", "BLUMOTION", "MOVENTO", "MODUL",
    "METABOX", "COMPACT", "MINIPRESS", "ORGA-LINE", "SERVO-DRIVE", "TIP-ON", "RESPOND"
  ]

  /** The result when no keyword occurs. */
  const UNKNOWN: string := "Unknown"

  /** `re.search(keyword, text, re.IGNORECASE)` succeeds. */
  predicate Mentions(text: string, keyword: string) {
    Occurs(Upper(keyword), Upper(text))
  }

  /** No keyword is the fallback result, so the two outcomes cannot be
      confused. */
  lemma KeywordsAreNotUnknown()
    ensures forall i :: 0 <= i < |SERIES_PATTERNS| ==> SERIES_PATTERNS[i] != UNKNOWN
  {
    forall i | 0 <= i < |SERIES_PATTERNS|
      ensures SERIES_PATTERNS[i] != UNKNOWN
    {
      assert |SERIES_PATTERNS[i]| != |UNKNOWN| || SERIES_PATTERNS[i][0] != UNKNOWN[0];
    }
  }

  /** The search ignores letter case: two texts that agree once upper-cased
      mention the same keywords. */
  lemma MentionsIgnoresCase(t: string, t': string, kw: string)
    requires |t| == |t'| && forall i :: 0 <= i < |t| ==> UpperChar(t[i]) == UpperChar(t'[i])
    ensures Mentions(t, kw) == Mentions(t', kw)
  {
    assert Upper(t) == Upper(t');
  }

  /** Index of the first keyword from `i` on that the text mentions, or
      `|keywords|` when there is none. */
  function FirstMentioned(text: string, keywords: seq<string>, i: nat): (r: nat)
    requires i <= |keywords|
    ensures i <= r <= |keywords|
    ensures forall j :: i <= j < r ==> !Mentions(text, keywords[j])
    ensures r < |keywords| ==> Mentions(text, keywords[r])
    decreases |keywords| - i
  {
    if i == |keywords| then i
    else if Mentions(text, keywords[i]) then i
    else FirstMentioned(text, keywords, i + 1)
  }

  /** `extract_series_from_text`. The result is a keyword of the list or
      `"Unknown"`; it is `"Unknown"` exactly when no keyword occurs; otherwise
      it is a keyword that occurs, and no keyword before it in the list does. */
  function DetectSeries(text: string): (r: string)
    ensures r == UNKNOWN || r in SERIES_PATTERNS
    ensures r == UNKNOWN <==> forall i :: 0 <= i < |SERIES_PATTERNS| ==> !Mentions(text, SERIES_PATTERNS[i])
    ensures r != UNKNOWN ==>
      exists i :: && 0 <= i < |SERIES_PATTERNS| && SERIES_PATTERNS[i] == r && Mentions(text, r)
                  && forall j :: 0 <= j < i ==> !Mentions(text, SERIES_PATTERNS[j])
  {
    var k := FirstMentioned(text, SERIES_PATTERNS, 0);
    KeywordsAreNotUnknown();
    if k < |SERIES_PATTERNS| then SERIES_PATTERNS[k] else UNKNOWN
  }

  /** First match, not best match: a page that mentions CLIP (and LEGRABOX,
      further down the list) but not AVENTOS is tagged CLIP. */
  lemma ClipBeatsLegrabox(text: string)
    requires Mentions(text, "CLIP") && Mentions(text, "LEGRABOX") && !Mentions(text, "AVENTOS")
    ensures DetectSeries(text) == "CLIP"
  {
    assert SERIES_PATTERNS[0] == "AVENTOS" && SERIES_PATTERNS[1] == "CLIP";
    var k := FirstMentioned(text, SERIES_PATTERNS, 0);
    assert k <= 1;
  }
}
