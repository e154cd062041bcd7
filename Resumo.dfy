/**
 * The totals above the device table (`parse_resumo` in src/scraper.py).
 *
 * Each total is found by its own `re.search` over the raw page text for a
 * label followed by optional whitespace and a run of digits (`Label\s*(\d+)`).
 * A label is a fixed sequence of character classes; only the not-working label
 * has a class with two members (`N[aã]o`).  The leftmost position where the
 * whole pattern matches wins and the captured digits are read as an integer;
 * no match gives 0.
 */
module Resumo {
  import opened Wrappers
  import opened Text

  /** A regular-expression label: one set of accepted characters per position. */
  type Pattern = seq<set<char>>

  /** The pattern that accepts exactly the string `s`. */
  function Literal(s: string): (p: Pattern)
    ensures |p| == |s| && forall k :: 0 <= k < |s| ==> p[k] == {s[k]}
  {
    seq(|s|, k requires 0 <= k < |s| => {s[k]})
  }

  const TotalText: string := "Total de Carros:"
  const WorkingText: string := "Total de Carros Funcionando:"

  /** The not-working label in its unaccented (`Nao`) or accented (`Não`) spelling. */
  function NotWorkingText(accented: bool): string
  {
    "Total de Carros N" + [if accented then 'ã' else 'a'] + "o Funcionando:"
  }

  /** `Total de Carros:` */
  const TotalLabel: Pattern := Literal(TotalText)
  /** `Total de Carros Funcionando:` */
  const WorkingLabel: Pattern := Literal(WorkingText)
  /** `Total de Carros N[aã]o Funcionando:` */
  const NotWorkingLabel: Pattern := Literal("Total de Carros N") + [{'a', 'ã'}] + Literal("o Funcionando:")

  /** The label pattern matches the text starting at index `i`. */
  predicate LabelAt(text: string, i: int, pat: Pattern)
  {
    0 <= i && i + |pat| <= |text| && forall k :: 0 <= k < |pat| ==> text[i + k] in pat[k]
  }

  /** The end of the maximal whitespace run starting at `j` (greedy `\s*`). */
  function SkipSpaces(text: string, j: nat): (k: nat)
    requires j <= |text|
    ensures j <= k <= |text| && AllSpaces(text[j..k])
    ensures k == |text| || !IsSpace(text[k])
    decreases |text| - j
  {
    if j < |text| && IsSpace(text[j]) then SkipSpaces(text, j + 1) else j
  }

  /** The end of the maximal digit run starting at `j` (greedy `\d+`). */
  function DigitRunEnd(text: string, j: nat): (k: nat)
    requires j <= |text|
    ensures j <= k <= |text| && AllDigits(text[j..k])
    ensures k == |text| || !IsDigit(text[k])
    decreases |text| - j
  {
    if j < |text| && IsDigit(text[j]) then DigitRunEnd(text, j + 1) else j
  }

  /**
   * The whole pattern `label\s*(\d+)` matches at `i`.  Greedy `\s*` followed by
   * `\d` cannot gain by backtracking (a shorter whitespace run leaves a space
   * where the digit must be), so this is: the label, then the maximal
   * whitespace run, then a digit.
   */
  predicate MatchAt(text: string, i: int, pat: Pattern)
  {
    LabelAt(text, i, pat) && SkipSpaces(text, i + |pat|) < |text|
    && IsDigit(text[SkipSpaces(text, i + |pat|)])
  }

  /** The value of group 1 of a match at `i`: the maximal digit run after the whitespace. */
  function CaptureAt(text: string, i: int, pat: Pattern): nat
    requires MatchAt(text, i, pat)
  {
    var j := SkipSpaces(text, i + |pat|);
    DigitsValue(text[j..DigitRunEnd(text, j)])
  }

  /** `i` is where `re.search` reports its match: the leftmost matching position. */
  predicate IsLeftmostMatch(text: string, i: int, pat: Pattern)
  {
    MatchAt(text, i, pat) && forall j :: 0 <= j < i ==> !MatchAt(text, j, pat)
  }

  /** `re.search` from position `from` on: the first matching position, if any. */
  function SearchFrom(text: string, pat: Pattern, from: nat): (r: Option<nat>)
    requires from <= |text|
    ensures r.Some? ==> from <= r.value && MatchAt(text, r.value, pat)
                        && forall j :: from <= j < r.value ==> !MatchAt(text, j, pat)
    ensures r.None? ==> forall j :: from <= j ==> !MatchAt(text, j, pat)
    decreases |text| - from
  {
    if MatchAt(text, from, pat) then Some(from)
    else if from == |text| then None
    else SearchFrom(text, pat, from + 1)
  }

  /** `re.search(pattern, text)`, reporting the match position. */
  function Search(text: string, pat: Pattern): (r: Option<nat>)
    ensures r.Some? ==> IsLeftmostMatch(text, r.value, pat)
    ensures r.None? <==> forall j :: !MatchAt(text, j, pat)
  {
    SearchFrom(text, pat, 0)
  }

  /**
   * What a field of the summary must hold: 0 when the pattern matches nowhere,
   * otherwise the captured value of the leftmost match.
   */
  ghost predicate Extracts(text: string, pat: Pattern, v: nat)
  {
    || ((forall i :: !MatchAt(text, i, pat)) && v == 0)
    || (exists i :: IsLeftmostMatch(text, i, pat) && v == CaptureAt(text, i, pat))
  }

  /** One search followed by `_to_int`: the captured integer, or 0 without a match. */
  function FindLabelValue(text: string, pat: Pattern): (v: nat)
    ensures Extracts(text, pat, v)
  {
    match Search(text, pat)
    case None => 0
    case Some(i) => CaptureAt(text, i, pat)
  }

  /** At most one value satisfies `Extracts`: the leftmost match is unique. */
  lemma ExtractsUnique(text: string, pat: Pattern, v1: nat, v2: nat)
    requires Extracts(text, pat, v1) && Extracts(text, pat, v2)
    ensures v1 == v2
  {
    if exists i :: IsLeftmostMatch(text, i, pat) && v1 == CaptureAt(text, i, pat) {
      var i1 :| IsLeftmostMatch(text, i1, pat) && v1 == CaptureAt(text, i1, pat);
      var i2 :| IsLeftmostMatch(text, i2, pat) && v2 == CaptureAt(text, i2, pat);
      assert i1 == i2;
    }
  }

  datatype Resumo = Resumo(totalCarros: nat, totalFuncionando: nat, totalNaoFuncionando: nat)

  /**
   * `parse_resumo`: three independent searches over the raw HTML.  Never fails;
   * each field is fixed by its own label alone.
   */
  function ParseResumo(html: string): (r: Resumo)
    ensures Extracts(html, TotalLabel, r.totalCarros)
    ensures Extracts(html, WorkingLabel, r.totalFuncionando)
    ensures Extracts(html, NotWorkingLabel, r.totalNaoFuncionando)
  {
    Resumo(
      FindLabelValue(html, TotalLabel),
      FindLabelValue(html, WorkingLabel),
      FindLabelValue(html, NotWorkingLabel))
  }

  /** The condition under which `parse_resumo` logs its warning: some label is missing. */
  function ResumoIncomplete(html: string): (w: bool)
    ensures w <==> || (forall i :: !MatchAt(html, i, TotalLabel))
                   || (forall i :: !MatchAt(html, i, WorkingLabel))
                   || (forall i :: !MatchAt(html, i, NotWorkingLabel))
  {
    Search(html, TotalLabel).None? || Search(html, WorkingLabel).None?
    || Search(html, NotWorkingLabel).None?
  }

  /** A field whose label matches nowhere is 0, whatever the other labels do. */
  lemma MissingLabelGivesZero(html: string)
    ensures (forall i :: !MatchAt(html, i, TotalLabel)) ==> ParseResumo(html).totalCarros == 0
    ensures (forall i :: !MatchAt(html, i, WorkingLabel)) ==> ParseResumo(html).totalFuncionando == 0
    ensures (forall i :: !MatchAt(html, i, NotWorkingLabel)) ==> ParseResumo(html).totalNaoFuncionando == 0
  {
  }

  /** A literal label fits at a position exactly when its text occurs there. */
  lemma LiteralLabelAtIff(text: string, i: int, s: string)
    ensures LabelAt(text, i, Literal(s)) <==> OccursAt(text, s, i)
  {
    if LabelAt(text, i, Literal(s)) {
      forall k | 0 <= k < |s| ensures text[i..i + |s|][k] == s[k] {
        assert text[i + k] in Literal(s)[k];
      }
    }
    if OccursAt(text, s, i) {
      forall k | 0 <= k < |s| ensures text[i + k] in Literal(s)[k] {
        assert text[i + k] == text[i..i + |s|][k];
      }
    }
  }

  /**
   * A page in which a label's text (for the not-working label, either of its
   * spellings) occurs nowhere reports 0 for that field.
   */
  lemma AbsentLabelTextGivesZero(html: string)
    ensures !Contains(html, TotalText) ==> ParseResumo(html).totalCarros == 0
    ensures !Contains(html, WorkingText) ==> ParseResumo(html).totalFuncionando == 0
    ensures !Contains(html, NotWorkingText(false)) && !Contains(html, NotWorkingText(true))
            ==> ParseResumo(html).totalNaoFuncionando == 0
  {
    forall i | MatchAt(html, i, TotalLabel) ensures Contains(html, TotalText) {
      LiteralLabelAtIff(html, i, TotalText);
    }
    forall i | MatchAt(html, i, WorkingLabel) ensures Contains(html, WorkingText) {
      LiteralLabelAtIff(html, i, WorkingText);
    }
    forall i | MatchAt(html, i, NotWorkingLabel)
      ensures Contains(html, NotWorkingText(false)) || Contains(html, NotWorkingText(true))
    {
      NotWorkingSpellings(html, i);
    }
    MissingLabelGivesZero(html);
  }

  /**
   * `Total de Carros:` needs `:` right after `Carros`, so wherever it matches
   * neither longer label does, and the two longer labels exclude each other.
   */
  lemma LabelsDisjoint(text: string, i: int)
    ensures LabelAt(text, i, TotalLabel) ==> !LabelAt(text, i, WorkingLabel) && !LabelAt(text, i, NotWorkingLabel)
    ensures LabelAt(text, i, WorkingLabel) ==> !LabelAt(text, i, NotWorkingLabel)
  {
    if LabelAt(text, i, TotalLabel) {
      assert text[i + 15] in TotalLabel[15];
      assert WorkingLabel[15] == {' '};
      assert NotWorkingLabel[15] == {' '};
    }
    if LabelAt(text, i, WorkingLabel) {
      assert text[i + 16] in WorkingLabel[16];
      assert NotWorkingLabel[16] == {'N'};
    }
  }

  /** The not-working label is exactly its two spellings, `Nao` and `Não`. */
  lemma NotWorkingSpellings(text: string, i: int)
    requires 0 <= i
    ensures LabelAt(text, i, NotWorkingLabel) <==>
              (exists accented: bool :: OccursAt(text, NotWorkingText(accented), i))
  {
    var n := |NotWorkingLabel|;
    assert |NotWorkingText(true)| == n && |NotWorkingText(false)| == n;
    if LabelAt(text, i, NotWorkingLabel) {
      var accented := text[i + 17] == 'ã';
      assert NotWorkingLabel[17] == {'a', 'ã'};
      assert text[i..i + n] == NotWorkingText(accented) by {
        forall k | 0 <= k < n ensures text[i..i + n][k] == NotWorkingText(accented)[k] {
          assert text[i + k] in NotWorkingLabel[k];
        }
      }
      assert OccursAt(text, NotWorkingText(accented), i);
    }
    if exists accented: bool :: OccursAt(text, NotWorkingText(accented), i) {
      var accented: bool :| OccursAt(text, NotWorkingText(accented), i);
      forall k | 0 <= k < n ensures text[i + k] in NotWorkingLabel[k] {
        assert text[i + k] == text[i..i + n][k];
      }
    }
  }

  // Pages laid out as the monitoring page prints its totals: one line per
  // label, then whitespace, the digits and a line break.

  /** One line of totals: the label text, whitespace, the digits, a newline. */
  function Line(labelText: string, ws: string, digits: string): string
  {
    labelText + ws + digits + "\n"
  }

  lemma SkipSpacesExact(text: string, j: nat, k: nat)
    requires j <= k <= |text| && AllSpaces(text[j..k])
    requires k == |text| || !IsSpace(text[k])
    ensures SkipSpaces(text, j) == k
  {
  }

  lemma DigitRunEndExact(text: string, j: nat, k: nat)
    requires j <= k <= |text| && AllDigits(text[j..k])
    requires k == |text| || !IsDigit(text[k])
    ensures DigitRunEnd(text, j) == k
  {
  }

  /** A label followed by whitespace and digits matches, capturing exactly those digits. */
  lemma {:induction false} LineMatches(text: string, pre: string, labelText: string, pat: Pattern,
                                       ws: string, digits: string, post: string)
    requires text == pre + labelText + ws + digits + post
    requires |labelText| == |pat| && LabelAt(labelText, 0, pat)
    requires AllSpaces(ws) && AllDigits(digits) && digits != []
    requires post == [] || !IsDigit(post[0])
    ensures MatchAt(text, |pre|, pat) && CaptureAt(text, |pre|, pat) == DigitsValue(digits)
  {
    var i := |pre|;
    var j := i + |pat| + |ws|;
    var e := j + |digits|;
    assert text[i..i + |pat|] == labelText;
    forall k | 0 <= k < |pat| ensures text[i + k] in pat[k] {
      assert text[i + k] == labelText[k];
    }
    assert text[i + |pat|..j] == ws;
    assert text[j..e] == digits;
    assert e < |text| ==> text[e] == post[0];
    assert !IsSpace(text[j]) by { assert text[j] == digits[0]; }
    SkipSpacesExact(text, i + |pat|, j);
    DigitRunEndExact(text, j, e);
  }

  /** The only `T` in each label text is its first character. */
  predicate SingleLeadingT(s: string)
  {
    forall k :: 0 < k < |s| ==> s[k] != 'T'
  }

  lemma LabelTextsHaveSingleLeadingT(accented: bool)
    ensures SingleLeadingT(TotalText) && SingleLeadingT(WorkingText)
    ensures SingleLeadingT(NotWorkingText(accented))
  {
  }

  lemma {:induction false} LineHasSingleLeadingT(labelText: string, ws: string, digits: string)
    requires SingleLeadingT(labelText) && AllSpaces(ws) && AllDigits(digits)
    ensures SingleLeadingT(Line(labelText, ws, digits))
  {
    var line := Line(labelText, ws, digits);
    forall k | 0 < k < |line| ensures line[k] != 'T' {
      if k < |labelText| {
        assert line[k] == labelText[k];
      } else if k < |labelText| + |ws| {
        assert line[k] == ws[k - |labelText|];
      } else if k < |labelText| + |ws| + |digits| {
        assert line[k] == digits[k - |labelText| - |ws|];
      }
    }
  }

  lemma LiteralLabelAt(s: string)
    ensures LabelAt(s, 0, Literal(s))
  {
  }

  /** Every label pattern starts with the class `{T}`. */
  lemma {:induction false} MatchStartsWithT(text: string, i: int, pat: Pattern)
    requires pat == TotalLabel || pat == WorkingLabel || pat == NotWorkingLabel
    requires MatchAt(text, i, pat)
    ensures 0 <= i < |text| && text[i] == 'T'
  {
    assert pat[0] == {'T'};
    assert text[i + 0] in pat[0];
  }

  /** Inside a line that holds a single leading `T`, no label can match. */
  lemma {:induction false} NoMatchInsideLine(page: string, pre: string, line: string, post: string,
                                             pat: Pattern, j: int)
    requires page == pre + line + post && SingleLeadingT(line)
    requires |pre| < j < |pre| + |line|
    requires pat == TotalLabel || pat == WorkingLabel || pat == NotWorkingLabel
    ensures !MatchAt(page, j, pat)
  {
    assert page[j] == line[j - |pre|];
    if MatchAt(page, j, pat) {
      MatchStartsWithT(page, j, pat);
    }
  }

  /** A line that matches, with no match before it, fixes the extracted value. */
  lemma {:induction false} FieldFromLine(page: string, pre: string, labelText: string, pat: Pattern,
                                         ws: string, digits: string, post: string)
    requires page == pre + Line(labelText, ws, digits) + post
    requires |labelText| == |pat| && LabelAt(labelText, 0, pat)
    requires AllSpaces(ws) && AllDigits(digits) && digits != []
    requires forall j :: 0 <= j < |pre| ==> !MatchAt(page, j, pat)
    ensures Extracts(page, pat, DigitsValue(digits))
  {
    assert page == pre + labelText + ws + digits + ("\n" + post);
    LineMatches(page, pre, labelText, pat, ws, digits, "\n" + post);
    assert IsLeftmostMatch(page, |pre|, pat);
  }

  lemma LabelTextsMatchTheirPatterns(accented: bool)
    ensures LabelAt(TotalText, 0, TotalLabel) && LabelAt(WorkingText, 0, WorkingLabel)
    ensures LabelAt(NotWorkingText(accented), 0, NotWorkingLabel)
    ensures |NotWorkingText(accented)| == |NotWorkingLabel|
  {
    LiteralLabelAt(TotalText);
    LiteralLabelAt(WorkingText);
    NotWorkingSpellings(NotWorkingText(accented), 0);
    assert OccursAt(NotWorkingText(accented), NotWorkingText(accented), 0);
  }

  /** The label starting a line rules out every other label at that position. */
  lemma {:induction false} LineStartLabel(page: string, pre: string, labelText: string, pat: Pattern,
                                          ws: string, digits: string, post: string)
    requires page == pre + Line(labelText, ws, digits) + post
    requires |labelText| == |pat| && LabelAt(labelText, 0, pat)
    ensures LabelAt(page, |pre|, pat)
  {
    forall k | 0 <= k < |pat| ensures page[|pre| + k] in pat[k] {
      assert page[|pre| + k] == labelText[k];
    }
  }

  /** The overall total of a page whose first line holds it. */
  lemma {:induction false} TotalFirst(page: string, ws1: string, d1: string, post: string)
    requires AllSpaces(ws1) && AllDigits(d1) && d1 != []
    requires page == Line(TotalText, ws1, d1) + post
    ensures ParseResumo(page).totalCarros == DigitsValue(d1)
  {
    LabelTextsMatchTheirPatterns(false);
    assert page == [] + Line(TotalText, ws1, d1) + post;
    FieldFromLine(page, [], TotalText, TotalLabel, ws1, d1, post);
    ExtractsUnique(page, TotalLabel, ParseResumo(page).totalCarros, DigitsValue(d1));
  }

  /** The working total of a page whose first line holds the overall total. */
  lemma {:induction false} WorkingAfterTotal(page: string, ws1: string, d1: string, ws2: string,
                                             d2: string, post: string)
    requires AllSpaces(ws1) && AllSpaces(ws2) && AllDigits(d1) && AllDigits(d2) && d2 != []
    requires page == Line(TotalText, ws1, d1) + (Line(WorkingText, ws2, d2) + post)
    ensures ParseResumo(page).totalFuncionando == DigitsValue(d2)
  {
    var l1 := Line(TotalText, ws1, d1);
    LabelTextsHaveSingleLeadingT(false);
    LabelTextsMatchTheirPatterns(false);
    LineHasSingleLeadingT(TotalText, ws1, d1);
    assert page == [] + l1 + (Line(WorkingText, ws2, d2) + post);
    LineStartLabel(page, [], TotalText, TotalLabel, ws1, d1, Line(WorkingText, ws2, d2) + post);
    forall j | 0 <= j < |l1| ensures !MatchAt(page, j, WorkingLabel) {
      if j == 0 {
        LabelsDisjoint(page, 0);
      } else {
        NoMatchInsideLine(page, [], l1, Line(WorkingText, ws2, d2) + post, WorkingLabel, j);
      }
    }
    assert page == l1 + Line(WorkingText, ws2, d2) + post;
    FieldFromLine(page, l1, WorkingText, WorkingLabel, ws2, d2, post);
    ExtractsUnique(page, WorkingLabel, ParseResumo(page).totalFuncionando, DigitsValue(d2));
  }

  /** The not-working total of a page whose first two lines hold the other totals. */
  lemma {:induction false} NotWorkingAfterOthers(page: string, ws1: string, d1: string, ws2: string,
                                                 d2: string, ws3: string, d3: string,
                                                 accented: bool, post: string)
    requires AllSpaces(ws1) && AllSpaces(ws2) && AllSpaces(ws3)
    requires AllDigits(d1) && AllDigits(d2) && AllDigits(d3) && d3 != []
    requires page == Line(TotalText, ws1, d1) + (Line(WorkingText, ws2, d2)
                     + (Line(NotWorkingText(accented), ws3, d3) + post))
    ensures ParseResumo(page).totalNaoFuncionando == DigitsValue(d3)
  {
    var l1, l2 := Line(TotalText, ws1, d1), Line(WorkingText, ws2, d2);
    var l3 := Line(NotWorkingText(accented), ws3, d3);
    LabelTextsHaveSingleLeadingT(accented);
    LabelTextsMatchTheirPatterns(accented);
    LineHasSingleLeadingT(TotalText, ws1, d1);
    LineHasSingleLeadingT(WorkingText, ws2, d2);
    assert page == [] + l1 + (l2 + l3 + post);
    LineStartLabel(page, [], TotalText, TotalLabel, ws1, d1, l2 + l3 + post);
    assert page == l1 + l2 + (l3 + post);
    LineStartLabel(page, l1, WorkingText, WorkingLabel, ws2, d2, l3 + post);
    forall j | 0 <= j < |l1 + l2| ensures !MatchAt(page, j, NotWorkingLabel) {
      if j == 0 {
        LabelsDisjoint(page, 0);
      } else if j == |l1| {
        LabelsDisjoint(page, |l1|);
      } else if j < |l1| {
        NoMatchInsideLine(page, [], l1, l2 + l3 + post, NotWorkingLabel, j);
      } else {
        NoMatchInsideLine(page, l1, l2, l3 + post, NotWorkingLabel, j);
      }
    }
    assert page == (l1 + l2) + l3 + post;
    FieldFromLine(page, l1 + l2, NotWorkingText(accented), NotWorkingLabel, ws3, d3, post);
    ExtractsUnique(page, NotWorkingLabel, ParseResumo(page).totalNaoFuncionando, DigitsValue(d3));
  }

  /**
   * A page listing the three totals, one per line with any whitespace before
   * the number, yields exactly those numbers, whatever follows and whichever
   * spelling (`Nao` or `Não`) the third label uses.
   */
  lemma {:induction false} ThreeLinePage(ws1: string, d1: string, ws2: string, d2: string,
                                         ws3: string, d3: string, accented: bool, rest: string)
    requires AllSpaces(ws1) && AllSpaces(ws2) && AllSpaces(ws3)
    requires AllDigits(d1) && AllDigits(d2) && AllDigits(d3)
    requires d1 != [] && d2 != [] && d3 != []
    ensures var r := ParseResumo(Line(TotalText, ws1, d1) + (Line(WorkingText, ws2, d2)
                                 + (Line(NotWorkingText(accented), ws3, d3) + rest)));
            r == Resumo(DigitsValue(d1), DigitsValue(d2), DigitsValue(d3))
  {
    var l1, l2, l3 := Line(TotalText, ws1, d1), Line(WorkingText, ws2, d2),
                      Line(NotWorkingText(accented), ws3, d3);
    var page := l1 + (l2 + (l3 + rest));
    TotalFirst(page, ws1, d1, l2 + (l3 + rest));
    WorkingAfterTotal(page, ws1, d1, ws2, d2, l3 + rest);
    NotWorkingAfterOthers(page, ws1, d1, ws2, d2, ws3, d3, accented, rest);
  }

  /**
   * A page with only the working and not-working lines has no overall total:
   * `Total de Carros:` needs the colon right after `Carros`.
   */
  lemma {:induction false} OtherLabelsGiveNoTotal(ws2: string, d2: string, ws3: string, d3: string,
                                                  accented: bool)
    requires AllSpaces(ws2) && AllSpaces(ws3) && AllDigits(d2) && AllDigits(d3)
    ensures ParseResumo(Line(WorkingText, ws2, d2) + Line(NotWorkingText(accented), ws3, d3)).totalCarros == 0
  {
    var l2, l3 := Line(WorkingText, ws2, d2), Line(NotWorkingText(accented), ws3, d3);
    var page := l2 + l3;
    LabelTextsHaveSingleLeadingT(accented);
    LabelTextsMatchTheirPatterns(accented);
    LineHasSingleLeadingT(WorkingText, ws2, d2);
    LineHasSingleLeadingT(NotWorkingText(accented), ws3, d3);
    assert page == [] + l2 + l3;
    assert page == l2 + l3 + [];
    LineStartLabel(page, [], WorkingText, WorkingLabel, ws2, d2, l3);
    LineStartLabel(page, l2, NotWorkingText(accented), NotWorkingLabel, ws3, d3, []);
    forall j | 0 <= j < |page| ensures !MatchAt(page, j, TotalLabel) {
      if j == 0 {
        LabelsDisjoint(page, 0);
      } else if j == |l2| {
        LabelsDisjoint(page, |l2|);
      } else if j < |l2| {
        NoMatchInsideLine(page, [], l2, l3, TotalLabel, j);
      } else {
        NoMatchInsideLine(page, l2, l3, [], TotalLabel, j);
      }
    }
    assert forall j :: !MatchAt(page, j, TotalLabel);
  }

  /**
   * Markup between a label and its number hides the number: the search runs
   * on the raw page, and after the label and its whitespace it finds `<`
   * rather than a digit.
   */
  lemma {:induction false} MarkupBeforeNumber(ws: string, markup: string)
    requires AllSpaces(ws)
    requires markup != [] && markup[0] == '<'
    requires forall k :: 0 <= k < |markup| ==> markup[k] != 'T'
    ensures ParseResumo(TotalText + ws + markup).totalCarros == 0
  {
    var page := TotalText + ws + markup;
    var n := |TotalText|;
    LabelTextsHaveSingleLeadingT(false);
    assert TotalLabel[0] == {'T'};
    forall j | 0 <= j < |page| ensures !MatchAt(page, j, TotalLabel) {
      if j == 0 {
        assert page[n..n + |ws|] == ws;
        assert page[n + |ws|] == '<';
        SkipSpacesExact(page, n, n + |ws|);
      } else if j < n {
        assert page[j + 0] == TotalText[j];
      } else if j < n + |ws| {
        assert page[j + 0] == ws[j - n];
      } else {
        assert page[j + 0] == markup[j - n - |ws|];
      }
    }
  }
}
