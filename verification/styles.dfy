/**
 * Colour and shape selection from a node's style string. The renderer
 * decides both by substring tests (`String.prototype.includes`), the colours
 * by an ordered cascade with a default pair.
 */
module Styles {
  import opened Diagram

  /** `s.includes(part)`: `part` occurs somewhere in `s`. */
  function Contains(s: string, part: string): (r: bool)
    ensures r ==> |part| <= |s|
    ensures part == [] ==> r
    decreases |s|
  {
    if |s| < |part| then false
    else if s[..|part|] == part then true
    else Contains(s[1..], part)
  }

  ghost predicate OccursAt(s: string, part: string, i: int)
  {
    0 <= i && i + |part| <= |s| && s[i..i + |part|] == part
  }

  /** `Contains` is substring search: it holds exactly when `part` occurs at some index of `s`. */
  lemma {:induction false} ContainsIff(s: string, part: string)
    ensures Contains(s, part) <==> exists i :: OccursAt(s, part, i)
    decreases |s|
  {
    if |s| < |part| {
    } else if s[..|part|] == part {
      assert OccursAt(s, part, 0);
    } else {
      ContainsIff(s[1..], part);
      if Contains(s[1..], part) {
        var i :| OccursAt(s[1..], part, i);
        assert s[1..][i..i + |part|] == s[i + 1..i + 1 + |part|];
        assert OccursAt(s, part, i + 1);
      }
      if exists i :: OccursAt(s, part, i) {
        var i :| OccursAt(s, part, i);
        assert i != 0;
        assert s[1..][i - 1..i - 1 + |part|] == s[i..i + |part|];
        assert OccursAt(s[1..], part, i - 1);
      }
    }
  }

  /** A fill colour and a stroke colour. */
  datatype Palette = Palette(fill: string, stroke: string)

  const DefaultPalette := Palette("#e3f2fd", "#1976d2")
  const PresentationPalette := Palette("#dae8fc", "#6c8ebf")
  const DecisionPalette := Palette("#fff2cc", "#d6b656")
  const PathwayPalette := Palette("#d5e8d4", "#82b366")
  const ClinicalPalette := Palette("#f8cecc", "#b85450")
  const OutcomePalette := Palette("#e1d5e7", "#9673a6")

  /** The renderer's colour cascade: a missing style keeps the default pair. */
  function Colours(style: Option<string>): (p: Palette)
    ensures style.None? ==> p == DefaultPalette
    ensures IsDecision(style) ==> p == DecisionPalette || p == PresentationPalette
    ensures style.Some? && Contains(style.value, "presentation") ==> p == PresentationPalette
  {
    match style
    case None => DefaultPalette
    case Some(s) =>
      if Contains(s, "presentation") then PresentationPalette
      else if Contains(s, "decision") then DecisionPalette
      else if Contains(s, "pathway") then PathwayPalette
      else if Contains(s, "diagnostic") || Contains(s, "treatment") then ClinicalPalette
      else if Contains(s, "outcome") then OutcomePalette
      else DefaultPalette
  }

  /** The renderer draws a diamond for this style, a rounded rectangle otherwise. */
  predicate IsDecision(style: Option<string>)
  {
    style.Some? && Contains(style.value, "decision")
  }

  // ---------------------------------------------------------------------------
  // A reference definition of the cascade: an ordered table of keyword rules,
  // the first rule one of whose keywords the style contains wins.
  // ---------------------------------------------------------------------------

  datatype Rule = Rule(keywords: seq<string>, palette: Palette)

  const ColourRules: seq<Rule> := [
    Rule(["presentation"], PresentationPalette),
    Rule(["decision"], DecisionPalette),
    Rule(["pathway"], PathwayPalette),
    Rule(["diagnostic", "treatment"], ClinicalPalette),
    Rule(["outcome"], OutcomePalette)
  ]

  predicate Matches(rule: Rule, s: string)
  {
    exists k :: 0 <= k < |rule.keywords| && Contains(s, rule.keywords[k])
  }

  function FirstMatch(rules: seq<Rule>, s: string): Palette
  {
    if rules == [] then DefaultPalette
    else if Matches(rules[0], s) then rules[0].palette
    else FirstMatch(rules[1..], s)
  }

  /** `FirstMatch` yields the palette of the earliest matching rule, or the default when none matches. */
  lemma {:induction false} FirstMatchIsEarliest(rules: seq<Rule>, s: string, i: int)
    requires 0 <= i < |rules| && Matches(rules[i], s)
    requires forall j :: 0 <= j < i ==> !Matches(rules[j], s)
    ensures FirstMatch(rules, s) == rules[i].palette
  {
    if i > 0 {
      assert !Matches(rules[0], s);
      FirstMatchIsEarliest(rules[1..], s, i - 1);
    }
  }

  lemma {:induction false} FirstMatchDefault(rules: seq<Rule>, s: string)
    requires forall j :: 0 <= j < |rules| ==> !Matches(rules[j], s)
    ensures FirstMatch(rules, s) == DefaultPalette
  {
    if rules != [] {
      assert !Matches(rules[0], s);
      FirstMatchDefault(rules[1..], s);
    }
  }

  /** The cascade is the ordered rule table, with diagnostic and treatment sharing one row. */
  lemma ColoursFollowRules(style: Option<string>)
    ensures style.None? ==> Colours(style) == DefaultPalette
    ensures style.Some? ==> Colours(style) == FirstMatch(ColourRules, style.value)
  {
    if style.Some? {
      var s := style.value;
      assert ColourRules[0].keywords[0] == "presentation";
      assert ColourRules[1].keywords[0] == "decision";
      assert ColourRules[2].keywords[0] == "pathway";
      assert ColourRules[3].keywords[0] == "diagnostic";
      assert ColourRules[3].keywords[1] == "treatment";
      assert ColourRules[4].keywords[0] == "outcome";
      assert Matches(ColourRules[0], s) <==> Contains(s, "presentation");
      assert Matches(ColourRules[1], s) <==> Contains(s, "decision");
      assert Matches(ColourRules[2], s) <==> Contains(s, "pathway");
      assert Matches(ColourRules[3], s) <==> Contains(s, "diagnostic") || Contains(s, "treatment");
      assert Matches(ColourRules[4], s) <==> Contains(s, "outcome");
      if Contains(s, "presentation") {
        FirstMatchIsEarliest(ColourRules, s, 0);
      } else if Contains(s, "decision") {
        FirstMatchIsEarliest(ColourRules, s, 1);
      } else if Contains(s, "pathway") {
        FirstMatchIsEarliest(ColourRules, s, 2);
      } else if Contains(s, "diagnostic") || Contains(s, "treatment") {
        FirstMatchIsEarliest(ColourRules, s, 3);
      } else if Contains(s, "outcome") {
        FirstMatchIsEarliest(ColourRules, s, 4);
      } else {
        FirstMatchDefault(ColourRules, s);
      }
    }
  }

  // ---------------------------------------------------------------------------
  // The six node kinds of the element palette and the style string each one
  // is created with.
  // ---------------------------------------------------------------------------

  datatype StyleTag = Presentation | Decision | Pathway | Diagnostic | Treatment | Outcome

  /** The key under which the element table lists the kind. */
  function TagName(tag: StyleTag): string
  {
    match tag
    case Presentation => "presentation"
    case Decision => "decision"
    case Pathway => "pathway"
    case Diagnostic => "diagnostic"
    case Treatment => "treatment"
    case Outcome => "outcome"
  }

  /** The style string a node of that kind carries. */
  function TagStyle(tag: StyleTag): string
  {
    match tag
    case Presentation => "presentation-node"
    case Decision => "decision-node"
    case Pathway => "pathway-node"
    case Diagnostic => "diagnostic-node"
    case Treatment => "treatment-node"
    case Outcome => "outcome-node"
  }

  /** The intended colours of each kind, as an exhaustive mapping. */
  function TagPalette(tag: StyleTag): Palette
  {
    match tag
    case Presentation => PresentationPalette
    case Decision => DecisionPalette
    case Pathway => PathwayPalette
    case Diagnostic => ClinicalPalette
    case Treatment => ClinicalPalette
    case Outcome => OutcomePalette
  }

  /** The letters `a` and `b` stand side by side at `i` in `s`. */
  predicate Adjacent(s: string, i: int, a: char, b: char)
  {
    0 <= i < |s| - 1 && s[i] == a && s[i + 1] == b
  }

  /** A keyword two of whose adjacent letters (at `j`, `j + 1`) never stand side by side in `s` does not occur in it. */
  lemma AbsentByLetterPair(s: string, keyword: string, j: nat, a: char, b: char)
    requires j + 1 < |keyword| && keyword[j] == a && keyword[j + 1] == b
    requires forall i :: !Adjacent(s, i, a, b)
    ensures !Contains(s, keyword)
  {
    ContainsIff(s, keyword);
    forall i ensures !OccursAt(s, keyword, i) {
      if 0 <= i && i + |keyword| <= |s| {
        assert !Adjacent(s, i + j, a, b);
        assert s[i..i + |keyword|][j] == s[i + j];
        assert s[i..i + |keyword|][j + 1] == s[i + j + 1];
      }
    }
  }

  /** The keywords of the cascade other than `own` do not occur in `s`. */
  lemma OnlyOwnKeyword(s: string, own: StyleTag)
    requires own != Presentation ==> forall i :: !Adjacent(s, i, 'p', 'r')
    requires own != Decision ==> forall i :: !Adjacent(s, i, 'e', 'c')
    requires own != Pathway ==> forall i :: !Adjacent(s, i, 'p', 'a')
    requires own != Diagnostic ==> forall i :: !Adjacent(s, i, 'd', 'i')
    requires own != Treatment ==> forall i :: !Adjacent(s, i, 't', 'r')
    requires own != Outcome ==> forall i :: !Adjacent(s, i, 'o', 'u')
    ensures own != Presentation ==> !Contains(s, "presentation")
    ensures own != Decision ==> !Contains(s, "decision")
    ensures own != Pathway ==> !Contains(s, "pathway")
    ensures own != Diagnostic ==> !Contains(s, "diagnostic")
    ensures own != Treatment ==> !Contains(s, "treatment")
    ensures own != Outcome ==> !Contains(s, "outcome")
  {
    if own != Presentation { AbsentByLetterPair(s, "presentation", 0, 'p', 'r'); }
    if own != Decision { AbsentByLetterPair(s, "decision", 1, 'e', 'c'); }
    if own != Pathway { AbsentByLetterPair(s, "pathway", 0, 'p', 'a'); }
    if own != Diagnostic { AbsentByLetterPair(s, "diagnostic", 0, 'd', 'i'); }
    if own != Treatment { AbsentByLetterPair(s, "treatment", 0, 't', 'r'); }
    if own != Outcome { AbsentByLetterPair(s, "outcome", 0, 'o', 'u'); }
  }

  /** Only the presentation style has the letters `pr` side by side. */
  lemma LacksPresentationPair(tag: StyleTag)
    ensures tag != Presentation ==> forall i :: !Adjacent(TagStyle(tag), i, 'p', 'r')
  {
  }

  /** Only the decision style has the letters `ec` side by side. */
  lemma LacksDecisionPair(tag: StyleTag)
    ensures tag != Decision ==> forall i :: !Adjacent(TagStyle(tag), i, 'e', 'c')
  {
  }

  /** Only the pathway style has the letters `pa` side by side. */
  lemma LacksPathwayPair(tag: StyleTag)
    ensures tag != Pathway ==> forall i :: !Adjacent(TagStyle(tag), i, 'p', 'a')
  {
  }

  /** Only the diagnostic style has the letters `di` side by side. */
  lemma LacksDiagnosticPair(tag: StyleTag)
    ensures tag != Diagnostic ==> forall i :: !Adjacent(TagStyle(tag), i, 'd', 'i')
  {
  }

  /** Only the treatment style has the letters `tr` side by side. */
  lemma LacksTreatmentPair(tag: StyleTag)
    ensures tag != Treatment ==> forall i :: !Adjacent(TagStyle(tag), i, 't', 'r')
  {
  }

  /** Only the outcome style has the letters `ou` side by side. */
  lemma LacksOutcomePair(tag: StyleTag)
    ensures tag != Outcome ==> forall i :: !Adjacent(TagStyle(tag), i, 'o', 'u')
  {
  }

  /**
   * On the six style strings the palette creates, the substring cascade gives
   * each kind its own colours and draws a diamond exactly for decisions.
   */
  lemma CascadeMatchesTags(tag: StyleTag)
    ensures Colours(Some(TagStyle(tag))) == TagPalette(tag)
    ensures IsDecision(Some(TagStyle(tag))) <==> tag == Decision
  {
    var s := TagStyle(tag);
    assert s[..|TagName(tag)|] == TagName(tag);
    LacksPresentationPair(tag);
    LacksDecisionPair(tag);
    LacksPathwayPair(tag);
    LacksDiagnosticPair(tag);
    LacksTreatmentPair(tag);
    LacksOutcomePair(tag);
    OnlyOwnKeyword(s, tag);
  }

  /** A style that names no kind, such as "unknown-tag", is drawn in the default colours as a rectangle. */
  lemma UnknownStyleDefault(s: string)
    requires s == "unknown-tag"
    ensures Colours(Some(s)) == DefaultPalette
    ensures !IsDecision(Some(s))
  {
    assert forall i :: !Adjacent(s, i, 'p', 'r') && !Adjacent(s, i, 'e', 'c') && !Adjacent(s, i, 'p', 'a');
    assert forall i :: !Adjacent(s, i, 'd', 'i') && !Adjacent(s, i, 't', 'r') && !Adjacent(s, i, 'o', 'u');
    AbsentByLetterPair(s, "presentation", 0, 'p', 'r');
    AbsentByLetterPair(s, "decision", 1, 'e', 'c');
    AbsentByLetterPair(s, "pathway", 0, 'p', 'a');
    AbsentByLetterPair(s, "diagnostic", 0, 'd', 'i');
    AbsentByLetterPair(s, "treatment", 0, 't', 'r');
    AbsentByLetterPair(s, "outcome", 0, 'o', 'u');
  }
}
