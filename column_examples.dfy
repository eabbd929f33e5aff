/** Worked examples of the resolver on DOLPHOT descriptions. */
module ColumnNameExamples {
  import opened Wrappers
  import opened Text
  import opened ColumnNames

  /** Rules whose alternatives are all longer than `s` change nothing. */
  lemma RulesTooLong(rules: seq<Rule>, s: string)
    requires WellFormedRules(rules)
    requires forall k, j :: 0 <= k < |rules| && 0 <= j < |rules[k].alternatives| ==> |rules[k].alternatives[j]| > |s|
    ensures ApplyRules(rules, s) == s
  {
    forall k | 0 <= k < |rules| ensures NoneOccurBelow(rules[k].alternatives, s, |s| + 1) {
      assert rules[k] in rules;
      ClearlyAbsent(rules[k].alternatives, s);
    }
    ApplyRulesAbsent(rules, s);
  }

  /** A rule whose first alternative is the whole string replaces it. */
  lemma WholeMatch(rule: Rule, s: string)
    requires NonEmptyAlternatives(rule.alternatives)
    requires |rule.alternatives| > 0 && rule.alternatives[0] == s
    ensures ApplyRule(rule, s) == rule.replacement
  {
    assert rule.alternatives[0] in rule.alternatives;
    assert OccursAt(s, rule.alternatives[0], 0) by { assert s[0..|s|] == s; }
    assert MatchIndex(rule.alternatives, s) == Some(0);
    assert s[|s|..] == [];
    assert ReplaceAll(rule.alternatives, rule.replacement, s[|s|..]) == [];
  }

  lemma FirstTwoAbsent(s: string)
    requires 'T' !in s && 'M' !in s
    ensures WellFormedRules(SingleRules[..2])
    ensures ApplyRules(SingleRules[..2], s) == s
  {
    var rules := SingleRules[..2];
    assert rules == [Rule(["Total counts", "Measured counts"], "COUNT"), Rule(["Total sky level", "Measured sky level"], "SKY")];
    forall k | 0 <= k < 2 ensures NoneOccurBelow(rules[k].alternatives, s, |s| + 1) {
      ClearlyAbsent(rules[k].alternatives, s);
    }
    ApplyRulesAbsent(rules, s);
  }

  /** The rules after the uncertainty rule leave RATERR alone. */
  lemma LaterRulesKeepRatErr()
    ensures WellFormedRules(SingleRules[3..])
    ensures ApplyRules(SingleRules[3..], "RATERR") == "RATERR"
  {
    var rest := SingleRules[3..];
    assert rest == [
      Rule(["Normalized count rate"], "RATE"),
      Rule(["Instrumental VEGAMAG magnitude"], "VEGA"),
      Rule(["Transformed UBVRI magnitude"], "TRANS"),
      Rule(["Magnitude uncertainty"], "ERR"),
      Rule(["Photometry quality flag"], "FLAG")
    ];
    forall k, j | 0 <= k < |rest| && 0 <= j < |rest[k].alternatives|
      ensures |rest[k].alternatives[j]| > |"RATERR"|
    {
      assert k == 0 || k == 1 || k == 2 || k == 3 || k == 4;
      assert j == 0;
    }
    RulesTooLong(rest, "RATERR");
  }

  lemma RatErrMatch(rule: Rule, s: string)
    requires rule == SingleRules[2] && s == "Normalized count rate uncertainty"
    ensures NonEmptyAlternatives(rule.alternatives)
    ensures ApplyRule(rule, s) == "RATERR"
  {
    assert rule == Rule([s], "RATERR");
    WholeMatch(rule, s);
  }

  lemma RatErrTail(tail: seq<Rule>, s: string)
    requires tail == SingleRules[2..] && s == "Normalized count rate uncertainty"
    ensures WellFormedRules(tail)
    ensures ApplyRules(tail, s) == "RATERR"
  {
    DefaultRulesWellFormed();
    ApplyRulesFirst(tail, s);
    assert tail[0] == SingleRules[2];
    RatErrMatch(tail[0], s);
    assert tail[1..] == SingleRules[3..];
    LaterRulesKeepRatErr();
  }

  /** The uncertainty rule comes before the plain rate rule, so the
      uncertainty column is RATERR and not "RATE uncertainty". */
  lemma RateUncertaintyIsRatErr(s: string)
    requires s == "Normalized count rate uncertainty"
    ensures WellFormedRules(SingleRules)
    ensures ApplyRules(SingleRules, s) == "RATERR"
  {
    DefaultRulesWellFormed();
    ApplySplit(SingleRules, 2, s);
    RateText(s);
    FirstTwoAbsent(s);
    RatErrTail(SingleRules[2..], s);
  }

  lemma RateText(s: string)
    requires s == "Normalized count rate uncertainty"
    ensures 'T' !in s && 'M' !in s
  {
  }

  /** Applying a list of rules is applying its first `k` rules, then the rest. */
  lemma ApplySplit(rules: seq<Rule>, k: nat, s: string)
    requires WellFormedRules(rules) && k <= |rules|
    ensures WellFormedRules(rules[..k]) && WellFormedRules(rules[k..])
    ensures ApplyRules(rules, s) == ApplyRules(rules[k..], ApplyRules(rules[..k], s))
  {
    assert rules[..k] + rules[k..] == rules;
    ApplyRulesConcat(rules[..k], rules[k..], s);
  }

  /** Stripping a single leading blank from a word. */
  lemma StripOneBlank(s: string)
    requires |s| > 1 && s[0] == ' ' && NoSpace(s[1..])
    ensures Strip(s) == s[1..]
  {
    assert !IsSpace(s[1..][0]);
    assert TrimLeft(s[1..]) == s[1..];
    assert TrimLeft(s) == s[1..];
    assert !IsSpace(s[1..][|s[1..]| - 1]);
  }

  /** The global rules leave a word without `n`, `i` or `S` alone. */
  lemma GlobalRulesAbsent(s: string)
    requires 'S' !in s && 'n' !in s && 'i' !in s
    ensures ApplyRules(GlobalRules, s) == s
  {
    DefaultRulesWellFormed();
    SignalAbsentFrom(GlobalRules[0].alternatives, s);
    NessAbsentFrom(GlobalRules[1].alternatives, s);
    TwoRulesAbsent(GlobalRules, s);
  }

  lemma SignalAbsentFrom(alts: seq<string>, s: string)
    requires alts == ["Signal-to-noise"] && 'S' !in s
    ensures NoneOccurBelow(alts, s, |s| + 1)
  {
    ClearlyAbsent(alts, s);
  }

  lemma NessAbsentFrom(alts: seq<string>, s: string)
    requires alts == ["ness", "ing"] && 'n' !in s && 'i' !in s
    ensures NoneOccurBelow(alts, s, |s| + 1)
  {
    ClearlyAbsent(alts, s);
  }

  lemma TwoRulesAbsent(rules: seq<Rule>, s: string)
    requires WellFormedRules(rules) && |rules| == 2
    requires NoneOccurBelow(rules[0].alternatives, s, |s| + 1)
    requires NoneOccurBelow(rules[1].alternatives, s, |s| + 1)
    ensures ApplyRules(rules, s) == s
  {
    ApplyRulesAbsent(rules, s);
  }

  // --------------------------------------------- splitting literal text

  /** A separator that occurs once splits the text into two pieces. */
  lemma SplitOnce(s: string, sep: string, i: nat)
    requires |sep| > 0 && OccursAt(s, sep, i)
    requires sep[0] !in s[..i] && sep[0] !in s[i + |sep|..]
    ensures Find(s, sep) == Some(i)
    ensures Split(s, sep) == [s[..i], s[i + |sep|..]]
  {
    FindAt(s, sep, i);
    SplitAt(s, sep, i);
    FindMissingChar(s[i + |sep|..], sep, 0);
  }

  /** Without `(` the classifier looks at the whole description. */
  lemma NoParenHead(d: string)
    requires '(' !in d
    ensures Split(d, " (")[0] == d
  {
    FindMissingChar(d, " (", 1);
    SplitHead(d, " (");
  }

  lemma SingleByComma(d: string, i: nat)
    requires '(' !in d && OccursAt(d, ", ", i) && ',' !in d[..i] && ',' !in d[i + 2..]
    ensures Classify(d) == Single
    ensures Split(d, ", ") == [d[..i], d[i + 2..]]
  {
    NoParenHead(d);
    SplitOnce(d, ", ", i);
  }

  lemma GlobalNoComma(d: string)
    requires '(' !in d && ',' !in d
    ensures Classify(d) == Global
  {
    NoParenHead(d);
    FindMissingChar(d, ", ", 0);
  }

  /** Deleting a literal that starts the text and does not occur later. */
  lemma DeleteLeading(p: string, s: string)
    requires 0 < |p| <= |s| && s[..|p|] == p && p[0] !in s[|p|..]
    ensures ReplaceAll([p], "", s) == s[|p|..]
  {
    assert OccursAt(s, p, 0) && s[..0] == [];
    FindAt(s, p, 0);
    ReplaceAtFirst(p, "", s, 0);
    ClearlyAbsent([p], s[|p|..]);
    ReplaceAbsent([p], "", s[|p|..]);
  }

  /** Deleting the one `Object` at the start of a description. */
  lemma ObjectDeleted(d: string)
    requires |d| > 7 && d[..7] == "Object " && 'O' !in d[6..]
    ensures ReplaceAll(["Object"], "", d) == d[6..]
  {
    assert d[..6] == "Object";
    DeleteLeading("Object", d);
  }

  /** `Object <word>` has `<word>` as its GLOBAL short name. */
  lemma ObjectWord(d: string)
    requires |d| > 7 && d[..7] == "Object " && 'O' !in d[6..] && NoSpace(d[7..])
    ensures GlobalShortName(d) == Some(d[7..])
  {
    ObjectDeleted(d);
    var t := d[6..];
    assert t[1..] == d[7..];
    StripOneBlank(t);
    FirstTokenWhole(d[7..]);
  }

  /** The canonical name of a GLOBAL description from its short name. */
  lemma GlobalWordName(d: string, t: string, u: string)
    requires WellFormedRules(SingleRules) && WellFormedRules(GlobalRules)
    requires Classify(d) == Global && GlobalShortName(d) == Some(t)
    requires ApplyRules(GlobalRules, t) == u
    ensures CanonicalName(d, SingleRules, GlobalRules) == Some(Upper(u))
  {
    GlobalNaming(d, SingleRules, GlobalRules);
  }

  // "Measured counts, F475W.chip1": a SINGLE column of filter F475W on chip 1.

  lemma MeasuredCountsMarks(d: string)
    requires d == "Measured counts, F475W.chip1"
    ensures '(' !in d && ',' !in d[..15] && ',' !in d[17..]
  {
  }

  lemma MeasuredCountsText(d: string)
    requires d == "Measured counts, F475W.chip1"
    ensures '(' !in d && OccursAt(d, ", ", 15) && ',' !in d[..15] && ',' !in d[17..]
    ensures d[..15] == "Measured counts" && d[17..] == "F475W.chip1"
  {
    assert d[15..17] == ", ";
    MeasuredCountsMarks(d);
  }

  lemma MeasuredCountsSplit(d: string)
    requires d == "Measured counts, F475W.chip1"
    ensures Classify(d) == Single
    ensures Split(d, ", ") == ["Measured counts", "F475W.chip1"]
  {
    MeasuredCountsText(d);
    SingleByComma(d, 15);
  }

  lemma ChipText(t: string)
    requires t == "F475W.chip1"
    ensures OccursAt(t, ".chip", 5) && '.' !in t[..5] && '.' !in t[10..]
    ensures t[..5] == "F475W" && t[10..] == "1"
  {
    assert t[5..10] == ".chip";
  }

  lemma ChipPrefix(t: string)
    requires t == "F475W.chip1"
    ensures ReplaceAll([".chip"], "_chip", t) == "F475W_chip1"
  {
    ChipText(t);
    SplitOnce(t, ".chip", 5);
    ReplaceIsSplitJoin(".chip", "_chip", t);
  }

  lemma ChipWordNoSpace(t: string)
    requires t == "F475W.chip1"
    ensures NoSpace(t)
  {
    forall i | 0 <= i < |t| ensures !IsSpace(t[i]) {
      assert i == 0 || i == 1 || i == 2 || i == 3 || i == 4 || i == 5 || i == 6 || i == 7
          || i == 8 || i == 9 || i == 10;
    }
  }

  lemma MeasuredCountsRuleMatch(s: string)
    requires s == "Measured counts"
    ensures ApplyRule(SingleRules[0], s) == "COUNT"
  {
    var rule := SingleRules[0];
    assert rule.alternatives == ["Total counts", "Measured counts"];
    assert !OccursAt(s, rule.alternatives[0], 0) by { assert s[..12][0] == 'M'; }
    assert OccursAt(s, rule.alternatives[1], 0) by { assert s[0..|s|] == s; }
    assert MatchIndex(rule.alternatives, s) == Some(1);
    assert s[|s|..] == [];
  }

  lemma LaterRulesKeepCount()
    ensures WellFormedRules(SingleRules[1..])
    ensures ApplyRules(SingleRules[1..], "COUNT") == "COUNT"
  {
    var tail := SingleRules[1..];
    assert tail == [
      Rule(["Total sky level", "Measured sky level"], "SKY"),
      Rule(["Normalized count rate uncertainty"], "RATERR"),
      Rule(["Normalized count rate"], "RATE"),
      Rule(["Instrumental VEGAMAG magnitude"], "VEGA"),
      Rule(["Transformed UBVRI magnitude"], "TRANS"),
      Rule(["Magnitude uncertainty"], "ERR"),
      Rule(["Photometry quality flag"], "FLAG")
    ];
    forall k, j | 0 <= k < |tail| && 0 <= j < |tail[k].alternatives|
      ensures |tail[k].alternatives[j]| > |"COUNT"|
    {
      assert k == 0 || k == 1 || k == 2 || k == 3 || k == 4 || k == 5 || k == 6;
      assert j == 0 || j == 1;
    }
    RulesTooLong(tail, "COUNT");
  }

  lemma MeasuredCountsRule(s: string)
    requires s == "Measured counts"
    ensures WellFormedRules(SingleRules)
    ensures ApplyRules(SingleRules, s) == "COUNT"
  {
    DefaultRulesWellFormed();
    MeasuredCountsRuleMatch(s);
    ApplyRulesFirst(SingleRules, s);
    LaterRulesKeepCount();
  }

  lemma CountNoLower(t: string)
    requires t == "COUNT"
    ensures NoLower(t)
  {
    forall i | 0 <= i < |t| ensures !IsLower(t[i]) {
      assert i == 0 || i == 1 || i == 2 || i == 3 || i == 4;
    }
  }

  lemma MeasuredCountsPrefix(d: string)
    requires d == "Measured counts, F475W.chip1"
    ensures SinglePrefix(d) == Some("F475W_chip1")
  {
    MeasuredCountsSplit(d);
    var t := Split(d, ", ")[1];
    ChipWordNoSpace(t);
    FirstTokenWhole(t);
    ChipPrefix(t);
  }

  lemma CountGlobal(t: string)
    requires t == "COUNT"
    ensures ApplyRules(GlobalRules, t) == "COUNT"
  {
    GlobalRulesAbsent(t);
  }

  lemma MeasuredCountsShort(d: string)
    requires d == "Measured counts, F475W.chip1"
    ensures WellFormedRules(SingleRules) && WellFormedRules(GlobalRules)
    ensures ApplyRules(GlobalRules, ApplyRules(SingleRules, SingleShortName(d))) == "COUNT"
  {
    DefaultRulesWellFormed();
    MeasuredCountsSplit(d);
    MeasuredCountsRule(SingleShortName(d));
    CountGlobal(ApplyRules(SingleRules, SingleShortName(d)));
  }

  lemma ChipCountName(p: string, u: string)
    requires p == "F475W_chip1" && u == "COUNT"
    ensures p[0] != '_' && p + "_" + u == "F475W_chip1_COUNT"
  {
  }

  /** A SINGLE description gets the filter and chip as its prefix. */
  lemma MeasuredCountsName(d: string)
    requires d == "Measured counts, F475W.chip1"
    ensures WellFormedRules(SingleRules) && WellFormedRules(GlobalRules)
    ensures CanonicalName(d, SingleRules, GlobalRules) == Some("F475W_chip1_COUNT")
  {
    MeasuredCountsSplit(d);
    MeasuredCountsPrefix(d);
    MeasuredCountsShort(d);
    CountNoLower("COUNT");
    UpperKeeps("COUNT");
    SingleNaming(d, SingleRules, GlobalRules);
    ChipCountName(SinglePrefix(d).value, "COUNT");
  }

  // "Object X": a GLOBAL column.

  lemma ObjectXText(d: string)
    requires d == "Object X"
    ensures '(' !in d && ',' !in d
    ensures |d| > 7 && d[..7] == "Object " && 'O' !in d[6..] && d[7..] == "X"
  {
  }

  lemma ObjectXShort(d: string)
    requires d == "Object X"
    ensures Classify(d) == Global && GlobalShortName(d) == Some("X")
  {
    ObjectXText(d);
    GlobalNoComma(d);
    ObjectWord(d);
  }

  lemma XUnchanged(x: string)
    requires x == "X"
    ensures ApplyRules(GlobalRules, x) == x && Upper(x) == x
  {
    GlobalRulesAbsent(x);
    UpperKeeps(x);
  }

  lemma ObjectX(d: string)
    requires d == "Object X"
    ensures WellFormedRules(SingleRules) && WellFormedRules(GlobalRules)
    ensures CanonicalName(d, SingleRules, GlobalRules) == Some("X")
  {
    DefaultRulesWellFormed();
    ObjectXShort(d);
    XUnchanged("X");
    GlobalWordName(d, "X", "X");
  }

  // "Object sharpness": the global `ness` rule trims the word.

  /** Two rules: the second acts on what the first produced. */
  lemma ApplyTwo(rules: seq<Rule>, s: string)
    requires WellFormedRules(rules) && |rules| == 2
    ensures NonEmptyAlternatives(rules[0].alternatives) && NonEmptyAlternatives(rules[1].alternatives)
    ensures ApplyRules(rules, s) == ApplyRule(rules[1], ApplyRule(rules[0], s))
  {
    assert rules[0] in rules && rules[1] in rules;
    ApplyRulesFirst(rules, s);
    var rest := rules[1..];
    assert rest[..0] == [];
  }

  lemma SignalAbsent(rule: Rule, s: string)
    requires rule == Rule(["Signal-to-noise"], "SNR") && s == "sharpness"
    ensures NonEmptyAlternatives(rule.alternatives)
    ensures ApplyRule(rule, s) == s
  {
    ClearlyAbsent(rule.alternatives, s);
    ReplaceAbsent(rule.alternatives, rule.replacement, s);
  }

  lemma NessWhole(alts: seq<string>, rest: string)
    requires alts == ["ness", "ing"] && rest == "ness"
    ensures NonEmptyAlternatives(alts)
    ensures ReplaceAll(alts, "", rest) == ""
  {
    WholeMatch(Rule(alts, ""), rest);
  }

  lemma NessRule(rule: Rule, s: string)
    requires rule == Rule(["ness", "ing"], "") && s == "sharpness"
    ensures NonEmptyAlternatives(rule.alternatives)
    ensures ApplyRule(rule, s) == "sharp"
  {
    var alts := rule.alternatives;
    assert s[..5] == "sharp";
    ClearlyAbsentBelow(alts, s, 5);
    ReplaceSkip(alts, "", s, 5);
    NessWhole(alts, s[5..]);
  }

  lemma SharpnessRule(s: string)
    requires s == "sharpness"
    ensures WellFormedRules(GlobalRules)
    ensures ApplyRules(GlobalRules, s) == "sharp"
  {
    DefaultRulesWellFormed();
    ApplyTwo(GlobalRules, s);
    SignalAbsent(GlobalRules[0], s);
    NessRule(GlobalRules[1], s);
  }

  lemma SharpnessNoSpace(t: string)
    requires t == "sharpness"
    ensures NoSpace(t)
  {
    forall i | 0 <= i < |t| ensures !IsSpace(t[i]) {
      assert i == 0 || i == 1 || i == 2 || i == 3 || i == 4 || i == 5 || i == 6 || i == 7 || i == 8;
    }
  }

  lemma SharpnessMarks(d: string)
    requires d == "Object sharpness"
    ensures '(' !in d && ',' !in d && 'O' !in d[6..]
  {
  }

  lemma SharpnessText(d: string)
    requires d == "Object sharpness"
    ensures '(' !in d && ',' !in d
    ensures |d| > 7 && d[..7] == "Object " && 'O' !in d[6..] && d[7..] == "sharpness"
  {
    SharpnessMarks(d);
  }

  lemma UpperSharp(s: string)
    requires s == "sharp"
    ensures Upper(s) == "SHARP"
  {
  }

  lemma SharpnessShort(d: string)
    requires d == "Object sharpness"
    ensures Classify(d) == Global && GlobalShortName(d) == Some("sharpness")
  {
    SharpnessText(d);
    GlobalNoComma(d);
    SharpnessNoSpace(d[7..]);
    ObjectWord(d);
  }

  lemma ObjectSharpness(d: string)
    requires d == "Object sharpness"
    ensures WellFormedRules(SingleRules) && WellFormedRules(GlobalRules)
    ensures CanonicalName(d, SingleRules, GlobalRules) == Some("SHARP")
  {
    DefaultRulesWellFormed();
    SharpnessShort(d);
    SharpnessRule("sharpness");
    UpperSharp("sharp");
    GlobalWordName(d, "sharpness", "sharp");
  }
}
