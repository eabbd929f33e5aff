/** The DOLPHOT column-name resolver (`read_colfile`): every line
    `"<index>. <description>"` of a `.columns` file becomes a canonical
    column name such as `F475W_chip1_COUNT` or `X`. */
module ColumnNames {
  import opened Wrappers
  import opened Text
  import opened Sequences

  // ------------------------------------------------------------ rules

  /** One substitution rule: a regular expression that is an alternation of
      literals (tried in the listed order), and its replacement text. */
  datatype Rule = Rule(alternatives: seq<string>, replacement: string)

  predicate WellFormedRules(rules: seq<Rule>)
  {
    forall r <- rules :: NonEmptyAlternatives(r.alternatives)
  }

  /** Rules for the short name of a per-exposure (SINGLE) column, in order. */
  const SingleRules: seq<Rule> := [
    Rule(["Total counts", "Measured counts"], "COUNT"),
    Rule(["Total sky level", "Measured sky level"], "SKY"),
    Rule(["Normalized count rate uncertainty"], "RATERR"),
    Rule(["Normalized count rate"], "RATE"),
    Rule(["Instrumental VEGAMAG magnitude"], "VEGA"),
    Rule(["Transformed UBVRI magnitude"], "TRANS"),
    Rule(["Magnitude uncertainty"], "ERR"),
    Rule(["Photometry quality flag"], "FLAG")
  ]

  /** Rules applied afterwards to every short name, in order. */
  const GlobalRules: seq<Rule> := [
    Rule(["Signal-to-noise"], "SNR"),
    Rule(["ness", "ing"], "")
  ]

  lemma DefaultRulesWellFormed()
    ensures WellFormedRules(SingleRules) && WellFormedRules(GlobalRules)
  {
    SingleRulesWellFormed(SingleRules);
    assert NonEmptyAlternatives(GlobalRules[0].alternatives) && NonEmptyAlternatives(GlobalRules[1].alternatives);
  }

  lemma SingleRulesWellFormed(rules: seq<Rule>)
    requires rules == SingleRules
    ensures WellFormedRules(rules)
  {
    forall k | 0 <= k < |rules| ensures NonEmptyAlternatives(rules[k].alternatives) {
      assert k == 0 || k == 1 || k == 2 || k == 3 || k == 4 || k == 5 || k == 6 || k == 7;
    }
  }

  /** `Series.replace(re.compile(pattern), replacement)` on one string. */
  function ApplyRule(rule: Rule, s: string): string
    requires NonEmptyAlternatives(rule.alternatives)
  {
    ReplaceAll(rule.alternatives, rule.replacement, s)
  }

  /** The rules applied one after another: the last rule acts on what all
      the earlier ones produced. */
  function ApplyRules(rules: seq<Rule>, s: string): string
    requires WellFormedRules(rules)
    decreases |rules|
  {
    if rules == [] then s
    else
      assert rules[|rules| - 1] in rules;
      ApplyRule(rules[|rules| - 1], ApplyRules(rules[..|rules| - 1], s))
  }

  /** Applying `a` then `b` is applying `a + b`. */
  lemma {:induction false} ApplyRulesConcat(a: seq<Rule>, b: seq<Rule>, s: string)
    requires WellFormedRules(a) && WellFormedRules(b)
    ensures WellFormedRules(a + b)
    ensures ApplyRules(a + b, s) == ApplyRules(b, ApplyRules(a, s))
    decreases |b|
  {
    if b == [] {
      assert a + b == a;
    } else {
      var b' := b[..|b| - 1];
      assert (a + b)[..|a + b| - 1] == a + b';
      assert (a + b)[|a + b| - 1] == b[|b| - 1];
      ApplyRulesConcat(a, b', s);
    }
  }

  /** The first rule in the list is the first one applied. */
  lemma ApplyRulesFirst(rules: seq<Rule>, s: string)
    requires WellFormedRules(rules) && rules != []
    ensures NonEmptyAlternatives(rules[0].alternatives)
    ensures ApplyRules(rules, s) == ApplyRules(rules[1..], ApplyRule(rules[0], s))
  {
    assert rules[0] in rules;
    assert [rules[0]] + rules[1..] == rules;
    ApplyRulesConcat([rules[0]], rules[1..], s);
    assert [rules[0]][..0] == [];
  }

  /** Rules none of whose alternatives occur leave the string alone. */
  lemma {:induction false} ApplyRulesAbsent(rules: seq<Rule>, s: string)
    requires WellFormedRules(rules)
    requires forall k :: 0 <= k < |rules| ==> NoneOccurBelow(rules[k].alternatives, s, |s| + 1)
    ensures ApplyRules(rules, s) == s
    decreases |rules|
  {
    if rules != [] {
      assert rules[|rules| - 1] in rules;
      ApplyRulesAbsent(rules[..|rules| - 1], s);
      ReplaceAbsent(rules[|rules| - 1].alternatives, rules[|rules| - 1].replacement, s);
    }
  }

  // --------------------------------------------------- classification

  datatype Kind = Single | Global

  /** SINGLE when the text before the first `" ("` contains `", "`. */
  function Classify(desc: string): Kind
  {
    if Find(Split(desc, " (")[0], ", ").Some? then Single else Global
  }

  /** The first piece of a split is the text before the first separator. */
  lemma SplitHead(s: string, sep: string)
    requires |sep| > 0
    ensures Find(s, sep).None? ==> Split(s, sep)[0] == s
    ensures Find(s, sep).Some? ==> Split(s, sep)[0] == s[..Find(s, sep).value]
  {
  }

  /** Where the first `" ("` starts, or the length when there is none. */
  function ParenAt(desc: string): (p: nat)
    ensures p <= |desc| && forall j :: 0 <= j < p ==> !OccursAt(desc, " (", j)
    ensures Split(desc, " (")[0] == desc[..p]
    ensures p < |desc| ==> OccursAt(desc, " (", p)
  {
    SplitHead(desc, " (");
    if Find(desc, " (").Some? then Find(desc, " (").value else |desc|
  }

  /** A `", "` inside the text before the first `" ("` is a `", "` of the
      description, and conversely. */
  lemma HeadOccurs(desc: string, i: nat)
    requires i + 2 <= ParenAt(desc)
    ensures OccursAt(Split(desc, " (")[0], ", ", i) <==> OccursAt(desc, ", ", i)
  {
    var head := Split(desc, " (")[0];
    assert head[i..i + 2] == desc[i..i + 2];
  }

  /** `", "` occurs at `i` and no `" ("` starts at or before `i + 1`. */
  predicate CommaBeforeParen(desc: string, i: int)
  {
    0 <= i <= |desc| && OccursAt(desc, ", ", i) && forall j :: 0 <= j <= i + 1 ==> !OccursAt(desc, " (", j)
  }

  lemma ClassifySingleSound(desc: string)
    requires Classify(desc) == Single
    ensures exists i :: CommaBeforeParen(desc, i)
  {
    var head := Split(desc, " (")[0];
    var i := Find(head, ", ").value;
    assert OccursAt(head, ", ", i);
    assert |head| == ParenAt(desc);
    HeadOccurs(desc, i);
    assert CommaBeforeParen(desc, i);
  }

  lemma ClassifySingleComplete(desc: string, i: int)
    requires CommaBeforeParen(desc, i)
    ensures Classify(desc) == Single
  {
    var p := ParenAt(desc);
    assert i + 2 <= p by {
      if p < |desc| {
        assert OccursAt(desc, " (", p);
      }
    }
    HeadOccurs(desc, i);
    var head := Split(desc, " (")[0];
    assert OccursAt(head, ", ", i);
  }

  /** A description is SINGLE exactly when some `", "` lies wholly before
      the first `" ("`. */
  lemma ClassifySingleIff(desc: string)
    ensures Classify(desc) == Single <==> exists i :: CommaBeforeParen(desc, i)
  {
    if Classify(desc) == Single {
      ClassifySingleSound(desc);
    }
    if exists i :: CommaBeforeParen(desc, i) {
      var i :| CommaBeforeParen(desc, i);
      ClassifySingleComplete(desc, i);
    }
  }

  // ----------------------------------------------------------- naming

  /** GLOBAL short name: the first word once `Object` is deleted. */
  function GlobalShortName(desc: string): Option<string>
  {
    FirstToken(Strip(ReplaceAll(["Object"], "", desc)))
  }

  /** SINGLE short name before any rule: the first `", "` piece. */
  function SingleShortName(desc: string): string
  {
    Split(desc, ", ")[0]
  }

  /** SINGLE prefix: the first word of the second `", "` piece, with
      `.chip` written `_chip`; undefined when there is no such word. */
  function SinglePrefix(desc: string): Option<string>
  {
    var pieces := Split(desc, ", ");
    if |pieces| < 2 then None
    else
      match FirstToken(pieces[1])
      case None => None
      case Some(t) => Some(ReplaceAll([".chip"], "_chip", t))
  }

  /** The short name after the SINGLE chain (for SINGLE descriptions);
      None stands for pandas' NaN. */
  function RawShortName(desc: string, single: seq<Rule>): Option<string>
    requires WellFormedRules(single)
  {
    if Classify(desc) == Single then Some(ApplyRules(single, SingleShortName(desc)))
    else GlobalShortName(desc)
  }

  /** Rules act on a defined name and leave NaN alone. */
  function MapRules(rules: seq<Rule>, name: Option<string>): Option<string>
    requires WellFormedRules(rules)
  {
    match name
    case None => None
    case Some(n) => Some(ApplyRules(rules, n))
  }

  /** The short name after both rule chains. */
  function ShortName(desc: string, single: seq<Rule>, global: seq<Rule>): Option<string>
    requires WellFormedRules(single) && WellFormedRules(global)
  {
    MapRules(global, RawShortName(desc, single))
  }

  function Prefix(desc: string): Option<string>
  {
    if Classify(desc) == Single then SinglePrefix(desc) else Some("")
  }

  /** `prefix.str.cat(short.str.upper(), sep='_').str.replace('^_', '')`;
      a missing part makes the whole name missing. */
  function JoinName(prefix: Option<string>, short: Option<string>): Option<string>
  {
    if prefix.Some? && short.Some? then
      Some(DropLeadingUnderscore(prefix.value + "_" + Upper(short.value)))
    else None
  }

  function CanonicalName(desc: string, single: seq<Rule>, global: seq<Rule>): Option<string>
    requires WellFormedRules(single) && WellFormedRules(global)
  {
    JoinName(Prefix(desc), ShortName(desc, single, global))
  }

  /** A GLOBAL name has no prefix: it is exactly the upper-cased first word of
      the description with `Object` deleted, after the global rules. */
  lemma GlobalNaming(desc: string, single: seq<Rule>, global: seq<Rule>)
    requires WellFormedRules(single) && WellFormedRules(global)
    requires Classify(desc) == Global
    ensures CanonicalName(desc, single, global) ==
      match GlobalShortName(desc)
      case None => None
      case Some(t) => Some(Upper(ApplyRules(global, t)))
  {
    var s := GlobalShortName(desc);
    assert Prefix(desc) == Some("");
    assert ShortName(desc, single, global) == MapRules(global, s);
    if s.Some? {
      JoinEmptyPrefix(ApplyRules(global, s.value));
    }
  }

  /** An empty prefix contributes nothing to the name. */
  lemma JoinEmptyPrefix(short: string)
    ensures JoinName(Some(""), Some(short)) == Some(Upper(short))
  {
    var u := Upper(short);
    assert ("" + "_" + u)[1..] == u;
  }

  /** A SINGLE name is the (non-empty) prefix, `_`, and the upper-cased short
      name after both chains; only a prefix that itself starts with `_` loses
      that underscore. */
  lemma SingleNaming(desc: string, single: seq<Rule>, global: seq<Rule>)
    requires WellFormedRules(single) && WellFormedRules(global)
    requires Classify(desc) == Single
    ensures SinglePrefix(desc).Some? ==> |SinglePrefix(desc).value| > 0
    ensures CanonicalName(desc, single, global) ==
      match SinglePrefix(desc)
      case None => None
      case Some(p) =>
        var u := Upper(ApplyRules(global, ApplyRules(single, SingleShortName(desc))));
        Some(if p[0] == '_' then p[1..] + "_" + u else p + "_" + u)
  {
    SinglePrefixNonEmpty(desc);
    if SinglePrefix(desc).Some? {
      JoinPrefix(SinglePrefix(desc).value, ApplyRules(global, ApplyRules(single, SingleShortName(desc))));
    }
  }

  lemma SinglePrefixNonEmpty(desc: string)
    ensures SinglePrefix(desc).Some? ==> |SinglePrefix(desc).value| > 0
  {
    var pieces := Split(desc, ", ");
    if |pieces| >= 2 && FirstToken(pieces[1]).Some? {
      var t := FirstToken(pieces[1]).value;
      ReplaceNonEmpty([".chip"], "_chip", t);
    }
  }

  /** A non-empty prefix is joined to the short name by `_`. */
  lemma JoinPrefix(p: string, short: string)
    requires |p| > 0
    ensures JoinName(Some(p), Some(short)) ==
      var u := Upper(short);
      Some(if p[0] == '_' then p[1..] + "_" + u else p + "_" + u)
  {
    var u := Upper(short);
    if p[0] == '_' {
      assert (p + "_" + u)[1..] == p[1..] + "_" + u;
    }
  }

  /** Substituting a non-empty replacement never empties a non-empty string. */
  lemma ReplaceNonEmpty(alts: seq<string>, repl: string, s: string)
    requires NonEmptyAlternatives(alts) && |repl| > 0 && |s| > 0
    ensures |ReplaceAll(alts, repl, s)| > 0
  {
  }

  /** Every defined name ends with the upper-cased short name, so the short
      name contributes no lower-case letter. */
  lemma NameShape(desc: string, single: seq<Rule>, global: seq<Rule>)
    requires WellFormedRules(single) && WellFormedRules(global)
    requires CanonicalName(desc, single, global).Some?
    ensures ShortName(desc, single, global).Some?
    ensures var name := CanonicalName(desc, single, global).value;
            var u := Upper(ShortName(desc, single, global).value);
            |u| <= |name| && name[|name| - |u|..] == u && NoLower(name[|name| - |u|..])
  {
    var p := Prefix(desc).value;
    var n := ShortName(desc, single, global).value;
    var u := Upper(n);
    UpperProperties(n);
    var joined := p + "_" + u;
    var name := DropLeadingUnderscore(joined);
    assert joined[|joined| - |u|..] == u;
    assert name[|name| - |u|..] == joined[|joined| - |u|..];
  }

  // ------------------------------------------------- the column file

  /** One parsed line of a `.columns` file. */
  datatype ColumnEntry = ColumnEntry(index: nat, desc: string)

  /** One row of the name table `read_colfile` returns. */
  datatype NamedColumn = NamedColumn(index: nat, desc: string, name: Option<string>)

  predicate IsDigit(c: char)
  {
    '0' <= c <= '9'
  }

  function DigitsValue(t: string): nat
    requires forall k :: 0 <= k < |t| ==> IsDigit(t[k])
    decreases |t|
  {
    if t == [] then 0
    else
      assert IsDigit(t[|t| - 1]);
      DigitsValue(t[..|t| - 1]) * 10 + (t[|t| - 1] as int - '0' as int)
  }

  /** A column number: a non-empty run of decimal digits. */
  function ParseIndex(t: string): Option<nat>
  {
    if t != [] && forall k :: 0 <= k < |t| ==> IsDigit(t[k]) then Some(DigitsValue(t)) else None
  }

  /** Decimal digits of `n`, as the column file writes them. */
  function IndexText(n: nat): (t: string)
    ensures t != [] && forall k :: 0 <= k < |t| ==> IsDigit(t[k])
  {
    var d := ['0' + (n % 10) as char];
    if n < 10 then d else IndexText(n / 10) + d
  }

  lemma {:induction false} IndexTextValue(n: nat)
    ensures DigitsValue(IndexText(n)) == n
  {
    var d := ['0' + (n % 10) as char];
    if n >= 10 {
      IndexTextValue(n / 10);
      var t := IndexText(n / 10) + d;
      assert t[..|t| - 1] == IndexText(n / 10);
    }
  }

  /** Split a line at its first `". "` into column number and description. */
  function ParseLine(line: string): Result<ColumnEntry>
  {
    match Find(line, ". ")
    case None => Err(MalformedLine(line))
    case Some(i) =>
      match ParseIndex(line[..i])
      case None => Err(BadIndex(line))
      case Some(n) => Ok(ColumnEntry(n, line[i + 2..]))
  }

  /** The line the column file holds for an entry. */
  function FormatLine(e: ColumnEntry): string
  {
    IndexText(e.index) + ". " + e.desc
  }

  /** Reading back a formatted line gives the entry: the first `". "` is the
      one after the digits, whatever the description contains. */
  lemma ParseFormatLine(e: ColumnEntry)
    ensures ParseLine(FormatLine(e)) == Ok(e)
  {
    var t := IndexText(e.index);
    var line := FormatLine(e);
    assert OccursAt(line, ". ", |t|) by {
      assert line[|t|..|t| + 2] == ". ";
    }
    forall j | 0 <= j < |t| ensures !OccursAt(line, ". ", j) {
      assert line[j] == t[j] && IsDigit(t[j]);
      assert j + 2 <= |line| ==> line[j..j + 2][0] == line[j];
    }
    assert Find(line, ". ") == Some(|t|);
    assert line[..|t|] == t;
    assert line[|t| + 2..] == e.desc;
    IndexTextValue(e.index);
  }

  /** Parse every line; the first malformed line is the error. */
  function ParseLines(lines: seq<string>): (r: Result<seq<ColumnEntry>>)
    ensures r.Ok? ==> |r.value| == |lines|
    ensures r.Ok? ==> forall k :: 0 <= k < |lines| ==> ParseLine(lines[k]) == Ok(r.value[k])
    ensures r.Err? ==> exists k :: 0 <= k < |lines| && ParseLine(lines[k]) == Err(r.error)
  {
    if lines == [] then Ok([])
    else
      match ParseLine(lines[0])
      case Err(e) => Err(e)
      case Ok(first) =>
        match ParseLines(lines[1..])
        case Err(e) =>
          assert forall k :: 1 <= k < |lines| ==> lines[1..][k - 1] == lines[k];
          Err(e)
        case Ok(rest) => Ok([first] + rest)
  }

  /** The column numbers of some entries, in order: the index of a pandas
      series built from them. */
  function Indices(entries: seq<ColumnEntry>): (ns: seq<nat>)
    ensures |ns| == |entries| && forall k :: 0 <= k < |entries| ==> ns[k] == entries[k].index
  {
    seq(|entries|, k requires 0 <= k < |entries| => entries[k].index)
  }

  /** A label that occurs twice, if any: the label pandas reports when it
      refuses to realign a series whose index repeats. */
  function RepeatedIndex(ns: seq<nat>): (r: Option<nat>)
    ensures r.None? <==> Distinct(ns)
    ensures r.Some? ==> exists a, b :: 0 <= a < b < |ns| && ns[a] == r.value && ns[b] == r.value
  {
    if ns == [] then None
    else if exists b :: 1 <= b < |ns| && ns[b] == ns[0] then Some(ns[0])
    else
      match RepeatedIndex(ns[1..])
      case None =>
        assert forall a, b :: 1 <= a < b < |ns| ==> ns[a] == ns[1..][a - 1] && ns[b] == ns[1..][b - 1];
        None
      case Some(i) =>
        var a, b :| 0 <= a < b < |ns[1..]| && ns[1..][a] == i && ns[1..][b] == i;
        assert ns[a + 1] == i && ns[b + 1] == i;
        Some(i)
  }

  /** The first position holding label `n`. */
  function IndexOf(ns: seq<nat>, n: nat): (r: Option<nat>)
    ensures r.None? <==> n !in ns
    ensures r.Some? ==> r.value < |ns| && ns[r.value] == n
  {
    if ns == [] then None
    else if ns[0] == n then Some(0)
    else
      match IndexOf(ns[1..], n)
      case None =>
        assert ns == [ns[0]] + ns[1..];
        None
      case Some(i) =>
        assert ns[i + 1] == n;
        Some(i + 1)
  }

  /** `series.reindex_like(df_col)` for a series whose index is `labels` and
      a frame whose index is `target` (pandas 1.x): an identical index leaves
      the values as they are; otherwise a repeated label raises, and each
      target label takes the one value stored under it, or NaN when there is
      none. */
  function Reindex(labels: seq<nat>, values: seq<Option<string>>, target: seq<nat>): (r: Result<seq<Option<string>>>)
    requires |values| == |labels|
    ensures r.Err? <==> labels != target && !Distinct(labels)
    ensures r.Err? ==> exists a, b :: 0 <= a < b < |labels| && labels[a] == labels[b] && r.error == DuplicateIndex(labels[a])
    ensures r.Ok? ==> |r.value| == |target|
    ensures r.Ok? && labels == target ==> r.value == values
    ensures r.Ok? && labels != target ==>
      forall k, i :: 0 <= k < |target| && 0 <= i < |labels| && labels[i] == target[k] ==> r.value[k] == values[i]
    ensures r.Ok? && labels != target ==>
      forall k :: 0 <= k < |target| && target[k] !in labels ==> r.value[k].None?
  {
    if labels == target then Ok(values)
    else
      match RepeatedIndex(labels)
      case Some(n) => Err(DuplicateIndex(n))
      case None =>
        Ok(seq(|target|, k requires 0 <= k < |target| =>
          match IndexOf(labels, target[k])
          case None => None
          case Some(i) => values[i]))
  }

  // ------------------------------------------------ regrouping the lines

  predicate IsSingleEntry(e: ColumnEntry)
  {
    Classify(e.desc) == Single
  }

  /** The first SINGLE entry numbered `n`, if any. */
  function SingleWith(entries: seq<ColumnEntry>, n: nat): (r: Option<nat>)
    ensures r.Some? ==> r.value < |entries| && IsSingleEntry(entries[r.value]) && entries[r.value].index == n
    ensures r.None? <==> forall j :: 0 <= j < |entries| && IsSingleEntry(entries[j]) ==> entries[j].index != n
  {
    if entries == [] then None
    else if IsSingleEntry(entries[0]) && entries[0].index == n then Some(0)
    else
      match SingleWith(entries[1..], n)
      case None =>
        assert forall j :: 1 <= j < |entries| ==> entries[j] == entries[1..][j - 1];
        None
      case Some(j) =>
        assert entries[j + 1] == entries[1..][j];
        Some(j + 1)
  }

  /** Whether a line survives `df_col.drop(df_single.index)`: a GLOBAL line
      whose number no SINGLE line carries, since dropping a SINGLE line's
      label drops every line with that label. */
  predicate KeptGlobal(entries: seq<ColumnEntry>, e: ColumnEntry)
  {
    !IsSingleEntry(e) && SingleWith(entries, e.index).None?
  }

  function KeepGlobal(entries: seq<ColumnEntry>): ColumnEntry -> bool
  {
    e => KeptGlobal(entries, e)
  }

  /** The rows of `pd.concat([names_global, names_single])`: the kept GLOBAL
      lines, then the SINGLE lines, each group in file order. */
  function Concatenated(entries: seq<ColumnEntry>): seq<ColumnEntry>
  {
    Filter(entries, KeepGlobal(entries)) + Filter(entries, IsSingleEntry)
  }

  /** The line whose name line `k` receives: its own, except that a GLOBAL
      line sharing its number with a SINGLE line receives the name of the
      first such SINGLE line. */
  function Owner(entries: seq<ColumnEntry>, k: nat): (j: nat)
    requires k < |entries|
    ensures j < |entries| && entries[j].index == entries[k].index
    ensures IsSingleEntry(entries[j]) || KeptGlobal(entries, entries[j])
  {
    if IsSingleEntry(entries[k]) then k
    else
      match SingleWith(entries, entries[k].index)
      case None => k
      case Some(j) => j
  }

  /** No two SINGLE lines carry the same number. */
  predicate SinglesDistinct(entries: seq<ColumnEntry>)
  {
    forall a, b :: 0 <= a < b < |entries| && IsSingleEntry(entries[a]) && IsSingleEntry(entries[b]) ==>
      entries[a].index != entries[b].index
  }

  /** No two kept GLOBAL lines carry the same number. */
  predicate KeptGlobalsDistinct(entries: seq<ColumnEntry>)
  {
    forall a, b :: 0 <= a < b < |entries| && KeptGlobal(entries, entries[a]) && KeptGlobal(entries, entries[b]) ==>
      entries[a].index != entries[b].index
  }

  /** The name table for parsed entries, in file order. */
  function Resolve(entries: seq<ColumnEntry>, single: seq<Rule>, global: seq<Rule>): (t: seq<NamedColumn>)
    requires WellFormedRules(single) && WellFormedRules(global)
  {
    seq(|entries|, k requires 0 <= k < |entries| =>
      NamedColumn(entries[k].index, entries[k].desc, CanonicalName(entries[Owner(entries, k)].desc, single, global)))
  }

  /** What `read_colfile` makes of the parsed lines: realigning the
      concatenated names fails when their labels are not the file's own and
      one of them repeats. */
  function ResolveEntries(entries: seq<ColumnEntry>, single: seq<Rule>, global: seq<Rule>): Result<seq<NamedColumn>>
    requires WellFormedRules(single) && WellFormedRules(global)
  {
    var labels := Indices(Concatenated(entries));
    if labels != Indices(entries) && !Distinct(labels) then Err(DuplicateIndex(RepeatedIndex(labels).value))
    else Ok(Resolve(entries, single, global))
  }

  /** What `read_colfile` computes from the lines of a column file. */
  function ReadColfileSpec(lines: seq<string>, single: seq<Rule>, global: seq<Rule>): Result<seq<NamedColumn>>
    requires WellFormedRules(single) && WellFormedRules(global)
  {
    match ParseLines(lines)
    case Err(e) => Err(e)
    case Ok(entries) => ResolveEntries(entries, single, global)
  }

  // ------------------------------------------ facts about the regrouping

  /** Each entry `Owner` names is in the concatenation. */
  lemma OwnerConcatenated(entries: seq<ColumnEntry>, k: nat)
    requires k < |entries|
    ensures entries[Owner(entries, k)] in Concatenated(entries)
  {
    FilterMembers(entries, KeepGlobal(entries));
    FilterMembers(entries, IsSingleEntry);
  }

  /** A GLOBAL line that shares its number with a SINGLE line is dropped,
      so the concatenation is shorter than the file. */
  lemma DroppedShortens(entries: seq<ColumnEntry>, k: nat)
    requires k < |entries| && !IsSingleEntry(entries[k]) && SingleWith(entries, entries[k].index).Some?
    ensures |Concatenated(entries)| < |entries|
  {
    var keep := KeepGlobal(entries);
    assert forall e :: !(keep(e) && IsSingleEntry(e));
    FilterTwoCount(entries, keep, IsSingleEntry);
    assert !(keep(entries[k]) || IsSingleEntry(entries[k]));
  }

  /** A concatenation as long as the file dropped no line. */
  lemma NothingDropped(entries: seq<ColumnEntry>)
    requires |Concatenated(entries)| == |entries|
    ensures forall k :: 0 <= k < |entries| ==> KeptGlobal(entries, entries[k]) || IsSingleEntry(entries[k])
  {
    var keep := KeepGlobal(entries);
    assert forall e :: !(keep(e) && IsSingleEntry(e));
    FilterTwoCount(entries, keep, IsSingleEntry);
    assert forall k :: 0 <= k < |entries| ==> keep(entries[k]) == KeptGlobal(entries, entries[k]);
  }

  /** When no line was dropped every line names itself. */
  lemma OwnersOwn(entries: seq<ColumnEntry>)
    requires forall k :: 0 <= k < |entries| ==> KeptGlobal(entries, entries[k]) || IsSingleEntry(entries[k])
    ensures forall k :: 0 <= k < |entries| ==> Owner(entries, k) == k
  {
    forall k | 0 <= k < |entries| ensures Owner(entries, k) == k {
      assert KeptGlobal(entries, entries[k]) || IsSingleEntry(entries[k]);
    }
  }

  /** With the file's own labels, the first `m` lines, `m` the number of
      kept GLOBAL lines, are kept GLOBAL lines: a SINGLE line there would
      share its label with a kept GLOBAL line. */
  lemma KeptFront(entries: seq<ColumnEntry>)
    requires Indices(Concatenated(entries)) == Indices(entries)
    requires forall j :: 0 <= j < |entries| ==> KeptGlobal(entries, entries[j]) || IsSingleEntry(entries[j])
    ensures var keep := KeepGlobal(entries);
      |Filter(entries, keep)| <= |entries| &&
      forall k :: 0 <= k < |Filter(entries, keep)| ==> keep(entries[k]) && !IsSingleEntry(entries[k])
  {
    var keep := KeepGlobal(entries);
    var pg := Positions(entries, keep);
    var c := Concatenated(entries);
    assert |c| == |entries|;
    forall k | 0 <= k < |pg| ensures keep(entries[k]) && !IsSingleEntry(entries[k]) {
      var e := entries[pg[k]];
      assert keep(e) && c[k] == e;
      assert Indices(c)[k] == e.index;
      assert entries[k].index == e.index;
      assert !IsSingleEntry(entries[k]);
    }
  }

  /** ... and the rest are SINGLE lines: a kept GLOBAL line there would
      share its label with a SINGLE line. */
  lemma SingleBack(entries: seq<ColumnEntry>)
    requires Indices(Concatenated(entries)) == Indices(entries)
    requires forall j :: 0 <= j < |entries| ==> KeptGlobal(entries, entries[j]) || IsSingleEntry(entries[j])
    ensures var keep := KeepGlobal(entries);
      forall k :: |Filter(entries, keep)| <= k < |entries| ==> IsSingleEntry(entries[k]) && !keep(entries[k])
  {
    var keep := KeepGlobal(entries);
    var m := |Filter(entries, keep)|;
    var ps := Positions(entries, IsSingleEntry);
    var c := Concatenated(entries);
    forall k | m <= k < |entries| ensures IsSingleEntry(entries[k]) && !keep(entries[k]) {
      var j := ps[k - m];
      assert IsSingleEntry(entries[j]) && c[k] == entries[j];
      assert Indices(c)[k] == entries[j].index;
      assert entries[k].index == entries[j].index;
      assert !KeptGlobal(entries, entries[k]);
    }
  }

  /** The concatenated labels are the file's own only when nothing was
      dropped, and then the concatenation is the file itself: the kept
      GLOBAL lines all come first. */
  lemma SameLabelsSameRows(entries: seq<ColumnEntry>)
    requires Indices(Concatenated(entries)) == Indices(entries)
    ensures Concatenated(entries) == entries
    ensures forall k :: 0 <= k < |entries| ==> Owner(entries, k) == k
  {
    NothingDropped(entries);
    OwnersOwn(entries);
    KeptFront(entries);
    SingleBack(entries);
    var keep := KeepGlobal(entries);
    FrontBack(entries, |Filter(entries, keep)|, keep, IsSingleEntry);
  }

  /** Where line `k`'s name sits in the concatenation: at `k` itself when
      the labels are the file's own. */
  lemma ConcatSource(entries: seq<ColumnEntry>, k: nat) returns (i: nat)
    requires k < |entries|
    ensures i < |Concatenated(entries)| && Concatenated(entries)[i] == entries[Owner(entries, k)]
    ensures Indices(Concatenated(entries)) == Indices(entries) ==> i == k
  {
    var c := Concatenated(entries);
    if Indices(c) == Indices(entries) {
      SameLabelsSameRows(entries);
      i := k;
    } else {
      OwnerConcatenated(entries, k);
      i :| 0 <= i < |c| && c[i] == entries[Owner(entries, k)];
    }
  }

  /** After `reindex_like`, row `k` holds the value the concatenation held
      for the owner of line `k`. */
  lemma ReindexedRow(entries: seq<ColumnEntry>, values: seq<Option<string>>, out: seq<Option<string>>, k: nat)
    returns (i: nat)
    requires |values| == |Concatenated(entries)| && k < |entries|
    requires Reindex(Indices(Concatenated(entries)), values, Indices(entries)) == Ok(out)
    ensures i < |values| && Concatenated(entries)[i] == entries[Owner(entries, k)]
    ensures k < |out| && out[k] == values[i]
  {
    i := ConcatSource(entries, k);
    var labels, target := Indices(Concatenated(entries)), Indices(entries);
    assert labels[i] == target[k];
  }

  /** Two SINGLE lines with one number repeat a concatenated label. */
  lemma SinglesRepeat(entries: seq<ColumnEntry>, a: nat, b: nat)
    requires a < b < |entries| && IsSingleEntry(entries[a]) && IsSingleEntry(entries[b])
    requires entries[a].index == entries[b].index
    ensures !Distinct(Indices(Concatenated(entries)))
  {
    var i, j := FilterPair(entries, IsSingleEntry, a, b);
    var front, back := Filter(entries, KeepGlobal(entries)), Filter(entries, IsSingleEntry);
    var c := Concatenated(entries);
    assert c == front + back;
    AppendAt(front, back, i);
    AppendAt(front, back, j);
    assert Indices(c)[|front| + i] == Indices(c)[|front| + j];
  }

  /** Two kept GLOBAL lines with one number repeat a concatenated label. */
  lemma KeptGlobalsRepeat(entries: seq<ColumnEntry>, a: nat, b: nat)
    requires a < b < |entries| && KeptGlobal(entries, entries[a]) && KeptGlobal(entries, entries[b])
    requires entries[a].index == entries[b].index
    ensures !Distinct(Indices(Concatenated(entries)))
  {
    var keep := KeepGlobal(entries);
    assert keep(entries[a]) && keep(entries[b]);
    var i, j := FilterPair(entries, keep, a, b);
    var front := Filter(entries, keep);
    var c := Concatenated(entries);
    assert c[i] == front[i] && c[j] == front[j];
    assert Indices(c)[i] == Indices(c)[j];
  }

  /** Without such pairs the concatenated labels are distinct: a kept
      GLOBAL line never shares its number with a SINGLE line. */
  lemma DistinctConcat(entries: seq<ColumnEntry>)
    requires SinglesDistinct(entries) && KeptGlobalsDistinct(entries)
    ensures Distinct(Indices(Concatenated(entries)))
  {
    var keep := KeepGlobal(entries);
    var pg, ps := Positions(entries, keep), Positions(entries, IsSingleEntry);
    var m := |pg|;
    var c := Concatenated(entries);
    var ns := Indices(c);
    forall a, b | 0 <= a < b < |c| ensures ns[a] != ns[b] {
      if b < m {
        assert c[a] == entries[pg[a]] && c[b] == entries[pg[b]] && pg[a] < pg[b];
        assert keep(entries[pg[a]]) && keep(entries[pg[b]]);
      } else if m <= a {
        assert c[a] == entries[ps[a - m]] && c[b] == entries[ps[b - m]] && ps[a - m] < ps[b - m];
      } else {
        var j := ps[b - m];
        assert c[a] == entries[pg[a]] && keep(c[a]) && c[b] == entries[j] && IsSingleEntry(entries[j]);
      }
    }
  }

  /** Realigning the concatenation succeeds on its repeated labels exactly
      when no two SINGLE lines and no two kept GLOBAL lines share a
      number. */
  lemma ConcatDistinctIff(entries: seq<ColumnEntry>)
    ensures Distinct(Indices(Concatenated(entries))) <==> SinglesDistinct(entries) && KeptGlobalsDistinct(entries)
  {
    if SinglesDistinct(entries) && KeptGlobalsDistinct(entries) {
      DistinctConcat(entries);
    } else if !SinglesDistinct(entries) {
      var a, b :| 0 <= a < b < |entries| && IsSingleEntry(entries[a]) && IsSingleEntry(entries[b])
        && entries[a].index == entries[b].index;
      SinglesRepeat(entries, a, b);
    } else {
      var a, b :| 0 <= a < b < |entries| && KeptGlobal(entries, entries[a]) && KeptGlobal(entries, entries[b])
        && entries[a].index == entries[b].index;
      KeptGlobalsRepeat(entries, a, b);
    }
  }

  // ------------------------------------------------ the name table

  /** After parsing, the name table exists exactly when the concatenated
      labels are the file's own or no two SINGLE lines and no two kept
      GLOBAL lines share a number; the error names a repeated concatenated
      label. */
  lemma ReadColfileDefined(lines: seq<string>, entries: seq<ColumnEntry>, single: seq<Rule>, global: seq<Rule>)
    requires WellFormedRules(single) && WellFormedRules(global)
    requires ParseLines(lines) == Ok(entries)
    ensures ReadColfileSpec(lines, single, global).Ok? <==>
      Indices(Concatenated(entries)) == Indices(entries) || (SinglesDistinct(entries) && KeptGlobalsDistinct(entries))
    ensures ReadColfileSpec(lines, single, global).Err? ==>
      var c := Concatenated(entries);
      exists a, b :: 0 <= a < b < |c| && c[a].index == c[b].index
        && ReadColfileSpec(lines, single, global) == Err(DuplicateIndex(c[a].index))
  {
    ConcatDistinctIff(entries);
    var c := Concatenated(entries);
    var labels := Indices(c);
    if ReadColfileSpec(lines, single, global).Err? {
      var n := RepeatedIndex(labels).value;
      var a, b :| 0 <= a < b < |labels| && labels[a] == n && labels[b] == n;
      assert c[a].index == c[b].index == n;
    }
  }

  /** A line that does not parse makes `read_colfile` fail with that
      line's error. */
  lemma ReadColfileUnparsed(lines: seq<string>, k: nat, single: seq<Rule>, global: seq<Rule>)
    requires WellFormedRules(single) && WellFormedRules(global)
    requires k < |lines| && ParseLine(lines[k]).Err?
    ensures ReadColfileSpec(lines, single, global).Err?
    ensures exists j :: (0 <= j < |lines| && ParseLine(lines[j]).Err?
                         && ReadColfileSpec(lines, single, global).error == ParseLine(lines[j]).error)
  {
  }

  /** The name table has one row per line, in file order, with the line's
      own number and description; a SINGLE line, and a GLOBAL line whose
      number no SINGLE line carries, gets the canonical name of its own
      description. */
  lemma ReadColfileRows(lines: seq<string>, entries: seq<ColumnEntry>, single: seq<Rule>, global: seq<Rule>)
    requires WellFormedRules(single) && WellFormedRules(global)
    requires ParseLines(lines) == Ok(entries) && ReadColfileSpec(lines, single, global).Ok?
    ensures var t := ReadColfileSpec(lines, single, global).value;
      |t| == |lines| &&
      forall k :: 0 <= k < |lines| ==>
        t[k].index == entries[k].index && t[k].desc == entries[k].desc && ParseLine(lines[k]) == Ok(entries[k])
        && ((IsSingleEntry(entries[k])
             || forall j :: 0 <= j < |entries| && IsSingleEntry(entries[j]) ==> entries[j].index != entries[k].index)
            ==> t[k].name == CanonicalName(entries[k].desc, single, global))
  {
    var t := Resolve(entries, single, global);
    assert ReadColfileSpec(lines, single, global) == Ok(t);
    forall k | 0 <= k < |lines|
      ensures (IsSingleEntry(entries[k])
               || forall j :: 0 <= j < |entries| && IsSingleEntry(entries[j]) ==> entries[j].index != entries[k].index)
              ==> t[k].name == CanonicalName(entries[k].desc, single, global)
    {
      assert t[k].name == CanonicalName(entries[Owner(entries, k)].desc, single, global);
    }
  }

  /** A GLOBAL line that shares its number with a SINGLE line gets that
      SINGLE line's name: its own row was dropped, and realignment by label
      copies the SINGLE line's name onto it. */
  lemma ReadColfileSharedNumber(lines: seq<string>, entries: seq<ColumnEntry>, k: nat, j: nat,
                                single: seq<Rule>, global: seq<Rule>)
    requires WellFormedRules(single) && WellFormedRules(global)
    requires ParseLines(lines) == Ok(entries) && ReadColfileSpec(lines, single, global).Ok?
    requires k < |entries| && j < |entries| && !IsSingleEntry(entries[k]) && IsSingleEntry(entries[j])
    requires entries[j].index == entries[k].index
    ensures ReadColfileSpec(lines, single, global).value[k].name == CanonicalName(entries[j].desc, single, global)
  {
    var o := Owner(entries, k);
    DroppedShortens(entries, k);
    assert Indices(Concatenated(entries)) != Indices(entries);
    ConcatDistinctIff(entries);
    assert IsSingleEntry(entries[o]) && SinglesDistinct(entries);
  }

  /** With all numbers different, every line names itself. */
  lemma DistinctOwner(entries: seq<ColumnEntry>, k: nat)
    requires k < |entries|
    requires forall a, b :: 0 <= a < b < |entries| ==> entries[a].index != entries[b].index
    ensures Owner(entries, k) == k
  {
    if !IsSingleEntry(entries[k]) {
      forall j | 0 <= j < |entries| && IsSingleEntry(entries[j]) ensures entries[j].index != entries[k].index {
        assert j < k || k < j;
      }
    }
  }

  /** When the column numbers are all different, as DOLPHOT writes them,
      the table exists and every line gets the canonical name of its own
      description. */
  lemma ReadColfileDistinctNumbers(lines: seq<string>, entries: seq<ColumnEntry>, single: seq<Rule>, global: seq<Rule>)
    requires WellFormedRules(single) && WellFormedRules(global)
    requires ParseLines(lines) == Ok(entries) && Distinct(Indices(entries))
    ensures ReadColfileSpec(lines, single, global).Ok?
    ensures forall k :: 0 <= k < |lines| ==>
      ReadColfileSpec(lines, single, global).value[k] ==
        NamedColumn(entries[k].index, entries[k].desc, CanonicalName(entries[k].desc, single, global))
  {
    assert forall a, b :: 0 <= a < b < |entries| ==> entries[a].index != entries[b].index by {
      var ns := Indices(entries);
      forall a, b | 0 <= a < b < |entries| ensures entries[a].index != entries[b].index {
        assert ns[a] != ns[b];
      }
    }
    DistinctConcat(entries);
    var t := Resolve(entries, single, global);
    assert ReadColfileSpec(lines, single, global) == Ok(t);
    forall k | 0 <= k < |lines|
      ensures t[k] == NamedColumn(entries[k].index, entries[k].desc, CanonicalName(entries[k].desc, single, global))
    {
      DistinctOwner(entries, k);
    }
  }

  /** Row `k` of the table: the line's number and description, and the
      canonical name of its owner's description. */
  lemma ResolvedRow(entries: seq<ColumnEntry>, single: seq<Rule>, global: seq<Rule>, k: nat)
    requires WellFormedRules(single) && WellFormedRules(global) && k < |entries|
    ensures |Resolve(entries, single, global)| == |entries|
    ensures Resolve(entries, single, global)[k] ==
      NamedColumn(entries[k].index, entries[k].desc, CanonicalName(entries[Owner(entries, k)].desc, single, global))
  {
  }

  // --------------------------- small files showing the realignment rule

  /** Two GLOBAL lines with one number: nothing is dropped, the labels are
      the file's own, and each line keeps its own name. */
  lemma TwoGlobalsOneNumber(e1: ColumnEntry, e2: ColumnEntry, single: seq<Rule>, global: seq<Rule>)
    requires WellFormedRules(single) && WellFormedRules(global)
    requires !IsSingleEntry(e1) && !IsSingleEntry(e2) && e1.index == e2.index
    ensures var r := ResolveEntries([e1, e2], single, global);
      r.Ok? && |r.value| == 2
      && r.value[0].name == CanonicalName(e1.desc, single, global)
      && r.value[1].name == CanonicalName(e2.desc, single, global)
  {
    var entries := [e1, e2];
    GlobalsConcat(e1, e2);
    var t := Resolve(entries, single, global);
    assert ResolveEntries(entries, single, global) == Ok(t);
    assert Owner(entries, 0) == 0 && Owner(entries, 1) == 1;
    ResolvedRow(entries, single, global, 0);
    ResolvedRow(entries, single, global, 1);
  }

  /** The concatenation for the file of `TwoGlobalsOneNumber`: both lines,
      in order. */
  lemma GlobalsConcat(e1: ColumnEntry, e2: ColumnEntry)
    requires !IsSingleEntry(e1) && !IsSingleEntry(e2)
    ensures Concatenated([e1, e2]) == [e1, e2]
  {
    var entries := [e1, e2];
    var keep := KeepGlobal(entries);
    assert SingleWith(entries, e1.index).None? && SingleWith(entries, e2.index).None?;
    assert keep(e1) && keep(e2);
    FilterTwo(e1, e2, keep);
    FilterTwo(e1, e2, IsSingleEntry);
  }

  /** A SINGLE line and then a GLOBAL line with the same number: the GLOBAL
      line is dropped and then receives the SINGLE line's name. */
  lemma SingleLendsName(e1: ColumnEntry, e2: ColumnEntry, single: seq<Rule>, global: seq<Rule>)
    requires WellFormedRules(single) && WellFormedRules(global)
    requires IsSingleEntry(e1) && !IsSingleEntry(e2) && e1.index == e2.index
    ensures var r := ResolveEntries([e1, e2], single, global);
      r.Ok? && |r.value| == 2
      && r.value[0].name == CanonicalName(e1.desc, single, global)
      && r.value[1].name == CanonicalName(e1.desc, single, global)
  {
    var entries := [e1, e2];
    LendingConcat(e1, e2);
    assert Indices([e1]) != Indices(entries);
    var t := Resolve(entries, single, global);
    assert ResolveEntries(entries, single, global) == Ok(t);
    assert Owner(entries, 0) == 0 && Owner(entries, 1) == 0;
    ResolvedRow(entries, single, global, 0);
    ResolvedRow(entries, single, global, 1);
  }

  /** The concatenation for the file of `SingleLendsName`: the SINGLE line
      alone. */
  lemma LendingConcat(e1: ColumnEntry, e2: ColumnEntry)
    requires IsSingleEntry(e1) && !IsSingleEntry(e2) && e1.index == e2.index
    ensures Concatenated([e1, e2]) == [e1]
    ensures SingleWith([e1, e2], e2.index) == Some(0)
  {
    var entries := [e1, e2];
    var keep := KeepGlobal(entries);
    assert SingleWith(entries, e2.index) == Some(0);
    assert !keep(e1) && !keep(e2);
    FilterTwo(e1, e2, keep);
    FilterTwo(e1, e2, IsSingleEntry);
  }

  /** Two SINGLE lines sharing a number around a GLOBAL line with another
      number: the concatenated labels are reordered and repeat, so
      realignment fails. */
  lemma SplitSinglesFail(e1: ColumnEntry, e2: ColumnEntry, e3: ColumnEntry, single: seq<Rule>, global: seq<Rule>)
    requires WellFormedRules(single) && WellFormedRules(global)
    requires IsSingleEntry(e1) && !IsSingleEntry(e2) && IsSingleEntry(e3)
    requires e1.index == e3.index && e2.index != e1.index
    ensures ResolveEntries([e1, e2, e3], single, global) == Err(DuplicateIndex(e1.index))
  {
    var entries := [e1, e2, e3];
    SplitSinglesConcat(e1, e2, e3);
    var labels := Indices(Concatenated(entries));
    assert labels[0] == e2.index && labels[1] == e1.index && labels[2] == e1.index && |labels| == 3;
    assert labels != Indices(entries) by {
      assert labels[0] != Indices(entries)[0];
    }
    assert !Distinct(labels) by {
      assert labels[1] == labels[2];
    }
    RepeatedOnly(labels, e1.index);
  }

  /** The concatenation for the file of `SplitSinglesFail`: the GLOBAL line,
      then the two SINGLE lines. */
  lemma SplitSinglesConcat(e1: ColumnEntry, e2: ColumnEntry, e3: ColumnEntry)
    requires IsSingleEntry(e1) && !IsSingleEntry(e2) && IsSingleEntry(e3)
    requires e1.index == e3.index && e2.index != e1.index
    ensures Concatenated([e1, e2, e3]) == [e2, e1, e3]
  {
    var entries := [e1, e2, e3];
    var keep := KeepGlobal(entries);
    assert SingleWith(entries, e2.index).None?;
    assert !keep(e1) && keep(e2) && !keep(e3);
    FilterThree(e1, e2, e3, keep);
    FilterThree(e1, e2, e3, IsSingleEntry);
  }

  /** In `[m, n, n]` with `m != n` the repeated label is `n`. */
  lemma RepeatedOnly(labels: seq<nat>, n: nat)
    requires |labels| == 3 && labels[1] == n && labels[2] == n && labels[0] != n
    ensures RepeatedIndex(labels) == Some(n)
  {
  }

  /** The loop `for k, v in rules.items(): names = names.replace(...)` over
      the names whose `apply` flag is set: each rule in turn rewrites every
      selected defined name; NaN and unselected names stay as they are. */
  method ApplyChain(names: seq<Option<string>>, apply: seq<bool>, rules: seq<Rule>)
    returns (out: seq<Option<string>>)
    requires |apply| == |names| && WellFormedRules(rules)
    ensures |out| == |names|
    ensures forall k :: 0 <= k < |names| ==> out[k] == if apply[k] then MapRules(rules, names[k]) else names[k]
  {
    out := names;
    var i := 0;
    while i < |rules|
      invariant 0 <= i <= |rules| && |out| == |names|
      invariant forall k :: 0 <= k < |names| ==>
        out[k] == if apply[k] then MapRules(rules[..i], names[k]) else names[k]
    {
      var rule := rules[i];
      assert rule in rules;
      ghost var before := out;
      out := seq(|names|, k requires 0 <= k < |names| =>
        if apply[k] && out[k].Some? then Some(ApplyRule(rule, out[k].value)) else out[k]);
      assert rules[..i + 1][..i] == rules[..i] && rules[..i + 1][i] == rule;
      forall k | 0 <= k < |names| && apply[k] ensures out[k] == MapRules(rules[..i + 1], names[k]) {
        assert before[k] == MapRules(rules[..i], names[k]);
      }
      i := i + 1;
    }
    assert rules[..|rules|] == rules;
  }

  /** Which entries are SINGLE (`is_single`). */
  function SingleMask(entries: seq<ColumnEntry>): (m: seq<bool>)
    ensures |m| == |entries|
    ensures forall k :: 0 <= k < |entries| ==> m[k] == IsSingleEntry(entries[k])
  {
    seq(|entries|, k requires 0 <= k < |entries| => IsSingleEntry(entries[k]))
  }

  /** `names_global` and `names_single` before the rules, row by row. */
  function FirstPieces(entries: seq<ColumnEntry>): (names: seq<Option<string>>)
    ensures |names| == |entries|
    ensures forall k :: 0 <= k < |entries| ==>
      names[k] == (if IsSingleEntry(entries[k]) then Some(SingleShortName(entries[k].desc))
                   else GlobalShortName(entries[k].desc))
  {
    seq(|entries|, k requires 0 <= k < |entries| =>
      if IsSingleEntry(entries[k]) then Some(SingleShortName(entries[k].desc))
      else GlobalShortName(entries[k].desc))
  }

  /** `prefix_global` and `prefix_single`, row by row. */
  function Prefixes(entries: seq<ColumnEntry>): (p: seq<Option<string>>)
    ensures |p| == |entries|
    ensures forall k :: 0 <= k < |entries| ==> p[k] == Prefix(entries[k].desc)
  {
    seq(|entries|, k requires 0 <= k < |entries| => Prefix(entries[k].desc))
  }

  /** The final names, joined position by position. */
  function Table(entries: seq<ColumnEntry>, prefixes: seq<Option<string>>, names: seq<Option<string>>): (t: seq<NamedColumn>)
    requires |prefixes| == |entries| && |names| == |entries|
    ensures |t| == |entries|
    ensures forall k :: 0 <= k < |entries| ==>
      t[k] == NamedColumn(entries[k].index, entries[k].desc, JoinName(prefixes[k], names[k]))
  {
    seq(|entries|, k requires 0 <= k < |entries| =>
      NamedColumn(entries[k].index, entries[k].desc, JoinName(prefixes[k], names[k])))
  }

  /** `read_colfile` step by step: parse; drop the GLOBAL lines that share
      a number with a SINGLE line and concatenate the two groups; run the
      SINGLE rules over the SINGLE short names; realign on the file's
      labels; run the global rules; realign the prefixes the same way; join
      prefix and upper-cased short name. */
  method ReadColfile(lines: seq<string>, single: seq<Rule>, global: seq<Rule>) returns (r: Result<seq<NamedColumn>>)
    requires WellFormedRules(single) && WellFormedRules(global)
    ensures r == ReadColfileSpec(lines, single, global)
  {
    var entries :- ParseLines(lines);
    var concat := Concatenated(entries);
    var labels := Indices(concat);
    var first := FirstPieces(concat);
    var raw := ApplyChain(first, SingleMask(concat), single);
    SingleChainNames(concat, first, raw, single);
    var realigned :- Reindex(labels, raw, Indices(entries));
    var names := ApplyChain(realigned, Everywhere(|realigned|), global);
    var realignedPrefixes := Reindex(labels, Prefixes(concat), Indices(entries));
    var prefixes := realignedPrefixes.value;
    RealignedTable(entries, raw, realigned, names, prefixes, single, global);
    return Ok(Table(entries, prefixes, names));
  }

  function Everywhere(n: nat): (m: seq<bool>)
    ensures |m| == n && forall k :: 0 <= k < n ==> m[k]
  {
    seq(n, k => true)
  }

  /** After the SINGLE chain every entry has its short name before the
      global rules. */
  lemma SingleChainNames(entries: seq<ColumnEntry>, first: seq<Option<string>>, raw: seq<Option<string>>, single: seq<Rule>)
    requires WellFormedRules(single)
    requires first == FirstPieces(entries) && |raw| == |entries|
    requires forall k :: 0 <= k < |entries| ==>
      raw[k] == if SingleMask(entries)[k] then MapRules(single, first[k]) else first[k]
    ensures forall k :: 0 <= k < |entries| ==> raw[k] == RawShortName(entries[k].desc, single)
  {
  }

  /** Realigning the short names and the prefixes computed on the
      concatenation, then joining them, gives every line the canonical name
      of its owner's description. */
  lemma RealignedTable(entries: seq<ColumnEntry>, raw: seq<Option<string>>, realigned: seq<Option<string>>,
                       names: seq<Option<string>>, prefixes: seq<Option<string>>, single: seq<Rule>, global: seq<Rule>)
    requires WellFormedRules(single) && WellFormedRules(global)
    requires |raw| == |Concatenated(entries)|
    requires forall i :: 0 <= i < |raw| ==> raw[i] == RawShortName(Concatenated(entries)[i].desc, single)
    requires Reindex(Indices(Concatenated(entries)), raw, Indices(entries)) == Ok(realigned)
    requires |names| == |realigned| && forall k :: 0 <= k < |realigned| ==> names[k] == MapRules(global, realigned[k])
    requires Reindex(Indices(Concatenated(entries)), Prefixes(Concatenated(entries)), Indices(entries)) == Ok(prefixes)
    ensures |prefixes| == |entries| && |names| == |entries|
    ensures Table(entries, prefixes, names) == Resolve(entries, single, global)
  {
    var c := Concatenated(entries);
    var t, u := Table(entries, prefixes, names), Resolve(entries, single, global);
    forall k | 0 <= k < |entries| ensures t[k] == u[k] {
      var i := ReindexedRow(entries, raw, realigned, k);
      var i' := ReindexedRow(entries, Prefixes(c), prefixes, k);
      var d := entries[Owner(entries, k)].desc;
      assert realigned[k] == RawShortName(d, single) && prefixes[k] == Prefix(d);
    }
  }
}
