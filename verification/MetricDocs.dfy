/**
 What a metric's name means: the check made when a run records it, the share of
 the declaration written beside the run, and the audit over an experiment.

 The three decide in code of their own. They are proved to agree: a name a run
 was allowed to record, under a repository that requires descriptions, is
 described in the run's own file and by the audit over all runs' files.
*/
module MetricDocs {
  import opened Wrappers
  import opened Sequences

  /** A family of names: a dotted template, and what the family measures. */
  datatype Pattern = Pattern(template: string, meaning: Option<string>)

  /** A repository's declaration; `metrics` are the names it describes exactly. */
  datatype Declaration = Declaration(requireDocs: bool, metrics: set<string>, patterns: seq<Pattern>)

  /** Written `{name}`, with something inside. */
  predicate IsAxis(segment: string) {
    |segment| > 2 && segment[0] == '{' && segment[|segment| - 1] == '}'
  }

  predicate SegmentsMatch(want: seq<string>, got: seq<string>) {
    |want| == |got| && forall i :: 0 <= i < |want| ==> IsAxis(want[i]) || want[i] == got[i]
  }

  /** Segment counts must agree; an axis matches any one segment. */
  predicate Matches(template: string, name: string) {
    SegmentsMatch(Split(template, '.'), Split(name, '.'))
  }

  /** The first family a name belongs to. */
  function FamilyOf(patterns: seq<Pattern>, name: string): (r: Option<nat>)
    ensures r.Some? ==> r.value < |patterns| && Matches(patterns[r.value].template, name)
    ensures r.Some? ==> forall i :: 0 <= i < r.value ==> !Matches(patterns[i].template, name)
    ensures r.Some? <==> exists p :: p in patterns && Matches(p.template, name)
  {
    if patterns == [] then None
    else if Matches(patterns[0].template, name) then
      assert patterns[0] in patterns;
      Some(0)
    else
      assert patterns == [patterns[0]] + patterns[1..];
      match FamilyOf(patterns[1..], name)
      case None => None
      case Some(i) => Some(i + 1)
  }

  /** A name is made from a template by putting a text without dots for each segment written `{...}`. */
  ghost predicate Instance(template: string, name: string) {
    exists want, got ::
      && ArePieces(template, '.', want) && ArePieces(name, '.', got) && |want| == |got|
      && forall i :: 0 <= i < |want| ==> want[i] == got[i] || exists inner :: IsBraced(want[i], inner)
  }

  predicate IsBraced(segment: string, inner: string) {
    inner != "" && segment == "{" + inner + "}"
  }

  lemma AxisIsBraced(segment: string)
    ensures IsAxis(segment) <==> exists inner :: IsBraced(segment, inner)
  {
    if IsAxis(segment) {
      var inner := segment[1..|segment| - 1];
      assert segment == "{" + inner + "}";
      assert IsBraced(segment, inner);
    }
  }

  /** A family has exactly the names that its template makes. */
  lemma MatchesIffInstance(template: string, name: string)
    ensures Matches(template, name) <==> Instance(template, name)
  {
    var want, got := Split(template, '.'), Split(name, '.');
    SplitGivesThePieces(template, '.', want);
    SplitGivesThePieces(name, '.', got);
    forall i | 0 <= i < |want|
      ensures IsAxis(want[i]) <==> exists inner :: IsBraced(want[i], inner)
    {
      AxisIsBraced(want[i]);
    }
    forall a, b | ArePieces(template, '.', a) && ArePieces(name, '.', b)
      ensures a == want && b == got
    {
      SplitGivesThePieces(template, '.', a);
      SplitGivesThePieces(name, '.', b);
    }
  }

  // The check when a name is recorded

  predicate Describes(d: Declaration, name: string) {
    name in d.metrics || exists p :: p in d.patterns && Matches(p.template, name)
  }

  /** Whether a run may record a name; `root` says whether the repository is known. */
  predicate Allowed(root: bool, declaration: Option<Declaration>, vocabulary: set<string>, name: string) {
    if !root then true
    else if name in vocabulary then true
    else match declaration
      case None => false
      case Some(d) => !d.requireDocs || Describes(d, name)
  }

  /** Without a repository every name may be recorded; with one, a core name or one its declaration lets through. */
  lemma AllowedIff(root: bool, declaration: Option<Declaration>, vocabulary: set<string>, name: string)
    ensures Allowed(root, declaration, vocabulary, name) <==>
            || root == false || name in vocabulary
            || exists d :: declaration == Some(d) &&
                 (d.requireDocs == false || name in d.metrics ||
                  exists i :: 0 <= i < |d.patterns| && Instance(d.patterns[i].template, name))
  {
    if declaration.Some? {
      var d := declaration.value;
      forall p | p in d.patterns
        ensures Matches(p.template, name) <==> Instance(p.template, name)
      {
        MatchesIffInstance(p.template, name);
      }
    }
  }

  /** A run's metric rows, by name; the check is made only when a name first appears. */
  class Recorder {
    const root: bool
    const declaration: Option<Declaration>
    const vocabulary: set<string>
    var rows: seq<string>
    var metricNames: set<string>

    ghost predicate Valid()
      reads this
    {
      && (forall name :: name in metricNames <==> name in rows)
      && (forall name :: name in metricNames ==> Allowed(root, declaration, vocabulary, name))
    }

    constructor (root: bool, declaration: Option<Declaration>, vocabulary: set<string>)
      ensures Valid() && rows == []
      ensures this.root == root && this.declaration == declaration && this.vocabulary == vocabulary
    {
      this.root := root;
      this.declaration := declaration;
      this.vocabulary := vocabulary;
      rows, metricNames := [], {};
    }

    /** Appends a row exactly when its name is allowed, although only new names are asked about. */
    method AppendMetricRow(name: string) returns (written: bool)
      requires Valid()
      modifies this
      ensures Valid()
      ensures written <==> Allowed(root, declaration, vocabulary, name)
      ensures rows == if written then old(rows) + [name] else old(rows)
    {
      if name !in metricNames && !Allowed(root, declaration, vocabulary, name) { return false; }
      rows := rows + [name];
      metricNames := metricNames + {name};
      written := true;
    }
  }

  // Where a description comes from

  datatype Described = ByName | ByVocabulary | ByFamily(family: nat) | Not

  /** The audit's order of authority: the exact name, the core vocabulary, a family. */
  function Classify(docs: set<string>, vocabulary: set<string>, patterns: seq<Pattern>, name: string): Described {
    if name in docs then ByName
    else if name in vocabulary then ByVocabulary
    else match FamilyOf(patterns, name)
      case Some(i) => ByFamily(i)
      case None => Not
  }

  /** The exact name first, then the core vocabulary, then the first family; and nothing only if none of them. */
  lemma ClassifyIff(docs: set<string>, vocabulary: set<string>, patterns: seq<Pattern>, name: string, kind: Described)
    ensures Classify(docs, vocabulary, patterns, name) == kind <==>
            match kind
            case ByName => name in docs
            case ByVocabulary => name !in docs && name in vocabulary
            case ByFamily(i) =>
              && name !in docs && name !in vocabulary && i < |patterns| && Instance(patterns[i].template, name)
              && forall j :: 0 <= j < i ==> !Instance(patterns[j].template, name)
            case Not =>
              && name !in docs && name !in vocabulary
              && forall j :: 0 <= j < |patterns| ==> !Instance(patterns[j].template, name)
  {
    forall j | 0 <= j < |patterns|
      ensures Matches(patterns[j].template, name) <==> Instance(patterns[j].template, name)
    {
      MatchesIffInstance(patterns[j].template, name);
    }
    var family := FamilyOf(patterns, name);
    if family.None? {
      forall j | 0 <= j < |patterns|
        ensures !Matches(patterns[j].template, name)
      {
        assert patterns[j] in patterns;
      }
    }
  }

  /** How many of the names have a description of one kind. */
  function Count(
    docs: set<string>, vocabulary: set<string>, patterns: seq<Pattern>, names: seq<string>, kind: Described): nat {
    if names == [] then 0
    else Count(docs, vocabulary, patterns, Front(names), kind) + if Classify(docs, vocabulary, patterns, Last(names)) ==
        kind then 1 else 0
  }

  /** The names that nothing describes, in order. */
  function Undescribed(
    docs: set<string>, vocabulary: set<string>, patterns: seq<Pattern>, names: seq<string>): seq<string> {
    if names == [] then []
    else
      Undescribed(docs, vocabulary, patterns, Front(names)) +
      if Classify(docs, vocabulary, patterns, Last(names)).Not? then [Last(names)] else []
  }

  function Sum(counts: seq<nat>): nat {
    if counts == [] then 0 else Sum(Front(counts)) + Last(counts)
  }

  lemma {:induction false} SumIncrements(counts: seq<nat>, i: nat)
    requires i < |counts|
    ensures Sum(counts[i := counts[i] + 1]) == Sum(counts) + 1
  {
    var more := counts[i := counts[i] + 1];
    if i == |counts| - 1 {
      assert Front(more) == Front(counts);
    } else {
      assert Front(more) == Front(counts)[i := counts[i] + 1];
      SumIncrements(Front(counts), i);
    }
  }

  lemma {:induction false} SumOfZeros(n: nat)
    ensures Sum(seq(n, _ => 0)) == 0
  {
    if n > 0 {
      assert Front(seq(n, _ => 0)) == seq(n - 1, _ => 0);
      SumOfZeros(n - 1);
    }
  }

  /** What is counted of some names: with exact docs, in the vocabulary, in each family, and by nothing. */
  datatype Tally = Tally(byName: nat, byVocabulary: nat, perFamily: seq<nat>, undescribed: seq<string>)

  /** The tally is right, and no name is lost or counted twice. */
  ghost predicate Tallies(
    docs: set<string>, vocabulary: set<string>, patterns: seq<Pattern>, names: seq<string>, t: Tally) {
    && t.byName == Count(docs, vocabulary, patterns, names, ByName)
    && t.byVocabulary == Count(docs, vocabulary, patterns, names, ByVocabulary)
    && |t.perFamily| == |patterns|
    && (forall i :: 0 <= i < |patterns| ==> t.perFamily[i] == Count(docs, vocabulary, patterns, names, ByFamily(i)))
    && t.undescribed == Undescribed(docs, vocabulary, patterns, names)
    && t.byName + t.byVocabulary + Sum(t.perFamily) + |t.undescribed| == |names|
  }

  function Add(t: Tally, kind: Described, name: string): Tally
    requires kind.ByFamily? ==> kind.family < |t.perFamily|
  {
    match kind
    case ByName => t.(byName := t.byName + 1)
    case ByVocabulary => t.(byVocabulary := t.byVocabulary + 1)
    case ByFamily(i) => t.(perFamily := t.perFamily[i := t.perFamily[i] + 1])
    case Not => t.(undescribed := t.undescribed + [name])
  }

  lemma OneMoreName(
    docs: set<string>, vocabulary: set<string>, patterns: seq<Pattern>, names: seq<string>, t: Tally, name: string)
    requires Tallies(docs, vocabulary, patterns, names, t)
    ensures Tallies(docs, vocabulary, patterns, names + [name],
        Add(t, Classify(docs, vocabulary, patterns, name), name))
  {
    var longer := names + [name];
    assert Front(longer) == names && Last(longer) == name;
    var kind := Classify(docs, vocabulary, patterns, name);
    if kind.ByFamily? { SumIncrements(t.perFamily, kind.family); }
  }

  lemma NoNames(docs: set<string>, vocabulary: set<string>, patterns: seq<Pattern>)
    ensures Tallies(docs, vocabulary, patterns, [], Tally(0, 0, seq(|patterns|, _ => 0), []))
  {
    SumOfZeros(|patterns|);
  }

  /** The audit's counting loop over one experiment. */
  method CountNames(
    docs: set<string>, vocabulary: set<string>, patterns: seq<Pattern>, names: seq<string>) returns (t: Tally)
    ensures Tallies(docs, vocabulary, patterns, names, t)
  {
    t := Tally(0, 0, seq(|patterns|, _ => 0), []);
    NoNames(docs, vocabulary, patterns);
    for i := 0 to |names|
      invariant Tallies(docs, vocabulary, patterns, names[..i], t)
    {
      OneMoreName(docs, vocabulary, patterns, names[..i], t, names[i]);
      assert names[..i] + [names[i]] == names[..i + 1];
      t := Add(t, Classify(docs, vocabulary, patterns, names[i]), names[i]);
    }
    assert names[..|names|] == names;
  }

  /** The families that described some name, with how many each. */
  function Used(patterns: seq<Pattern>, counts: seq<nat>): seq<(Pattern, nat)>
    requires |patterns| == |counts|
  {
    if patterns == [] then []
    else Used(Front(patterns), Front(counts)) + if Last(counts) > 0 then [(Last(patterns), Last(counts))] else []
  }

  /** What is written beside a run. */
  datatype MetricsMeta = MetricsMeta(metrics: set<string>, patterns: seq<(Pattern, nat)>, undescribed: seq<string>)

  /** The names that are described themselves. */
  function NamedIn(docs: set<string>, names: seq<string>): set<string> {
    set name | name in names && name in docs
  }

  lemma OneMoreNamed(docs: set<string>, names: seq<string>, name: string)
    ensures NamedIn(docs, names + [name]) == if name in docs then NamedIn(docs, names) + {name}
        else NamedIn(docs, names)
  {
  }

  /** The share of a declaration that applies to some names. */
  ghost predicate Shares(d: Declaration, vocabulary: set<string>, names: seq<string>, meta: MetricsMeta) {
    exists t :: Tallies(d.metrics, vocabulary, d.patterns, names, t)
      && meta.metrics == NamedIn(d.metrics, names)
      && meta.patterns == Used(d.patterns, t.perFamily)
      && meta.undescribed == t.undescribed
  }

  /** The declaration's own loop, which skips a name as soon as something describes it. */
  method Resolve(d: Declaration, vocabulary: set<string>, names: seq<string>) returns (meta: MetricsMeta)
    ensures Shares(d, vocabulary, names, meta)
  {
    var metrics: set<string> := {};
    var counts: seq<nat> := seq(|d.patterns|, _ => 0);
    var undescribed: seq<string> := [];
    ghost var t := Tally(0, 0, counts, undescribed);
    NoNames(d.metrics, vocabulary, d.patterns);
    for i := 0 to |names|
      invariant Tallies(d.metrics, vocabulary, d.patterns, names[..i], t) && t.perFamily == counts &&
          t.undescribed == undescribed
      invariant metrics == NamedIn(d.metrics, names[..i])
    {
      var name := names[i];
      OneMoreName(d.metrics, vocabulary, d.patterns, names[..i], t, name);
      OneMoreNamed(d.metrics, names[..i], name);
      assert names[..i] + [name] == names[..i + 1];
      t := Add(t, Classify(d.metrics, vocabulary, d.patterns, name), name);
      if name in d.metrics {
        metrics := metrics + {name};
        continue;
      }
      if name in vocabulary { continue; }
      var family := FamilyOf(d.patterns, name);
      if family.Some? {
        counts := counts[family.value := counts[family.value] + 1];
      } else {
        undescribed := undescribed + [name];
      }
    }
    assert names[..|names|] == names;
    meta := MetricsMeta(metrics, Used(d.patterns, counts), undescribed);
  }

  // Agreement

  /** For a known repository with a declaration, the check at recording time and the classification decide alike. */
  lemma AllowedIffClassified(d: Declaration, vocabulary: set<string>, name: string)
    ensures Allowed(true, Some(d), vocabulary, name) <==>
            !d.requireDocs || !Classify(d.metrics, vocabulary, d.patterns, name).Not?
  {
  }

  lemma {:induction false} UndescribedExactly(
    docs: set<string>, vocabulary: set<string>, patterns: seq<Pattern>, names: seq<string>, name: string)
    ensures name in Undescribed(docs, vocabulary, patterns, names) <==>
            name in names && Classify(docs, vocabulary, patterns, name).Not?
  {
    if names != [] {
      UndescribedExactly(docs, vocabulary, patterns, Front(names), name);
      assert names == Front(names) + [Last(names)];
    }
  }

  lemma {:induction false} CountedIfPresent(
    docs: set<string>, vocabulary: set<string>, patterns: seq<Pattern>, names: seq<string>, name: string)
    requires name in names
    ensures Count(docs, vocabulary, patterns, names, Classify(docs, vocabulary, patterns, name)) > 0
  {
    assert names == Front(names) + [Last(names)];
    if name != Last(names) {
      CountedIfPresent(docs, vocabulary, patterns, Front(names), name);
    }
  }

  lemma {:induction false} UsedExactly(patterns: seq<Pattern>, counts: seq<nat>, p: Pattern)
    requires |patterns| == |counts|
    ensures (exists e :: e in Used(patterns, counts) && e.0 == p) <==>
        exists i :: 0 <= i < |patterns| && patterns[i] == p && counts[i] > 0
  {
    if patterns != [] {
      var last := |patterns| - 1;
      UsedExactly(Front(patterns), Front(counts), p);
      if i :| 0 <= i < |patterns| && patterns[i] == p && counts[i] > 0 {
        if i < last {
          assert Front(patterns)[i] == p && Front(counts)[i] > 0;
          var e :| e in Used(Front(patterns), Front(counts)) && e.0 == p;
          assert e in Used(patterns, counts);
        } else {
          assert (p, counts[last]) in Used(patterns, counts);
        }
      }
      if e :| e in Used(patterns, counts) && e.0 == p {
        if e in Used(Front(patterns), Front(counts)) {
          var i :| 0 <= i < last && Front(patterns)[i] == p && Front(counts)[i] > 0;
          assert patterns[i] == p && counts[i] > 0;
        } else {
          assert patterns[last] == p && counts[last] > 0;
        }
      }
    }
  }

  /** A run that has finished: its repository's declaration, the names it recorded, and the file it wrote about them. */
  datatype Finished = Finished(declaration: Option<Declaration>, names: seq<string>, meta: MetricsMeta)

  const NOTHING := MetricsMeta({}, [], [])

  /** The run came from a known repository; its names passed the check, and its file is the declaration's share. */
  ghost predicate Sound(vocabulary: set<string>, run: Finished) {
    && (forall name :: name in run.names ==> Allowed(true, run.declaration, vocabulary, name))
    && (if run.declaration.None? then run.meta == NOTHING
        else Shares(run.declaration.value, vocabulary, run.names, run.meta))
  }

  predicate Requires(run: Finished) {
    run.declaration.Some? ==> run.declaration.value.requireDocs
  }

  /** Where descriptions are required, the run's own file lists no name as undescribed. */
  lemma AllowedIsNeverUndescribed(vocabulary: set<string>, run: Finished)
    requires Sound(vocabulary, run) && Requires(run)
    ensures run.meta.undescribed == []
  {
    if run.declaration.Some? && run.meta.undescribed != [] {
      var d, name := run.declaration.value, run.meta.undescribed[0];
      assert name in Undescribed(d.metrics, vocabulary, d.patterns, run.names);
      UndescribedExactly(d.metrics, vocabulary, d.patterns, run.names, name);
      AllowedIffClassified(d, vocabulary, name);
      assert false;
    }
  }

  ghost predicate CarriesPattern(meta: MetricsMeta, p: Pattern) {
    exists e :: e in meta.patterns && e.0 == p
  }

  /** The descriptions of an experiment: the union of its runs' files. */
  ghost predicate Gathered(runs: seq<Finished>, docs: set<string>, patterns: seq<Pattern>) {
    && (forall name :: name in docs <==> exists run :: run in runs && name in run.meta.metrics)
    && (forall p :: p in patterns <==> exists run :: run in runs && CarriesPattern(run.meta, p))
  }

  /** What describes a name in its run's declaration goes into the run's file. */
  lemma DescriptionTravels(vocabulary: set<string>, d: Declaration, names: seq<string>, meta: MetricsMeta, name: string)
    requires Shares(d, vocabulary, names, meta) && name in names
    ensures match Classify(d.metrics, vocabulary, d.patterns, name)
            case ByName => name in meta.metrics
            case ByVocabulary => name in vocabulary
            case ByFamily(i) => i < |d.patterns| && Matches(d.patterns[i].template, name) &&
                CarriesPattern(meta, d.patterns[i])
            case Not => name !in meta.metrics
  {
    var kind := Classify(d.metrics, vocabulary, d.patterns, name);
    if kind.ByFamily? {
      var t :| Tallies(d.metrics, vocabulary, d.patterns, names, t) && meta.patterns == Used(d.patterns, t.perFamily);
      CountedIfPresent(d.metrics, vocabulary, d.patterns, names, name);
      assert t.perFamily[kind.family] > 0;
      UsedExactly(d.patterns, t.perFamily, d.patterns[kind.family]);
    }
  }

  lemma CarriedIsDeclared(vocabulary: set<string>, d: Declaration, names: seq<string>, meta: MetricsMeta, p: Pattern)
    requires Shares(d, vocabulary, names, meta) && CarriesPattern(meta, p)
    ensures p in d.patterns
  {
    var t :| Tallies(d.metrics, vocabulary, d.patterns, names, t) && meta.patterns == Used(d.patterns, t.perFamily);
    UsedExactly(d.patterns, t.perFamily, p);
  }

  /** Where descriptions are required, every name a run recorded is described by the audit over all runs' files. */
  lemma AllowedIsAudited(
    vocabulary: set<string>, runs: seq<Finished>, docs: set<string>, patterns: seq<Pattern>, run: Finished,
    name: string)
    requires Gathered(runs, docs, patterns) && run in runs && Sound(vocabulary, run) && Requires(run) &&
        name in run.names
    ensures !Classify(docs, vocabulary, patterns, name).Not?
  {
    assert Allowed(true, run.declaration, vocabulary, name);
    if run.declaration.Some? {
      var d := run.declaration.value;
      AllowedIffClassified(d, vocabulary, name);
      DescriptionTravels(vocabulary, d, run.names, run.meta, name);
      var kind := Classify(d.metrics, vocabulary, d.patterns, name);
      if kind.ByFamily? { assert d.patterns[kind.family] in patterns; }
    }
  }

  /** The same source of description, whichever family it is. */
  predicate SameKind(a: Described, b: Described) {
    a == b || (a.ByFamily? && b.ByFamily?)
  }

  /** When all runs share one declaration, the audit classifies their names as that declaration does. */
  lemma SharedDeclarationAudits(
    vocabulary: set<string>, runs: seq<Finished>, docs: set<string>, patterns: seq<Pattern>, d: Declaration,
    run: Finished, name: string)
    requires Gathered(runs, docs, patterns) && run in runs && name in run.names
    requires forall r :: r in runs ==> r.declaration == Some(d) && Shares(d, vocabulary, r.names, r.meta)
    ensures SameKind(Classify(docs, vocabulary, patterns, name), Classify(d.metrics, vocabulary, d.patterns, name))
  {
    DescriptionTravels(vocabulary, d, run.names, run.meta, name);
    assert name in docs ==> name in d.metrics;
    forall p | p in patterns
      ensures p in d.patterns
    {
      var r :| r in runs && CarriesPattern(r.meta, p);
      CarriedIsDeclared(vocabulary, d, r.names, r.meta, p);
    }
    var kind := Classify(d.metrics, vocabulary, d.patterns, name);
    if kind.ByFamily? { assert d.patterns[kind.family] in patterns; }
  }
}
