/** Simulating a policy bundle and diffing two simulations (packages/policy/tabletop.py). */
module Tabletop {
  import opened Wrappers
  import opened Primitives
  import opened CanonicalJson
  import Sorting

  const MAX_ACTIONS := 1000
  const MAX_LABEL := 128
  const MAX_NAME := 256

  datatype Decision = Allow | Deny | Escalate

  datatype ActionSpec = ActionSpec(tag: string, action: Json)

  datatype Scenario = Scenario(name: string, tenantId: Uuid, bundleId: Uuid, actions: seq<ActionSpec>)

  datatype ActionResult = ActionResult(tag: string, decision: Option<Decision>, reason: Option<string>, errored: bool)

  datatype Summary = Summary(total: nat, allow: nat, deny: nat, escalate: nat, errored: nat)

  datatype Kind = Match | Drift | SimulatedOnly | ActualOnly | ErroredEither

  datatype Entry = Entry(
    tag: string, kind: Kind, simulatedDecision: Option<Decision>, simulatedReason: Option<string>,
    actualDecision: Option<Decision>, actualReason: Option<string>)

  datatype Report = Report(
    entries: seq<Entry>, totalSimulated: nat, totalActual: nat, matchCount: nat, driftCount: nat,
    simulatedOnlyCount: nat, actualOnlyCount: nat, erroredEitherCount: nat)

  datatype TabletopError = NoActions | TooManyActions | DuplicateLabel(tag: string) | InvalidLabel | InvalidName | ForeignBundle

  // ----- The join -----

  ghost predicate UniqueLabels(rows: seq<ActionResult>)
  {
    forall i, j :: 0 <= i < j < |rows| ==> rows[i].tag != rows[j].tag
  }

  function Find(rows: seq<ActionResult>, tag: string): (found: Option<ActionResult>)
    ensures found.None? <==> forall i :: 0 <= i < |rows| ==> rows[i].tag != tag
    ensures found.Some? ==> exists i :: 0 <= i < |rows| && rows[i] == found.value && rows[i].tag == tag
  {
    if rows == [] then None
    else
      assert rows == [rows[0]] + rows[1..];
      if rows[0].tag == tag then Some(rows[0]) else Find(rows[1..], tag)
  }

  /** The first row of a label, looked for from the other end. */
  lemma {:induction false} FindSplits(rows: seq<ActionResult>, tag: string)
    requires rows != []
    ensures var n := |rows| - 1;
            Find(rows, tag) == if Find(rows[..n], tag).Some? then Find(rows[..n], tag)
                               else if rows[n].tag == tag then Some(rows[n]) else None
  {
    var n := |rows| - 1;
    if n > 0 && rows[0].tag != tag {
      FindSplits(rows[1..], tag);
      assert rows[1..][..n - 1] == rows[..n][1..];
    }
  }

  function Labels(rows: seq<ActionResult>): (labels: seq<string>)
    ensures |labels| == |rows| && forall i :: 0 <= i < |rows| ==> labels[i] == rows[i].tag
  {
    seq(|rows|, i requires 0 <= i < |rows| => rows[i].tag)
  }

  /** The labels of `rows` that `others` lacks. */
  function Missing(rows: seq<ActionResult>, others: seq<ActionResult>): seq<string>
  {
    if rows == [] then []
    else
      var n := |rows| - 1;
      Missing(rows[..n], others) + if Find(others, rows[n].tag).None? then [rows[n].tag] else []
  }

  /** `sorted(set(...) | set(...))` */
  function AllLabels(sim: seq<ActionResult>, act: seq<ActionResult>): seq<string>
  {
    Sorting.Sort(Sorting.StringLe, Labels(sim) + Missing(act, sim))
  }

  function Classify(s: Option<ActionResult>, a: Option<ActionResult>): Kind
  {
    if s.None? then ActualOnly
    else if a.None? then SimulatedOnly
    else if s.value.errored || a.value.errored then ErroredEither
    else if s.value.decision == a.value.decision then Match
    else Drift
  }

  function KindOf(sim: seq<ActionResult>, act: seq<ActionResult>, tag: string): Kind
  {
    Classify(Find(sim, tag), Find(act, tag))
  }

  function DecisionOf(row: Option<ActionResult>): Option<Decision>
  {
    if row.Some? then row.value.decision else None
  }

  function ReasonOf(row: Option<ActionResult>): Option<string>
  {
    if row.Some? then row.value.reason else None
  }

  function EntryOf(sim: seq<ActionResult>, act: seq<ActionResult>, tag: string): Entry
  {
    var s, a := Find(sim, tag), Find(act, tag);
    Entry(tag, Classify(s, a), DecisionOf(s), ReasonOf(s), DecisionOf(a), ReasonOf(a))
  }

  function Entries(labels: seq<string>, sim: seq<ActionResult>, act: seq<ActionResult>, includeMatches: bool): seq<Entry>
  {
    if labels == [] then []
    else
      var n := |labels| - 1;
      Entries(labels[..n], sim, act, includeMatches)
      + if KindOf(sim, act, labels[n]).Match? && !includeMatches then [] else [EntryOf(sim, act, labels[n])]
  }

  function IsKind(sim: seq<ActionResult>, act: seq<ActionResult>, kind: Kind): string -> bool
  {
    tag => KindOf(sim, act, tag) == kind
  }

  function CountKind(labels: seq<string>, sim: seq<ActionResult>, act: seq<ActionResult>, kind: Kind): nat
  {
    Sorting.Count(IsKind(sim, act, kind), labels)
  }

  /** The report two sides with unique labels must get. */
  function Diffed(sim: seq<ActionResult>, act: seq<ActionResult>, includeMatches: bool): Report
  {
    var labels := AllLabels(sim, act);
    Report(Entries(labels, sim, act, includeMatches), |sim|, |act|,
           CountKind(labels, sim, act, Match), CountKind(labels, sim, act, Drift),
           CountKind(labels, sim, act, SimulatedOnly), CountKind(labels, sim, act, ActualOnly),
           CountKind(labels, sim, act, ErroredEither))
  }

  /** A dict filled by `_index_by_label`. */
  ghost predicate Indexes(index: map<string, ActionResult>, rows: seq<ActionResult>)
  {
    forall tag :: (tag in index <==> Find(rows, tag).Some?) && (tag in index ==> Find(rows, tag) == Some(index[tag]))
  }

  /** Two rows carry the label. */
  ghost predicate Repeated(rows: seq<ActionResult>, tag: string)
  {
    exists i, j :: 0 <= i < j < |rows| && rows[i].tag == rows[j].tag == tag
  }

  lemma IndexGrows(index: map<string, ActionResult>, rows: seq<ActionResult>, i: nat)
    requires i < |rows| && Indexes(index, rows[..i]) && UniqueLabels(rows[..i])
    ensures rows[i].tag !in index ==> Indexes(index[rows[i].tag := rows[i]], rows[..i + 1]) && UniqueLabels(rows[..i + 1])
    ensures rows[i].tag in index ==> !UniqueLabels(rows) && Repeated(rows, rows[i].tag)
  {
    hide Find;
    var longer := rows[..i + 1];
    assert longer[..i] == rows[..i];
    forall tag ensures Find(longer, tag) == if Find(rows[..i], tag).Some? then Find(rows[..i], tag)
                                            else if rows[i].tag == tag then Some(rows[i]) else None
    {
      FindSplits(longer, tag);
    }
    if rows[i].tag in index {
      var j :| 0 <= j < |rows[..i]| && rows[..i][j].tag == rows[i].tag;
      assert rows[j].tag == rows[i].tag;
    } else {
      forall j | 0 <= j < i ensures longer[j].tag != longer[i].tag {
        assert rows[..i][j].tag != rows[i].tag;
      }
    }
  }

  /** `_index_by_label` */
  method IndexByLabel(rows: seq<ActionResult>) returns (r: Result<map<string, ActionResult>, TabletopError>)
    ensures r.Success? <==> UniqueLabels(rows)
    ensures r.Success? ==> Indexes(r.value, rows)
    ensures r.Failure? ==> r.error.DuplicateLabel? && Repeated(rows, r.error.tag)
  {
    hide UniqueLabels, Indexes, Repeated;
    var out: map<string, ActionResult> := map[];
    assert Indexes(out, rows[..0]) && UniqueLabels(rows[..0]) by {
      NothingIndexed(rows);
    }
    for i := 0 to |rows|
      invariant Indexes(out, rows[..i]) && UniqueLabels(rows[..i])
    {
      IndexGrows(out, rows, i);
      if rows[i].tag in out {
        return Failure(DuplicateLabel(rows[i].tag));
      }
      out := out[rows[i].tag := rows[i]];
    }
    assert rows[..|rows|] == rows;
    return Success(out);
  }

  lemma NothingIndexed(rows: seq<ActionResult>)
    ensures Indexes(map[], rows[..0]) && UniqueLabels(rows[..0])
  {
  }

  lemma NothingYet(sim: seq<ActionResult>, act: seq<ActionResult>)
    ensures forall kind: Kind :: CountKind([], sim, act, kind) == 0
  {
  }

  lemma OneLabelMore(labels: seq<string>, i: nat, sim: seq<ActionResult>, act: seq<ActionResult>, includeMatches: bool)
    requires i < |labels|
    ensures Entries(labels[..i + 1], sim, act, includeMatches)
         == Entries(labels[..i], sim, act, includeMatches)
            + if KindOf(sim, act, labels[i]).Match? && !includeMatches then [] else [EntryOf(sim, act, labels[i])]
    ensures forall kind: Kind ::
              CountKind(labels[..i + 1], sim, act, kind)
                == CountKind(labels[..i], sim, act, kind) + if KindOf(sim, act, labels[i]) == kind then 1 else 0
  {
    hide KindOf, EntryOf;
    assert labels[..i + 1][..i] == labels[..i];
  }

  method Diff(sim: seq<ActionResult>, act: seq<ActionResult>, includeMatches: bool) returns (r: Result<Report, TabletopError>)
    ensures r.Success? <==> UniqueLabels(sim) && UniqueLabels(act)
    ensures r.Success? ==> r.value == Diffed(sim, act, includeMatches)
    ensures r.Failure? ==> r.error.DuplicateLabel? && (Repeated(sim, r.error.tag) || Repeated(act, r.error.tag))
  {
    hide UniqueLabels, AllLabels, EntryOf, KindOf, CountKind, Entries, Repeated;
    var simIndex := IndexByLabel(sim);
    if simIndex.Failure? {
      return Failure(simIndex.error);
    }
    var actIndex := IndexByLabel(act);
    if actIndex.Failure? {
      return Failure(actIndex.error);
    }
    var labels := AllLabels(sim, act);
    var entries: seq<Entry>, counts := Tally(simIndex.value, actIndex.value, labels, includeMatches, sim, act);
    return Success(Report(entries, |sim|, |act|, counts[Match], counts[Drift], counts[SimulatedOnly],
                          counts[ActualOnly], counts[ErroredEither]));
  }

  /** The loop over the sorted labels. */
  method Tally(
    simIndex: map<string, ActionResult>, actIndex: map<string, ActionResult>, labels: seq<string>, includeMatches: bool,
    ghost sim: seq<ActionResult>, ghost act: seq<ActionResult>
  ) returns (entries: seq<Entry>, counts: map<Kind, nat>)
    requires Indexes(simIndex, sim) && Indexes(actIndex, act)
    ensures entries == Entries(labels, sim, act, includeMatches)
    ensures forall kind: Kind :: kind in counts && counts[kind] == CountKind(labels, sim, act, kind)
  {
    hide EntryOf, KindOf, CountKind, Find;
    entries := [];
    counts := map[Match := 0, Drift := 0, SimulatedOnly := 0, ActualOnly := 0, ErroredEither := 0];
    NothingYet(sim, act);
    assert labels[..0] == [];
    forall kind: Kind ensures kind in counts && counts[kind] == 0 {
      match kind
      case Match =>
      case Drift =>
      case SimulatedOnly =>
      case ActualOnly =>
      case ErroredEither =>
    }
    for i := 0 to |labels|
      invariant entries == Entries(labels[..i], sim, act, includeMatches)
      invariant forall kind: Kind :: kind in counts && counts[kind] == CountKind(labels[..i], sim, act, kind)
    {
      hide Entries;
      var entry, kind := EntryFrom(simIndex, actIndex, labels[i], sim, act);
      OneLabelMore(labels, i, sim, act, includeMatches);
      counts := counts[kind := counts[kind] + 1];
      if !(kind == Match && !includeMatches) {
        entries := entries + [entry];
      }
    }
    assert labels[..|labels|] == labels;
  }

  /** The loop body's branches over the two dicts. */
  method EntryFrom(simIndex: map<string, ActionResult>, actIndex: map<string, ActionResult>, tag: string,
                   ghost sim: seq<ActionResult>, ghost act: seq<ActionResult>)
    returns (entry: Entry, kind: Kind)
    requires (tag in simIndex <==> Find(sim, tag).Some?) && (tag in simIndex ==> Find(sim, tag) == Some(simIndex[tag]))
    requires (tag in actIndex <==> Find(act, tag).Some?) && (tag in actIndex ==> Find(act, tag) == Some(actIndex[tag]))
    ensures entry == EntryOf(sim, act, tag) && kind == KindOf(sim, act, tag)
  {
    var s := if tag in simIndex then Some(simIndex[tag]) else None;
    var a := if tag in actIndex then Some(actIndex[tag]) else None;
    if s.None? {
      kind := ActualOnly;
    } else if a.None? {
      kind := SimulatedOnly;
    } else if s.value.errored || a.value.errored {
      kind := ErroredEither;
    } else if s.value.decision == a.value.decision {
      kind := Match;
    } else {
      kind := Drift;
    }
    entry := Entry(tag, kind, DecisionOf(s), ReasonOf(s), DecisionOf(a), ReasonOf(a));
  }

  // ----- An exact join -----

  lemma {:induction false} MissingIs(rows: seq<ActionResult>, others: seq<ActionResult>)
    ensures forall tag :: tag in Missing(rows, others) <==> Find(rows, tag).Some? && Find(others, tag).None?
    ensures UniqueLabels(rows) ==> Distinct(Missing(rows, others))
  {
    if rows != [] {
      var n := |rows| - 1;
      MissingIs(rows[..n], others);
      forall tag ensures Find(rows, tag).Some? <==> Find(rows[..n], tag).Some? || rows[n].tag == tag {
        FindSplits(rows, tag);
      }
      var init := Missing(rows[..n], others);
      if UniqueLabels(rows) && Find(others, rows[n].tag).None? {
        assert Find(rows[..n], rows[n].tag).None?;
        forall i | 0 <= i < |init| ensures init[i] != rows[n].tag {
          assert init[i] in init;
        }
      }
    }
  }

  /** Before sorting: every label of either side, once. */
  lemma UnsortedLabels(sim: seq<ActionResult>, act: seq<ActionResult>)
    requires UniqueLabels(sim) && UniqueLabels(act)
    ensures var labels := Labels(sim) + Missing(act, sim);
      && Distinct(labels)
      && forall tag :: tag in labels <==> Find(sim, tag).Some? || Find(act, tag).Some?
  {
    hide Missing;
    MissingIs(act, sim);
    var labels, extra := Labels(sim) + Missing(act, sim), Missing(act, sim);
    forall i, j | 0 <= i < |sim| && 0 <= j < |extra| ensures Labels(sim)[i] != extra[j] {
      assert extra[j] in extra;
    }
    forall tag ensures tag in Labels(sim) <==> Find(sim, tag).Some? {
      if Find(sim, tag).Some? {
        var i :| 0 <= i < |sim| && sim[i].tag == tag;
        assert Labels(sim)[i] == tag;
      }
    }
  }

  /** The labels are those of either side, each once, in strictly rising order. */
  lemma LabelsAreSortedUnion(sim: seq<ActionResult>, act: seq<ActionResult>)
    requires UniqueLabels(sim) && UniqueLabels(act)
    ensures var labels := AllLabels(sim, act);
      && (forall tag :: tag in labels <==> Find(sim, tag).Some? || Find(act, tag).Some?)
      && (forall i, j :: 0 <= i < j < |labels| ==> Sorting.Before(labels[i], labels[j]))
  {
    hide Sorting.Sort, Missing, UniqueLabels, Find, Sorting.Before, Sorting.Less;
    var unsorted, labels := Labels(sim) + Missing(act, sim), AllLabels(sim, act);
    UnsortedLabels(sim, act);
    Sorting.SortPermutes(Sorting.StringLe, unsorted);
    Sorting.SameElements(labels, unsorted);
    Sorting.DistinctStays(unsorted, labels);
    Sorting.StringLeIsTotalPreorder();
    Sorting.SortAscending(Sorting.StringLe, unsorted);
    forall i, j | 0 <= i < j < |labels| ensures Sorting.Before(labels[i], labels[j]) {
      Sorting.LessTrichotomy(labels[i], labels[j]);
      Sorting.LessIsBefore(labels[i], labels[j]);
    }
  }

  /** Which side is which does not change the labels. */
  lemma LabelsSymmetric(sim: seq<ActionResult>, act: seq<ActionResult>)
    requires UniqueLabels(sim) && UniqueLabels(act)
    ensures AllLabels(sim, act) == AllLabels(act, sim)
  {
    hide Missing, UniqueLabels, Find, Sorting.Sort;
    UnsortedLabels(sim, act);
    UnsortedLabels(act, sim);
    var a, b := Labels(sim) + Missing(act, sim), Labels(act) + Missing(sim, act);
    Sorting.SameDistinctElements(a, b);
    Sorting.SortedStringsSameIffSameStrings(a, b);
  }

  lemma {:induction false} EntriesOfLabels(labels: seq<string>, sim: seq<ActionResult>, act: seq<ActionResult>, includeMatches: bool)
    requires forall i, j :: 0 <= i < j < |labels| ==> Sorting.Before(labels[i], labels[j])
    ensures var entries := Entries(labels, sim, act, includeMatches);
      && (forall e :: e in entries <==>
            e.tag in labels && e == EntryOf(sim, act, e.tag) && (includeMatches || !e.kind.Match?))
      && (forall i, j :: 0 <= i < j < |entries| ==> Sorting.Before(entries[i].tag, entries[j].tag))
  {
    hide Sorting.Before, Find, DecisionOf, ReasonOf, Classify;
    if labels != [] {
      var n := |labels| - 1;
      EntriesOfLabels(labels[..n], sim, act, includeMatches);
      assert labels == labels[..n] + [labels[n]];
      var init := Entries(labels[..n], sim, act, includeMatches);
      forall i | 0 <= i < |init| ensures Sorting.Before(init[i].tag, labels[n]) {
        assert init[i] in init;
        var k :| 0 <= k < n && labels[..n][k] == init[i].tag;
        assert labels[k] == init[i].tag;
      }
    }
  }

  /**
    The report is an exact join: one entry for every label of either side - or
    every one that is not a match - classified from the two rows, by strictly
    rising label.
   */
  lemma {:induction false} DiffIsExactJoin(sim: seq<ActionResult>, act: seq<ActionResult>, includeMatches: bool)
    requires UniqueLabels(sim) && UniqueLabels(act)
    ensures var entries := Diffed(sim, act, includeMatches).entries;
      && (forall e :: e in entries <==>
            && (Find(sim, e.tag).Some? || Find(act, e.tag).Some?)
            && e == EntryOf(sim, act, e.tag) && (includeMatches || !e.kind.Match?))
      && (forall i, j :: 0 <= i < j < |entries| ==> Sorting.Before(entries[i].tag, entries[j].tag))
  {
    hide AllLabels, Sorting.Before, Find, UniqueLabels, EntryOf, Entries, CountKind;
    LabelsAreSortedUnion(sim, act);
    EntriesOfLabels(AllLabels(sim, act), sim, act, includeMatches);
  }

  // ----- What each entry and each count means, from the rows alone -----

  ghost predicate Labelled(rows: seq<ActionResult>, tag: string)
  {
    exists row :: row in rows && row.tag == tag
  }

  /** The label's two rows, one of each side. */
  ghost predicate AreRowsOf(s: ActionResult, a: ActionResult, sim: seq<ActionResult>, act: seq<ActionResult>, tag: string)
  {
    s in sim && a in act && s.tag == tag && a.tag == tag
  }

  /** Both sides ran the action and decided alike. */
  ghost predicate Agree(sim: seq<ActionResult>, act: seq<ActionResult>, tag: string)
  {
    exists s, a :: AreRowsOf(s, a, sim, act, tag) && !s.errored && !a.errored && s.decision == a.decision
  }

  /** Both sides ran the action and decided differently. */
  ghost predicate Disagree(sim: seq<ActionResult>, act: seq<ActionResult>, tag: string)
  {
    exists s, a :: AreRowsOf(s, a, sim, act, tag) && !s.errored && !a.errored && s.decision != a.decision
  }

  /** Both sides have the action, and one of them errored. */
  ghost predicate EitherErred(sim: seq<ActionResult>, act: seq<ActionResult>, tag: string)
  {
    exists s, a :: AreRowsOf(s, a, sim, act, tag) && (s.errored || a.errored)
  }

  /** What a label must be reported as. */
  ghost predicate Means(kind: Kind, sim: seq<ActionResult>, act: seq<ActionResult>, tag: string)
  {
    match kind
    case Match => Agree(sim, act, tag)
    case Drift => Disagree(sim, act, tag)
    case ErroredEither => EitherErred(sim, act, tag)
    case SimulatedOnly => Labelled(sim, tag) && !Labelled(act, tag)
    case ActualOnly => Labelled(act, tag) && !Labelled(sim, tag)
  }

  /** One side's half of an entry: its row's decision and reason, or nothing without a row. */
  ghost predicate Shows(decision: Option<Decision>, reason: Option<string>, rows: seq<ActionResult>, tag: string)
  {
    && (forall row | row in rows && row.tag == tag :: decision == row.decision && reason == row.reason)
    && (!Labelled(rows, tag) ==> decision.None? && reason.None?)
  }

  lemma FindIs(rows: seq<ActionResult>, tag: string)
    requires UniqueLabels(rows)
    ensures Labelled(rows, tag) <==> Find(rows, tag).Some?
    ensures forall row :: row in rows && row.tag == tag <==> Find(rows, tag) == Some(row)
  {
    hide Find;
    forall row | row in rows && row.tag == tag ensures Find(rows, tag) == Some(row) {
      var i :| 0 <= i < |rows| && rows[i] == row;
      assert Find(rows, tag).Some?;
      var j :| 0 <= j < |rows| && rows[j] == Find(rows, tag).value && rows[j].tag == tag;
      assert i == j;
    }
  }

  /** The kind of a label of either side is the one it means, and no other. */
  lemma KindIs(sim: seq<ActionResult>, act: seq<ActionResult>, tag: string)
    requires UniqueLabels(sim) && UniqueLabels(act) && (Labelled(sim, tag) || Labelled(act, tag))
    ensures forall kind: Kind :: KindOf(sim, act, tag) == kind <==> Means(kind, sim, act, tag)
  {
    hide Find, UniqueLabels, Labelled;
    FindIs(sim, tag);
    FindIs(act, tag);
    var s, a := Find(sim, tag), Find(act, tag);
    if s.Some? && a.Some? {
      assert AreRowsOf(s.value, a.value, sim, act, tag);
      forall t, b | AreRowsOf(t, b, sim, act, tag) ensures t == s.value && b == a.value {
      }
    }
  }

  ghost function Chosen(f: string -> bool, labels: seq<string>): set<string>
  {
    set tag | tag in labels && f(tag)
  }

  lemma {:induction false} CountIsCardinality(f: string -> bool, labels: seq<string>)
    requires Distinct(labels)
    ensures Sorting.Count(f, labels) == |Chosen(f, labels)|
  {
    if labels == [] {
      assert Chosen(f, labels) == {};
    } else {
      var n := |labels| - 1;
      CountIsCardinality(f, labels[..n]);
      ChosenGrows(f, labels);
    }
  }

  lemma ChosenGrows(f: string -> bool, labels: seq<string>)
    requires Distinct(labels) && labels != []
    ensures var n := |labels| - 1;
      && labels[n] !in Chosen(f, labels[..n])
      && Chosen(f, labels) == Chosen(f, labels[..n]) + if f(labels[n]) then {labels[n]} else {}
  {
    var n := |labels| - 1;
    assert labels == labels[..n] + [labels[n]];
    assert labels[n] !in labels[..n];
  }

  /** The labels of either side that are to be reported as `kind`. */
  ghost function OfKind(kind: Kind, sim: seq<ActionResult>, act: seq<ActionResult>): set<string>
  {
    set row | row in sim + act && Means(kind, sim, act, row.tag) :: row.tag
  }

  lemma CountIs(sim: seq<ActionResult>, act: seq<ActionResult>, kind: Kind)
    requires UniqueLabels(sim) && UniqueLabels(act)
    ensures CountKind(AllLabels(sim, act), sim, act, kind) == |OfKind(kind, sim, act)|
  {
    hide Find, UniqueLabels, AllLabels, Means, KindOf, Sorting.Before, Sorting.Less, Sorting.Count;
    var labels := AllLabels(sim, act);
    LabelsAreSortedUnion(sim, act);
    forall i, j | 0 <= i < j < |labels| ensures labels[i] != labels[j] {
      Sorting.LessIsBefore(labels[i], labels[j]);
      Sorting.LessTrichotomy(labels[i], labels[j]);
    }
    CountIsCardinality(IsKind(sim, act, kind), labels);
    forall tag ensures tag in labels && IsKind(sim, act, kind)(tag) <==> tag in OfKind(kind, sim, act) {
      FindIs(sim, tag);
      FindIs(act, tag);
      if tag in labels {
        KindIs(sim, act, tag);
      }
    }
    assert OfKind(kind, sim, act) == Chosen(IsKind(sim, act, kind), labels);
  }

  /**
    Every entry of the report says of its label what the two rows say: a match
    where both sides decided alike, a drift where they did not, an error where
    either erred, and one side only where the other lacks the label; with each
    row's own decision and reason. Every label is reported, by rising label,
    unless it matches and matches are left out; and each count is the number of
    labels of its kind.
   */
  lemma {:induction false} ReportMeansRows(sim: seq<ActionResult>, act: seq<ActionResult>, includeMatches: bool)
    requires UniqueLabels(sim) && UniqueLabels(act)
    ensures var r := Diffed(sim, act, includeMatches);
      && (forall e | e in r.entries ::
            && (forall kind: Kind :: e.kind == kind <==> Means(kind, sim, act, e.tag))
            && Shows(e.simulatedDecision, e.simulatedReason, sim, e.tag)
            && Shows(e.actualDecision, e.actualReason, act, e.tag))
      && (forall tag :: (exists e :: e in r.entries && e.tag == tag)
                   <==> (Labelled(sim, tag) || Labelled(act, tag)) && (includeMatches || !Agree(sim, act, tag)))
      && (forall i, j :: 0 <= i < j < |r.entries| ==> Sorting.Before(r.entries[i].tag, r.entries[j].tag))
      && r.totalSimulated == |sim| && r.totalActual == |act|
      && r.matchCount == |OfKind(Match, sim, act)| && r.driftCount == |OfKind(Drift, sim, act)|
      && r.simulatedOnlyCount == |OfKind(SimulatedOnly, sim, act)| && r.actualOnlyCount == |OfKind(ActualOnly, sim, act)|
      && r.erroredEitherCount == |OfKind(ErroredEither, sim, act)|
  {
    hide Find, UniqueLabels, AllLabels, Means, Shows, Labelled, Agree, Entries, CountKind, OfKind, EntryOf, Sorting.Before;
    var r := Diffed(sim, act, includeMatches);
    DiffIsExactJoin(sim, act, includeMatches);
    CountIs(sim, act, Match);
    CountIs(sim, act, Drift);
    CountIs(sim, act, SimulatedOnly);
    CountIs(sim, act, ActualOnly);
    CountIs(sim, act, ErroredEither);
    forall tag | Find(sim, tag).Some? || Find(act, tag).Some? ensures EntryMeans(EntryOf(sim, act, tag), sim, act, tag) {
      EntryIs(sim, act, tag);
    }
    forall tag ensures (exists e :: e in r.entries && e.tag == tag)
                  <==> (Labelled(sim, tag) || Labelled(act, tag)) && (includeMatches || !Agree(sim, act, tag))
    {
      FindIs(sim, tag);
      FindIs(act, tag);
      if Find(sim, tag).Some? || Find(act, tag).Some? {
        var e := EntryOf(sim, act, tag);
        assert e in r.entries <==> includeMatches || !e.kind.Match?;
      }
    }
  }

  ghost predicate EntryMeans(e: Entry, sim: seq<ActionResult>, act: seq<ActionResult>, tag: string)
  {
    && e.tag == tag
    && (forall kind: Kind :: e.kind == kind <==> Means(kind, sim, act, tag)) && (e.kind.Match? <==> Agree(sim, act, tag))
    && Shows(e.simulatedDecision, e.simulatedReason, sim, tag) && Shows(e.actualDecision, e.actualReason, act, tag)
  }

  lemma EntryIs(sim: seq<ActionResult>, act: seq<ActionResult>, tag: string)
    requires UniqueLabels(sim) && UniqueLabels(act) && (Find(sim, tag).Some? || Find(act, tag).Some?)
    ensures EntryMeans(EntryOf(sim, act, tag), sim, act, tag)
  {
    hide Find, UniqueLabels, Labelled, Agree, Disagree, EitherErred;
    FindIs(sim, tag);
    FindIs(act, tag);
    KindIs(sim, act, tag);
    assert EntryOf(sim, act, tag).kind == KindOf(sim, act, tag);
    assert Means(Match, sim, act, tag) <==> Agree(sim, act, tag);
  }

  // ----- The counts add up -----

  function InSide(rows: seq<ActionResult>): string -> bool
  {
    tag => Find(rows, tag).Some?
  }

  lemma {:induction false} KindsSplitSimulated(labels: seq<string>, sim: seq<ActionResult>, act: seq<ActionResult>)
    ensures CountKind(labels, sim, act, Match) + CountKind(labels, sim, act, Drift)
            + CountKind(labels, sim, act, ErroredEither) + CountKind(labels, sim, act, SimulatedOnly)
         == Sorting.Count(InSide(sim), labels)
  {
    hide Find;
    if labels != [] {
      KindsSplitSimulated(labels[..|labels| - 1], sim, act);
    }
  }

  lemma {:induction false} AllOrNothing<T>(f: T -> bool, xs: seq<T>)
    ensures (forall x | x in xs :: f(x)) ==> Sorting.Count(f, xs) == |xs|
    ensures (forall x | x in xs :: !f(x)) ==> Sorting.Count(f, xs) == 0
  {
    if xs != [] {
      AllOrNothing(f, xs[..|xs| - 1]);
    }
  }

  lemma SimulatedAddsUp(sim: seq<ActionResult>, act: seq<ActionResult>)
    requires UniqueLabels(sim) && UniqueLabels(act)
    ensures Sorting.Count(InSide(sim), AllLabels(sim, act)) == |sim|
  {
    hide Missing, Find, Sorting.Count, Sorting.Sort;
    var own, extra := Labels(sim), Missing(act, sim);
    Sorting.CountSort(InSide(sim), Sorting.StringLe, own + extra);
    Sorting.CountConcat(InSide(sim), own, extra);
    MissingIs(act, sim);
    forall tag | tag in own ensures InSide(sim)(tag) {
      var i :| 0 <= i < |own| && own[i] == tag;
      assert sim[i].tag == tag;
    }
    AllOrNothing(InSide(sim), own);
    AllOrNothing(InSide(sim), extra);
  }

  function MirrorKind(kind: Kind): Kind
  {
    match kind
    case SimulatedOnly => ActualOnly
    case ActualOnly => SimulatedOnly
    case other => other
  }

  function Mirror(e: Entry): Entry
  {
    Entry(e.tag, MirrorKind(e.kind), e.actualDecision, e.actualReason, e.simulatedDecision, e.simulatedReason)
  }

  function MirrorAll(entries: seq<Entry>): (mirrored: seq<Entry>)
    ensures |mirrored| == |entries|
  {
    seq(|entries|, i requires 0 <= i < |entries| => Mirror(entries[i]))
  }

  lemma EntryMirrors(sim: seq<ActionResult>, act: seq<ActionResult>, tag: string)
    requires Find(sim, tag).Some? || Find(act, tag).Some?
    ensures EntryOf(act, sim, tag) == Mirror(EntryOf(sim, act, tag))
    ensures KindOf(act, sim, tag) == MirrorKind(KindOf(sim, act, tag))
  {
    hide Find;
  }

  lemma {:induction false} EntriesMirror(labels: seq<string>, sim: seq<ActionResult>, act: seq<ActionResult>, includeMatches: bool)
    requires forall tag | tag in labels :: Find(sim, tag).Some? || Find(act, tag).Some?
    ensures Entries(labels, act, sim, includeMatches) == MirrorAll(Entries(labels, sim, act, includeMatches))
  {
    hide Find, EntryOf, KindOf, Mirror;
    if labels != [] {
      var n := |labels| - 1;
      assert labels[n] in labels;
      EntriesMirror(labels[..n], sim, act, includeMatches);
      EntryMirrors(sim, act, labels[n]);
    }
  }

  lemma {:induction false} CountsMirror(labels: seq<string>, sim: seq<ActionResult>, act: seq<ActionResult>, kind: Kind)
    requires forall tag | tag in labels :: Find(sim, tag).Some? || Find(act, tag).Some?
    ensures CountKind(labels, act, sim, kind) == CountKind(labels, sim, act, MirrorKind(kind))
  {
    hide Find;
    if labels != [] {
      var n := |labels| - 1;
      assert labels[n] in labels;
      CountsMirror(labels[..n], sim, act, kind);
    }
  }

  /** Swapping the sides swaps the one-sided kinds and the paired fields, and nothing else. */
  lemma {:induction false} SwapMirrors(sim: seq<ActionResult>, act: seq<ActionResult>, includeMatches: bool)
    requires UniqueLabels(sim) && UniqueLabels(act)
    ensures var r := Diffed(sim, act, includeMatches);
            Diffed(act, sim, includeMatches)
              == Report(MirrorAll(r.entries), r.totalActual, r.totalSimulated, r.matchCount, r.driftCount,
                        r.actualOnlyCount, r.simulatedOnlyCount, r.erroredEitherCount)
  {
    hide Find, UniqueLabels, AllLabels, Entries, CountKind, MirrorAll, Sorting.Before;
    var labels := AllLabels(sim, act);
    LabelsSymmetric(sim, act);
    LabelsAreSortedUnion(sim, act);
    EntriesMirror(labels, sim, act, includeMatches);
    CountsMirror(labels, sim, act, Match);
    CountsMirror(labels, sim, act, Drift);
    CountsMirror(labels, sim, act, SimulatedOnly);
    CountsMirror(labels, sim, act, ActualOnly);
    CountsMirror(labels, sim, act, ErroredEither);
  }

  /** Every row of each side is counted exactly once. */
  lemma {:induction false} CountsAddUp(sim: seq<ActionResult>, act: seq<ActionResult>, includeMatches: bool)
    requires UniqueLabels(sim) && UniqueLabels(act)
    ensures var r := Diffed(sim, act, includeMatches);
      && r.matchCount + r.driftCount + r.erroredEitherCount + r.simulatedOnlyCount == r.totalSimulated == |sim|
      && r.matchCount + r.driftCount + r.erroredEitherCount + r.actualOnlyCount == r.totalActual == |act|
  {
    hide AllLabels, Find, UniqueLabels, CountKind, Entries, MirrorAll;
    KindsSplitSimulated(AllLabels(sim, act), sim, act);
    SimulatedAddsUp(sim, act);
    KindsSplitSimulated(AllLabels(act, sim), act, sim);
    SimulatedAddsUp(act, sim);
    SwapMirrors(sim, act, includeMatches);
  }

  // ----- Simulating -----

  datatype Verdict = Verdict(decision: Decision, reason: string)

  predicate Fits(s: string, most: nat)
  {
    1 <= |s| <= most
  }

  /** `build_scenario_from_payloads`, field validators included. */
  method BuildScenario(name: string, tenantId: Uuid, bundleId: Uuid, payloads: seq<ActionSpec>)
    returns (r: Result<Scenario, TabletopError>)
    ensures r.Success? <==>
              && 1 <= |payloads| <= 1000 && 1 <= |name| <= 256
              && (forall i :: 0 <= i < |payloads| ==> 1 <= |payloads[i].tag| <= 128)
              && forall i, j :: 0 <= i < j < |payloads| ==> payloads[i].tag != payloads[j].tag
    ensures r.Success? ==> r.value == Scenario(name, tenantId, bundleId, payloads)
    ensures r == Failure(NoActions) <==> payloads == []
    ensures r == Failure(TooManyActions) <==> 1000 < |payloads|
    ensures r.Failure? && r.error.DuplicateLabel? ==>
              exists i, j :: 0 <= i < j < |payloads| && payloads[i].tag == payloads[j].tag == r.error.tag
  {
    if payloads == [] {
      return Failure(NoActions);
    }
    if |payloads| > MAX_ACTIONS {
      return Failure(TooManyActions);
    }
    var seen: set<string> := {};
    var specs: seq<ActionSpec> := [];
    for i := 0 to |payloads|
      invariant specs == payloads[..i]
      invariant forall tag :: tag in seen <==> exists j :: 0 <= j < i && payloads[j].tag == tag
      invariant forall j, k :: 0 <= j < k < i ==> payloads[j].tag != payloads[k].tag
      invariant forall j :: 0 <= j < i ==> Fits(payloads[j].tag, MAX_LABEL)
    {
      if payloads[i].tag in seen {
        return Failure(DuplicateLabel(payloads[i].tag));
      }
      if !Fits(payloads[i].tag, MAX_LABEL) {
        return Failure(InvalidLabel);
      }
      seen := seen + {payloads[i].tag};
      specs := specs + [payloads[i]];
    }
    if !Fits(name, MAX_NAME) {
      return Failure(InvalidName);
    }
    return Success(Scenario(name, tenantId, bundleId, specs));
  }

  function ResultOf(answer: Result<Verdict, string>, spec: ActionSpec): ActionResult
  {
    match answer
    case Failure(message) => ActionResult(spec.tag, None, Some("enforcement_error: " + message), true)
    case Success(v) => ActionResult(spec.tag, Some(v.decision), Some(v.reason), false)
  }

  predicate Decided(r: ActionResult, d: Decision)
  {
    !r.errored && r.decision == Some(d)
  }

  /**
    `simulate_scenario`: a gateway error is one errored result, never the end of
    the run. `answers` holds what the gateway says to each call in turn.
   */
  method Simulate(scenario: Scenario, bundleTenant: Uuid, bundleId: Uuid, answers: seq<Result<Verdict, string>>)
    returns (r: Result<(seq<ActionResult>, Summary), TabletopError>)
    requires |answers| == |scenario.actions|
    ensures r.Failure? <==> bundleTenant != scenario.tenantId || bundleId != scenario.bundleId
    ensures r.Success? ==>
              var (results, summary) := r.value;
              && |results| == |scenario.actions| == summary.total
              && (forall i :: 0 <= i < |results| ==>
                    var tag := scenario.actions[i].tag;
                    match answers[i]
                    case Failure(message) => results[i] == ActionResult(tag, None, Some("enforcement_error: " + message), true)
                    case Success(v) => results[i] == ActionResult(tag, Some(v.decision), Some(v.reason), false))
              && summary.allow == Sorting.Count(x => Decided(x, Allow), results)
              && summary.deny == Sorting.Count(x => Decided(x, Deny), results)
              && summary.escalate == Sorting.Count(x => Decided(x, Escalate), results)
              && summary.allow + summary.deny + summary.escalate + summary.errored == summary.total
  {
    if bundleTenant != scenario.tenantId || bundleId != scenario.bundleId {
      return Failure(ForeignBundle);
    }
    var results: seq<ActionResult> := [];
    var allow, deny, escalate, errored := 0, 0, 0, 0;
    for i := 0 to |scenario.actions|
      invariant |results| == i
      invariant forall j :: 0 <= j < i ==> results[j] == ResultOf(answers[j], scenario.actions[j])
      invariant allow == Sorting.Count(x => Decided(x, Allow), results)
      invariant deny == Sorting.Count(x => Decided(x, Deny), results)
      invariant escalate == Sorting.Count(x => Decided(x, Escalate), results)
      invariant allow + deny + escalate + errored == i
    {
      var spec := scenario.actions[i];
      var row := ResultOf(answers[i], spec);
      assert (results + [row])[..i] == results;
      results := results + [row];
      match answers[i] {
        case Failure(_) => errored := errored + 1;
        case Success(v) =>
          match v.decision {
            case Allow => allow := allow + 1;
            case Deny => deny := deny + 1;
            case Escalate => escalate := escalate + 1;
          }
      }
    }
    return Success((results, Summary(|scenario.actions|, allow, deny, escalate, errored)));
  }
}
