/**
 The sweep, the prune planner and the prune run over one cache, as a single process sees them.
 Their interleavings with other processes are the subject of ArtifactProtocol.
 */
module Cleanup {
  import opened Domain
  import opened Ordering
  import opened Snapshot
  import Names
  import Prune
  import ArtifactProtocol

  /** A directory found under a profile and a database. */
  datatype Name = Name(place: Place, entry: string)

  datatype Directory = Directory(modified: u64, locked: bool, metadata: MetadataFile)

  datatype Policy = Policy(now: u64, partialTtl: u64)

  /** Directory listings; `valid` says that a name is a profile or database name. */
  datatype DatabaseDir = DatabaseDir(database: string, valid: bool, entries: seq<string>)
  datatype ProfileDir = ProfileDir(profile: string, valid: bool, databases: seq<DatabaseDir>)

  /** The steps of a walk over the tree. */
  datatype Visit = Foreign | Entry(name: Name)

  function WalkDatabase(profile: string, dir: DatabaseDir): seq<Visit> {
    if !dir.valid then [Foreign]
    else seq(|dir.entries|,
             i requires 0 <= i < |dir.entries| => Entry(Name(Place(profile, dir.database), dir.entries[i])))
  }

  function WalkProfile(profile: string, databases: seq<DatabaseDir>): seq<Visit> {
    if databases == [] then []
    else WalkProfile(profile, databases[..|databases| - 1]) + WalkDatabase(profile, databases[|databases| - 1])
  }

  /** Profiles, their databases and the entries, in listing order; below a foreign name nothing is read. */
  function Walk(profiles: seq<ProfileDir>): seq<Visit> {
    if profiles == [] then []
    else
      var last := profiles[|profiles| - 1];
      Walk(profiles[..|profiles| - 1]) + if last.valid then WalkProfile(last.profile, last.databases) else [Foreign]
  }

  /** No directory is visited twice. */
  ghost predicate VisitsOnce(walk: seq<Visit>) {
    forall i, j | 0 <= i < j < |walk| && walk[i].Entry? :: walk[i] != walk[j]
  }

  datatype RemovalOutcome = Removed | Locked | Gone

  datatype SweepReport = SweepReport(partials: nat, deletions: nat, locked: nat, future: nat, invalid: nat)

  /** What the sweep does with one directory. */
  datatype Verdict = RemovesPartial | RemovesDeletion | SkipsLocked | SkipsFuture | SkipsInvalid | Leaves

  predicate Expired(policy: Policy, modified: u64) {
    modified <= policy.now && policy.now >= SaturatingAdd(modified, policy.partialTtl)
  }

  function VerdictOf(policy: Policy, entries: map<Name, Directory>, name: Name): Verdict {
    var kind := Names.SweepClassOf(name.entry);
    if kind.Foreign? then SkipsInvalid
    else if kind.Kept? || name !in entries then Leaves
    else
      var dir := entries[name];
      if kind.Partial? && dir.modified > policy.now then SkipsFuture
      else if kind.Partial? && !Expired(policy, dir.modified) then Leaves
      else if dir.locked then SkipsLocked
      else if kind.Partial? then RemovesPartial
      else RemovesDeletion
  }

  function Counted(report: SweepReport, verdict: Verdict): SweepReport {
    match verdict
    case RemovesPartial => report.(partials := report.partials + 1)
    case RemovesDeletion => report.(deletions := report.deletions + 1)
    case SkipsLocked => report.(locked := report.locked + 1)
    case SkipsFuture => report.(future := report.future + 1)
    case SkipsInvalid => report.(invalid := report.invalid + 1)
    case Leaves => report
  }

  /** The report of a sweep over the cache as it was when the sweep began. */
  function Tally(policy: Policy, entries: map<Name, Directory>, walk: seq<Visit>): SweepReport {
    if walk == [] then SweepReport(0, 0, 0, 0, 0)
    else
      var visit := walk[|walk| - 1];
      Counted(Tally(policy, entries, walk[..|walk| - 1]), if visit.Foreign? then SkipsInvalid
        else VerdictOf(policy, entries, visit.name))
  }

  predicate Swept(policy: Policy, entries: map<Name, Directory>, name: Name) {
    VerdictOf(policy, entries, name).RemovesPartial? || VerdictOf(policy, entries, name).RemovesDeletion?
  }

  datatype Plan = Plan(selected: seq<Prune.Candidate>, invalid: nat)

  datatype PruneReport = PruneReport(removed: nat, bytes: u64, locked: nat, invalid: nat)

  function NameOf(c: Prune.Candidate): Name {
    Name(c.place, Names.Spell(c.id))
  }

  function CandidateAt(entries: map<Name, Directory>, database: Option<string>, name: Name): Option<Prune.Candidate> {
    if database.Some? && database.value != name.place.database then None
    else if name !in entries || !entries[name].metadata.Parsed? then None
    else
      match Names.PruneClassOf(name.entry)
      case Candidate(id) =>
        Some(Prune.Candidate(name.place, id, entries[name].metadata.meta.completedAt,
                             entries[name].metadata.meta.compressedBytes))
      case _ => None
  }

  predicate Invalidates(entries: map<Name, Directory>, database: Option<string>, visit: Visit) {
    visit.Foreign?
    || (&& !(database.Some? && database.value != visit.name.place.database)
        && (match Names.PruneClassOf(visit.name.entry)
            case BelongsToSweep => false
            case Invalid => true
            case Candidate(_) => visit.name !in entries || !entries[visit.name].metadata.Parsed?))
  }

  function InvalidCount(entries: map<Name, Directory>, database: Option<string>, walk: seq<Visit>): nat {
    if walk == [] then 0
    else InvalidCount(entries, database, walk[..|walk| - 1]) + if Invalidates(entries, database, walk[|walk| - 1])
      then 1 else 0
  }

  /** The candidates of a plan, in the order of the walk. */
  function Candidates(entries: map<Name, Directory>, database: Option<string>, walk: seq<Visit>): seq<Prune.Candidate> {
    if walk == [] then []
    else
      var visit := walk[|walk| - 1];
      Candidates(entries, database, walk[..|walk| - 1])
      + if visit.Entry? && CandidateAt(entries, database, visit.name).Some?
        then [CandidateAt(entries, database, visit.name).value] else []
  }

  lemma NextVisit(entries: map<Name, Directory>, database: Option<string>, walk: seq<Visit>, k: nat)
    requires k < |walk|
    ensures Candidates(entries, database, walk[..k + 1]) ==
            Candidates(entries, database, walk[..k])
            + if walk[k].Entry? && CandidateAt(entries, database, walk[k].name).Some?
              then [CandidateAt(entries, database, walk[k].name).value] else []
    ensures InvalidCount(entries, database, walk[..k + 1]) ==
            InvalidCount(entries, database, walk[..k]) + if Invalidates(entries, database, walk[k]) then 1 else 0
  {
    hide CandidateAt, Invalidates;
    assert walk[..k + 1][..k] == walk[..k];
  }

  /** What the planner makes of one directory, by the checks in their order. */
  lemma VisitedEntry(entries: map<Name, Directory>, database: Option<string>, name: Name)
    ensures var candidate, invalid := CandidateAt(entries, database, name), Invalidates(entries, database, Entry(name));
            var id := Names.ParseDumpId(name.entry);
            if database.Some? && database.value != name.place.database then candidate.None? && !invalid
            else if Names.StripSuffix(name.entry, Names.PART_SUFFIX).Some? || Names.IsInterruptedDeletion(name.entry)
              then candidate.None? && !invalid
            else if id.None? || name !in entries || !entries[name].metadata.Parsed? then candidate.None? && invalid
            else
              var meta := entries[name].metadata.meta;
              && candidate == Some(Prune.Candidate(name.place, id.value, meta.completedAt, meta.compressedBytes))
              && !invalid
  {
    hide Names.ParseDumpId, Names.StripSuffix, Names.IsInterruptedDeletion;
  }

  lemma CandidateIsAtItsName(entries: map<Name, Directory>, database: Option<string>, name: Name)
    requires CandidateAt(entries, database, name).Some?
    ensures NameOf(CandidateAt(entries, database, name).value) == name
  {
  }

  lemma {:induction false} CandidatesAre(entries: map<Name, Directory>, database: Option<string>, walk: seq<Visit>)
    ensures forall c :: c in Candidates(entries, database, walk) <==>
              Entry(NameOf(c)) in walk && CandidateAt(entries, database, NameOf(c)) == Some(c)
  {
    hide CandidateAt, NameOf;
    if walk == [] {
    } else {
      var before, visit := walk[..|walk| - 1], walk[|walk| - 1];
      CandidatesAre(entries, database, before);
      assert walk == before + [visit];
      if visit.Entry? && CandidateAt(entries, database, visit.name).Some? {
        CandidateIsAtItsName(entries, database, visit.name);
      }
    }
  }

  lemma {:induction false} CandidatesAreDistinct(entries: map<Name, Directory>, database: Option<string>,
                                                 walk: seq<Visit>)
    requires VisitsOnce(walk)
    ensures Prune.Distinct(Candidates(entries, database, walk))
  {
    hide CandidateAt;
    if walk == [] {
    } else {
      var before, visit := walk[..|walk| - 1], walk[|walk| - 1];
      CandidatesAreDistinct(entries, database, before);
      if visit.Entry? && CandidateAt(entries, database, visit.name).Some? {
        var c, others := CandidateAt(entries, database, visit.name).value, Candidates(entries, database, before);
        CandidateIsAtItsName(entries, database, visit.name);
        CandidatesAre(entries, database, before);
        forall i | 0 <= i < |others| ensures others[i].place != c.place || others[i].id != c.id {
          assert others[i] in others && Entry(NameOf(others[i])) in before;
          assert forall j | 0 <= j < |before| :: walk[j] == before[j] != visit;
        }
      }
    }
  }

  /** The report of a prune run over the cache as it was when the run began. */
  function PruneTally(entries: map<Name, Directory>, selected: seq<Prune.Candidate>, invalid: nat): PruneReport {
    if selected == [] then PruneReport(0, 0, 0, invalid)
    else
      var before, c := PruneTally(entries, selected[..|selected| - 1], invalid), selected[|selected| - 1];
      if NameOf(c) !in entries then before
      else if entries[NameOf(c)].locked then before.(locked := before.locked + 1)
      else before.(removed := before.removed + 1, bytes := SaturatingAdd(before.bytes, c.compressedBytes))
  }

  /** The selected directories are gone, except those somebody held, and nothing else changed. */
  ghost predicate Executed(before: map<Name, Directory>, selected: seq<Prune.Candidate>, after: map<Name, Directory>) {
    && (forall name :: name in after <==>
          name in before && (before[name].locked || forall c | c in selected :: NameOf(c) != name))
    && (forall name | name in after :: after[name] == before[name])
  }

  /** A prune run on its way. */
  ghost predicate PrunedSoFar(first: map<Name, Directory>, done: seq<Prune.Candidate>, invalid: nat,
                              entries: map<Name, Directory>, report: PruneReport)
  {
    report == PruneTally(first, done, invalid) && Executed(first, done, entries)
  }

  lemma PrunedNothing(first: map<Name, Directory>, invalid: nat)
    ensures PrunedSoFar(first, [], invalid, first, PruneReport(0, 0, 0, invalid))
  {
  }

  /** What one removal adds to the report. */
  function PruneCounted(report: PruneReport, c: Prune.Candidate, outcome: RemovalOutcome): PruneReport {
    match outcome
    case Removed => report.(removed := report.removed + 1, bytes := SaturatingAdd(report.bytes, c.compressedBytes))
    case Locked => report.(locked := report.locked + 1)
    case Gone => report
  }

  /** One more removal, of a name not removed before. */
  lemma PrunesNext(first: map<Name, Directory>, selected: seq<Prune.Candidate>, k: nat, invalid: nat,
                   entries: map<Name, Directory>, report: PruneReport)
    requires k < |selected| && Prune.Distinct(selected)
    requires PrunedSoFar(first, selected[..k], invalid, entries, report)
    ensures var name := NameOf(selected[k]);
            PrunedSoFar(first, selected[..k + 1], invalid, Without(entries, name),
                        PruneCounted(report, selected[k], Removal(entries, name)))
  {
    var c := selected[k];
    assert selected[..k + 1] == selected[..k] + [c] && selected[..k + 1][..k] == selected[..k];
    forall d | d in selected[..k] ensures NameOf(d) != NameOf(c) {
      NamesDiffer(d, c);
    }
    hide NameOf;
    assert NameOf(c) in entries <==> NameOf(c) in first;
  }

  lemma NamesDiffer(a: Prune.Candidate, b: Prune.Candidate)
    requires a.place != b.place || a.id != b.id
    ensures NameOf(a) != NameOf(b)
  {
    Names.SpellingIsCanonical(a.id, Names.Spell(a.id));
    Names.SpellingIsCanonical(b.id, Names.Spell(b.id));
  }

  /** A sweep on its way: what it has visited is dealt with as the cache was at the start, the rest untouched. */
  ghost predicate SweptSoFar(policy: Policy, first: map<Name, Directory>, visited: seq<Visit>,
                             entries: map<Name, Directory>, report: SweepReport)
  {
    && report == Tally(policy, first, visited)
    && (forall name :: name in entries <==> name in first && !(Entry(name) in visited && Swept(policy, first, name)))
    && (forall name | name in entries :: entries[name] == first[name])
  }

  lemma SweptNothing(policy: Policy, first: map<Name, Directory>)
    ensures SweptSoFar(policy, first, [], first, SweepReport(0, 0, 0, 0, 0))
  {
  }

  /** One more visit, of a name not visited before. */
  lemma SweepsNext(policy: Policy, first: map<Name, Directory>, walk: seq<Visit>, k: nat,
                   entries: map<Name, Directory>, report: SweepReport)
    requires k < |walk| && VisitsOnce(walk) && SweptSoFar(policy, first, walk[..k], entries, report)
    ensures var visit := walk[k];
            if visit.Foreign? then SweptSoFar(policy, first, walk[..k + 1], entries, Counted(report, SkipsInvalid))
            else
              var swept := Swept(policy, entries, visit.name);
              SweptSoFar(policy, first, walk[..k + 1], if swept then entries - {visit.name} else entries,
                         Counted(report, VerdictOf(policy, entries, visit.name)))
  {
    hide Names.SweepClassOf, Counted;
    assert walk[..k + 1] == walk[..k] + [walk[k]] && walk[..k + 1][..k] == walk[..k];
    if walk[k].Entry? {
      assert forall i | 0 <= i < k :: walk[i] != walk[k];
      assert VerdictOf(policy, entries, walk[k].name) == VerdictOf(policy, first, walk[k].name);
    }
  }

  /** What removing one directory answers, and the cache without it if it could be removed. */
  function Removal(entries: map<Name, Directory>, name: Name): RemovalOutcome {
    if name !in entries then RemovalOutcome.Gone else if entries[name].locked then Locked else Removed
  }

  function Without(entries: map<Name, Directory>, name: Name): map<Name, Directory> {
    if Removal(entries, name).Removed? then entries - {name} else entries
  }

  /** The plan selects what the selection means among the candidates of the walk, each once. */
  ghost predicate Planned(entries: map<Name, Directory>, profiles: seq<ProfileDir>, selection: Prune.Selection,
                          database: Option<string>, now: u64, plan: Plan)
  {
    var candidates := Candidates(entries, database, Walk(profiles));
    && (forall c :: c in plan.selected <==> c in candidates && Prune.Selects(selection, candidates, now, c))
    && Prune.Distinct(plan.selected)
    && plan.invalid == InvalidCount(entries, database, Walk(profiles))
  }

  predicate InScope(database: Option<string>, place: Place) {
    database.None? || database.value == place.database
  }

  class LocalCache {
    var entries: map<Name, Directory>

    constructor (entries: map<Name, Directory>)
      ensures this.entries == entries
    {
      this.entries := entries;
    }

    /** Locks, renames and deletes; a directory somebody holds or that is gone stays as it is. */
    method IsolateAndRemove(name: Name) returns (outcome: RemovalOutcome)
      modifies this
      ensures outcome == Removal(old(entries), name) && entries == Without(old(entries), name)
    {
      if name !in entries {
        return RemovalOutcome.Gone;
      }
      if entries[name].locked {
        return Locked;
      }
      entries := entries - {name};
      return Removed;
    }

    method RemoveIfUnlocked(name: Name, deletion: bool, report: SweepReport) returns (r: SweepReport)
      modifies this
      ensures name in old(entries) && !old(entries)[name].locked ==>
                entries == old(entries) - {name}
                && r == Counted(report, if deletion then RemovesDeletion else RemovesPartial)
      ensures name in old(entries) && old(entries)[name].locked ==>
                entries == old(entries) && r == Counted(report, SkipsLocked)
      ensures name !in old(entries) ==> entries == old(entries) && r == report
    {
      var outcome := IsolateAndRemove(name);
      match outcome
      case Removed => r := if deletion then report.(deletions := report.deletions + 1)
        else report.(partials := report.partials + 1);
      case Locked => r := report.(locked := report.locked + 1);
      case Gone => r := report;
    }

    method SweepPartial(name: Name, policy: Policy, report: SweepReport) returns (r: SweepReport)
      requires Names.SweepClassOf(name.entry).Partial?
      modifies this
      ensures r == Counted(report, VerdictOf(policy, old(entries), name))
      ensures entries == if Swept(policy, old(entries), name) then old(entries) - {name} else old(entries)
    {
      if name !in entries {
        return report;
      }
      var modified := entries[name].modified;
      if modified > policy.now {
        return report.(future := report.future + 1);
      }
      if policy.now < SaturatingAdd(modified, policy.partialTtl) {
        return report;
      }
      r := RemoveIfUnlocked(name, false, report);
    }

    method SweepEntry(name: Name, policy: Policy, report: SweepReport) returns (r: SweepReport)
      modifies this
      ensures r == Counted(report, VerdictOf(policy, old(entries), name))
      ensures entries == if Swept(policy, old(entries), name) then old(entries) - {name} else old(entries)
    {
      if Names.IsInterruptedDeletion(name.entry) {
        r := RemoveIfUnlocked(name, true, report);
        return;
      }
      var id := Names.StripSuffix(name.entry, Names.PART_SUFFIX);
      if id.Some? {
        if Names.ParseDumpId(id.value).None? {
          return report.(invalid := report.invalid + 1);
        }
        r := SweepPartial(name, policy, report);
        return;
      }
      if Names.ParseDumpId(name.entry).None? {
        return report.(invalid := report.invalid + 1);
      }
      return report;
    }

    /** The sweep removes exactly what it may of what it visits, and counts everything it met. */
    method Sweep(profiles: seq<ProfileDir>, policy: Policy) returns (report: SweepReport)
      requires VisitsOnce(Walk(profiles))
      modifies this
      ensures report == Tally(policy, old(entries), Walk(profiles))
      ensures forall name :: name in entries <==>
                name in old(entries) && !(Entry(name) in Walk(profiles) && Swept(policy, old(entries), name))
      ensures forall name | name in entries :: entries[name] == old(entries)[name]
    {
      var walk := Walk(profiles);
      report := SweepReport(0, 0, 0, 0, 0);
      SweptNothing(policy, entries);
      for k := 0 to |walk|
        invariant SweptSoFar(policy, old(entries), walk[..k], entries, report)
      {
        ghost var before, counted := entries, report;
        match walk[k] {
          case Foreign => report := report.(invalid := report.invalid + 1);
          case Entry(name) => report := SweepEntry(name, policy, report);
        }
        SweepsNext(policy, old(entries), walk, k, before, counted);
      }
      assert walk[..|walk|] == walk;
    }

    /** The walk of the prune planner: its candidates, its selection among them, and the unreadable rest. */
    method PlanPrune(profiles: seq<ProfileDir>, selection: Prune.Selection, database: Option<string>, now: u64)
      returns (plan: Plan)
      requires VisitsOnce(Walk(profiles))
      ensures Planned(entries, profiles, selection, database, now, plan)
    {
      var walk := Walk(profiles);
      var candidates, invalid := [], 0;
      assert Candidates(entries, database, []) == [] && InvalidCount(entries, database, []) == 0;
      for k := 0 to |walk|
        invariant candidates == Candidates(entries, database, walk[..k])
        invariant invalid == InvalidCount(entries, database, walk[..k])
      {
        hide Candidates, InvalidCount, CandidateAt, Names.ParseDumpId, Names.StripSuffix, Names.IsInterruptedDeletion;
        NextVisit(entries, database, walk, k);
        if walk[k].Foreign? {
          invalid := invalid + 1;
        } else {
          var name := walk[k].name;
          VisitedEntry(entries, database, name);
          hide Invalidates;
          if database.Some? && database.value != name.place.database {
            continue;
          }
          if Names.StripSuffix(name.entry, Names.PART_SUFFIX).Some? || Names.IsInterruptedDeletion(name.entry) {
            continue;
          }
          var id := Names.ParseDumpId(name.entry);
          if id.None? || name !in entries || !entries[name].metadata.Parsed? {
            invalid := invalid + 1;
          } else {
            var meta := entries[name].metadata.meta;
            candidates := candidates + [Prune.Candidate(name.place, id.value, meta.completedAt, meta.compressedBytes)];
          }
        }
      }
      assert walk[..|walk|] == walk;
      CandidatesAreDistinct(entries, database, walk);
      var selected := Prune.SelectForPrune(selection, candidates, now);
      return Plan(selected, invalid);
    }

    /** Destroys what the plan selected and nobody holds. */
    method ExecutePrune(plan: Plan) returns (report: PruneReport)
      requires Prune.Distinct(plan.selected)
      modifies this
      ensures report == PruneTally(old(entries), plan.selected, plan.invalid)
      ensures Executed(old(entries), plan.selected, entries)
    {
      report := PruneReport(0, 0, 0, plan.invalid);
      PrunedNothing(entries, plan.invalid);
      for k := 0 to |plan.selected|
        invariant PrunedSoFar(old(entries), plan.selected[..k], plan.invalid, entries, report)
      {
        ghost var before, counted := entries, report;
        var c := plan.selected[k];
        var outcome := IsolateAndRemove(NameOf(c));
        match outcome {
          case Removed =>
            report := report.(removed := report.removed + 1, bytes := SaturatingAdd(report.bytes, c.compressedBytes));
          case Locked => report := report.(locked := report.locked + 1);
          case Gone =>
        }
        PrunesNext(old(entries), plan.selected, k, plan.invalid, before, counted);
      }
      assert plan.selected[..|plan.selected|] == plan.selected;
    }
  }

  /** No sweep touches an artifact, under any policy and whatever its age or lock. */
  lemma SweepLeavesArtifacts(policy: Policy, entries: map<Name, Directory>, name: Name, id: DumpId)
    ensures Names.ParseDumpId(name.entry) == Some(id) ==> !Swept(policy, entries, name)
    ensures name.entry == Names.Spell(id) ==> !Swept(policy, entries, name)
  {
    Names.SpellingIsCanonical(id, name.entry);
    if Names.ParseDumpId(name.entry) == Some(id) {
      Names.RenderedNamesAreRecognised(ArtifactProtocol.Complete(id));
    }
  }

  /** What the sweep may remove, no plan selects, and the other way round. */
  lemma SweepAndPruneNeverCompete(policy: Policy, entries: map<Name, Directory>, database: Option<string>, name: Name)
    ensures Swept(policy, entries, name) ==> CandidateAt(entries, database, name).None?
    ensures CandidateAt(entries, database, name).Some? ==> VerdictOf(policy, entries, name) == Leaves
  {
    if CandidateAt(entries, database, name).Some? {
      Names.SweepAndPruneAreDisjoint(name.entry, CandidateAt(entries, database, name).value.id);
    }
    hide Names.SweepClassOf, Names.PruneClassOf, Expired;
  }

  /**
   A directory set aside for deletion and left behind unlocked is removed by the next sweep exactly
   when it had been an artifact or a stage; one already set aside by an earlier sweep is not.
   */
  lemma SweepFinishesDeletions(policy: Policy, entries: map<Name, Directory>, place: Place, original: string,
                               tag: DumpId)
    requires Name(place, Names.DeletionName(original, tag)) in entries
    requires !entries[Name(place, Names.DeletionName(original, tag))].locked
    ensures Swept(policy, entries, Name(place, Names.DeletionName(original, tag))) <==>
            Names.SweepClassOf(original).Kept? || Names.SweepClassOf(original).Partial?
  {
    var name := Name(place, Names.DeletionName(original, tag));
    Names.DeletionIsRecognisedOnce(original, tag);
    if !Names.IsInterruptedDeletion(name.entry) {
      Names.DeletionNameIsNoStage(original, tag);
    }
  }

  /** Nothing is left for a second sweep under the same clock. */
  lemma SecondSweepFindsNothing(policy: Policy, before: map<Name, Directory>, after: map<Name, Directory>,
                                walk: seq<Visit>, name: Name)
    requires forall n :: n in after <==> n in before && !(Entry(n) in walk && Swept(policy, before, n))
    requires forall n | n in after :: after[n] == before[n]
    requires Entry(name) in walk
    ensures !Swept(policy, after, name)
  {
    hide Names.SweepClassOf;
  }
}
