/** The inventory and the default prune plan, each read from the same cache in its own way. */
module PlanAgreement {
  import opened Domain
  import opened Snapshot
  import opened CacheAgreement
  import ArtifactProtocol
  import Cleanup
  import Names
  import Prune

  /**
   The listing of candidate directories and the walk of the planner look at one cache: the same
   directories with a dump ID for a name, and the same metadata in them. Leases are not compared,
   because the planner takes none.
   */
  ghost predicate SameCache(store: seq<Stored>, profiles: seq<Cleanup.ProfileDir>,
                            entries: map<Cleanup.Name, Cleanup.Directory>)
  {
    && (forall e | e in store ::
          && Cleanup.Entry(NameOf(e)) in Cleanup.Walk(profiles)
          && NameOf(e) in entries && entries[NameOf(e)].metadata == e.metadata)
    && (forall name | Cleanup.Entry(name) in Cleanup.Walk(profiles) && Names.ParseDumpId(name.entry).Some? ::
          exists e :: e in store && NameOf(e) == name)
  }

  function NameOf(e: Stored): Cleanup.Name {
    Cleanup.Name(e.place, Names.Spell(e.id))
  }

  /** The planner takes a listed artifact with parsed metadata for a candidate exactly when it is in scope. */
  lemma IsCandidate(store: seq<Stored>, profiles: seq<Cleanup.ProfileDir>,
                    entries: map<Cleanup.Name, Cleanup.Directory>, database: Option<string>, e: Stored)
    requires SameCache(store, profiles, entries) && e in store && e.metadata.Parsed?
    ensures CandidateOf(e) in Cleanup.Candidates(entries, database, Cleanup.Walk(profiles)) <==>
            Cleanup.InScope(database, e.place)
  {
    Names.SpellingIsCanonical(e.id, Names.Spell(e.id));
    Names.RenderedNamesAreRecognised(ArtifactProtocol.Complete(e.id));
    Names.SweepAndPruneAreDisjoint(Names.Spell(e.id), e.id);
    Cleanup.CandidatesAre(entries, database, Cleanup.Walk(profiles));
    hide Names.Spell, Names.PruneClassOf, Names.SweepClassOf;
    assert Cleanup.CandidateAt(entries, database, NameOf(e)) ==
             if Cleanup.InScope(database, e.place) then Some(CandidateOf(e)) else None;
  }

  /** A candidate of the planner at the name of `e` is the candidate of `e`. */
  lemma CandidateIsOf(store: seq<Stored>, profiles: seq<Cleanup.ProfileDir>,
                      entries: map<Cleanup.Name, Cleanup.Directory>, database: Option<string>, e: Stored,
                      c: Prune.Candidate)
    requires SameCache(store, profiles, entries) && e in store && e.metadata.Parsed?
    requires c in Cleanup.Candidates(entries, database, Cleanup.Walk(profiles)) && c.place == e.place && c.id == e.id
    ensures c == CandidateOf(e)
  {
    Cleanup.CandidatesAre(entries, database, Cleanup.Walk(profiles));
    hide Names.Spell, Names.PruneClassOf;
  }

  /** Every candidate of the planner is that of a listed artifact in scope. */
  lemma CandidateIsListed(store: seq<Stored>, profiles: seq<Cleanup.ProfileDir>,
                          entries: map<Cleanup.Name, Cleanup.Directory>, database: Option<string>, c: Prune.Candidate)
    returns (e: Stored)
    requires SameCache(store, profiles, entries) && c in Cleanup.Candidates(entries, database, Cleanup.Walk(profiles))
    ensures e in store && e.metadata.Parsed? && CandidateOf(e) == c && Cleanup.InScope(database, e.place)
  {
    Cleanup.CandidatesAre(entries, database, Cleanup.Walk(profiles));
    Names.SpellingIsCanonical(c.id, Names.Spell(c.id));
    hide Names.Spell, Names.PruneClassOf;
    e :| e in store && NameOf(e) == Cleanup.NameOf(c);
    Names.SpellingIsCanonical(e.id, Names.Spell(e.id));
    CandidateIsOf(store, profiles, entries, database, e, c);
  }

  /** The plan selects the artifact of the inventory's line. */
  predicate SelectsLine(plan: Cleanup.Plan, line: Entry) {
    exists c :: c in plan.selected && c.place == line.place && c.id == line.id
  }

  /**
   Inventory and default plan of one cache at one time. Below the last representable second every
   Prunable line is in the plan, at that second exactly the lines whose expiry fits in a u64; a line
   that is Ready, Stale or from the future never is.
   */
  lemma PrunableIsPruned(store: seq<Stored>, profiles: seq<Cleanup.ProfileDir>,
                         entries: map<Cleanup.Name, Cleanup.Directory>,
                         inventory: InventoryRequest, lines: seq<Entry>, plan: Cleanup.Plan, line: Entry)
    requires SameCache(store, profiles, entries) && OneEntryPerName(store)
    requires inventory.retention == Prune.DEFAULT_RETENTION_SECONDS
    requires Inventory(store, inventory, lines) && line in lines
    requires Cleanup.Planned(entries, profiles, Prune.OlderThan(Prune.DEFAULT_RETENTION_SECONDS), None, inventory.now,
                             plan)
    ensures line.status == Prunable ==>
              && line.completedAt.Some?
              && (SelectsLine(plan, line) <==> line.completedAt.value + Prune.DEFAULT_RETENTION_SECONDS <= U64_MAX)
              && (inventory.now < U64_MAX ==> SelectsLine(plan, line))
    ensures line.status in {Ready, Stale, Status.ClockInFuture} ==> !SelectsLine(plan, line)
  {
    var e :| e in store && line == EntryOf(inventory, e);
    DatedLine(inventory, e);
    if line.status in {Prunable, Ready, Stale, Status.ClockInFuture} {
      PrunableMeansAged(inventory, e);
      IsCandidate(store, profiles, entries, None, e);
      var c := CandidateOf(e);
      assert c in plan.selected <==> Prune.Aged(c, Prune.DEFAULT_RETENTION_SECONDS, inventory.now);
      forall d | d in plan.selected && d.place == line.place && d.id == line.id ensures d == c {
        CandidateIsOf(store, profiles, entries, None, e, d);
      }
      hide SameCache, Cleanup.Planned, Cleanup.Candidates, EntryOf, Prune.Aged, Inventory;
      assert SelectsLine(plan, line) <==> c in plan.selected;
    }
  }

  /** A line of that kind shows its completion, and was Prunable by it. */
  lemma DatedLine(inventory: InventoryRequest, e: Stored)
    ensures var line := EntryOf(inventory, e);
            && line.place == e.place && line.id == e.id
            && (line.status in {Prunable, Ready, Stale, Status.ClockInFuture} ==>
                  e.metadata.Parsed? && line.completedAt == Some(e.metadata.meta.completedAt))
            && (line.status == Prunable ==>
                 SaturatingAdd(e.metadata.meta.completedAt, inventory.retention) <= inventory.now)
  {
  }
}
