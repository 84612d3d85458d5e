/** The removals of the sweep and of the prune run are those of the artifact protocol. */
module CleanupOnProtocol {
  import opened Domain
  import opened ArtifactProtocol
  import opened ArtifactStore
  import opened Snapshot
  import ArtifactSafety
  import ArtifactTheorems
  import Cleanup
  import Names

  function NameOf(path: Path): Cleanup.Name
    requires Names.Tagged(path.entry)
  {
    Cleanup.Name(path.place, Names.Render(path.entry))
  }

  /** The cleaner's view of a protocol state: the same names, locks and metadata; directory times are free. */
  ghost predicate Shows(s: State, entries: map<Cleanup.Name, Cleanup.Directory>) {
    forall path: Path | Names.Tagged(path.entry) ::
      && (s.disk.Has(path) <==> NameOf(path) in entries)
      && (s.disk.Has(path) ==>
            && (entries[NameOf(path)].locked <==> LockTaken(s, path))
            && entries[NameOf(path)].metadata == Written(s.disk.Look(path)))
  }

  function Written(contents: Dir): MetadataFile {
    if contents.metadata.Some? then Parsed(contents.metadata.value) else Missing
  }

  lemma NamesDiffer(p: Path, q: Path)
    requires Names.Tagged(p.entry) && Names.Tagged(q.entry) && NameOf(p) == NameOf(q)
    ensures p == q
  {
    Names.RenderIsInjective(p.entry, q.entry);
  }

  /** What the sweep may remove and what a plan selects, the protocol's removers may target, and nothing else. */
  lemma CleanersTargetRemovable(entry: Entry)
    requires Names.Tagged(entry)
    ensures Removable(entry) <==>
            Names.SweepClassOf(Names.Render(entry)).Deletion? || Names.SweepClassOf(Names.Render(entry)).Partial?
            || Names.PruneClassOf(Names.Render(entry)).Candidate?
  {
    Names.RenderedNamesAreRecognised(entry);
    var name := Names.Render(entry);
    match entry
    case Complete(id) => Names.SweepAndPruneAreDisjoint(name, id);
    case Staged(id) => Names.SweepAndPruneAreDisjoint(name, id);
    case Isolated(_, _) =>
      forall id ensures Names.PruneClassOf(name) != Names.Candidate(id) {
        Names.SweepAndPruneAreDisjoint(name, id);
      }
  }

  /**
   An uninterrupted `isolate_and_remove` of the protocol is the cleaner's: same outcome, and the
   state it leaves shows exactly the entries the cleaner has left.
   */
  lemma IsolationIsRemoval(codec: Codec, s: State, t: State, entries: map<Cleanup.Name, Cleanup.Directory>,
                           victim: Path, tag: nat, outcome: RemovalOutcome)
    requires ArtifactTheorems.Reachable(codec, s) && Shows(s, entries) && Names.Tagged(victim.entry)
    requires Isolates(s, t, victim, tag, Unhindered, outcome)
    ensures outcome == match Cleanup.Removal(entries, NameOf(victim))
                       case Removed => RemovalOutcome.Removed
                       case Locked => RemovalOutcome.Locked
                       case Gone => RemovalOutcome.Gone
    ensures Shows(t, Cleanup.Without(entries, NameOf(victim)))
  {
    ArtifactTheorems.ReachableKeeps(codec, s);
    assert forall path | path in s.disk.fs :: ArtifactSafety.PathOk(codec, s.disk, path);
    hide ArtifactSafety.Inv, ArtifactTheorems.Reachable, Names.Render;
    var left := Cleanup.Without(entries, NameOf(victim));
    if outcome.Removed? {
      forall path: Path | Names.Tagged(path.entry)
        ensures t.disk.Has(path) <==> NameOf(path) in left
        ensures t.disk.Has(path) ==> (left[NameOf(path)].locked <==> LockTaken(t, path))
        ensures t.disk.Has(path) ==> left[NameOf(path)].metadata == Written(t.disk.Look(path))
      {
        if path != victim {
          if NameOf(path) == NameOf(victim) { NamesDiffer(path, victim); }
          assert s.disk.Has(path) ==> (LockTaken(t, path) <==> LockTaken(s, path));
        }
      }
    }
  }
}
