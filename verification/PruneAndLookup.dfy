/**
 What a lookup answers after a prune run. The two order artifacts of one second in opposite ways:
 `KeepLast` keeps the larger IDs, a lookup prefers the smaller ones.
 */
module PruneAndLookup {
  import opened Domain
  import opened Snapshot
  import opened CacheIndex
  import opened CacheAgreement
  import opened PlanAgreement
  import Cleanup
  import Names
  import Ordering
  import Prune

  /** A prune run: the cache before it as a listing and as a tree, the plan, and the cache it leaves. */
  datatype PruneRun = PruneRun(
    store: seq<Stored>, profiles: seq<Cleanup.ProfileDir>, entries: map<Cleanup.Name, Cleanup.Directory>,
    selection: Prune.Selection, database: Option<string>, now: u64, plan: Cleanup.Plan,
    left: map<Cleanup.Name, Cleanup.Directory>, after: seq<Stored>)
  {
    function Candidates(): seq<Prune.Candidate> {
      Cleanup.Candidates(entries, database, Cleanup.Walk(profiles))
    }

    /** Planned and executed; the listing after it is what is still there. */
    ghost predicate Happens() {
      && SameCache(store, profiles, entries) && Cleanup.VisitsOnce(Cleanup.Walk(profiles))
      && Cleanup.Planned(entries, profiles, selection, database, now, plan)
      && Cleanup.Executed(entries, plan.selected, left)
      && (forall e :: e in after <==> e in store && NameOf(e) in left)
    }

    /** The run may destroy the artifact: nobody holds it, and its database is in scope. */
    predicate Reaches(e: Stored)
      requires NameOf(e) in entries
    {
      Cleanup.InScope(database, e.place) && !entries[NameOf(e)].locked
    }
  }

  /** An artifact with parsed metadata disappears exactly when the run reaches it and the selection means it. */
  lemma Disappears(run: PruneRun, e: Stored)
    requires run.Happens() && e in run.store && e.metadata.Parsed?
    ensures NameOf(e) in run.entries
    ensures e !in run.after <==>
            run.Reaches(e) && Prune.Selects(run.selection, run.Candidates(), run.now, CandidateOf(e))
  {
    IsCandidate(run.store, run.profiles, run.entries, run.database, e);
    Names.SpellingIsCanonical(e.id, Names.Spell(e.id));
    forall c | c in run.plan.selected && Cleanup.NameOf(c) == NameOf(e) ensures c == CandidateOf(e) {
      Names.SpellingIsCanonical(c.id, Names.Spell(c.id));
      CandidateIsOf(run.store, run.profiles, run.entries, run.database, e, c);
    }
    hide Names.Spell, Prune.Selects, Cleanup.Candidates, Cleanup.Walk;
    assert Cleanup.NameOf(CandidateOf(e)) == NameOf(e);
  }

  /** No prune makes a lookup hit, or hit anything newer. */
  lemma PruneMakesNoHits(run: PruneRun, request: Request, r: LookupResult, later: LookupResult)
    requires run.Happens() && Answers(run.store, request, r) && Answers(run.after, request, later)
    ensures later.Hit? ==> r.Hit? && later.age >= r.age
  {
    hide Reusable, SameCache, Cleanup.Planned, Cleanup.Executed;
    if later.Hit? {
      assert later.artifact in run.store && Reusable(request, later.artifact);
      BestIsNewest(run.store, request, r, later.artifact);
    }
  }

  lemma BestIsNewest(store: seq<Stored>, request: Request, r: LookupResult, e: Stored)
    requires !request.forced && Answers(store, request, r) && e in store && Reusable(request, e)
    ensures e.metadata.Parsed? && e.place == request.place && r.Hit? && r.artifact.metadata.Parsed?
    ensures r.artifact.metadata.meta.completedAt >= e.metadata.meta.completedAt
    ensures r.age == request.now - r.artifact.metadata.meta.completedAt
  {
  }

  /** The answer stays word for word exactly unless the run reaches the hit and the selection means it. */
  lemma HitStaysExactlyUnless(run: PruneRun, request: Request, r: LookupResult, later: LookupResult)
    requires run.Happens() && Answers(run.store, request, r) && Answers(run.after, request, later) && r.Hit?
    ensures r.artifact.metadata.Parsed? && NameOf(r.artifact) in run.entries
    ensures later == r <==>
            !(run.Reaches(r.artifact)
              && Prune.Selects(run.selection, run.Candidates(), run.now, CandidateOf(r.artifact)))
  {
    assert Reusable(request, r.artifact);
    Disappears(run, r.artifact);
    hide Rejection, SameCache, Cleanup.Planned, Cleanup.Executed, Prune.Selects;
    if r.artifact in run.after {
      assert later.Hit? && later.artifact in run.store;
    }
  }

  /** An age the selection asks for that is at least the freshness spares every artifact a lookup could hit. */
  lemma FreshIsYoung(request: Request, e: Stored, seconds: u64, now: u64)
    requires Reusable(request, e) && request.ttl <= seconds && now <= request.now
    ensures !Prune.Aged(CandidateOf(e), seconds, now)
  {
  }

  /** A prune by an age of at least the freshness TTL changes no answer of that or any later time. */
  lemma AgePruneKeepsAnswers(run: PruneRun, request: Request, r: LookupResult, later: LookupResult)
    requires run.Happens() && run.selection.OlderThan? && request.ttl <= run.selection.seconds
    requires run.now <= request.now
    requires Answers(run.store, request, r) && Answers(run.after, request, later)
    ensures r.Hit? ==> later == r
    ensures r.Miss? ==> later.Miss?
  {
    PruneMakesNoHits(run, request, r, later);
    if r.Hit? {
      assert Reusable(request, r.artifact);
      FreshIsYoung(request, r.artifact, run.selection.seconds, run.now);
      HitStaysExactlyUnless(run, request, r, later);
    }
  }

  /** The candidates of other artifacts of the place that were completed in the same second. */
  ghost function SameSecond(store: seq<Stored>, e: Stored): set<Prune.Candidate>
    requires e.metadata.Parsed?
  {
    set d | d in store && d.place == e.place && d.id != e.id && d.metadata.Parsed?
            && d.metadata.meta.completedAt == e.metadata.meta.completedAt :: CandidateOf(d)
  }

  /** Nothing of the place that is at least as new as the hit was passed over by the lookup for another reason. */
  ghost predicate NewerAreReusable(store: seq<Stored>, request: Request, hit: Stored)
    requires hit.metadata.Parsed?
  {
    forall e | e in store && e.place == request.place && e.metadata.Parsed?
               && e.metadata.meta.completedAt >= hit.metadata.meta.completedAt :: Reusable(request, e)
  }

  /** The candidates the plan counts as newer than the hit are those of the same second, which have larger IDs. */
  lemma NewerThanTheHit(run: PruneRun, request: Request, r: LookupResult)
    requires run.Happens() && Answers(run.store, request, r) && r.Hit? && OneEntryPerName(run.store)
    requires NewerAreReusable(run.store, request, r.artifact) && Cleanup.InScope(run.database, request.place)
    ensures r.artifact.place == request.place
    ensures Prune.NewerThan(run.Candidates(), CandidateOf(r.artifact)) == SameSecond(run.store, r.artifact)
  {
    var hit := r.artifact;
    assert Reusable(request, hit);
    hide Rejection;
    forall c | c in Prune.NewerThan(run.Candidates(), CandidateOf(hit)) ensures c in SameSecond(run.store, hit) {
      var e := CandidateIsListed(run.store, run.profiles, run.entries, run.database, c);
      BestIsNewest(run.store, request, r, e);
    }
    forall c | c in SameSecond(run.store, hit) ensures c in Prune.NewerThan(run.Candidates(), CandidateOf(hit)) {
      var e :| e in run.store && e.place == hit.place && e.id != hit.id && e.metadata.Parsed?
               && e.metadata.meta.completedAt == hit.metadata.meta.completedAt && CandidateOf(e) == c;
      IsCandidate(run.store, run.profiles, run.entries, run.database, e);
      assert Before(hit, e);
    }
  }

  /**
   `KeepLast` with a count keeps a hit a hit, of the same age, when nothing as new was passed over; it is
   another artifact exactly when the run reaches the first and as many others share its second.
   */
  lemma KeepLastKeepsTheAge(run: PruneRun, request: Request, r: LookupResult, later: LookupResult)
    requires run.Happens() && OneEntryPerName(run.store) && run.selection.KeepLast? && run.selection.count >= 1
    requires Answers(run.store, request, r) && Answers(run.after, request, later) && r.Hit?
    requires NewerAreReusable(run.store, request, r.artifact)
    ensures later.Hit? && later.age == r.age
    ensures r.artifact.metadata.Parsed? && NameOf(r.artifact) in run.entries
    ensures later == r <==>
            !run.Reaches(r.artifact) || |SameSecond(run.store, r.artifact)| < run.selection.count
  {
    var hit := r.artifact;
    assert Reusable(request, hit);
    PruneMakesNoHits(run, request, r, later);
    HitStaysExactlyUnless(run, request, r, later);
    if Cleanup.InScope(run.database, request.place) {
      NewerThanTheHit(run, request, r);
      if later != r {
        var e := SomeoneIsKept(run, request, r);
        BestIsNewest(run.after, request, later, e);
      }
    }
  }

  /** Of the hit's second somebody survives. */
  lemma SomeoneIsKept(run: PruneRun, request: Request, r: LookupResult) returns (e: Stored)
    requires run.Happens() && run.selection.KeepLast? && run.selection.count >= 1
    requires Answers(run.store, request, r) && r.Hit? && Cleanup.InScope(run.database, request.place)
    requires NewerAreReusable(run.store, request, r.artifact)
    ensures e in run.after && Reusable(request, e)
    ensures e.metadata.meta.completedAt == r.artifact.metadata.meta.completedAt
  {
    var hit, candidates, count := r.artifact, run.Candidates(), run.selection.count;
    assert Reusable(request, hit);
    IsCandidate(run.store, run.profiles, run.entries, run.database, hit);
    Disappears(run, hit);
    e := hit;
    if hit !in run.after {
      Cleanup.CandidatesAreDistinct(run.entries, run.database, Cleanup.Walk(run.profiles));
      Prune.KeepsExactlyCount(candidates, count, request.place);
      assert CandidateOf(hit) in Prune.Group(candidates, request.place);
      var kept :| kept in Prune.Kept(candidates, count, request.place);
      Prune.KeptAreNewer(candidates, count, kept, CandidateOf(hit));
      e := CandidateIsListed(run.store, run.profiles, run.entries, run.database, kept);
      Disappears(run, e);
      BestIsNewest(run.store, request, r, e);
    }
  }

  /** A tree with one profile and one database, which lists the artifacts in the given order. */
  function Tree(place: Place, store: seq<Stored>): seq<Cleanup.ProfileDir> {
    var names := seq(|store|, i requires 0 <= i < |store| => Names.Spell(store[i].id));
    [Cleanup.ProfileDir(place.profile, true, [Cleanup.DatabaseDir(place.database, true, names)])]
  }

  function Unlocked(store: seq<Stored>): map<Cleanup.Name, Cleanup.Directory> {
    if store == [] then map[]
    else
      var last := store[|store| - 1];
      Unlocked(store[..|store| - 1])[NameOf(last) := Cleanup.Directory(0, false, last.metadata)]
  }

  lemma NamesDiffer(a: Stored, b: Stored)
    requires a.place != b.place || a.id != b.id
    ensures NameOf(a) != NameOf(b)
  {
    Names.SpellingIsCanonical(a.id, Names.Spell(a.id));
    Names.SpellingIsCanonical(b.id, Names.Spell(b.id));
  }

  lemma {:induction false} UnlockedHas(store: seq<Stored>)
    requires OneEntryPerName(store)
    ensures forall e | e in store ::
              NameOf(e) in Unlocked(store) && Unlocked(store)[NameOf(e)] == Cleanup.Directory(0, false, e.metadata)
  {
    hide Names.Spell;
    if store == [] {
    } else {
      var before, last := store[..|store| - 1], store[|store| - 1];
      UnlockedHas(before);
      forall e | e in before ensures NameOf(e) != NameOf(last) {
        NamesDiffer(e, last);
      }
      assert store == before + [last];
    }
  }

  lemma WalkOfTree(place: Place, store: seq<Stored>)
    requires forall e | e in store :: e.place == place
    ensures var walk := Cleanup.Walk(Tree(place, store));
            |walk| == |store| && forall i | 0 <= i < |store| :: walk[i] == Cleanup.Entry(NameOf(store[i]))
  {
    hide Names.Spell;
    var names := seq(|store|, i requires 0 <= i < |store| => Names.Spell(store[i].id));
    var dir := Cleanup.DatabaseDir(place.database, true, names);
    assert Tree(place, store)[..0] == [] && [dir][..0] == [];
    assert Cleanup.WalkProfile(place.profile, [dir]) == [] + Cleanup.WalkDatabase(place.profile, dir);
    assert Cleanup.Walk(Tree(place, store)) == [] + Cleanup.WalkProfile(place.profile, [dir]);
  }

  /** Such a tree is a view of the listing. */
  lemma TreeIsSameCache(place: Place, store: seq<Stored>)
    requires OneEntryPerName(store) && forall e | e in store :: e.place == place
    ensures SameCache(store, Tree(place, store), Unlocked(store))
    ensures Cleanup.VisitsOnce(Cleanup.Walk(Tree(place, store)))
  {
    WalkOfTree(place, store);
    UnlockedHas(store);
    hide Names.Spell, Names.ParseDumpId, Tree, Unlocked, Cleanup.Walk;
    ListedWalk(store, Cleanup.Walk(Tree(place, store)));
  }

  lemma ListedWalk(store: seq<Stored>, walk: seq<Cleanup.Visit>)
    requires OneEntryPerName(store) && |walk| == |store|
    requires forall i | 0 <= i < |store| :: walk[i] == Cleanup.Entry(NameOf(store[i]))
    ensures Cleanup.VisitsOnce(walk)
    ensures forall e | e in store :: Cleanup.Entry(NameOf(e)) in walk
    ensures forall name | Cleanup.Entry(name) in walk :: exists e :: e in store && NameOf(e) == name
  {
    forall i, j | 0 <= i < j < |walk| ensures walk[i] != walk[j] {
      NamesDiffer(store[i], store[j]);
    }
    hide NameOf;
    forall e | e in store ensures Cleanup.Entry(NameOf(e)) in walk {
      var i :| 0 <= i < |store| && store[i] == e;
      assert walk[i] == Cleanup.Entry(NameOf(e));
    }
    forall name | Cleanup.Entry(name) in walk ensures exists e :: e in store && NameOf(e) == name {
      var i :| 0 <= i < |walk| && walk[i] == Cleanup.Entry(name);
      assert store[i] in store && NameOf(store[i]) == name;
    }
  }

  /** The selection means this artifact and no other. */
  ghost predicate MeansOnly(store: seq<Stored>, profiles: seq<Cleanup.ProfileDir>,
                            entries: map<Cleanup.Name, Cleanup.Directory>, selection: Prune.Selection, now: u64,
                            gone: Stored)
    requires forall e | e in store :: e.metadata.Parsed?
  {
    var candidates := Cleanup.Candidates(entries, None, Cleanup.Walk(profiles));
    forall e | e in store :: Prune.Selects(selection, candidates, now, CandidateOf(e)) <==> e == gone
  }

  lemma PlansOne(store: seq<Stored>, profiles: seq<Cleanup.ProfileDir>,
                 entries: map<Cleanup.Name, Cleanup.Directory>, selection: Prune.Selection, now: u64, gone: Stored)
    returns (plan: Cleanup.Plan)
    requires SameCache(store, profiles, entries) && gone in store && forall e | e in store :: e.metadata.Parsed?
    requires MeansOnly(store, profiles, entries, selection, now, gone)
    ensures Cleanup.Planned(entries, profiles, selection, None, now, plan) && plan.selected == [CandidateOf(gone)]
  {
    hide SameCache, Prune.Selects, Cleanup.Candidates, Cleanup.Walk, Cleanup.InvalidCount;
    plan := Cleanup.Plan([CandidateOf(gone)], Cleanup.InvalidCount(entries, None, Cleanup.Walk(profiles)));
    var candidates := Cleanup.Candidates(entries, None, Cleanup.Walk(profiles));
    IsCandidate(store, profiles, entries, None, gone);
    forall c | c in candidates && Prune.Selects(selection, candidates, now, c) ensures c == CandidateOf(gone) {
      var e := CandidateIsListed(store, profiles, entries, None, c);
    }
  }

  lemma ExecutesOne(entries: map<Cleanup.Name, Cleanup.Directory>, gone: Stored)
    requires gone.metadata.Parsed? && NameOf(gone) in entries && !entries[NameOf(gone)].locked
    ensures Cleanup.Executed(entries, [CandidateOf(gone)], entries - {NameOf(gone)})
  {
    hide Names.Spell;
    assert Cleanup.NameOf(CandidateOf(gone)) == NameOf(gone);
  }

  /** What is listed when one artifact is gone. */
  lemma OthersStay(place: Place, store: seq<Stored>, left: map<Cleanup.Name, Cleanup.Directory>, gone: Stored)
    returns (after: seq<Stored>)
    requires OneEntryPerName(store) && gone in store && forall e | e in store :: e.place == place
    requires left == Unlocked(store) - {NameOf(gone)}
    ensures forall e :: e in after <==> e in store && e != gone
    ensures forall e :: e in after <==> e in store && NameOf(e) in left
  {
    UnlockedHas(store);
    after := Ordering.Filter(e => e != gone, store);
    Ordering.FilterElements(e => e != gone, store);
    hide NameOf, Unlocked, Ordering.Filter;
    forall e | e in store ensures NameOf(e) in left <==> e != gone {
      if e != gone {
        NamesDiffer(e, gone);
      }
    }
  }

  /** The run over such a cache that selects one artifact and destroys it. */
  lemma TakesOne(place: Place, store: seq<Stored>, selection: Prune.Selection, now: u64, gone: Stored)
    returns (run: PruneRun)
    requires OneEntryPerName(store) && gone in store
    requires forall e | e in store :: e.place == place && e.metadata.Parsed?
    requires MeansOnly(store, Tree(place, store), Unlocked(store), selection, now, gone)
    ensures run.Happens() && run.store == store && run.selection == selection && run.now == now
    ensures forall e :: e in run.after <==> e in store && e != gone
  {
    hide NameOf, Tree, Unlocked, SameCache, MeansOnly, Cleanup.Planned, Cleanup.Executed, Cleanup.VisitsOnce;
    var profiles, entries := Tree(place, store), Unlocked(store);
    TreeIsSameCache(place, store);
    UnlockedHas(store);
    var plan := PlansOne(store, profiles, entries, selection, now, gone);
    var left := entries - {NameOf(gone)};
    ExecutesOne(entries, gone);
    var after := OthersStay(place, store, left, gone);
    run := PruneRun(store, profiles, entries, selection, None, now, plan, left, after);
  }

  /** An artifact a lookup can hit, completed at the given time. */
  function Fresh(request: Request, id: DumpId, completedAt: u64): (e: Stored)
    requires request.policyVersion > 0
    ensures e.place == request.place && e.id == id && e.metadata.Parsed? && e.metadata.meta.completedAt == completedAt
    ensures completedAt <= request.now < SaturatingAdd(completedAt, request.ttl) ==> Reusable(request, e)
  {
    var version := MysqlVersion(0, 0, 0);
    var meta := DumpMetadata(id, request.place, request.fingerprint, "", version, version, request.policyVersion,
                             completedAt, completedAt, 0, 1, Digest([]), Digest([0]));
    Stored(request.place, id, Free, Parsed(meta), Some([0]))
  }

  /** Of two dumps of one second `KeepLast 1` means the one with the smaller ID. */
  lemma MeansTheSmaller(x: Stored, y: Stored, profiles: seq<Cleanup.ProfileDir>,
                        entries: map<Cleanup.Name, Cleanup.Directory>, now: u64)
    requires x.place == y.place && x.id < y.id && x.metadata.Parsed? && y.metadata.Parsed?
    requires x.metadata.meta.completedAt == y.metadata.meta.completedAt && SameCache([x, y], profiles, entries)
    ensures MeansOnly([x, y], profiles, entries, Prune.KeepLast(1), now, x)
  {
    hide SameCache, Cleanup.Candidates, Cleanup.Walk;
    var candidates := Cleanup.Candidates(entries, None, Cleanup.Walk(profiles));
    IsCandidate([x, y], profiles, entries, None, y);
    forall c | c in candidates ensures c == CandidateOf(x) || c == CandidateOf(y) {
      var e := CandidateIsListed([x, y], profiles, entries, None, c);
    }
    assert Prune.NewerThan(candidates, CandidateOf(x)) == {CandidateOf(y)};
    assert Prune.NewerThan(candidates, CandidateOf(y)) == {};
  }

  lemma TakesTheSmaller(place: Place, x: Stored, y: Stored, now: u64) returns (run: PruneRun)
    requires x.place == y.place == place && x.id < y.id && x.metadata.Parsed? && y.metadata.Parsed?
    requires x.metadata.meta.completedAt == y.metadata.meta.completedAt
    ensures run.Happens() && run.selection == Prune.KeepLast(1) && run.store == [x, y]
    ensures forall e :: e in run.after <==> e == y
  {
    hide Tree, Unlocked, MeansOnly, SameCache, CandidateOf;
    TreeIsSameCache(place, [x, y]);
    MeansTheSmaller(x, y, Tree(place, [x, y]), Unlocked([x, y]), now);
    run := TakesOne(place, [x, y], Prune.KeepLast(1), now, x);
  }

  /** A lookup over two artifacts of one second prefers the smaller ID. */
  lemma PrefersTheSmaller(request: Request, x: Stored, y: Stored)
    requires !request.forced && Reusable(request, x) && Reusable(request, y) && x.id < y.id
    requires x.metadata.meta.completedAt == y.metadata.meta.completedAt
    ensures Answers([x, y], request, Hit(x, request.now - x.metadata.meta.completedAt))
  {
  }

  /**
   Two dumps of one second: the lookup hits the smaller ID, `KeepLast 1` keeps the larger, and the next
   lookup hits that.
   */
  lemma PruneChangesTheHit(request: Request, a: DumpId, b: DumpId)
    returns (run: PruneRun, r: LookupResult, later: LookupResult)
    requires a < b && !request.forced && request.policyVersion > 0 && request.ttl > 0 && request.now < U64_MAX
    ensures run.Happens() && run.selection == Prune.KeepLast(1)
    ensures Answers(run.store, request, r) && Answers(run.after, request, later)
    ensures r.Hit? && later.Hit? && r.artifact.id == a && later.artifact.id == b && later.age == r.age == 0
  {
    var x, y := Fresh(request, a, request.now), Fresh(request, b, request.now);
    assert Reusable(request, x) && Reusable(request, y);
    run := TakesTheSmaller(request.place, x, y, request.now);
    hide Fresh, Reusable, PruneRun.Happens, Answers;
    r, later := Hit(x, 0), Hit(y, 0);
    PrefersTheSmaller(request, x, y);
    OnlyHit(request, run.after, y);
  }

  lemma OnlyHit(request: Request, store: seq<Stored>, e: Stored)
    requires !request.forced && Reusable(request, e) && forall d :: d in store <==> d == e
    ensures Answers(store, request, Hit(e, request.now - e.metadata.meta.completedAt))
  {
    assert e in store;
  }

  /** An age prune and a lookup of the same second get along exactly then. */
  predicate AgeSparesTheFresh(request: Request, seconds: u64) {
    request.ttl <= seconds || request.now < seconds || request.now == U64_MAX
  }

  lemma AgePruneKeepsAnswersExactlyWhen(request: Request, seconds: u64)
    requires !request.forced && request.policyVersion > 0
    ensures AgeSparesTheFresh(request, seconds) <==>
            forall run: PruneRun, r, later |
              && run.Happens() && run.selection == Prune.OlderThan(seconds) && run.now == request.now
              && Answers(run.store, request, r) && Answers(run.after, request, later) && r.Hit? :: later == r
  {
    if AgeSparesTheFresh(request, seconds) {
      forall run: PruneRun, r, later |
        && run.Happens() && run.selection == Prune.OlderThan(seconds) && run.now == request.now
        && Answers(run.store, request, r) && Answers(run.after, request, later) && r.Hit?
        ensures later == r
      {
        assert Reusable(request, r.artifact);
        HitStaysExactlyUnless(run, request, r, later);
        SparedByAge(request, r.artifact, seconds);
      }
    } else {
      var run := AgeTakesTheFresh(request, seconds);
      var r, later := Hit(run.store[0], seconds), Miss(NotFound);
    }
  }

  lemma SparedByAge(request: Request, e: Stored, seconds: u64)
    requires Reusable(request, e) && AgeSparesTheFresh(request, seconds)
    ensures !Prune.Aged(CandidateOf(e), seconds, request.now)
  {
  }

  /** Otherwise an artifact exactly as old as the selection asks for is fresh and goes. */
  lemma AgeTakesTheFresh(request: Request, seconds: u64) returns (run: PruneRun)
    requires request.policyVersion > 0 && !request.forced && !AgeSparesTheFresh(request, seconds)
    ensures run.Happens() && run.selection == Prune.OlderThan(seconds) && run.now == request.now
    ensures |run.store| == 1 && Answers(run.store, request, Hit(run.store[0], seconds))
    ensures Answers(run.after, request, Miss(NotFound))
  {
    var e := Fresh(request, 0, request.now - seconds);
    assert Reusable(request, e) && Prune.Aged(CandidateOf(e), seconds, request.now);
    hide Fresh, Reusable, Tree, Unlocked, Cleanup.Candidates, Cleanup.Walk;
    run := TakesOne(request.place, [e], Prune.OlderThan(seconds), request.now, e);
    OnlyHit(request, [e], e);
  }
}
