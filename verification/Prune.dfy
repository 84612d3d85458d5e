/** The choice of the complete artifacts that a prune takes away, and what that choice leaves behind. */
module Prune {
  import opened Domain
  import opened Ordering
  import opened Snapshot

  const DEFAULT_RETENTION_SECONDS: u64 := 7 * 24 * 60 * 60

  datatype Selection = OlderThan(seconds: u64) | KeepLast(count: nat) | All

  datatype Candidate = Candidate(place: Place, id: DumpId, completedAt: u64, compressedBytes: u64)

  /** Age counts only when the expiry fits in a u64 and the completion is not in the future. */
  predicate Aged(c: Candidate, seconds: u64, now: u64) {
    var expires := CheckedAdd(c.completedAt, seconds);
    expires.Some? && c.completedAt <= now && now >= expires.value
  }

  predicate Newer(a: Candidate, b: Candidate) {
    a.completedAt > b.completedAt || (a.completedAt == b.completedAt && a.id > b.id)
  }

  predicate NewestFirst(a: Candidate, b: Candidate) {
    !Newer(b, a)
  }

  /** Candidates are directories, so a place and an ID name one candidate. */
  ghost predicate Distinct(s: seq<Candidate>) {
    forall i, j | 0 <= i < j < |s| :: s[i].place != s[j].place || s[i].id != s[j].id
  }

  /** How many dumps of the same profile and database are newer. */
  ghost function NewerThan(s: seq<Candidate>, c: Candidate): set<Candidate> {
    set d | d in s && d.place == c.place && Newer(d, c)
  }

  /** What a selection means, whatever the order of the candidates. */
  ghost predicate Selects(selection: Selection, candidates: seq<Candidate>, now: u64, c: Candidate) {
    match selection
    case All => true
    case OlderThan(seconds) => Aged(c, seconds, now)
    case KeepLast(count) => |NewerThan(candidates, c)| >= count
  }

  method SelectForPrune(selection: Selection, candidates: seq<Candidate>, now: u64) returns (selected: seq<Candidate>)
    requires Distinct(candidates)
    ensures forall c :: c in selected <==> c in candidates && Selects(selection, candidates, now, c)
    ensures Distinct(selected)
    ensures match selection
            case All => selected == candidates
            case OlderThan(seconds) => selected == Filter(c => Aged(c, seconds, now), candidates)
            case KeepLast(_) => PlanOrder(selected)
  {
    match selection
    case All => selected := candidates;
    case OlderThan(seconds) =>
      selected := [];
      for k := 0 to |candidates|
        invariant forall c :: c in selected <==> c in candidates[..k] && Aged(c, seconds, now)
        invariant Distinct(selected) && selected == Filter(c => Aged(c, seconds, now), candidates[..k])
      {
        FilterNext(c => Aged(c, seconds, now), candidates, k);
        assert candidates[..k + 1] == candidates[..k] + [candidates[k]];
        assert forall c | c in selected :: c.place != candidates[k].place || c.id != candidates[k].id;
        if Aged(candidates[k], seconds, now) {
          selected := selected + [candidates[k]];
        }
      }
      assert candidates[..|candidates|] == candidates;
    case KeepLast(count) =>
      selected := SelectOldest(candidates, count);
      PlanIsDistinct(candidates, selected);
  }

  lemma PlanIsDistinct(candidates: seq<Candidate>, s: seq<Candidate>)
    requires Distinct(candidates) && PlanOrder(s) && forall c | c in s :: c in candidates
    ensures Distinct(s)
  {
    forall i, j | 0 <= i < j < |s| ensures s[i].place != s[j].place || s[i].id != s[j].id {
      assert s[i] in s && s[j] in s;
      if s[i].place == s[j].place && s[i].id == s[j].id {
        SameCandidate(candidates, s[i], s[j]);
      }
    }
  }

  ghost predicate Grouped(grouped: map<Place, seq<Candidate>>, candidates: seq<Candidate>) {
    && (forall c | c in candidates :: c.place in grouped)
    && (forall p | p in grouped :: GroupOf(candidates, p, grouped[p]))
  }

  ghost predicate GroupOf(candidates: seq<Candidate>, p: Place, group: seq<Candidate>) {
    Distinct(group) && forall c :: c in group <==> c in candidates && c.place == p
  }

  /** Places in order, and newest first within a place: the one order a plan can have. */
  ghost predicate PlanOrder(s: seq<Candidate>) {
    forall i, j | 0 <= i < j < |s| ::
      if s[i].place == s[j].place then Newer(s[i], s[j]) else PlaceLe(s[i].place, s[j].place)
  }

  method GroupByPlace(candidates: seq<Candidate>) returns (grouped: map<Place, seq<Candidate>>, keys: seq<Place>)
    requires Distinct(candidates)
    ensures Grouped(grouped, candidates)
    ensures forall p :: p in keys <==> p in grouped
    ensures NoDuplicates(keys) && Sorted(PlaceLe, keys)
  {
    grouped, keys := map[], [];
    assert Grouped(grouped, []);
    hide Grouped, StringLe, PlaceLe, Sort;
    for k := 0 to |candidates|
      invariant Grouped(grouped, candidates[..k])
      invariant forall p :: p in keys <==> p in grouped
      invariant NoDuplicates(keys)
    {
      var c := candidates[k];
      assert candidates[..k + 1] == candidates[..k] + [c];
      if c.place !in grouped {
        keys := keys + [c.place];
      }
      var group := if c.place in grouped then grouped[c.place] else [];
      GroupsNext(grouped, candidates[..k], c);
      grouped := grouped[c.place := group + [c]];
    }
    assert candidates[..|candidates|] == candidates;
    SortPermutes(PlaceLe, keys);
    SameElements(Sort(PlaceLe, keys), keys);
    SortKeepsNoDuplicates(PlaceLe, keys);
    PlaceLeIsAnOrder();
    SortSorts(PlaceLe, keys);
    keys := Sort(PlaceLe, keys);
  }

  lemma GroupsNext(grouped: map<Place, seq<Candidate>>, before: seq<Candidate>, c: Candidate)
    requires Grouped(grouped, before) && Distinct(before + [c])
    ensures Grouped(grouped[c.place := (if c.place in grouped then grouped[c.place] else []) + [c]], before + [c])
  {
    var group := if c.place in grouped then grouped[c.place] else [];
    assert GroupOf(before, c.place, group);
    assert forall k | 0 <= k < |before| :: (before + [c])[k] == before[k] && (before + [c])[|before|] == c;
    assert forall d | d in before :: d.place != c.place || d.id != c.id;
    forall p | p in grouped && p != c.place ensures GroupOf(before + [c], p, grouped[p]) {
      assert GroupOf(before, p, grouped[p]);
    }
    assert forall i | 0 <= i < |group| :: group[i] in group;
    assert GroupOf(before + [c], c.place, group + [c]);
  }

  /** `KeepLast`: groups by place, sorts each group newest first and skips the first `count`. */
  method SelectOldest(candidates: seq<Candidate>, count: nat) returns (selected: seq<Candidate>)
    requires Distinct(candidates)
    ensures forall c :: c in selected <==> c in candidates && |NewerThan(candidates, c)| >= count
    ensures PlanOrder(selected)
  {
    var grouped, keys := GroupByPlace(candidates);
    selected := [];
    for k := 0 to |keys|
      invariant forall c :: c in selected <==>
                  c in candidates && c.place in keys[..k] && |NewerThan(candidates, c)| >= count
      invariant PlanOrder(selected)
    {
      hide NewerThan, StringLe, Newer, Sort;
      assert keys[..k + 1] == keys[..k] + [keys[k]];
      var group := grouped[keys[k]];
      assert GroupOf(candidates, keys[k], group);
      var sorted := Sort(NewestFirst, group);
      var oldest := sorted[if count <= |sorted| then count else |sorted|..];
      OldestOfGroup(candidates, group, keys[k], count);
      ConcatIsOrdered(selected, oldest, keys[..k], keys[k]);
      selected := selected + oldest;
    }
    assert keys[..|keys|] == keys;
  }

  lemma ConcatIsOrdered(s: seq<Candidate>, t: seq<Candidate>, keys: seq<Place>, p: Place)
    requires PlanOrder(s) && PlanOrder(t)
    requires Sorted(PlaceLe, keys + [p]) && NoDuplicates(keys + [p])
    requires forall c | c in s :: c.place in keys
    requires forall c | c in t :: c.place == p
    ensures PlanOrder(s + t)
  {
    assert forall k | 0 <= k < |keys| :: (keys + [p])[k] == keys[k] && (keys + [p])[|keys|] == p;
    assert forall i | 0 <= i < |s| :: s[i].place in keys;
    assert forall j | 0 <= j < |t| :: t[j].place == p;
  }

  lemma NewestFirstIsAnOrder()
    ensures TotalPreorder(NewestFirst)
  {
  }

  lemma SameCandidate(s: seq<Candidate>, a: Candidate, b: Candidate)
    requires Distinct(s) && a in s && b in s && a.place == b.place && a.id == b.id
    ensures a == b
  {
  }

  /** A group sorted newest first, in which every dump has exactly its predecessors as newer ones. */
  lemma SortedGroup(candidates: seq<Candidate>, group: seq<Candidate>, p: Place)
    requires Distinct(candidates) && GroupOf(candidates, p, group)
    ensures var sorted := Sort(NewestFirst, group);
            && |sorted| == |group| && NoDuplicates(sorted)
            && (forall c :: c in sorted <==> c in group)
            && (forall i, j | 0 <= i < j < |sorted| :: Newer(sorted[i], sorted[j]))
            && (forall i | 0 <= i < |sorted| :: |NewerThan(candidates, sorted[i])| == i)
  {
    var sorted := Sort(NewestFirst, group);
    NewestFirstIsAnOrder();
    SortSorts(NewestFirst, group);
    SortPermutes(NewestFirst, group);
    SameElements(sorted, group);
    SortKeepsNoDuplicates(NewestFirst, group);
    forall i, j | 0 <= i < j < |sorted| ensures Newer(sorted[i], sorted[j]) {
      assert NewestFirst(sorted[i], sorted[j]) && sorted[i] in group && sorted[j] in group;
      if !Newer(sorted[i], sorted[j]) {
        SameCandidate(candidates, sorted[i], sorted[j]);
      }
    }
    forall i | 0 <= i < |sorted| ensures |NewerThan(candidates, sorted[i])| == i {
      RankInSorted(candidates, sorted, p, i);
    }
  }

  lemma RankInSorted(candidates: seq<Candidate>, sorted: seq<Candidate>, p: Place, i: nat)
    requires i < |sorted| && NoDuplicates(sorted)
    requires forall c :: c in sorted <==> c in candidates && c.place == p
    requires forall i, j | 0 <= i < j < |sorted| :: Newer(sorted[i], sorted[j])
    ensures |NewerThan(candidates, sorted[i])| == i
  {
    var front := sorted[..i];
    DistinctElements(front);
    forall d ensures d in NewerThan(candidates, sorted[i]) <==> d in Elements(front) {
      assert sorted[i] in sorted;
      if d in NewerThan(candidates, sorted[i]) {
        var j :| 0 <= j < |sorted| && sorted[j] == d;
        assert j < i;
        assert front[j] == d;
      }
      if d in front {
        var j :| 0 <= j < i && front[j] == d;
        assert sorted[j] == d;
      }
    }
    assert NewerThan(candidates, sorted[i]) == Elements(front);
  }

  lemma OldestOfGroup(candidates: seq<Candidate>, group: seq<Candidate>, p: Place, count: nat)
    requires Distinct(candidates) && GroupOf(candidates, p, group)
    ensures var sorted := Sort(NewestFirst, group);
            var oldest := sorted[if count <= |sorted| then count else |sorted|..];
            && PlanOrder(oldest)
            && (forall c :: c in oldest <==> c in candidates && c.place == p && |NewerThan(candidates, c)| >= count)
  {
    SortedGroup(candidates, group, p);
    hide NewerThan, Newer, Sort, PlaceLe;
    var sorted := Sort(NewestFirst, group);
    assert forall i | 0 <= i < |sorted| :: sorted[i] in group;
    SelectedIsBack(candidates, sorted, count, p);
  }

  lemma SelectedIsBack(candidates: seq<Candidate>, sorted: seq<Candidate>, count: nat, p: Place)
    requires forall c :: c in sorted <==> c in candidates && c.place == p
    requires forall i | 0 <= i < |sorted| :: |NewerThan(candidates, sorted[i])| == i
    ensures var oldest := sorted[if count <= |sorted| then count else |sorted|..];
            forall c :: c in oldest <==> c in candidates && c.place == p && |NewerThan(candidates, c)| >= count
  {
    hide NewerThan;
    var skipped := if count <= |sorted| then count else |sorted|;
    var oldest := sorted[skipped..];
    forall c | c in oldest ensures c in sorted && |NewerThan(candidates, c)| >= count {
      var k :| 0 <= k < |oldest| && oldest[k] == c;
      assert sorted[skipped + k] == c;
    }
    forall c | c in sorted && |NewerThan(candidates, c)| >= count ensures c in oldest {
      var i :| 0 <= i < |sorted| && sorted[i] == c;
      assert oldest[i - skipped] == c;
    }
  }

  /** The dumps of a place that `KeepLast count` spares. */
  ghost function Kept(candidates: seq<Candidate>, count: nat, p: Place): set<Candidate> {
    set c | c in candidates && c.place == p && !Selects(KeepLast(count), candidates, 0, c)
  }

  ghost function Group(candidates: seq<Candidate>, p: Place): set<Candidate> {
    set c | c in candidates && c.place == p
  }

  /** Each place keeps exactly `count` dumps, or all it has when it has fewer. */
  lemma KeepsExactlyCount(candidates: seq<Candidate>, count: nat, p: Place)
    requires Distinct(candidates)
    ensures |Kept(candidates, count, p)| == if count <= |Group(candidates, p)| then count else |Group(candidates, p)|
  {
    var group := Filter((c: Candidate) => c.place == p, candidates);
    FilterElements((c: Candidate) => c.place == p, candidates);
    FilterIsDistinct(candidates, p);
    SortedGroup(candidates, group, p);
    var sorted := Sort(NewestFirst, group);
    DistinctElements(sorted);
    assert Elements(sorted) == Group(candidates, p);
    var n := if count <= |sorted| then count else |sorted|;
    DistinctElements(sorted[..n]);
    KeptIsFront(candidates, sorted, count, p);
  }

  lemma KeptIsFront(candidates: seq<Candidate>, sorted: seq<Candidate>, count: nat, p: Place)
    requires forall c :: c in sorted <==> c in candidates && c.place == p
    requires forall i | 0 <= i < |sorted| :: |NewerThan(candidates, sorted[i])| == i
    ensures Kept(candidates, count, p) == Elements(sorted[..if count <= |sorted| then count else |sorted|])
  {
    hide NewerThan;
    var front := sorted[..if count <= |sorted| then count else |sorted|];
    forall c | c in Kept(candidates, count, p) ensures c in front {
      var i :| 0 <= i < |sorted| && sorted[i] == c;
      assert front[i] == c;
    }
    forall c | c in front ensures c in Kept(candidates, count, p) {
      var i :| 0 <= i < |front| && front[i] == c;
      assert sorted[i] == c;
    }
  }

  lemma {:induction false} FilterIsDistinct(s: seq<Candidate>, p: Place)
    requires Distinct(s)
    ensures Distinct(Filter((c: Candidate) => c.place == p, s))
    decreases |s|
  {
    if s == [] {
    } else {
      var before := s[..|s| - 1];
      FilterIsDistinct(before, p);
      FilterElements((c: Candidate) => c.place == p, before);
      var kept := Filter((c: Candidate) => c.place == p, before);
      assert forall i | 0 <= i < |kept| :: kept[i] in before;
    }
  }

  /** Within a place every dump kept is newer than every dump selected. */
  lemma KeptAreNewer(candidates: seq<Candidate>, count: nat, kept: Candidate, selected: Candidate)
    requires Distinct(candidates) && kept in candidates && selected in candidates && kept.place == selected.place
    requires !Selects(KeepLast(count), candidates, 0, kept) && Selects(KeepLast(count), candidates, 0, selected)
    ensures Newer(kept, selected)
  {
    if !Newer(kept, selected) {
      if !Newer(selected, kept) {
        SameCandidate(candidates, kept, selected);
      }
      SubsetSize(NewerThan(candidates, selected), NewerThan(candidates, kept));
    }
  }

  lemma {:induction false} SubsetSize<T>(a: set<T>, b: set<T>)
    requires a <= b
    ensures |a| <= |b|
  {
    if a == {} {
    } else {
      var x :| x in a;
      SubsetSize(a - {x}, b - {x});
    }
  }

  /** The listing order of the candidates does not matter. */
  lemma OrderDoesNotMatter(selection: Selection, candidates: seq<Candidate>, reordered: seq<Candidate>, now: u64,
                           c: Candidate)
    requires multiset(candidates) == multiset(reordered)
    ensures Selects(selection, candidates, now, c) <==> Selects(selection, reordered, now, c)
  {
    SameElements(candidates, reordered);
    assert NewerThan(candidates, c) == NewerThan(reordered, c);
  }

  /** Pruning again what a prune left selects nothing more. */
  lemma SurvivorsSurvive(selection: Selection, candidates: seq<Candidate>, survivors: seq<Candidate>, now: u64,
                         c: Candidate)
    requires forall d :: d in survivors <==> d in candidates && !Selects(selection, candidates, now, d)
    requires c in survivors
    ensures !Selects(selection, survivors, now, c)
  {
    SubsetSize(NewerThan(survivors, c), NewerThan(candidates, c));
  }
}
