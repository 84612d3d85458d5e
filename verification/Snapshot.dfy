/** One look at the stored artifacts: what listing, leasing, reading metadata and opening the dump answer. */
module Snapshot {
  import opened Domain
  import opened Ordering

  datatype Lease = Free | Busy | Gone

  datatype MetadataFile = Missing | Corrupt | Parsed(meta: Metadata)

  /** A directory under a profile and database whose name is a dump ID. */
  datatype Stored = Stored(place: Place, id: DumpId, lease: Lease, metadata: MetadataFile, dump: Option<Bytes>) {
    /** Both files are present, so the listings of complete artifacts include the directory. */
    predicate Complete() {
      dump.Some? && !metadata.Missing?
    }
  }

  /** File names are unique, so one pair of place and ID names one directory. */
  ghost predicate OneEntryPerName(store: seq<Stored>) {
    forall i, j | 0 <= i < j < |store| :: store[i].place != store[j].place || store[i].id != store[j].id
  }

  /** Profiles first, then databases, both as strings. */
  predicate PlaceLe(a: Place, b: Place) {
    if a.profile == b.profile then StringLe(a.database, b.database) else StringLe(a.profile, b.profile)
  }

  lemma PlaceLeIsAnOrder()
    ensures TotalPreorder(PlaceLe)
  {
    forall x, y ensures PlaceLe(x, y) || PlaceLe(y, x) {
      StringLeTotal(x.profile, y.profile);
      StringLeTotal(x.database, y.database);
    }
    forall x, y, z | PlaceLe(x, y) && PlaceLe(y, z) ensures PlaceLe(x, z) {
      PlaceLeTransitive(x, y, z);
    }
  }

  lemma PlaceLeTransitive(x: Place, y: Place, z: Place)
    requires PlaceLe(x, y) && PlaceLe(y, z)
    ensures PlaceLe(x, z)
  {
    if x.profile == y.profile == z.profile {
      StringLeTransitive(x.database, y.database, z.database);
    } else if x.profile != y.profile && y.profile != z.profile {
      StringLeTransitive(x.profile, y.profile, z.profile);
      StringLeTotal(x.profile, y.profile);
    }
  }

  /** Listings come in the order of the IDs' spelling, which is their numeric order. */
  predicate IdLe(a: Stored, b: Stored) {
    a.id <= b.id
  }

  /** The directory listing of one database, both files present, sorted by ID. */
  method ListComplete(store: seq<Stored>, place: Place) returns (artifacts: seq<Stored>)
    ensures forall e :: e in artifacts <==> e in store && e.place == place && e.Complete()
    ensures OneEntryPerName(store) ==> IdsAscend(artifacts)
  {
    artifacts := [];
    for k := 0 to |store|
      invariant artifacts == Filter(e => At(place, e), store[..k])
    {
      FilterNext(e => At(place, e), store, k);
      if store[k].place == place && store[k].Complete() {
        artifacts := artifacts + [store[k]];
      }
    }
    assert store[..|store|] == store;
    ghost var listed := artifacts;
    FilterElements(e => At(place, e), store);
    artifacts := Sort(IdLe, artifacts);
    SortPermutes(IdLe, listed);
    SameElements(artifacts, listed);
    SortSorts(IdLe, listed);
    if OneEntryPerName(store) {
      FilterKeepsNames(e => At(place, e), store);
      SortKeepsNames(IdLe, listed);
    }
  }

  predicate At(place: Place, e: Stored) {
    e.place == place && e.Complete()
  }

  /** Among directories of one database, earlier means a smaller ID. */
  ghost predicate IdsAscend(s: seq<Stored>) {
    forall i, j | 0 <= i < j < |s| && s[i].place == s[j].place :: s[i].id < s[j].id
  }

  /**
   The listing of every database of a profile: `databases` is the order in which the profile's
   directory yields them, and nothing sorts across databases.
   */
  method ListCompleteForProfile(store: seq<Stored>, profile: string, databases: seq<string>)
    returns (artifacts: seq<Stored>)
    requires Distinct(databases)
    ensures forall e :: e in artifacts <==>
              e in store && e.place.profile == profile && e.place.database in databases && e.Complete()
    ensures OneEntryPerName(store) ==> IdsAscend(artifacts)
  {
    artifacts := [];
    for k := 0 to |databases|
      invariant forall e :: e in artifacts <==>
                  e in store && e.place.profile == profile && e.place.database in databases[..k] && e.Complete()
      invariant OneEntryPerName(store) ==> IdsAscend(artifacts)
    {
      var place := Place(profile, databases[k]);
      var more := ListComplete(store, place);
      assert databases[..k + 1] == databases[..k] + [databases[k]];
      assert forall e | e in artifacts :: e.place.database in databases[..k];
      assert forall e | e in more :: e.place == place;
      ConcatAscends(artifacts, more, place);
      artifacts := artifacts + more;
    }
    assert databases[..|databases|] == databases;
  }

  ghost predicate Distinct(names: seq<string>) {
    forall i, j | 0 <= i < j < |names| :: names[i] != names[j]
  }

  lemma ConcatAscends(s: seq<Stored>, t: seq<Stored>, place: Place)
    requires forall e | e in s :: e.place != place
    requires forall e | e in t :: e.place == place
    ensures IdsAscend(s) && IdsAscend(t) ==> IdsAscend(s + t)
  {
    assert forall i | 0 <= i < |s| :: s[i].place != place;
    assert forall j | 0 <= j < |t| :: t[j].place == place;
  }

  lemma {:induction false} FilterKeepsNames(p: Stored -> bool, s: seq<Stored>)
    requires OneEntryPerName(s)
    ensures OneEntryPerName(Filter(p, s))
    decreases |s|
  {
    if s == [] {
    } else {
      var before := s[..|s| - 1];
      FilterKeepsNames(p, before);
      FilterElements(p, before);
      forall i | 0 <= i < |Filter(p, before)|
        ensures Filter(p, before)[i].place != s[|s| - 1].place || Filter(p, before)[i].id != s[|s| - 1].id
      {
        assert Filter(p, before)[i] in before;
      }
    }
  }

  lemma {:induction false} SortKeepsNames(le: (Stored, Stored) -> bool, s: seq<Stored>)
    requires OneEntryPerName(s)
    ensures OneEntryPerName(Sort(le, s))
  {
    if s == [] {
    } else {
      SortKeepsNames(le, s[1..]);
      SortPermutes(le, s[1..]);
      SameElements(Sort(le, s[1..]), s[1..]);
      forall e | e in Sort(le, s[1..]) ensures e.place != s[0].place || e.id != s[0].id {
        var k :| 0 <= k < |s[1..]| && s[1..][k] == e;
        assert s[k + 1] == e;
      }
      InsertKeepsNames(le, s[0], Sort(le, s[1..]));
    }
  }

  lemma {:induction false} InsertKeepsNames(le: (Stored, Stored) -> bool, x: Stored, s: seq<Stored>)
    requires OneEntryPerName(s) && forall e | e in s :: e.place != x.place || e.id != x.id
    ensures OneEntryPerName(Insert(le, x, s))
  {
    if s == [] || le(x, s[0]) {
    } else {
      InsertKeepsNames(le, x, s[1..]);
      InsertPermutes(le, x, s[1..]);
      SameElements(Insert(le, x, s[1..]), s[1..] + [x]);
      forall e | e in Insert(le, x, s[1..]) ensures e.place != s[0].place || e.id != s[0].id {
        assert e in s[1..] + [x];
        if e != x {
          var k :| 0 <= k < |s[1..]| && s[1..][k] == e;
          assert s[k + 1] == e;
        }
      }
    }
  }
}
