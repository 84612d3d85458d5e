/** The inventory, and its agreement with the lookups and with the default prune plan. */
module CacheAgreement {
  import opened Domain
  import opened Ordering
  import opened Snapshot
  import opened CacheIndex
  import Prune

  datatype Status =
    | Ready
    | Stale
    | Prunable
    | ProfileMissing
    | SourceChanged
    | PolicyChanged
    | ClockInFuture
    | CorruptMetadata
    | IdentityChanged
    | MissingFile
    | SizeMismatch
    | ChecksumMismatch
    | InUse

  datatype InventoryRequest = InventoryRequest(
    fingerprints: map<string, Digest>, policyVersion: nat, now: u64, ttl: u64, retention: u64)

  datatype Entry = Entry(
    place: Place, id: DumpId, completedAt: Option<u64>, expiresAt: Option<u64>, compressedBytes: Option<nat>,
    status: Status)

  /** The status of an artifact whose metadata parsed; the checks run in this order. */
  function StatusOf(request: InventoryRequest, e: Stored, meta: Metadata): Status {
    if meta.dumpId != e.id || meta.place != e.place then Status.IdentityChanged
    else if e.dump.None? then MissingFile
    else if |e.dump.value| != meta.compressedBytes then Status.SizeMismatch
    else if Digest(e.dump.value) != meta.artifactSha256 then Status.ChecksumMismatch
    else if meta.policyVersion != request.policyVersion then Status.PolicyChanged
    else if e.place.profile !in request.fingerprints then ProfileMissing
    else if meta.sourceFingerprint != request.fingerprints[e.place.profile] then Status.SourceChanged
    else if meta.completedAt > request.now then Status.ClockInFuture
    else if request.now >= SaturatingAdd(meta.completedAt, request.retention) then Prunable
    else if request.now >= SaturatingAdd(meta.completedAt, request.ttl) then Stale
    else Ready
  }

  /** The inventory's line for a directory. */
  function EntryOf(request: InventoryRequest, e: Stored): Entry {
    match e.lease
    case Gone => Entry(e.place, e.id, None, None, None, MissingFile)
    case Busy => Entry(e.place, e.id, None, None, None, Status.InUse)
    case Free =>
      var size := if e.dump.Some? then Some(|e.dump.value|) else None;
      match e.metadata
      case Missing => Entry(e.place, e.id, None, None, size, MissingFile)
      case Corrupt => Entry(e.place, e.id, None, None, size, Status.CorruptMetadata)
      case Parsed(meta) =>
        Entry(e.place, e.id, Some(meta.completedAt), Some(SaturatingAdd(meta.completedAt, request.ttl)), size,
              StatusOf(request, e, meta))
  }

  /** Newest first with the undated last, then by profile, database and ID. */
  predicate EntryLe(a: Entry, b: Entry) {
    match (a.completedAt, b.completedAt)
    case (Some(x), Some(y)) => x > y || (x == y && NameLe(a, b))
    case (Some(_), None) => true
    case (None, Some(_)) => false
    case (None, None) => NameLe(a, b)
  }

  predicate NameLe(a: Entry, b: Entry) {
    if a.place == b.place then a.id <= b.id else PlaceLe(a.place, b.place)
  }

  lemma EntryLeIsAnOrder()
    ensures TotalPreorder(EntryLe)
  {
    PlaceLeIsAnOrder();
    forall x, y: Entry, z: Entry | NameLe(x, y) && NameLe(y, z) ensures NameLe(x, z) {
      NameLeTransitive(x, y, z);
    }
    forall x, y: Entry ensures NameLe(x, y) || NameLe(y, x) {
      assert PlaceLe(x.place, y.place) || PlaceLe(y.place, x.place);
    }
  }

  lemma NameLeTransitive(x: Entry, y: Entry, z: Entry)
    requires NameLe(x, y) && NameLe(y, z)
    ensures NameLe(x, z)
  {
    if x.place != y.place && y.place != z.place {
      PlaceLeTransitive(x.place, y.place, z.place);
      if x.place == z.place {
        PlaceLeAntisymmetric(x.place, y.place);
      }
    }
  }

  lemma PlaceLeAntisymmetric(a: Place, b: Place)
    requires PlaceLe(a, b) && PlaceLe(b, a)
    ensures a == b
  {
    StringLeTotal(a.profile, b.profile);
    StringLeTotal(a.database, b.database);
  }

  /** One line for every directory, and the lines in order. */
  ghost predicate Inventory(store: seq<Stored>, request: InventoryRequest, entries: seq<Entry>) {
    && Sorted(EntryLe, entries)
    && |entries| == |store|
    && (forall line :: line in entries <==> exists e :: e in store && line == EntryOf(request, e))
  }

  method InspectAll(store: seq<Stored>, request: InventoryRequest) returns (entries: seq<Entry>)
    ensures Inventory(store, request, entries)
  {
    entries := [];
    for k := 0 to |store|
      invariant |entries| == k
      invariant forall i | 0 <= i < k :: entries[i] == EntryOf(request, store[i])
    {
      var e := store[k];
      if e.lease.Gone? {
        entries := entries + [Entry(e.place, e.id, None, None, None, MissingFile)];
      } else if e.lease.Busy? {
        entries := entries + [Entry(e.place, e.id, None, None, None, Status.InUse)];
      } else if !e.metadata.Parsed? {
        var size := if e.dump.Some? then Some(|e.dump.value|) else None;
        entries :=
          entries + [Entry(e.place, e.id, None, None, size, if e.metadata.Missing? then MissingFile
            else Status.CorruptMetadata)];
      } else {
        var meta := e.metadata.meta;
        var expires := SaturatingAdd(meta.completedAt, request.ttl);
        var status := StatusOf(request, e, meta);
        var size := if e.dump.Some? then Some(|e.dump.value|) else None;
        entries := entries + [Entry(e.place, e.id, Some(meta.completedAt), Some(expires), size, status)];
      }
    }
    LinesOfStore(store, request, entries);
    EntryLeIsAnOrder();
    SortSorts(EntryLe, entries);
    SortPermutes(EntryLe, entries);
    SameElements(Sort(EntryLe, entries), entries);
    entries := Sort(EntryLe, entries);
  }

  lemma LinesOfStore(store: seq<Stored>, request: InventoryRequest, entries: seq<Entry>)
    requires |entries| == |store| && forall i | 0 <= i < |store| :: entries[i] == EntryOf(request, store[i])
    ensures forall line :: line in entries <==> exists e :: e in store && line == EntryOf(request, e)
  {
    hide EntryOf;
    forall line ensures line in entries <==> exists e :: e in store && line == EntryOf(request, e) {
      if line in entries {
        var i :| 0 <= i < |entries| && entries[i] == line;
        assert store[i] in store;
      }
      if e :| e in store && line == EntryOf(request, e) {
        var i :| 0 <= i < |store| && store[i] == e;
        assert entries[i] == line;
      }
    }
  }

  /** The two requests ask the same question: same source, policy, clock and freshness. */
  predicate SameQuestion(request: Request, inventory: InventoryRequest) {
    && !request.forced
    && request.place.profile in inventory.fingerprints
    && inventory.fingerprints[request.place.profile] == request.fingerprint
    && inventory.policyVersion == request.policyVersion
    && inventory.now == request.now
    && inventory.ttl == request.ttl
  }

  /** What the inventory calls an artifact the lookup would reuse: Ready, or Prunable when retention ends first. */
  lemma ReusableMeans(request: Request, inventory: InventoryRequest, e: Stored)
    requires SameQuestion(request, inventory) && e.place == request.place
    ensures EntryOf(inventory, e).status == Ready ==> Reusable(request, e)
    ensures Reusable(request, e) ==>
              EntryOf(inventory, e).status ==
                if inventory.now >= SaturatingAdd(e.metadata.meta.completedAt, inventory.retention) then Prunable
                  else Ready
  {
  }

  /** The retention leaves no time at which an artifact is still fresh and already prunable. */
  predicate RetentionCoversFreshness(inventory: InventoryRequest) {
    inventory.ttl <= inventory.retention || inventory.retention > inventory.now || inventory.now == U64_MAX
  }

  /**
   The lookup's "reusable" and the inventory's "Ready" are the same for every artifact exactly when
   the retention covers the freshness TTL. A dump policy in force has a positive version.
   */
  lemma ReadyExactlyWhenReusable(request: Request, inventory: InventoryRequest)
    requires SameQuestion(request, inventory) && request.policyVersion > 0
    ensures RetentionCoversFreshness(inventory) <==>
            forall e: Stored | e.place == request.place :: EntryOf(inventory, e).status == Ready <==>
              Reusable(request, e)
  {
    forall e: Stored | e.place == request.place && RetentionCoversFreshness(inventory)
      ensures EntryOf(inventory, e).status == Ready <==> Reusable(request, e)
    {
      ReusableMeans(request, inventory, e);
    }
    if !RetentionCoversFreshness(inventory) {
      var at := inventory.now - inventory.retention;
      var meta: Metadata :=
        DumpMetadata(0, request.place, request.fingerprint, "", MysqlVersion(0, 0, 0), MysqlVersion(0, 0, 0),
                                         request.policyVersion, at, at, 0, 1, Digest([]), Digest([0]));
      var e := Stored(request.place, 0, Free, Parsed(meta), Some([0]));
      assert Reusable(request, e) && EntryOf(inventory, e).status == Prunable;
    }
  }

  /** No earlier line of the same place is Ready. */
  ghost predicate FirstReady(entries: seq<Entry>, place: Place, i: nat) {
    && i < |entries| && entries[i].place == place && entries[i].status == Ready
    && forall j | 0 <= j < i && entries[j].place == place :: entries[j].status != Ready
  }

  /**
   A lookup hits exactly when the inventory of the same cache lists a Ready artifact of the place,
   and the hit is the first such line.
   */
  lemma HitIsFirstReady(store: seq<Stored>, request: Request, inventory: InventoryRequest, entries: seq<Entry>,
                        r: LookupResult)
    requires OneEntryPerName(store) && SameQuestion(request, inventory) && RetentionCoversFreshness(inventory)
    requires Inventory(store, inventory, entries) && Answers(store, request, r)
    ensures r.Hit? <==> exists i | 0 <= i < |entries| :: entries[i].place == request.place && entries[i].status == Ready
    ensures r.Hit? ==>
              forall i: nat | FirstReady(entries, request.place, i) :: entries[i] == EntryOf(inventory, r.artifact)
  {
    forall e | e in store && e.place == request.place
      ensures EntryOf(inventory, e).status == Ready <==> Reusable(request, e)
    {
      ReusableMeans(request, inventory, e);
    }
    hide Reusable, SameQuestion, RetentionCoversFreshness;
    if r.Hit? {
      var line := EntryOf(inventory, r.artifact);
      ReusableIsHere(request, r.artifact);
      assert line in entries;
      var at :| 0 <= at < |entries| && entries[at] == line;
      forall i: nat | FirstReady(entries, request.place, i) ensures entries[i] == line {
        assert entries[i] in entries;
        var e :| e in store && entries[i] == EntryOf(inventory, e);
        if e != r.artifact {
          BeforeIsEarlier(store, request, inventory, r.artifact, e);
          assert false;
        }
      }
    } else {
      forall i | 0 <= i < |entries| ensures entries[i].place != request.place || entries[i].status != Ready {
        assert entries[i] in entries;
      }
    }
  }

  lemma ReusableIsHere(request: Request, e: Stored)
    requires Reusable(request, e)
    ensures e.place == request.place && e.lease.Free? && e.metadata.Parsed?
  {
  }

  /** Where the lookup prefers one artifact, the inventory lists it strictly earlier. */
  lemma BeforeIsEarlier(store: seq<Stored>, request: Request, inventory: InventoryRequest, best: Stored, e: Stored)
    requires Best(store, request, best) && e in store && Reusable(request, e) && e != best
    ensures !EntryLe(EntryOf(inventory, e), EntryOf(inventory, best))
  {
  }

  /** What the prune planner sees of a directory: its name and the metadata, whoever holds the lock. */
  function CandidateOf(e: Stored): Prune.Candidate
    requires e.metadata.Parsed?
  {
    Prune.Candidate(e.place, e.id, e.metadata.meta.completedAt, e.metadata.meta.compressedBytes)
  }

  /**
   The ages of the inventory and of the default selection: what is Prunable under the default
   retention has aged exactly when its expiry fits in a u64, and what is Ready, Stale or from the
   future has not.
   */
  lemma PrunableMeansAged(inventory: InventoryRequest, e: Stored)
    requires inventory.retention == Prune.DEFAULT_RETENTION_SECONDS && e.metadata.Parsed?
    ensures var status, aged :=
              EntryOf(inventory, e).status, Prune.Aged(CandidateOf(e), inventory.retention, inventory.now);
            && (status == Prunable ==> (aged <==> e.metadata.meta.completedAt + inventory.retention <= U64_MAX))
            && (status in {Ready, Stale, Status.ClockInFuture} ==> !aged)
  {
  }

  /** At the last representable second the saturating sum calls prunable what the checked sum refuses to select. */
  lemma LastSecondDisagrees(inventory: InventoryRequest, place: Place, completedAt: u64)
    requires inventory.retention == Prune.DEFAULT_RETENTION_SECONDS && inventory.now == U64_MAX
    requires completedAt + Prune.DEFAULT_RETENTION_SECONDS > U64_MAX
    requires inventory.policyVersion > 0 && place.profile in inventory.fingerprints
    ensures exists e: Stored :: e.place == place && e.metadata.Parsed? && e.metadata.meta.completedAt == completedAt
              && EntryOf(inventory, e).status == Prunable
              && !Prune.Selects(Prune.OlderThan(Prune.DEFAULT_RETENTION_SECONDS), [CandidateOf(e)], inventory.now,
                                CandidateOf(e))
  {
    var meta: Metadata :=
      DumpMetadata(0, place, inventory.fingerprints[place.profile], "",
                   MysqlVersion(0, 0, 0), MysqlVersion(0, 0, 0),
                   inventory.policyVersion, completedAt, completedAt, 0, 1, Digest([]), Digest([0]));
    var e := Stored(place, 0, Free, Parsed(meta), Some([0]));
    assert EntryOf(inventory, e).status == Prunable;
  }
}
