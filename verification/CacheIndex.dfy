/**
 Three readers of one cache: a lookup by profile and database, a lookup that scans the whole
 profile, and the inventory. Each classifies the artifacts on its own.
 */
module CacheIndex {
  import opened Domain
  import opened Ordering
  import opened Snapshot

  datatype MissReason =
    | FreshRequested
    | NotFound
    | CorruptMetadata
    | IdentityChanged
    | SourceChanged
    | PolicyChanged
    | ClockInFuture
    | Expired
    | SizeMismatch
    | ChecksumMismatch
    | InUse

  datatype Request = Request(place: Place, fingerprint: Digest, policyVersion: nat, now: u64, ttl: u64, forced: bool)

  datatype LookupResult = Hit(artifact: Stored, age: u64) | Miss(reason: MissReason)

  /** What a candidate is rejected for; `None` makes it a hit. */
  function Rejection(request: Request, artifact: Stored, meta: Metadata): Option<MissReason> {
    if meta.dumpId != artifact.id || meta.place != request.place then Some(IdentityChanged)
    else if meta.sourceFingerprint != request.fingerprint then Some(SourceChanged)
    else if meta.policyVersion != request.policyVersion then Some(PolicyChanged)
    else if meta.completedAt > request.now then Some(ClockInFuture)
    else if request.now >= SaturatingAdd(meta.completedAt, request.ttl) then Some(Expired)
    else
      match artifact.dump
      case None => Some(NotFound)
      case Some(content) =>
        if |content| != meta.compressedBytes then Some(SizeMismatch)
        else if Digest(content) != meta.artifactSha256 then Some(ChecksumMismatch)
        else None
  }

  /** The checksum of a dump file, read in pieces of any size. */
  method HashFile(content: Bytes, sizes: seq<nat>) returns (digest: Digest)
    ensures digest == Digest(content)
  {
    var hashed, turn := [], 0;
    while |hashed| < |content|
      invariant |hashed| <= |content| && hashed == content[..|hashed|]
    {
      var wanted := if turn < |sizes| && sizes[turn] > 0 then sizes[turn] else 1;
      var count := if wanted <= |content| - |hashed| then wanted else |content| - |hashed|;
      assert content[..|hashed|] + content[|hashed|..|hashed| + count] == content[..|hashed| + count];
      hashed, turn := hashed + content[|hashed|..|hashed| + count], turn + 1;
    }
    assert content[..|content|] == content;
    return Digest(hashed);
  }

  /** A leasable artifact of the place with parsed metadata. */
  predicate Readable(place: Place, e: Stored) {
    e.place == place && e.Complete() && e.lease.Free? && e.metadata.Parsed?
  }

  ghost predicate Reusable(request: Request, e: Stored) {
    Readable(request.place, e) && Rejection(request, e, e.metadata.meta).None?
  }

  /** Newest first, then the smaller ID. */
  predicate Before(a: Stored, b: Stored)
    requires a.metadata.Parsed? && b.metadata.Parsed?
  {
    a.metadata.meta.completedAt > b.metadata.meta.completedAt
    || (a.metadata.meta.completedAt == b.metadata.meta.completedAt && a.id < b.id)
  }

  /** `e` comes before every other readable artifact of its place. */
  ghost predicate Foremost(store: seq<Stored>, e: Stored) {
    && e in store && Readable(e.place, e)
    && forall other | other in store && Readable(e.place, other) :: other == e || Before(e, other)
  }

  /** The newest reusable artifact. */
  ghost predicate Best(store: seq<Stored>, request: Request, e: Stored) {
    && e in store && Reusable(request, e)
    && forall other | other in store && Reusable(request, other) :: other == e || Before(e, other)
  }

  /** Why an artifact did not become a candidate. */
  function Obstacle(e: Stored): MissReason {
    if e.lease.Gone? || (e.lease.Free? && e.metadata.Missing?) then NotFound
    else if e.lease.Busy? then InUse
    else CorruptMetadata
  }

  /** The hit a lookup owes its caller, or the absence of one. */
  ghost predicate Answers(store: seq<Stored>, request: Request, r: LookupResult) {
    if request.forced then r == Miss(FreshRequested)
    else
      match r
      case Hit(e, age) => Best(store, request, e) && age == request.now - e.metadata.meta.completedAt
      case Miss(_) => forall e | e in store :: !Reusable(request, e)
  }

  /** A miss names what is wrong with the newest readable artifact, else with the first unreadable one. */
  ghost predicate Explains(store: seq<Stored>, request: Request, reason: MissReason) {
    && (forall e: Stored | e.place == request.place && Foremost(store, e) ::
         Rejection(request, e, e.metadata.meta) == Some(reason))
    && ((forall e | e in store :: !Readable(request.place, e)) ==>
          if forall e | e in store && e.place == request.place :: !e.Complete() then reason == NotFound
          else forall e | FirstComplete(store, request.place, e) :: reason == Obstacle(e))
  }

  ghost predicate FirstComplete(store: seq<Stored>, place: Place, e: Stored) {
    && e in store && e.place == place && e.Complete()
    && forall other | other in store && other.place == place && other.Complete() :: e.id <= other.id
  }

  /** A leased artifact with its metadata, as the lookups collect them. */
  datatype Candidate = Candidate(artifact: Stored, meta: Metadata)

  predicate NewestFirst(a: Candidate, b: Candidate) {
    a.meta.completedAt >= b.meta.completedAt
  }

  predicate SmallerId(a: Candidate, b: Candidate) {
    a.artifact.id < b.artifact.id
  }

  /** `filed` additionally asks that the metadata names the database of the directory. */
  predicate Wanted(place: Place, filed: bool, e: Stored) {
    Readable(place, e) && (filed ==> e.metadata.meta.place.database == place.database)
  }

  /** The candidates are the wanted artifacts of `among`. */
  ghost predicate Collected(candidates: seq<Candidate>, among: seq<Stored>, place: Place, filed: bool) {
    && (forall c | c in candidates ::
         c.artifact in among && Wanted(place, filed, c.artifact) && c.artifact.metadata == Parsed(c.meta))
    && (forall e | e in among && Wanted(place, filed, e) :: Candidate(e, e.metadata.meta) in candidates)
  }

  ghost predicate InOrder(sorted: seq<Candidate>) {
    forall i, j | 0 <= i < j < |sorted| ::
      && sorted[i].artifact.metadata.Parsed? && sorted[j].artifact.metadata.Parsed?
      && Before(sorted[i].artifact, sorted[j].artifact)
  }

  /** The stable sort by age puts candidates listed by ascending ID in order. */
  lemma SortedCandidates(candidates: seq<Candidate>, among: seq<Stored>, place: Place, filed: bool)
    requires Collected(candidates, among, place, filed) && Sorted(SmallerId, candidates)
    ensures var sorted := Sort(NewestFirst, candidates);
            |sorted| == |candidates| && Collected(sorted, among, place, filed) && InOrder(sorted)
  {
    var sorted := Sort(NewestFirst, candidates);
    SortPermutes(NewestFirst, candidates);
    SameElements(sorted, candidates);
    SortIsStable(NewestFirst, SmallerId, candidates);
    forall i | 0 <= i < |sorted| ensures sorted[i] in candidates {
      assert sorted[i] in sorted;
    }
  }

  /** Tries the candidates in order: the index of the first hit, and the first rejection. */
  method FirstReusable(request: Request, candidates: seq<Candidate>)
    returns (found: nat, newestInvalid: Option<MissReason>)
    ensures found <= |candidates|
    ensures forall j | 0 <= j < found :: Rejection(request, candidates[j].artifact, candidates[j].meta).Some?
    ensures found < |candidates| ==> Rejection(request, candidates[found].artifact, candidates[found].meta).None?
    ensures newestInvalid == if found == 0 then None else Rejection(request, candidates[0].artifact, candidates[0].meta)
  {
    newestInvalid := None;
    for k := 0 to |candidates|
      invariant forall j | 0 <= j < k :: Rejection(request, candidates[j].artifact, candidates[j].meta).Some?
      invariant newestInvalid == if k == 0 then None else Rejection(request, candidates[0].artifact, candidates[0].meta)
    {
      var rejection := Rejection(request, candidates[k].artifact, candidates[k].meta);
      if rejection.None? {
        return k, newestInvalid;
      }
      if newestInvalid.None? {
        newestInvalid := rejection;
      }
    }
    return |candidates|, newestInvalid;
  }

  /** The first accepted of the ordered candidates is the best artifact there is. */
  lemma Settles(store: seq<Stored>, request: Request, sorted: seq<Candidate>, found: nat)
    requires found <= |sorted| && InOrder(sorted)
    requires forall c | c in sorted ::
               c.artifact in store && Readable(request.place, c.artifact) && c.artifact.metadata == Parsed(c.meta)
    requires forall e | e in store && Reusable(request, e) :: Candidate(e, e.metadata.meta) in sorted
    requires forall j | 0 <= j < found :: Rejection(request, sorted[j].artifact, sorted[j].meta).Some?
    requires found < |sorted| ==> Rejection(request, sorted[found].artifact, sorted[found].meta).None?
    ensures found < |sorted| ==>
              Best(store, request, sorted[found].artifact)
              && sorted[found].artifact.metadata == Parsed(sorted[found].meta)
    ensures found == |sorted| ==> forall e | e in store :: !Reusable(request, e)
  {
    hide Rejection;
    if found < |sorted| {
      assert sorted[found] in sorted;
    }
    forall e | e in store && Reusable(request, e)
      ensures found < |sorted| && (e == sorted[found].artifact || Before(sorted[found].artifact, e))
    {
      var j :| 0 <= j < |sorted| && sorted[j] == Candidate(e, e.metadata.meta);
      assert j >= found;
    }
  }

  /** The listing in ascending order of ID starts with the first complete artifact. */
  lemma ExplainsMiss(store: seq<Stored>, request: Request, artifacts: seq<Stored>, sorted: seq<Candidate>,
                     reason: MissReason)
    requires artifacts != [] && IdsAscend(artifacts) && InOrder(sorted)
    requires forall e :: e in artifacts <==> e in store && e.place == request.place && e.Complete()
    requires Collected(sorted, artifacts, request.place, false)
    requires if sorted == [] then !Readable(request.place, artifacts[0]) ==> reason == Obstacle(artifacts[0])
             else Rejection(request, sorted[0].artifact, sorted[0].meta) == Some(reason)
    ensures Explains(store, request, reason)
  {
    hide Rejection;
    assert artifacts[0] in artifacts;
    if sorted == [] {
      forall e | FirstComplete(store, request.place, e) ensures reason == Obstacle(e) {
        var i :| 0 <= i < |artifacts| && artifacts[i] == e;
      }
    } else {
      assert sorted[0] in sorted;
      forall e: Stored | e.place == request.place && Foremost(store, e) ensures e == sorted[0].artifact {
        var j :| 0 <= j < |sorted| && sorted[j] == Candidate(e, e.metadata.meta);
      }
    }
  }

  /** Leases each artifact and reads its metadata, remembering the first that resisted. */
  method Collect(place: Place, artifacts: seq<Stored>)
    returns (candidates: seq<Candidate>, unreadable: Option<MissReason>)
    requires IdsAscend(artifacts)
    requires forall e | e in artifacts :: e.place == place && e.Complete()
    ensures Collected(candidates, artifacts, place, false) && Sorted(SmallerId, candidates)
    ensures artifacts != [] && !Readable(place, artifacts[0]) ==> unreadable == Some(Obstacle(artifacts[0]))
  {
    candidates, unreadable := [], None;
    assert Collected(candidates, [], place, false) && Sorted(SmallerId, candidates);
    hide Collected, Sorted;
    for k := 0 to |artifacts|
      invariant Collected(candidates, artifacts[..k], place, false) && Sorted(SmallerId, candidates)
      invariant k == 0 ==> unreadable.None?
      invariant k > 0 && !Readable(place, artifacts[0]) ==> unreadable == Some(Obstacle(artifacts[0]))
    {
      var e := artifacts[k];
      assert artifacts[..k + 1] == artifacts[..k] + [e];
      assert e in artifacts;
      CollectsNext(candidates, artifacts[..k], e, place, false);
      if e.lease.Free? && e.metadata.Parsed? {
        candidates := candidates + [Candidate(e, e.metadata.meta)];
      } else if unreadable.None? {
        unreadable := Some(Obstacle(e));
      }
    }
    assert artifacts[..|artifacts|] == artifacts;
  }

  lemma CollectsNext(candidates: seq<Candidate>, among: seq<Stored>, e: Stored, place: Place, filed: bool)
    requires Collected(candidates, among, place, filed) && Sorted(SmallerId, candidates)
    requires e.place == place ==> forall x | x in among && x.place == place :: x.id < e.id
    ensures var next := if Wanted(place, filed, e) then candidates + [Candidate(e, e.metadata.meta)] else candidates;
            Collected(next, among + [e], place, filed) && Sorted(SmallerId, next)
  {
    assert forall i | 0 <= i < |candidates| :: candidates[i] in candidates;
  }

  /** Sorts the candidates newest first and tries them: what both lookups end with. */
  method Judge(ghost store: seq<Stored>, request: Request, candidates: seq<Candidate>, ghost among: seq<Stored>,
               ghost filed: bool)
    returns (hit: Option<LookupResult>, newestInvalid: Option<MissReason>, ghost sorted: seq<Candidate>)
    requires !request.forced
    requires Collected(candidates, among, request.place, filed) && Sorted(SmallerId, candidates)
    requires forall e | e in store && Reusable(request, e) :: e in among && Wanted(request.place, filed, e)
    requires forall e | e in among && Wanted(request.place, filed, e) :: e in store
    ensures |sorted| == |candidates| && Collected(sorted, among, request.place, filed) && InOrder(sorted)
    ensures hit.Some? ==> hit.value.Hit? && Answers(store, request, hit.value)
    ensures hit.None? ==>
              && (forall e | e in store :: !Reusable(request, e))
              && newestInvalid == if sorted == [] then None else Rejection(request, sorted[0].artifact, sorted[0].meta)
  {
    SortedCandidates(candidates, among, request.place, filed);
    var ordered := Sort(NewestFirst, candidates);
    sorted := ordered;
    hide Sort, Rejection, InOrder;
    var found, rejected := FirstReusable(request, ordered);
    newestInvalid := rejected;
    Settles(store, request, ordered, found);
    hit := if found < |ordered| then Some(Hit(ordered[found].artifact, request.now - ordered[found].meta.completedAt))
      else None;
  }

  method Lookup(store: seq<Stored>, request: Request) returns (r: LookupResult)
    requires OneEntryPerName(store)
    ensures Answers(store, request, r)
    ensures r.Miss? && !request.forced ==> Explains(store, request, r.reason)
  {
    if request.forced {
      return Miss(FreshRequested);
    }
    var artifacts := ListComplete(store, request.place);
    if artifacts == [] {
      assert forall e | e in store && e.place == request.place :: !e.Complete();
      return Miss(NotFound);
    }
    hide Rejection, Explains, Obstacle, IdsAscend, InOrder, Sorted, Collected, Best;
    var candidates, unreadable := Collect(request.place, artifacts);
    var hit, newestInvalid, sorted := Judge(store, request, candidates, artifacts, false);
    if hit.Some? {
      return hit.value;
    }
    r :=
      Miss(if newestInvalid.Some? then newestInvalid.value else if unreadable.Some? then unreadable.value
        else NotFound);
    ExplainsMiss(store, request, artifacts, sorted, r.reason);
  }

  /**
   What keeps a listed artifact of the profile from being considered at all; other databases' artifacts pass
   unnoticed.
   */
  function Trouble(e: Stored): Option<MissReason> {
    if !e.lease.Free? || !e.metadata.Parsed? then Some(Obstacle(e))
    else if e.metadata.meta.place.database != e.place.database then Some(IdentityChanged)
    else None
  }

  /** The trouble of the first listed artifact that has one. */
  function FirstTrouble(listing: seq<Stored>): Option<MissReason> {
    if listing == [] then None
    else
      var before := FirstTrouble(listing[..|listing| - 1]);
      if before.Some? then before else Trouble(listing[|listing| - 1])
  }

  /** The scan's miss: the newest candidate's rejection, else the first trouble anywhere in the profile. */
  ghost predicate ExplainsScan(listing: seq<Stored>, request: Request, reason: MissReason) {
    if forall e | e in listing :: !Wanted(request.place, true, e)
    then reason == match FirstTrouble(listing) case None => NotFound case Some(trouble) => trouble
    else forall e | FirstWanted(listing, request.place, e) :: Rejection(request, e, e.metadata.meta) == Some(reason)
  }

  ghost predicate FirstWanted(listing: seq<Stored>, place: Place, e: Stored) {
    && e in listing && Wanted(place, true, e)
    && forall other | other in listing && Wanted(place, true, other) :: other == e || Before(e, other)
  }

  /**
   The lookup that scans every database of the profile. `databases` is the order in which the
   profile's directory yields them; `listing` is the order in which the artifacts were visited.
   */
  method LookupByDatabase(store: seq<Stored>, databases: seq<string>, request: Request)
    returns (r: LookupResult, ghost listing: seq<Stored>)
    requires OneEntryPerName(store) && Distinct(databases)
    requires forall e | e in store && e.place.profile == request.place.profile :: e.place.database in databases
    ensures Answers(store, request, r)
    ensures !request.forced ==> forall e :: e in listing <==>
              e in store && e.place.profile == request.place.profile && e.Complete()
    ensures r.Miss? && !request.forced ==> ExplainsScan(listing, request, r.reason)
  {
    if request.forced {
      return Miss(FreshRequested), [];
    }
    var artifacts := ListCompleteForProfile(store, request.place.profile, databases);
    listing := artifacts;
    if artifacts == [] {
      return Miss(NotFound), listing;
    }
    hide Rejection, ExplainsScan, Obstacle, InOrder, Best;
    var candidates, unreadable := CollectScan(request.place, artifacts);
    ReusableIsWanted(store, request);
    hide IdsAscend, Sorted, Collected, FirstTrouble, Trouble;
    var hit, newestInvalid, sorted := Judge(store, request, candidates, artifacts, true);
    if hit.Some? {
      return hit.value, listing;
    }
    r :=
      Miss(if newestInvalid.Some? then newestInvalid.value else if unreadable.Some? then unreadable.value
        else NotFound);
    ExplainsScanMiss(artifacts, request, sorted, r.reason);
  }

  lemma ReusableIsWanted(store: seq<Stored>, request: Request)
    ensures forall e | e in store && Reusable(request, e) :: Wanted(request.place, true, e)
  {
  }

  method CollectScan(place: Place, artifacts: seq<Stored>)
    returns (candidates: seq<Candidate>, unreadable: Option<MissReason>)
    requires IdsAscend(artifacts)
    requires forall e | e in artifacts :: e.place.profile == place.profile && e.Complete()
    ensures Collected(candidates, artifacts, place, true) && Sorted(SmallerId, candidates)
    ensures unreadable == FirstTrouble(artifacts)
  {
    candidates, unreadable := [], None;
    assert Collected(candidates, [], place, true) && Sorted(SmallerId, candidates) && FirstTrouble([]).None?;
    hide Collected, Sorted, Obstacle, FirstTrouble;
    for k := 0 to |artifacts|
      invariant Collected(candidates, artifacts[..k], place, true) && Sorted(SmallerId, candidates)
      invariant unreadable == FirstTrouble(artifacts[..k])
    {
      var e := artifacts[k];
      assert artifacts[..k + 1] == artifacts[..k] + [e];
      assert e in artifacts;
      NextTrouble(artifacts[..k], e);
      CollectsNext(candidates, artifacts[..k], e, place, true);
      if !e.lease.Free? || !e.metadata.Parsed? {
        unreadable := if unreadable.None? then Some(Obstacle(e)) else unreadable;
      } else if e.place.profile != place.profile || e.place.database != e.metadata.meta.place.database {
        unreadable := if unreadable.None? then Some(IdentityChanged) else unreadable;
      } else if e.metadata.meta.place.database == place.database {
        candidates := candidates + [Candidate(e, e.metadata.meta)];
      }
    }
    assert artifacts[..|artifacts|] == artifacts;
  }

  lemma NextTrouble(listing: seq<Stored>, e: Stored)
    ensures FirstTrouble(listing + [e]) == if FirstTrouble(listing).Some? then FirstTrouble(listing) else Trouble(e)
  {
    assert (listing + [e])[..|listing|] == listing;
  }

  lemma ExplainsScanMiss(listing: seq<Stored>, request: Request, sorted: seq<Candidate>, reason: MissReason)
    requires InOrder(sorted) && Collected(sorted, listing, request.place, true)
    requires if sorted == []
               then reason == match FirstTrouble(listing) case None => NotFound case Some(trouble) => trouble
             else Rejection(request, sorted[0].artifact, sorted[0].meta) == Some(reason)
    ensures ExplainsScan(listing, request, reason)
  {
    hide Rejection, FirstTrouble;
    if sorted != [] {
      assert sorted[0] in sorted && Wanted(request.place, true, sorted[0].artifact);
      forall e | FirstWanted(listing, request.place, e) ensures e == sorted[0].artifact {
        var j :| 0 <= j < |sorted| && sorted[j] == Candidate(e, e.metadata.meta);
      }
    }
  }

  /** The two lookups give the same verdict and, on a hit, the same artifact and age. */
  lemma LookupsAgree(store: seq<Stored>, request: Request, r: LookupResult, scan: LookupResult)
    requires Answers(store, request, r) && Answers(store, request, scan)
    ensures r.Hit? <==> scan.Hit?
    ensures r.Hit? ==> r == scan
  {
  }

  /** On a miss the scan may blame an artifact of another database of the profile. */
  lemma MissReasonsMayDiffer(request: Request, other: string, id: DumpId, content: Bytes)
    requires !request.forced && other != request.place.database
    ensures var busy := Stored(Place(request.place.profile, other), id, Busy, Corrupt, Some(content));
            && Answers([busy], request, Miss(NotFound)) && Explains([busy], request, NotFound)
            && forall reason :: ExplainsScan([busy], request, reason) <==> reason == InUse
  {
    var busy := Stored(Place(request.place.profile, other), id, Busy, Corrupt, Some(content));
    assert [busy][..0] == [] && FirstTrouble([busy]) == Some(InUse);
  }

  /** They blame the same artifact whenever the newest readable one names its own database. */
  lemma MissReasonsAgreeWhen(store: seq<Stored>, listing: seq<Stored>, request: Request, e: Stored, reason: MissReason,
                             scanned: MissReason)
    requires forall x :: x in listing <==> x in store && x.place.profile == request.place.profile && x.Complete()
    requires e.place == request.place && Foremost(store, e) && Wanted(request.place, true, e)
    requires Explains(store, request, reason) && ExplainsScan(listing, request, scanned)
    ensures reason == scanned == Rejection(request, e, e.metadata.meta).value
  {
    assert FirstWanted(listing, request.place, e);
  }
}
