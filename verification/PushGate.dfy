/**
 The one path to a write outside the local target: which profiles may receive a push, and the
 check of the destination, split around the moment the dump becomes known.
 */
module PushGate {
  import opened Domain
  import opened Ordering
  import opened Snapshot
  import Durations
  import RestoreMachine

  datatype Profile = Profile(host: string, port: nat, production: bool, pushDestination: bool, encrypted: bool,
                             clientApproved: bool, client: MysqlVersion)

  datatype Config = Config(activeProfile: Option<string>, dockerContext: Option<string>, profiles: map<string, Profile>)

  predicate AcceptsPush(profile: Profile) {
    profile.pushDestination && !profile.production
  }

  predicate NamedAccepts(config: Config, name: string) {
    name in config.profiles && AcceptsPush(config.profiles[name])
  }

  function Lower(c: char): char {
    if 'A' <= c <= 'Z' then c - 'A' + 'a' else c
  }

  function ToLower(s: string): (r: string)
    ensures |r| == |s| && forall i | 0 <= i < |s| :: r[i] == Lower(s[i])
  {
    seq(|s|, i requires 0 <= i < |s| => Lower(s[i]))
  }

  function TrimDots(s: string): string {
    if s != "" && s[|s| - 1] == '.' then TrimDots(s[..|s| - 1]) else s
  }

  /** The host with every spelling of this machine made one. */
  function EndpointHost(host: string): string {
    var h := ToLower(TrimDots(Durations.Trim(host)));
    if h in {"localhost", "::1", "[::1]", "host.docker.internal"} || "127." <= h then "loopback" else h
  }

  /** Hosts are compared whatever the case of their letters. */
  lemma EndpointIgnoresCase(host: string)
    ensures EndpointHost(ToLower(host)) == EndpointHost(host)
  {
    TrimStartLower(host);
    TrimEndLower(Durations.TrimStart(host));
    TrimDotsLower(Durations.Trim(host));
    var h := TrimDots(Durations.Trim(host));
    assert ToLower(ToLower(h)) == ToLower(h);
  }

  lemma LowerKeepsSpace(c: char)
    ensures Durations.IsWhitespace(Lower(c)) <==> Durations.IsWhitespace(c)
    ensures Lower(c) == '.' <==> c == '.'
  {
  }

  lemma {:induction false} TrimStartLower(s: string)
    ensures Durations.TrimStart(ToLower(s)) == ToLower(Durations.TrimStart(s))
  {
    if s == "" {
    } else {
      LowerKeepsSpace(s[0]);
      assert ToLower(s)[1..] == ToLower(s[1..]);
      TrimStartLower(s[1..]);
    }
  }

  lemma {:induction false} TrimEndLower(s: string)
    ensures Durations.TrimEnd(ToLower(s)) == ToLower(Durations.TrimEnd(s))
  {
    if s == "" {
    } else {
      LowerKeepsSpace(s[|s| - 1]);
      assert ToLower(s)[..|s| - 1] == ToLower(s[..|s| - 1]);
      TrimEndLower(s[..|s| - 1]);
    }
  }

  lemma {:induction false} TrimDotsLower(s: string)
    ensures TrimDots(ToLower(s)) == ToLower(TrimDots(s))
  {
    if s == "" {
    } else {
      LowerKeepsSpace(s[|s| - 1]);
      assert ToLower(s)[..|s| - 1] == ToLower(s[..|s| - 1]);
      TrimDotsLower(s[..|s| - 1]);
    }
  }

  /** A trailing dot of a host name never hides an endpoint. */
  lemma EndpointIgnoresTrailingDot(host: string)
    requires host != "" && !Durations.IsWhitespace(host[0]) && !Durations.IsWhitespace(host[|host| - 1])
    ensures EndpointHost(host + ".") == EndpointHost(host)
  {
    Durations.TrimKeeps(host);
    Durations.TrimKeeps(host + ".");
    assert (host + ".")[..|host|] == host;
  }

  /** `other` reaches the same endpoint as `name` and does not accept pushes. */
  predicate Protects(config: Config, other: string, name: string)
    requires name in config.profiles
  {
    && other in config.profiles && other != name
    && !AcceptsPush(config.profiles[other])
    && config.profiles[other].port == config.profiles[name].port
    && EndpointHost(config.profiles[other].host) == EndpointHost(config.profiles[name].host)
  }

  /** The keys of the profile map in their order. */
  method ProfileNames(profiles: map<string, Profile>) returns (names: seq<string>)
    ensures NoDuplicates(names) && Sorted(StringLe, names)
    ensures forall name :: name in names <==> name in profiles
  {
    var rest: set<string>, found: seq<string> := profiles.Keys, [];
    while rest != {}
      invariant rest <= profiles.Keys && NoDuplicates(found)
      invariant forall name :: name in found <==> name in profiles.Keys - rest
      decreases |rest|
    {
      var name :| name in rest;
      assert name !in found;
      rest, found := rest - {name}, found + [name];
    }
    StringLeIsAnOrder();
    SortSorts(StringLe, found);
    SortPermutes(StringLe, found);
    SameElements(Sort(StringLe, found), found);
    SortKeepsNoDuplicates(StringLe, found);
    names := Sort(StringLe, found);
  }

  /** The first profile, in name order, that protects the endpoint. */
  method ProtectedEndpoint(config: Config, name: string) returns (other: Option<string>)
    requires name in config.profiles
    ensures other.None? <==> forall p :: !Protects(config, p, name)
    ensures other.Some? ==>
              Protects(config, other.value, name) && forall p | Protects(config, p, name) :: StringLe(other.value, p)
  {
    var names := ProfileNames(config.profiles);
    for k := 0 to |names|
      invariant forall j | 0 <= j < k :: !Protects(config, names[j], name)
    {
      if Protects(config, names[k], name) {
        forall p | Protects(config, p, name) ensures StringLe(names[k], p) {
          assert p in names;
          StringLeTotal(p, p);
        }
        return Some(names[k]);
      }
    }
    forall p ensures !Protects(config, p, name) {
      assert p in config.profiles ==> p in names;
    }
    return None;
  }

  /** The menu offers a profile: not production, allowed or not where dumps come from, and its endpoint unprotected. */
  ghost predicate Offered(config: Config, name: string) {
    && name in config.profiles && !config.profiles[name].production
    && (AcceptsPush(config.profiles[name]) || config.activeProfile != Some(name))
    && forall other :: !Protects(config, other, name)
  }

  datatype Choice = Choice(profile: string, host: string, port: nat, acceptsPush: bool)

  function ChoiceOf(config: Config, name: string): Choice
    requires name in config.profiles
  {
    Choice(name, config.profiles[name].host, config.profiles[name].port, AcceptsPush(config.profiles[name]))
  }

  predicate AllowedFirst(a: Choice, b: Choice) {
    a.acceptsPush || !b.acceptsPush
  }

  predicate ByName(a: Choice, b: Choice) {
    a.profile != b.profile && StringLe(a.profile, b.profile)
  }

  /** The menu: exactly the offered profiles, allowed ones first and by name within each kind. */
  method EligibleProfiles(config: Config) returns (choices: seq<Choice>)
    ensures forall choice :: choice in choices <==>
              Offered(config, choice.profile) && choice == ChoiceOf(config, choice.profile)
    ensures SortedThen(AllowedFirst, ByName, choices)
  {
    var names := ProfileNames(config.profiles);
    choices := [];
    for k := 0 to |names|
      invariant forall choice :: choice in choices <==>
                  choice.profile in names[..k] && Offered(config, choice.profile)
                  && choice == ChoiceOf(config, choice.profile)
      invariant Sorted(ByName, choices)
    {
      var name := names[k];
      assert names[..k + 1] == names[..k] + [name];
      assert name in config.profiles by { assert name in names; }
      var profile := config.profiles[name];
      var endpoint := ProtectedEndpoint(config, name);
      if !profile.production && (AcceptsPush(profile) || config.activeProfile != Some(name)) && endpoint.None? {
        forall i | 0 <= i < |choices| ensures ByName(choices[i], ChoiceOf(config, name)) {
          assert choices[i] in choices;
          var j :| 0 <= j < k && names[j] == choices[i].profile;
        }
        choices := choices + [ChoiceOf(config, name)];
      }
    }
    assert names[..|names|] == names;
    SortIsStable(AllowedFirst, ByName, choices);
    SortPermutes(AllowedFirst, choices);
    SameElements(Sort(AllowedFirst, choices), choices);
    choices := Sort(AllowedFirst, choices);
  }

  datatype GateError =
    | ProfileNotFound
    | ProductionDestination
    | PushNotAllowed
    | ProtectedByEndpoint(profile: string)
    | DockerContextMissing
    | ClientCatalog
    | Credential
    | Probe
    | TlsRequiredButNotNegotiated
    | UnsupportedVendor
    | UnsupportedServerSeries
    | ProtectedServer(profile: string)
    | ProtectedSourceServer(profile: string)
    | SourceCollision
    | Downgrade
    | VersionMismatch

  /** The destination as attested: who it is and what it runs. */
  datatype Guarded = Guarded(profile: string, serverUuid: string, serverVersion: MysqlVersion, client: MysqlVersion)

  /** What the probe of a server answers. */
  datatype Server = Server(uuid: string, version: MysqlVersion, tls: bool, mariadb: bool)

  /** The configuration lets `name` be a destination. */
  ghost predicate PassesConfig(config: Config, name: string, consented: bool) {
    && name in config.profiles && !config.profiles[name].production
    && (config.profiles[name].pushDestination || consented)
    && forall other :: !Protects(config, other, name)
  }

  /** A cached dump ties the server to a profile that is gone or withholds its consent. */
  predicate Shields(config: Config, e: Stored, uuid: string) {
    e.metadata.Parsed? && e.metadata.meta.sourceServer == uuid && !NamedAccepts(config, e.metadata.meta.place.profile)
  }

  ghost predicate Unshielded(config: Config, cache: seq<Stored>, uuid: string) {
    forall e | e in cache :: !Shields(config, e, uuid)
  }

  method FindProtectedServer(config: Config, cache: seq<Stored>, uuid: string) returns (profile: Option<string>)
    ensures profile.None? <==> Unshielded(config, cache, uuid)
    ensures profile.Some? ==>
              exists e | e in cache :: Shields(config, e, uuid) && e.metadata.meta.place.profile == profile.value
  {
    for k := 0 to |cache|
      invariant forall j | 0 <= j < k :: !Shields(config, cache[j], uuid)
    {
      if cache[k].metadata.Parsed? {
        var meta := cache[k].metadata.meta;
        if meta.sourceServer == uuid && !NamedAccepts(config, meta.place.profile) {
          assert cache[k] in cache && Shields(config, cache[k], uuid);
          return Some(meta.place.profile);
        }
      }
    }
    return None;
  }

  /** What is wrong with the client, the credential or the attested server; the first reason counts. */
  function Unusable(config: Config, profile: Profile, secret: bool, server: Option<Server>): Option<GateError> {
    if config.dockerContext.None? then Some(DockerContextMissing)
    else if !profile.clientApproved then Some(ClientCatalog)
    else if !secret then Some(Credential)
    else if server.None? then Some(Probe)
    else if profile.encrypted && !server.value.tls then Some(TlsRequiredButNotNegotiated)
    else if server.value.mariadb then Some(UnsupportedVendor)
    else if !RestoreMachine.SameSeries(server.value.version, profile.client) then Some(UnsupportedServerSeries)
    else None
  }

  /** Attests the destination before any dump work. */
  method Verify(config: Config, cache: seq<Stored>, name: string, consented: bool, secret: bool, server: Option<Server>)
    returns (r: Result<Guarded, GateError>)
    ensures r.Ok? <==>
              PassesConfig(config, name, consented) && Unusable(config, config.profiles[name], secret, server).None?
                       && Unshielded(config, cache, server.value.uuid)
    ensures r.Ok? ==> r.value == Guarded(name, server.value.uuid, server.value.version, config.profiles[name].client)
    ensures r == Err(ProfileNotFound) <==> name !in config.profiles
    ensures r == Err(ProductionDestination) <==> name in config.profiles && config.profiles[name].production
    ensures r == Err(PushNotAllowed) <==>
              name in config.profiles && !config.profiles[name].production && !config.profiles[name].pushDestination
              && !consented
    ensures r.Err? && r.error.ProtectedByEndpoint? ==>
              name in config.profiles && Protects(config, r.error.profile, name)
              && forall p | Protects(config, p, name) :: StringLe(r.error.profile, p)
    ensures PassesConfig(config, name, consented) && Unusable(config, config.profiles[name], secret, server).Some? ==>
              r == Err(Unusable(config, config.profiles[name], secret, server).value)
    ensures (r.Err? && r.error.ProtectedByEndpoint?) <==>
            (name in config.profiles && !config.profiles[name].production
             && (config.profiles[name].pushDestination || consented)
             && !PassesConfig(config, name, consented))
    ensures r.Err? && r.error.ProtectedServer? ==>
              PassesConfig(config, name, consented) && server.Some? && exists e | e in cache ::
                Shields(config, e, server.value.uuid) && e.metadata.meta.place.profile == r.error.profile
  {
    if name !in config.profiles {
      return Err(ProfileNotFound);
    }
    var profile := config.profiles[name];
    if profile.production {
      return Err(ProductionDestination);
    }
    if !profile.pushDestination && !consented {
      return Err(PushNotAllowed);
    }
    var endpoint := ProtectedEndpoint(config, name);
    if endpoint.Some? {
      return Err(ProtectedByEndpoint(endpoint.value));
    }
    if config.dockerContext.None? {
      return Err(DockerContextMissing);
    }
    if !profile.clientApproved {
      return Err(ClientCatalog);
    }
    if !secret {
      return Err(Credential);
    }
    if server.None? {
      return Err(Probe);
    }
    if profile.encrypted && !server.value.tls {
      return Err(TlsRequiredButNotNegotiated);
    }
    if server.value.mariadb {
      return Err(UnsupportedVendor);
    }
    if !RestoreMachine.SameSeries(server.value.version, profile.client) {
      return Err(UnsupportedServerSeries);
    }
    var shield := FindProtectedServer(config, cache, server.value.uuid);
    if shield.Some? {
      return Err(ProtectedServer(shield.value));
    }
    return Ok(Guarded(name, server.value.uuid, server.value.version, profile.client));
  }

  predicate IsSameMajorDowngrade(source: MysqlVersion, destination: MysqlVersion) {
    source.major == destination.major && destination.minor < source.minor
  }

  predicate Compatible(guarded: Guarded, meta: Metadata) {
    RestoreMachine.VersionsAreRestoreCompatible(meta.sourceVersion, meta.clientVersion, guarded.serverVersion,
                                                guarded.client)
  }

  /** The checks that wait for the dump: source server, same database, downgrade and version. */
  function Authorize(guarded: Guarded, database: string, meta: Metadata, sourceAcceptsPush: bool,
                     allowDowngrade: bool): Option<GateError> {
    if guarded.serverUuid == meta.sourceServer && !sourceAcceptsPush
      then Some(ProtectedSourceServer(meta.place.profile))
    else if guarded.serverUuid == meta.sourceServer && database == meta.place.database then Some(SourceCollision)
    else if IsSameMajorDowngrade(meta.sourceVersion, guarded.serverVersion) then
      if allowDowngrade then None else Some(Downgrade)
    else if !Compatible(guarded, meta) then Some(VersionMismatch)
    else None
  }

  /** The user's consent, recorded. */
  function Allowed(config: Config, name: string): Config
    requires name in config.profiles
  {
    config.(profiles := config.profiles[name := config.profiles[name].(pushDestination := true)])
  }

  /**
   Every profile on the menu passes the gate's configuration checks with exactly the consent it
   still needs, and whatever passes without consent is on the menu. The one destination the gate
   would take with consent and the menu withholds is the active profile nobody allowed yet.
   */
  lemma MenuMatchesGate(config: Config, name: string)
    ensures Offered(config, name) ==> PassesConfig(config, name, !NamedAccepts(config, name))
    ensures PassesConfig(config, name, false) ==> Offered(config, name)
    ensures PassesConfig(config, name, true) && !Offered(config, name) <==>
            PassesConfig(config, name, true) && !NamedAccepts(config, name) && config.activeProfile == Some(name)
  {
  }

  /** Allowing a destination never takes another off the menu, and puts itself on it unless it is protected. */
  lemma AllowPushOnlyAdds(config: Config, name: string, other: string)
    requires name in config.profiles && !config.profiles[name].production
    ensures Offered(config, other) ==> Offered(Allowed(config, name), other)
    ensures Offered(Allowed(config, name), name) <==> forall p :: !Protects(config, p, name)
  {
    var after := Allowed(config, name);
    forall p, q | q in config.profiles && Protects(after, p, q) ensures Protects(config, p, q) {
    }
    forall p | Protects(config, p, name) ensures Protects(after, p, name) {
    }
  }

  /**
   The split check is one check: attesting the server against the cache and then binding the dump
   succeeds exactly when, on the cache with the dump in it, nothing shields the server, and the
   destination is not the very database the dump came from, and the versions allow it.
   */
  lemma SplitCheckIsOneCheck(config: Config, cache: seq<Stored>, dumped: Stored, guarded: Guarded, database: string,
                             allowDowngrade: bool)
    requires dumped.metadata.Parsed?
    ensures var meta := dumped.metadata.meta;
            Unshielded(config, cache, guarded.serverUuid)
            && Authorize(guarded, database, meta, NamedAccepts(config, meta.place.profile), allowDowngrade).None? <==>
            Unshielded(config, cache + [dumped], guarded.serverUuid)
            && !(guarded.serverUuid == meta.sourceServer && database == meta.place.database)
            && (if IsSameMajorDowngrade(meta.sourceVersion, guarded.serverVersion) then allowDowngrade
                 else Compatible(guarded, meta))
  {
    UnshieldedWith(config, cache, dumped, guarded.serverUuid);
  }

  lemma UnshieldedWith(config: Config, cache: seq<Stored>, dumped: Stored, uuid: string)
    ensures Unshielded(config, cache + [dumped], uuid) <==>
              Unshielded(config, cache, uuid) && !Shields(config, dumped, uuid)
  {
    hide Shields;
    if Unshielded(config, cache + [dumped], uuid) {
      assert dumped in cache + [dumped] && forall e | e in cache :: e in cache + [dumped];
    }
  }

  /** Recording the consent afterwards does not undo the check. */
  lemma ConsentKeepsUnshielded(config: Config, name: string, cache: seq<Stored>, uuid: string)
    requires name in config.profiles && Unshielded(config, cache, uuid)
    ensures Unshielded(Allowed(config, name), cache, uuid)
  {
    forall e | e in cache ensures !Shields(Allowed(config, name), e, uuid) {
      assert !Shields(config, e, uuid);
    }
  }
}
