/**
 Two stores that must agree: the configuration file and the credential store. Every command
 changes them one durable effect at a time; the trail of a command is the list of states it
 leaves on disk on the way, and a crash stops it at any of them.
 */
module Credentials {
  import opened Domain

  datatype Scope = Source | Target

  datatype Key = Key(scope: Scope, id: nat)

  /** `fieldsValid` stands for the checks of the remaining fields, which no command here can break. */
  datatype LocalTargetConfig = LocalTargetConfig(dockerContext: string, containerName: string, key: Key,
                                                 fieldsValid: bool)

  datatype SourceProfileConfig = SourceProfileConfig(key: Key, production: bool, pushDestination: bool,
                                                     fieldsValid: bool)

  datatype AppConfig = AppConfig(
    activeProfile: Option<string>,
    runtimeContext: Option<string>,
    localTarget: Option<LocalTargetConfig>,
    localTargets: map<string, LocalTargetConfig>,
    profiles: map<string, SourceProfileConfig>)
  {
    predicate Validates() {
      && (activeProfile.Some? ==> activeProfile.value in profiles)
      && (localTarget.Some? ==> TargetValidates(localTarget.value))
      && (forall name | name in localTargets ::
            && TargetValidates(localTargets[name])
            && name == localTargets[name].containerName
            && !(localTarget.Some? && localTarget.value.containerName == name))
      && (forall name | name in profiles ::
            && profiles[name].fieldsValid
            && profiles[name].key.scope.Source?
            && !(profiles[name].production && profiles[name].pushDestination))
    }

    predicate TargetValidates(target: LocalTargetConfig) {
      && target.fieldsValid
      && target.key.scope.Target?
      && (runtimeContext.Some? ==> runtimeContext.value == target.dockerContext)
    }

    function LocalTargetNamed(name: string): Option<LocalTargetConfig> {
      if localTarget.Some? && localTarget.value.containerName == name then localTarget
      else if name in localTargets then Some(localTargets[name])
      else None
    }

    /** The key an entry refers to. */
    function KeyAt(entry: Entry): Option<Key> {
      match entry
      case Default => if localTarget.Some? then Some(localTarget.value.key) else None
      case Additional(name) => if name in localTargets then Some(localTargets[name].key) else None
      case Profile(name) => if name in profiles then Some(profiles[name].key) else None
    }

    ghost predicate References(key: Key) {
      exists entry :: KeyAt(entry) == Some(key)
    }

    /** The entries that refer to a key; provisioning counts them. */
    function Referrers(key: Key): set<Entry> {
      (if localTarget.Some? && localTarget.value.key == key then {Default} else {})
      + (set name | name in localTargets && localTargets[name].key == key :: Additional(name))
      + (set name | name in profiles && profiles[name].key == key :: Profile(name))
    }
  }

  datatype Entry = Default | Additional(name: string) | Profile(name: string)

  const DEFAULT_CONFIG := AppConfig(None, None, None, map[], map[])

  type Vault = map<Key, string>

  datatype Stores = Stores(config: AppConfig, vault: Vault)

  /** How one effect goes wrong: not at all, before it happened, or although it happened. */
  datatype Fault = NoFault | Early | Late

  datatype Faults = Faults(get: bool, setting: Fault, save: Fault, rollback: Fault, cleanup: Fault)

  datatype Error =
    | Invalid
    | NotFound
    | AlreadyExists
    | VerificationFailed
    | ProductionPushDestination
    | InvalidCredentialReference
    | CredentialAlreadyExists
    | CredentialFailed
    | ConfigFailed
    | ConfigAndRollback(orphan: Key)
    | CleanupFailed(orphan: Key)

  /** The keys an error tells the user about. */
  function Named(error: Option<Error>): set<Key> {
    match error
    case Some(ConfigAndRollback(key)) => {key}
    case Some(CleanupFailed(key)) => {key}
    case _ => {}
  }

  /** The states a command leaves durable one after the other, and what it returns. */
  datatype Outcome = Outcome(trail: seq<Stores>, error: Option<Error>)

  function Last(s: Stores, trail: seq<Stores>): Stores {
    if trail == [] then s else trail[|trail| - 1]
  }

  /** One durable effect, which an early fault prevents. */
  function Effect(fault: Fault, after: Stores): seq<Stores> {
    if fault.Early? then [] else [after]
  }

  function Persist(s: Stores, key: Key, secret: string, config: AppConfig, f: Faults): Outcome {
    if !config.Validates() then Outcome([], Some(ConfigFailed))
    else if |config.Referrers(key)| != 1 then Outcome([], Some(InvalidCredentialReference))
    else if f.get then Outcome([], Some(CredentialFailed))
    else if key in s.vault then Outcome([], Some(CredentialAlreadyExists))
    else
      var stored := s.(vault := s.vault[key := secret]);
      var written := Effect(f.setting, stored);
      if !f.setting.NoFault? then Outcome(written, Some(CredentialFailed))
      else
        var saved := written + Effect(f.save, stored.(config := config));
        if f.save.NoFault? then Outcome(saved, None)
        else
          var last := Last(s, saved);
          Outcome(saved + Effect(f.rollback, last.(vault := last.vault - {key})),
                  Some(if f.rollback.NoFault? then ConfigFailed else ConfigAndRollback(key)))
  }

  /** Deleting a credential that is no longer needed; one that is already missing is no error. */
  function Cleanup(s: Stores, key: Key, fault: Fault): Outcome {
    if fault.NoFault? then Outcome([s.(vault := s.vault - {key})], None)
    else Outcome(Effect(fault, s.(vault := s.vault - {key})), Some(CleanupFailed(key)))
  }

  datatype Command =
    | Configure(target: LocalTargetConfig, secret: string, verified: bool)
    | Add(name: string, profile: SourceProfileConfig, secret: string, context: string, verified: bool)
    | Activate(name: string)
    | SetPushDestination(name: string, allowed: bool)
    | Remove(name: string)
    | Reset

  /** The target registry with `target` as its default; the previous default stays registered. */
  function Registered(config: AppConfig, target: LocalTargetConfig): AppConfig {
    var kept := if config.localTarget.Some? && config.localTarget.value.containerName != target.containerName
                then config.localTargets[config.localTarget.value.containerName := config.localTarget.value]
                else config.localTargets;
    config.(runtimeContext := Some(target.dockerContext), localTargets := kept - {target.containerName}, localTarget :=
      Some(target))
  }

  function WithProfile(config: AppConfig, name: string, profile: SourceProfileConfig, context: string): AppConfig {
    config.(runtimeContext := Some(context), profiles :=
      config.profiles[name := profile.(pushDestination := false)], activeProfile := Some(name))
  }

  function WithoutProfile(config: AppConfig, name: string): AppConfig {
    config.(profiles := config.profiles - {name}, activeProfile := if config.activeProfile == Some(name) then None
      else config.activeProfile)
  }

  function WithPush(config: AppConfig, name: string, allowed: bool): AppConfig
    requires name in config.profiles
  {
    config.(profiles := config.profiles[name := config.profiles[name].(pushDestination := allowed)])
  }

  function Saved(s: Stores, config: AppConfig, fault: Fault): Outcome {
    if !config.Validates() then Outcome([], Some(ConfigFailed))
    else Outcome(Effect(fault, s.(config := config)), if fault.NoFault? then None else Some(ConfigFailed))
  }

  predicate OtherContext(config: AppConfig, context: string) {
    config.runtimeContext.Some? && config.runtimeContext.value != context
  }

  /** What a command does to the stores. */
  function Perform(s: Stores, command: Command, f: Faults): Outcome {
    match command
    case Configure(target, secret, verified) =>
      if OtherContext(s.config, target.dockerContext) then Outcome([], Some(Invalid))
      else if !verified then Outcome([], Some(VerificationFailed))
      else
        var previous := s.config.LocalTargetNamed(target.containerName);
        var persisted := Persist(s, target.key, secret, Registered(s.config, target), f);
        if persisted.error.Some? || previous.None? then persisted
        else
          var cleaned := Cleanup(Last(s, persisted.trail), previous.value.key, f.cleanup);
          Outcome(persisted.trail + cleaned.trail, cleaned.error)
    case Add(name, profile, secret, context, verified) =>
      if name in s.config.profiles then Outcome([], Some(AlreadyExists))
      else if !verified then Outcome([], Some(VerificationFailed))
      else if OtherContext(s.config, context) then Outcome([], Some(Invalid))
      else Persist(s, profile.key, secret, WithProfile(s.config, name, profile, context), f)
    case Activate(name) =>
      if name !in s.config.profiles then Outcome([], Some(NotFound))
      else Saved(s, s.config.(activeProfile := Some(name)), f.save)
    case SetPushDestination(name, allowed) =>
      if name !in s.config.profiles then Outcome([], Some(NotFound))
      else if allowed && s.config.profiles[name].production then Outcome([], Some(ProductionPushDestination))
      else Saved(s, WithPush(s.config, name, allowed), f.save)
    case Remove(name) =>
      if name !in s.config.profiles then Outcome([], Some(NotFound))
      else
        var saved := Saved(s, WithoutProfile(s.config, name), f.save);
        if saved.error.Some? then saved
        else
          var cleaned := Cleanup(Last(s, saved.trail), s.config.profiles[name].key, f.cleanup);
          Outcome(saved.trail + cleaned.trail, cleaned.error)
    case Reset =>
      var cleared := s.(config := DEFAULT_CONFIG);
      Outcome([cleared] + Effect(f.save, cleared), if f.save.NoFault? then None else Some(ConfigFailed))
  }

  /** Every key the saved configuration references is stored, and no two entries share one. */
  ghost predicate Consistent(s: Stores) {
    && s.config.Validates()
    && (forall entry | s.config.KeyAt(entry).Some? :: s.config.KeyAt(entry).value in s.vault)
    && (forall a, b | s.config.KeyAt(a).Some? && s.config.KeyAt(a) == s.config.KeyAt(b) :: a == b)
  }

  ghost predicate AllConsistent(trail: seq<Stores>) {
    forall i | 0 <= i < |trail| :: Consistent(trail[i])
  }

  lemma OneReferrer(config: AppConfig, key: Key, a: Entry, b: Entry)
    requires |config.Referrers(key)| == 1 && config.KeyAt(a) == Some(key) && config.KeyAt(b) == Some(key)
    ensures a == b
  {
    var referrers := config.Referrers(key);
    assert a in referrers && b in referrers;
    assert |referrers - {a}| == 0;
  }

  /** `changed` keeps the references of `config`, never doubling one, apart from entries for `key`. */
  ghost predicate Keeps(config: AppConfig, changed: AppConfig, key: Key) {
    && (forall entry | changed.KeyAt(entry).Some? ::
         changed.KeyAt(entry) == Some(key) || config.References(changed.KeyAt(entry).value))
    && (forall a, b | changed.KeyAt(a).Some? && changed.KeyAt(a) == changed.KeyAt(b)
        && changed.KeyAt(a) != Some(key) :: a == b)
  }

  /** The provisioning gets as far as saving the configuration. */
  predicate ReachesSave(s: Stores, key: Key, config: AppConfig, f: Faults) {
    config.Validates() && |config.Referrers(key)| == 1 && !f.get && key !in s.vault && f.setting.NoFault?
  }

  lemma ReferrersRefer(config: AppConfig, key: Key)
    ensures forall entry :: entry in config.Referrers(key) <==> config.KeyAt(entry) == Some(key)
  {
  }

  lemma StoredIsConsistent(s: Stores, key: Key, secret: string)
    requires Consistent(s) && key !in s.vault
    ensures Consistent(s.(vault := s.vault[key := secret]))
    ensures Consistent(s.(vault := s.vault[key := secret] - {key}))
  {
  }

  lemma SavedIsConsistent(s: Stores, key: Key, secret: string, config: AppConfig)
    requires Consistent(s) && Keeps(s.config, config, key)
    requires config.Validates() && |config.Referrers(key)| == 1 && key !in s.vault
    ensures Consistent(Stores(config, s.vault[key := secret]))
    ensures !Consistent(Stores(config, s.vault[key := secret] - {key}))
  {
    ReferrersRefer(config, key);
    var entry :| entry in config.Referrers(key);
    forall e | config.KeyAt(e).Some? ensures config.KeyAt(e).value in s.vault[key := secret] {
      if config.KeyAt(e) != Some(key) {
        var earlier :| s.config.KeyAt(earlier) == config.KeyAt(e);
        assert s.config.KeyAt(earlier).Some?;
      }
    }
    forall a, b | config.KeyAt(a).Some? && config.KeyAt(a) == config.KeyAt(b) ensures a == b {
      if config.KeyAt(a) == Some(key) {
        OneReferrer(config, key, a, b);
      }
    }
  }

  /**
   Provisioning stays consistent after every effect, except when the save fails late and the
   rollback then takes away the credential the saved file already needs.
   */
  lemma PersistIsConsistent(s: Stores, key: Key, secret: string, config: AppConfig, f: Faults)
    requires Consistent(s) && Keeps(s.config, config, key)
    ensures AllConsistent(Persist(s, key, secret, config, f).trail) <==>
            !(ReachesSave(s, key, config, f) && f.save.Late? && !f.rollback.Early?)
    ensures Persist(s, key, secret, config, f).error.None? ==>
              Last(s, Persist(s, key, secret, config, f).trail) == Stores(config, s.vault[key := secret])
  {
    var trail := Persist(s, key, secret, config, f).trail;
    if config.Validates() && |config.Referrers(key)| == 1 && key !in s.vault {
      StoredIsConsistent(s, key, secret);
      SavedIsConsistent(s, key, secret, config);
      hide Consistent;
      if ReachesSave(s, key, config, f) && f.save.Late? && !f.rollback.Early? {
        assert trail[2] == Stores(config, s.vault[key := secret] - {key});
      }
    }
  }

  lemma RegisteredKeeps(config: AppConfig, target: LocalTargetConfig)
    requires config.Validates()
    requires forall a, b | config.KeyAt(a).Some? && config.KeyAt(a) == config.KeyAt(b) :: a == b
    ensures Keeps(config, Registered(config, target), target.key)
  {
    var changed := Registered(config, target);
    forall entry | changed.KeyAt(entry).Some? && changed.KeyAt(entry) != Some(target.key)
      ensures config.KeyAt(Before(config, entry)) == changed.KeyAt(entry)
    {
    }
  }

  /** Where an entry of the new registry was in the old one. */
  function Before(config: AppConfig, entry: Entry): Entry {
    if entry.Additional? && config.localTarget.Some? && config.localTarget.value.containerName == entry.name
      then Default else entry
  }

  lemma WithProfileKeeps(config: AppConfig, name: string, profile: SourceProfileConfig, context: string)
    requires forall a, b | config.KeyAt(a).Some? && config.KeyAt(a) == config.KeyAt(b) :: a == b
    ensures Keeps(config, WithProfile(config, name, profile, context), profile.key)
  {
    var changed := WithProfile(config, name, profile, context);
    forall entry | changed.KeyAt(entry).Some? && changed.KeyAt(entry) != Some(profile.key)
      ensures config.KeyAt(entry) == changed.KeyAt(entry)
    {
    }
  }

  /** The registration of a target drops the reference to the credential it replaces. */
  lemma PreviousIsUnreferenced(config: AppConfig, target: LocalTargetConfig)
    requires config.Validates() && config.LocalTargetNamed(target.containerName).Some?
    requires forall a, b | config.KeyAt(a).Some? && config.KeyAt(a) == config.KeyAt(b) :: a == b
    requires target.key != config.LocalTargetNamed(target.containerName).value.key
    ensures !Registered(config, target).References(config.LocalTargetNamed(target.containerName).value.key)
  {
    var changed, previous := Registered(config, target), config.LocalTargetNamed(target.containerName).value.key;
    var at := if config.localTarget.Some? && config.localTarget.value.containerName == target.containerName
      then Default else Additional(target.containerName);
    assert config.KeyAt(at) == Some(previous);
    forall entry ensures changed.KeyAt(entry) != Some(previous) {
      assert changed.KeyAt(entry).Some? && changed.KeyAt(entry) != Some(target.key) ==>
          config.KeyAt(Before(config, entry)) == changed.KeyAt(entry) && Before(config, entry) != at;
    }
  }

  lemma CleanupIsConsistent(s: Stores, key: Key, fault: Fault)
    requires Consistent(s) && !s.config.References(key)
    ensures AllConsistent(Cleanup(s, key, fault).trail)
  {
    assert Consistent(s.(vault := s.vault - {key}));
  }

  lemma SameReferences(s: Stores, config: AppConfig)
    requires Consistent(s) && config.Validates()
    requires forall entry | config.KeyAt(entry).Some? :: config.KeyAt(entry) == s.config.KeyAt(entry)
    ensures Consistent(s.(config := config))
  {
  }

  /** The one way a command breaks the stores: a provisioning whose save fails late and is rolled back. */
  predicate Betrays(s: Stores, command: Command, f: Faults) {
    && f.save.Late? && !f.rollback.Early?
    && match command
       case Configure(target, _, verified) =>
         verified && !OtherContext(s.config, target.dockerContext)
         && ReachesSave(s, target.key, Registered(s.config, target), f)
       case Add(name, profile, _, context, verified) =>
         && name !in s.config.profiles && verified && !OtherContext(s.config, context)
         && ReachesSave(s, profile.key, WithProfile(s.config, name, profile, context), f)
       case _ => false
  }

  lemma ConfigureIsConsistent(s: Stores, command: Command, f: Faults)
    requires Consistent(s) && command.Configure?
    ensures AllConsistent(Perform(s, command, f).trail) <==> !Betrays(s, command, f)
  {
    var target := command.target;
    if !OtherContext(s.config, target.dockerContext) && command.verified {
      var config := Registered(s.config, target);
      RegisteredKeeps(s.config, target);
      PersistIsConsistent(s, target.key, command.secret, config, f);
      var persisted, previous :=
        Persist(s, target.key, command.secret, config, f), s.config.LocalTargetNamed(target.containerName);
      if persisted.error.None? && previous.Some? {
        PreviousIsStored(s, target.containerName);
        PreviousIsUnreferenced(s.config, target);
        assert Consistent(persisted.trail[|persisted.trail| - 1]);
        hide Consistent, Persist, Registered;
        CleanupIsConsistent(Last(s, persisted.trail), previous.value.key, f.cleanup);
      }
    }
  }

  lemma PreviousIsStored(s: Stores, name: string)
    requires Consistent(s) && s.config.LocalTargetNamed(name).Some?
    ensures s.config.LocalTargetNamed(name).value.key in s.vault
  {
    assert s.config.KeyAt(Default).Some? ==> s.config.KeyAt(Default).value in s.vault;
    assert s.config.KeyAt(Additional(name)).Some? ==> s.config.KeyAt(Additional(name)).value in s.vault;
  }

  lemma AddIsConsistent(s: Stores, command: Command, f: Faults)
    requires Consistent(s) && command.Add?
    ensures AllConsistent(Perform(s, command, f).trail) <==> !Betrays(s, command, f)
  {
    var config := WithProfile(s.config, command.name, command.profile, command.context);
    WithProfileKeeps(s.config, command.name, command.profile, command.context);
    PersistIsConsistent(s, command.profile.key, command.secret, config, f);
  }

  lemma RemoveIsConsistent(s: Stores, command: Command, f: Faults)
    requires Consistent(s) && command.Remove?
    ensures AllConsistent(Perform(s, command, f).trail)
  {
    if command.name in s.config.profiles {
      var config, key := WithoutProfile(s.config, command.name), s.config.profiles[command.name].key;
      if config.Validates() {
        SameReferences(s, config);
        assert s.config.KeyAt(Profile(command.name)) == Some(key);
        forall entry ensures config.KeyAt(entry) != Some(key) {
          assert config.KeyAt(entry) == Some(key) ==> s.config.KeyAt(entry) == Some(key);
        }
        CleanupIsConsistent(s.(config := config), key, f.cleanup);
      }
    }
  }

  /** From consistent stores, every state every command leaves is consistent, exactly unless it betrays. */
  lemma ConsistentExactlyUnless(s: Stores, command: Command, f: Faults)
    requires Consistent(s)
    ensures AllConsistent(Perform(s, command, f).trail) <==> !Betrays(s, command, f)
  {
    match command
    case Configure(_, _, _) => ConfigureIsConsistent(s, command, f);
    case Add(_, _, _, _, _) => AddIsConsistent(s, command, f);
    case Remove(_) => RemoveIsConsistent(s, command, f);
    case Activate(name) =>
      var config := s.config.(activeProfile := Some(name));
      if config.Validates() { SameReferences(s, config); }
    case SetPushDestination(name, allowed) =>
      if name in s.config.profiles && WithPush(s.config, name, allowed).Validates() {
        SameReferences(s, WithPush(s.config, name, allowed));
      }
    case Reset => SameReferences(s, DEFAULT_CONFIG);
  }

  /**
   The Docker context of the client runtime is fixed by the first setup or profile and changed by no
   command but a reset: every state a command leaves keeps it.
   */
  lemma OnlyResetDropsContext(s: Stores, command: Command, f: Faults)
    requires s.config.runtimeContext.Some?
    ensures forall t | t in Perform(s, command, f).trail ::
              t.config.runtimeContext == s.config.runtimeContext || command.Reset?
  {
    match command
    case Configure(target, secret, _) =>
      PersistKeepsConfigs(s, target.key, secret, Registered(s.config, target), f);
      hide Persist;
    case Add(name, profile, secret, context, _) =>
      PersistKeepsConfigs(s, profile.key, secret, WithProfile(s.config, name, profile, context), f);
      hide Persist;
    case _ =>
  }

  /** Provisioning writes no configuration but the new one. */
  lemma PersistKeepsConfigs(s: Stores, key: Key, secret: string, config: AppConfig, f: Faults)
    ensures forall t | t in Persist(s, key, secret, config, f).trail :: t.config == s.config || t.config == config
    ensures var persisted := Persist(s, key, secret, config, f);
            persisted.error.None? ==> Last(s, persisted.trail).config == config
  {
    hide AppConfig.Validates, AppConfig.Referrers;
  }

  /** A command with its faults; a crash ends it after that many of its effects. */
  datatype Event = Event(command: Command, faults: Faults, crash: Option<nat>)

  function After(s: Stores, e: Event): Stores {
    var trail := Perform(s, e.command, e.faults).trail;
    Last(s, if e.crash.Some? && e.crash.value <= |trail| then trail[..e.crash.value] else trail)
  }

  function Run(s: Stores, events: seq<Event>): Stores {
    if events == [] then s else After(Run(s, events[..|events| - 1]), events[|events| - 1])
  }

  /** The event gets to the third effect of a betrayal, the rollback; a crash before it comes in time. */
  predicate Breaks(s: Stores, e: Event) {
    Betrays(s, e.command, e.faults) && (e.crash.None? || e.crash.value > 2)
  }

  lemma BetrayalIsLast(s: Stores, command: Command, f: Faults)
    requires Consistent(s) && Betrays(s, command, f)
    ensures var trail := Perform(s, command, f).trail;
            |trail| == 3 && Consistent(trail[0]) && Consistent(trail[1]) && !Consistent(trail[2])
  {
    if command.Configure? {
      var target := command.target;
      RegisteredKeeps(s.config, target);
      PersistBetrays(s, target.key, command.secret, Registered(s.config, target), f);
    } else {
      var config := WithProfile(s.config, command.name, command.profile, command.context);
      WithProfileKeeps(s.config, command.name, command.profile, command.context);
      PersistBetrays(s, command.profile.key, command.secret, config, f);
    }
    hide Consistent, Persist, Keeps;
  }

  lemma PersistBetrays(s: Stores, key: Key, secret: string, config: AppConfig, f: Faults)
    requires Consistent(s) && Keeps(s.config, config, key)
    requires ReachesSave(s, key, config, f) && f.save.Late? && !f.rollback.Early?
    ensures var persisted := Persist(s, key, secret, config, f);
            && persisted.error.Some? && |persisted.trail| == 3
            && Consistent(persisted.trail[0]) && Consistent(persisted.trail[1]) && !Consistent(persisted.trail[2])
  {
    StoredIsConsistent(s, key, secret);
    SavedIsConsistent(s, key, secret, config);
    hide Consistent, Keeps;
    assert Persist(s, key, secret, config, f).trail[2] == Stores(config, s.vault[key := secret] - {key});
  }

  /** A command, with its faults and its crash, leaves consistent stores consistent exactly unless it breaks them. */
  lemma EventConsistentExactlyUnless(s: Stores, e: Event)
    requires Consistent(s)
    ensures Consistent(After(s, e)) <==> !Breaks(s, e)
  {
    hide Consistent, Perform, Betrays;
    ConsistentExactlyUnless(s, e.command, e.faults);
    if Betrays(s, e.command, e.faults) {
      BetrayalIsLast(s, e.command, e.faults);
    }
  }

  /**
   Over every sequence of commands, with store failures and crashes at any step, the stores are
   consistent all along exactly as long as no provisioning save fails late and gets rolled back.
   */
  lemma {:induction false} RunsStayConsistent(s: Stores, events: seq<Event>)
    requires Consistent(s)
    ensures (forall i | 0 <= i <= |events| :: Consistent(Run(s, events[..i]))) <==>
            (forall i | 0 <= i < |events| :: !Breaks(Run(s, events[..i]), events[i]))
  {
    hide Consistent, Breaks, After;
    if events == [] {
      assert events[..0] == [];
    } else {
      var before, e := events[..|events| - 1], events[|events| - 1];
      assert events[..|events|] == events && before[..|before|] == before;
      assert forall i | 0 <= i <= |before| :: before[..i] == events[..i];
      assert forall i | 0 <= i < |before| :: before[i] == events[i];
      RunsStayConsistent(s, before);
      if Consistent(Run(s, before)) {
        EventConsistentExactlyUnless(Run(s, before), e);
      }
      assert Run(s, events) == After(Run(s, before), e);
    }
  }

  /** A late save error is not far-fetched: any first registration shows the damage. */
  lemma LateSaveBetrays(target: LocalTargetConfig, secret: string)
    requires target.fieldsValid && target.key.scope.Target?
    ensures var s, f := Stores(DEFAULT_CONFIG, map[]), Faults(false, NoFault, Late, NoFault, NoFault);
            && Consistent(s) && Betrays(s, Configure(target, secret, true), f)
            && !Consistent(After(s, Event(Configure(target, secret, true), f, None)))
  {
    var s, f := Stores(DEFAULT_CONFIG, map[]), Faults(false, NoFault, Late, NoFault, NoFault);
    var config := Registered(s.config, target);
    assert config.Referrers(target.key) == {Default};
    assert config.KeyAt(Default) == Some(target.key);
    assert After(s, Event(Configure(target, secret, true), f, None)) ==
             Stores(config, map[target.key := secret] - {target.key});
  }

  /** Stored credentials nothing refers to. */
  ghost function Orphans(s: Stores): set<Key> {
    set key | key in s.vault && !s.config.References(key)
  }

  /** Every new orphan is named in the error the command returns. */
  ghost predicate Accounted(s: Stores, command: Command, f: Faults) {
    Orphans(Last(s, Perform(s, command, f).trail)) <= Orphans(s) + Named(Perform(s, command, f).error)
  }

  predicate ReachesSet(s: Stores, key: Key, config: AppConfig, f: Faults) {
    config.Validates() && |config.Referrers(key)| == 1 && !f.get && key !in s.vault
  }

  /** An effect that happened although it was reported as failed, in a place where the error names no key. */
  predicate Forgets(s: Stores, command: Command, f: Faults) {
    match command
    case Configure(target, _, verified) =>
      && verified && !OtherContext(s.config, target.dockerContext)
         && ReachesSet(s, target.key, Registered(s.config, target), f)
      && (f.setting.Late?
          || (f.setting.NoFault? && f.save.Late? && s.config.LocalTargetNamed(target.containerName).Some?))
    case Add(name, profile, _, context, verified) =>
      && name !in s.config.profiles && verified && !OtherContext(s.config, context)
      && ReachesSet(s, profile.key, WithProfile(s.config, name, profile, context), f)
      && f.setting.Late?
    case Remove(name) => name in s.config.profiles && f.save.Late?
    case _ => false
  }

  /**
   A provisioning that fails leaves at most the key its error names, unless the store kept what it said it
   refused.
   */
  lemma PersistAccounts(s: Stores, key: Key, secret: string, config: AppConfig, f: Faults, dropped: set<Key>)
    requires Consistent(s) && Keeps(s.config, config, key)
    requires forall k :: k in dropped <==> k in s.vault && s.config.References(k) && !config.References(k)
    ensures var persisted := Persist(s, key, secret, config, f);
            var end := Last(s, persisted.trail);
            && (persisted.error.None? ==> Orphans(end) == Orphans(s) + dropped)
            && (persisted.error.Some? ==>
                  (Orphans(end) <= Orphans(s) + Named(persisted.error) <==>
                     !(ReachesSet(s, key, config, f)
                       && (f.setting.Late? || (f.setting.NoFault? && f.save.Late? && dropped != {})))))
  {
    if ReachesSet(s, key, config, f) {
      OrphanSets(s, key, secret, config, dropped);
      PersistEnds(s, key, secret, config, f);
      hide Orphans, Consistent, Keeps, Persist, Last;
    }
  }

  /** The state a provisioning ends in, and the error it returns. */
  lemma PersistEnds(s: Stores, key: Key, secret: string, config: AppConfig, f: Faults)
    requires ReachesSet(s, key, config, f)
    ensures var persisted, with := Persist(s, key, secret, config, f), s.vault[key := secret];
            (persisted.error, Last(s, persisted.trail)) ==
            if f.setting.Early? then (Some(CredentialFailed), s)
            else if f.setting.Late? then (Some(CredentialFailed), s.(vault := with))
            else if f.save.NoFault? then (None, Stores(config, with))
            else (Some(if f.rollback.NoFault? then ConfigFailed else ConfigAndRollback(key)),
                  Stores(if f.save.Late? then config else s.config, if f.rollback.Early? then with else s.vault))
  {
    assert s.vault[key := secret] - {key} == s.vault;
  }

  /** The orphans of every state a provisioning can leave. */
  lemma OrphanSets(s: Stores, key: Key, secret: string, config: AppConfig, dropped: set<Key>)
    requires Consistent(s) && Keeps(s.config, config, key) && key !in s.vault && |config.Referrers(key)| == 1
    requires forall k :: k in dropped <==> k in s.vault && s.config.References(k) && !config.References(k)
    ensures Orphans(s.(vault := s.vault[key := secret])) == Orphans(s) + {key}
    ensures Orphans(Stores(config, s.vault[key := secret])) == Orphans(s) + dropped
    ensures Orphans(Stores(config, s.vault)) == Orphans(s) + dropped
    ensures key !in Orphans(s) && key !in dropped && dropped !! Orphans(s)
  {
    Unreferenced(s, key);
    KeptReferences(s, key, config);
    ReferrersRefer(config, key);
    var entry :| entry in config.Referrers(key);
    assert config.References(key);
  }

  lemma Unreferenced(s: Stores, key: Key)
    requires Consistent(s) && key !in s.vault
    ensures !s.config.References(key)
  {
  }

  lemma KeptReferences(s: Stores, key: Key, config: AppConfig)
    requires Keeps(s.config, config, key)
    ensures forall k | config.References(k) && k != key :: s.config.References(k)
  {
    forall k | config.References(k) && k != key ensures s.config.References(k) {
      var entry :| config.KeyAt(entry) == Some(k);
      assert config.KeyAt(entry).Some?;
    }
  }

  lemma CleanupAccounts(t: Stores, key: Key, fault: Fault)
    ensures Orphans(Last(t, Cleanup(t, key, fault).trail)) <= (Orphans(t) - {key}) + Named(Cleanup(t, key, fault).error)
  {
  }

  /** Registering a target drops exactly the reference to the credential it replaces. */
  lemma RegisteredDrops(s: Stores, target: LocalTargetConfig, k: Key)
    requires Consistent(s) && target.key !in s.vault
    ensures var previous := s.config.LocalTargetNamed(target.containerName);
            (k in s.vault && s.config.References(k) && !Registered(s.config, target).References(k)) <==>
            (previous.Some? && k == previous.value.key)
  {
    var previous, changed := s.config.LocalTargetNamed(target.containerName), Registered(s.config, target);
    if previous.Some? && k == previous.value.key {
      PreviousIsStored(s, target.containerName);
      PreviousIsUnreferenced(s.config, target);
      var at := if s.config.localTarget.Some? && s.config.localTarget.value.containerName == target.containerName
        then Default else Additional(target.containerName);
      assert s.config.KeyAt(at) == Some(k);
    }
    if s.config.References(k) && !(previous.Some? && k == previous.value.key) {
      var entry :| s.config.KeyAt(entry) == Some(k);
      var moved := if entry.Default? then Additional(s.config.localTarget.value.containerName) else entry;
      assert changed.KeyAt(moved) == Some(k);
    }
  }

  lemma ConfigureAccounts(s: Stores, command: Command, f: Faults)
    requires Consistent(s) && command.Configure?
    ensures Accounted(s, command, f) <==> !Forgets(s, command, f)
  {
    var target := command.target;
    var config, previous := Registered(s.config, target), s.config.LocalTargetNamed(target.containerName);
    if !OtherContext(s.config, target.dockerContext) && command.verified && target.key !in s.vault {
      RegisteredKeeps(s.config, target);
      var dropped := if previous.Some? then {previous.value.key} else {};
      forall k ensures k in dropped <==> k in s.vault && s.config.References(k) && !config.References(k) {
        RegisteredDrops(s, target, k);
      }
      PersistAccounts(s, target.key, command.secret, config, f, dropped);
      var persisted := Persist(s, target.key, command.secret, config, f);
      if persisted.error.None? && previous.Some? {
        CleanupAccounts(Last(s, persisted.trail), previous.value.key, f.cleanup);
        LastOfConcat(s, persisted.trail, Cleanup(Last(s, persisted.trail), previous.value.key, f.cleanup).trail);
        PersistSucceeds(s, target.key, command.secret, config, f);
      }
      hide Persist, Registered, Orphans, Consistent, Keeps, Cleanup, Last;
    }
  }

  lemma PersistSucceeds(s: Stores, key: Key, secret: string, config: AppConfig, f: Faults)
    requires Persist(s, key, secret, config, f).error.None?
    ensures f.setting.NoFault? && f.save.NoFault?
  {
  }

  lemma LastOfConcat(s: Stores, first: seq<Stores>, second: seq<Stores>)
    ensures Last(s, first + second) == Last(Last(s, first), second)
  {
  }

  lemma AddAccounts(s: Stores, command: Command, f: Faults)
    requires Consistent(s) && command.Add?
    ensures Accounted(s, command, f) <==> !Forgets(s, command, f)
  {
    var config := WithProfile(s.config, command.name, command.profile, command.context);
    if command.name !in s.config.profiles {
      WithProfileKeeps(s.config, command.name, command.profile, command.context);
      forall k | s.config.References(k) ensures config.References(k) {
        var entry :| s.config.KeyAt(entry) == Some(k);
        assert config.KeyAt(entry) == Some(k);
      }
      PersistAccounts(s, command.profile.key, command.secret, config, f, {});
      hide Persist, WithProfile, Orphans, Consistent, Keeps, Last;
    }
  }

  lemma RemoveAccounts(s: Stores, command: Command, f: Faults)
    requires Consistent(s) && command.Remove?
    ensures Accounted(s, command, f) <==> !Forgets(s, command, f)
  {
    if command.name in s.config.profiles {
      var config, key := WithoutProfile(s.config, command.name), s.config.profiles[command.name].key;
      var t := s.(config := config);
      assert config.Validates();
      RemovedProfile(s, command.name);
      var saved := Saved(s, config, f.save);
      CleanupAccounts(t, key, f.cleanup);
      LastOfConcat(s, saved.trail, Cleanup(t, key, f.cleanup).trail);
      hide Orphans, Consistent, Cleanup, WithoutProfile;
    }
  }

  lemma RemovedProfile(s: Stores, name: string)
    requires Consistent(s) && name in s.config.profiles
    ensures var t, key := s.(config := WithoutProfile(s.config, name)), s.config.profiles[name].key;
            Orphans(t) == Orphans(s) + {key} && key !in Orphans(s)
  {
    var config, key := WithoutProfile(s.config, name), s.config.profiles[name].key;
    assert s.config.KeyAt(Profile(name)) == Some(key);
    forall entry ensures config.KeyAt(entry) == if entry == Profile(name) then None else s.config.KeyAt(entry) {
    }
    forall k | k in s.vault && k != key ensures s.config.References(k) <==> config.References(k) {
      if s.config.References(k) {
        var entry :| s.config.KeyAt(entry) == Some(k);
        assert config.KeyAt(entry) == Some(k);
      }
    }
  }

  lemma SameKeysAccount(s: Stores, config: AppConfig)
    requires forall entry :: config.KeyAt(entry) == s.config.KeyAt(entry)
    ensures Orphans(s.(config := config)) == Orphans(s)
  {
    forall k ensures config.References(k) <==> s.config.References(k) {
      if s.config.References(k) {
        var entry :| s.config.KeyAt(entry) == Some(k);
        assert config.KeyAt(entry) == Some(k);
      }
    }
  }

  /**
   Without a crash, each command names every key it orphans, exactly unless an effect happened that was
   reported as failed.
   */
  lemma AccountedExactlyUnless(s: Stores, command: Command, f: Faults)
    requires Consistent(s) && !command.Reset?
    ensures Accounted(s, command, f) <==> !Forgets(s, command, f)
  {
    match command
    case Configure(_, _, _) => ConfigureAccounts(s, command, f);
    case Add(_, _, _, _, _) => AddAccounts(s, command, f);
    case Remove(_) => RemoveAccounts(s, command, f);
    case Activate(name) => SameKeysAccount(s, s.config.(activeProfile := Some(name)));
    case SetPushDestination(name, allowed) =>
      if name in s.config.profiles {
        SameKeysAccount(s, WithPush(s.config, name, allowed));
      }
  }

  /** Every key named in an error of a run without crashes. */
  function NamedIn(s: Stores, events: seq<Event>): set<Key> {
    if events == [] then {}
    else
      var before, e := events[..|events| - 1], events[|events| - 1];
      NamedIn(s, before) + Named(Perform(Run(s, before), e.command, e.faults).error)
  }

  lemma AccountsFor(s: Stores, e: Event)
    requires Consistent(s) && e.crash.None? && !e.command.Reset? && !Forgets(s, e.command, e.faults)
    ensures Orphans(After(s, e)) <= Orphans(s) + Named(Perform(s, e.command, e.faults).error)
  {
    AccountedExactlyUnless(s, e.command, e.faults);
  }

  /** No crash and no reset, and no command that betrays or forgets. */
  ghost predicate Accountable(s: Stores, events: seq<Event>) {
    forall i | 0 <= i < |events| ::
      && events[i].crash.None? && !events[i].command.Reset?
      && !Betrays(Run(s, events[..i]), events[i].command, events[i].faults)
      && !Forgets(Run(s, events[..i]), events[i].command, events[i].faults)
  }

  lemma AccountableBefore(s: Stores, events: seq<Event>)
    requires Consistent(s) && Accountable(s, events) && events != []
    ensures var before, e := events[..|events| - 1], events[|events| - 1];
            && Accountable(s, before) && Consistent(Run(s, before))
            && e.crash.None? && !e.command.Reset? && !Forgets(Run(s, before), e.command, e.faults)
  {
    hide Orphans, Consistent, Perform, Betrays, Forgets, After;
    var before := events[..|events| - 1];
    assert before[..|before|] == before;
    assert forall i | 0 <= i < |before| :: before[..i] == events[..i] && before[i] == events[i];
    RunsStayConsistent(s, before);
    assert forall i | 0 <= i < |before| :: !Breaks(Run(s, before[..i]), before[i]);
  }

  /** Absent crashes, resets and late faults, every stored key is referenced, was an orphan before or was named. */
  lemma {:induction false} OrphansWereNamed(s: Stores, events: seq<Event>)
    requires Consistent(s) && Accountable(s, events)
    ensures Orphans(Run(s, events)) <= Orphans(s) + NamedIn(s, events)
  {
    if events == [] {
    } else {
      hide Orphans, Consistent, Perform, Accountable, After;
      var before, e := events[..|events| - 1], events[|events| - 1];
      AccountableBefore(s, events);
      OrphansWereNamed(s, before);
      AccountsFor(Run(s, before), e);
    }
  }

  datatype Deletion = Deleted | Missing | Failed

  /** The two stores of a machine. The commands work on them in place; `trail` records every durable state. */
  class LocalStores {
    var config: AppConfig
    var vault: Vault
    ghost var trail: seq<Stores>

    constructor (config: AppConfig, vault: Vault)
      ensures Now() == Stores(config, vault) && trail == []
    {
      this.config, this.vault, trail := config, vault, [];
    }

    function Now(): Stores
      reads this
    {
      Stores(config, vault)
    }

    /** The command did what `outcome` says, from `before` on. */
    ghost predicate Did(before: Stores, past: seq<Stores>, outcome: Outcome, error: Option<Error>)
      reads this
    {
      error == outcome.error && trail == past + outcome.trail && Now() == Last(before, outcome.trail)
    }

    method Save(changed: AppConfig, fault: Fault) returns (saved: bool)
      modifies this
      ensures Did(old(Now()), old(trail), Saved(old(Now()), changed, fault), if saved then None else Some(ConfigFailed))
    {
      if !changed.Validates() || fault.Early? {
        return false;
      }
      config := changed;
      trail := trail + [Now()];
      return fault.NoFault?;
    }

    method Set(key: Key, secret: string, fault: Fault) returns (stored: bool)
      modifies this
      ensures stored == fault.NoFault?
      ensures trail == old(trail) + Effect(fault, old(Now()).(vault := old(vault)[key := secret]))
      ensures Now() == if fault.Early? then old(Now()) else old(Now()).(vault := old(vault)[key := secret])
    {
      if fault.Early? {
        return false;
      }
      vault := vault[key := secret];
      trail := trail + [Now()];
      return fault.NoFault?;
    }

    method Delete(key: Key, fault: Fault) returns (deletion: Deletion)
      modifies this
      ensures deletion == if !fault.NoFault? then Failed else if key in old(vault) then Deleted else Missing
      ensures trail == old(trail) + Effect(fault, old(Now()).(vault := old(vault) - {key}))
      ensures Now() == if fault.Early? then old(Now()) else old(Now()).(vault := old(vault) - {key})
    {
      if fault.Early? {
        return Failed;
      }
      deletion := if !fault.NoFault? then Failed else if key in vault then Deleted else Missing;
      vault := vault - {key};
      trail := trail + [Now()];
    }

    /**
     Stores a new credential and then the configuration that refers to it, taking the first back when the
     second fails.
     */
    method PersistConfigWithCredential(key: Key, secret: string, changed: AppConfig, f: Faults)
      returns (error: Option<Error>)
      modifies this
      ensures Did(old(Now()), old(trail), Persist(old(Now()), key, secret, changed, f), error)
    {
      if !changed.Validates() {
        return Some(ConfigFailed);
      }
      if |changed.Referrers(key)| != 1 {
        return Some(InvalidCredentialReference);
      }
      if f.get {
        return Some(CredentialFailed);
      }
      if key in vault {
        return Some(CredentialAlreadyExists);
      }
      var stored := Set(key, secret, f.setting);
      if !stored {
        return Some(CredentialFailed);
      }
      var saved := Save(changed, f.save);
      if !saved {
        var deletion := Delete(key, f.rollback);
        return Some(if deletion.Deleted? then ConfigFailed else ConfigAndRollback(key));
      }
      return None;
    }

    method CleanUp(key: Key, fault: Fault) returns (error: Option<Error>)
      modifies this
      ensures Did(old(Now()), old(trail), Cleanup(old(Now()), key, fault), error)
    {
      var deletion := Delete(key, fault);
      return if deletion.Failed? then Some(CleanupFailed(key)) else None;
    }

    /** The update of the target registry, field by field. */
    static method RegisterTarget(config: AppConfig, target: LocalTargetConfig) returns (changed: AppConfig)
      ensures changed == Registered(config, target)
    {
      changed := config.(runtimeContext := Some(target.dockerContext));
      var previousDefault := changed.localTarget;
      changed := changed.(localTarget := None);
      if previousDefault.Some? && previousDefault.value.containerName != target.containerName {
        var name := previousDefault.value.containerName;
        changed := changed.(localTargets := changed.localTargets[name := previousDefault.value]);
      }
      changed := changed.(localTargets := changed.localTargets - {target.containerName});
      changed := changed.(localTarget := Some(target));
    }

    /** `setup`: makes a container the default target and keeps the previous default registered. */
    method ConfigureTarget(target: LocalTargetConfig, secret: string, verified: bool, f: Faults)
      returns (error: Option<Error>)
      modifies this
      ensures Did(old(Now()), old(trail), Perform(old(Now()), Configure(target, secret, verified), f), error)
    {
      if OtherContext(config, target.dockerContext) {
        return Some(Invalid);
      }
      if !verified {
        return Some(VerificationFailed);
      }
      var previous := config.LocalTargetNamed(target.containerName);
      var changed := RegisterTarget(config, target);
      ghost var before := Now();
      hide Persist, Registered, Last, Cleanup, AppConfig.Validates;
      error := PersistConfigWithCredential(target.key, secret, changed, f);
      if error.None? && previous.Some? {
        ghost var persisted := Persist(before, target.key, secret, changed, f).trail;
        error := CleanUp(previous.value.key, f.cleanup);
        LastOfConcat(before, persisted, Cleanup(Last(before, persisted), previous.value.key, f.cleanup).trail);
      }
    }

    method AddProfile(name: string, profile: SourceProfileConfig, secret: string, context: string, verified: bool,
                      f: Faults)
      returns (error: Option<Error>)
      modifies this
      ensures Did(old(Now()), old(trail), Perform(old(Now()), Add(name, profile, secret, context, verified), f), error)
    {
      if name in config.profiles {
        return Some(AlreadyExists);
      }
      if !verified {
        return Some(VerificationFailed);
      }
      if OtherContext(config, context) {
        return Some(Invalid);
      }
      var changed := config.(runtimeContext := Some(context));
      changed := changed.(profiles := changed.profiles[name := profile.(pushDestination := false)]);
      changed := changed.(activeProfile := Some(name));
      error := PersistConfigWithCredential(profile.key, secret, changed, f);
    }

    method ActivateProfile(name: string, f: Faults) returns (error: Option<Error>)
      modifies this
      ensures Did(old(Now()), old(trail), Perform(old(Now()), Activate(name), f), error)
    {
      if name !in config.profiles {
        return Some(NotFound);
      }
      var saved := Save(config.(activeProfile := Some(name)), f.save);
      return if saved then None else Some(ConfigFailed);
    }

    method SetPush(name: string, allowed: bool, f: Faults) returns (error: Option<Error>)
      modifies this
      ensures Did(old(Now()), old(trail), Perform(old(Now()), SetPushDestination(name, allowed), f), error)
    {
      if name !in config.profiles {
        return Some(NotFound);
      }
      if allowed && config.profiles[name].production {
        return Some(ProductionPushDestination);
      }
      var saved :=
        Save(config.(profiles := config.profiles[name := config.profiles[name].(pushDestination := allowed)]), f.save);
      return if saved then None else Some(ConfigFailed);
    }

    method RemoveProfile(name: string, f: Faults) returns (error: Option<Error>)
      modifies this
      ensures Did(old(Now()), old(trail), Perform(old(Now()), Remove(name), f), error)
    {
      if name !in config.profiles {
        return Some(NotFound);
      }
      var removed := config.profiles[name];
      var changed := config.(profiles := config.profiles - {name});
      if changed.activeProfile == Some(name) {
        changed := changed.(activeProfile := None);
      }
      assert changed == WithoutProfile(old(config), name);
      var saved := Save(changed, f.save);
      if !saved {
        return Some(ConfigFailed);
      }
      error := CleanUp(removed.key, f.cleanup);
    }
  }
}
