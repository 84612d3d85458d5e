/** The steps of `push`: every answer of the user, every check and every effect, in their order. */
module PushService {
  import opened Domain
  import opened Ordering
  import opened Snapshot
  import opened PushGate
  import Validator
  import Credentials

  /** What leaves a trace outside the process. */
  datatype Effect =
    | DumpCreated(dump: Stored)
    | ConsentSaved(profile: string)
    | RemoteLocked(profile: string, database: string)
    | DatabaseEnsured(database: string)
    | Imported(database: string, bytes: nat)

  datatype DumpChoice = Existing(id: DumpId) | Fresh(created: Option<Stored>)

  /** The user's answers and what the outside world does; `None` is an answer that never came or a call that failed. */
  datatype Answers = Answers(
    profile: Option<string>, allow: Option<bool>, secret: bool, server: Option<Server>,
    choice: Option<DumpChoice>, database: Option<string>, downgrade: Option<bool>, confirm: Option<bool>,
    consent: Credentials.Fault, lockFree: bool, ensured: bool, imported: Option<nat>)

  datatype Outcome = Ready(bytes: nat) | Cancelled | Failed

  datatype ConsentError = ProfileNotFound | ProductionDestination | SaveFailed

  /** A fresh dump is published complete under its own ID. */
  predicate Published(a: Answers) {
    a.choice.Some? && a.choice.value.Fresh? && a.choice.value.created.Some? ==> a.choice.value.created.value.Complete()
  }

  class Push {
    var config: Config
    var cache: seq<Stored>
    ghost var effects: seq<Effect>

    constructor (config: Config, cache: seq<Stored>)
      ensures this.config == config && this.cache == cache && effects == []
    {
      this.config, this.cache, effects := config, cache, [];
    }

    /** The destination and the dump of a push that was confirmed. */
    ghost predicate Checked(before: Config, a: Answers, guarded: Guarded, database: string, meta: Metadata)
      reads this
    {
      && a.confirm == Some(true)
      && PassesConfig(before, guarded.profile, !NamedAccepts(before, guarded.profile))
      && Unshielded(before, cache, guarded.serverUuid)
      && (exists e :: e in cache && e.metadata == Parsed(meta))
      && !(guarded.serverUuid == meta.sourceServer && database == meta.place.database)
      && (if IsSameMajorDowngrade(meta.sourceVersion, guarded.serverVersion) then a.downgrade == Some(true)
           else Compatible(guarded, meta))
    }

    function Creation(a: Answers): seq<Effect> {
      if a.choice.Some? && a.choice.value.Fresh? && a.choice.value.created.Some?
        then [DumpCreated(a.choice.value.created.value)] else []
    }

    function Writes(consent: bool, profile: string, database: string, bytes: nat): seq<Effect> {
      (if consent then [ConsentSaved(profile)]
        else []) + [RemoteLocked(profile, database), DatabaseEnsured(database), Imported(database, bytes)]
    }

    /** Picks a destination and, when it was never allowed, asks for consent; nothing is recorded yet. */
    method ChooseDestination(a: Answers) returns (r: Result<Guarded, Outcome>, consent: bool)
      ensures r.Ok? ==>
                && a.profile == Some(r.value.profile)
                && PassesConfig(config, r.value.profile, !NamedAccepts(config, r.value.profile))
                && Unshielded(config, cache, r.value.serverUuid)
                && (consent <==> !NamedAccepts(config, r.value.profile))
                && (consent ==> a.allow == Some(true) && Offered(config, r.value.profile))
      ensures r.Err? ==> !r.error.Ready?
    {
      consent := false;
      var choices := EligibleProfiles(config);
      if choices == [] || a.profile.None? {
        return Err(Failed), consent;
      }
      var name := a.profile.value;
      for k := 0 to |choices|
        invariant consent <==> exists j | 0 <= j < k :: choices[j].profile == name && !choices[j].acceptsPush
      {
        if choices[k].profile == name && !choices[k].acceptsPush {
          consent := true;
        }
      }
      if consent {
        var j :| 0 <= j < |choices| && choices[j].profile == name && !choices[j].acceptsPush;
        assert choices[j] in choices;
        if a.allow.None? {
          return Err(Failed), consent;
        }
        if !a.allow.value {
          return Err(Cancelled), consent;
        }
      }
      var verified := Verify(config, cache, name, consent, a.secret, a.server);
      return if verified.Ok? then Ok(verified.value) else Err(Failed), consent;
    }

    /** The dump to push: one from the cache, or a new one that joins it. */
    method ChooseDump(codec: Codec, a: Answers, requested: string, garbage: Bytes, turns: seq<Validator.Turn>)
      returns (r: Option<Metadata>)
      requires Published(a)
      modifies this
      ensures config == old(config) && effects == old(effects) + Creation(a)
      ensures cache == old(cache) + Created(a)
      ensures r.Some? ==> r.value.place.database == requested && exists e :: e in cache && e.metadata == Parsed(r.value)
      ensures r.Some? ==> forall e | e in Created(a) :: e.metadata == Parsed(r.value)
    {
      if a.choice.None? {
        return None;
      }
      var id := 0;
      match a.choice.value {
        case Existing(existing) => id := existing;
        case Fresh(created) =>
          if created.None? {
            return None;
          }
          cache := cache + [created.value];
          effects := effects + [DumpCreated(created.value)];
          id := created.value.id;
      }
      var validated := Validator.ValidateById(codec, cache, requested, id, garbage, turns);
      if validated.Err? {
        return None;
      }
      ghost var e :| Filter(x => Validator.Named(id, x), cache) == [e]
                     && Validator.Restorable(codec, e, validated.value);
      TheOneNamed(cache, id, e);
      hide Filter;
      return Some(validated.value);
    }

    /** The last questions and the second half of the check; nothing is written here. */
    method Decide(a: Answers, target: Guarded, meta: Metadata, database: string) returns (refusal: Option<Outcome>)
      ensures refusal.None? ==>
                && a.confirm == Some(true)
                && Authorize(target, database, meta, NamedAccepts(config, meta.place.profile),
                             a.downgrade == Some(true)).None?
      ensures refusal.Some? ==> !refusal.value.Ready?
    {
      var sourceAcceptsPush := NamedAccepts(config, meta.place.profile);
      var allowDowngrade := false;
      if IsSameMajorDowngrade(meta.sourceVersion, target.serverVersion) {
        if a.downgrade.None? {
          return Some(Failed);
        }
        allowDowngrade := a.downgrade.value;
        if !allowDowngrade {
          return Some(Cancelled);
        }
      }
      if Authorize(target, database, meta, sourceAcceptsPush, allowDowngrade).Some? || a.confirm.None? {
        return Some(Failed);
      }
      return if a.confirm.value then None else Some(Cancelled);
    }

    /** A profile consent can be recorded for: one that exists and is not production. */
    predicate MayAllow(profile: string)
      reads this
    {
      profile in config.profiles && !config.profiles[profile].production
    }

    /** Records the consent; a late error leaves it recorded and ends the push. */
    method AllowPush(profile: string, fault: Credentials.Fault) returns (error: Option<ConsentError>)
      modifies this
      ensures error == if profile !in old(config).profiles then Some(ConsentError.ProfileNotFound)
                       else if old(config).profiles[profile].production then Some(ConsentError.ProductionDestination)
                       else if fault.NoFault? then None
                       else Some(SaveFailed)
      ensures cache == old(cache)
      ensures config == if old(MayAllow(profile)) && !fault.Early? then Allowed(old(config), profile) else old(config)
      ensures effects == old(effects) + if old(MayAllow(profile)) && !fault.Early? then [ConsentSaved(profile)] else []
    {
      if profile !in config.profiles {
        return Some(ConsentError.ProfileNotFound);
      }
      if config.profiles[profile].production {
        return Some(ConsentError.ProductionDestination);
      }
      if !fault.Early? {
        config := Allowed(config, profile);
        effects := effects + [ConsentSaved(profile)];
      }
      return if fault.NoFault? then None else Some(SaveFailed);
    }

    /** Lock, database and import at the destination. */
    method WriteRemote(a: Answers, target: Guarded, meta: Metadata, database: string, ghost bytes: nat)
      returns (outcome: Outcome)
      requires a.imported.Some? ==> bytes == a.imported.value
      modifies this
      ensures cache == old(cache) && config == old(config) && !outcome.Cancelled?
      ensures old(effects) <= effects <= old(effects) + Writes(false, target.profile, database, bytes)
      ensures outcome.Ready? ==>
                && outcome.bytes == meta.uncompressedBytes == bytes && a.imported == Some(outcome.bytes)
                && effects == old(effects) + Writes(false, target.profile, database, bytes)
    {
      if !a.lockFree {
        return Failed;
      }
      effects := effects + [RemoteLocked(target.profile, database)];
      if !a.ensured {
        return Failed;
      }
      effects := effects + [DatabaseEnsured(database)];
      if a.imported.None? {
        return Failed;
      }
      effects := effects + [Imported(database, bytes)];
      assert effects == old(effects) + Writes(false, target.profile, database, bytes);
      return if a.imported.value == meta.uncompressedBytes then Ready(a.imported.value) else Failed;
    }

    /** The effects of a confirmed push. */
    method Write(a: Answers, consent: bool, target: Guarded, meta: Metadata, database: string)
      returns (outcome: Outcome)
      modifies this
      ensures cache == old(cache) && !outcome.Cancelled?
      ensures exists bytes :: old(effects) <= effects <= old(effects) + Writes(consent, target.profile, database, bytes)
      ensures outcome.Ready? ==>
                effects == old(effects) + Writes(consent, target.profile, database, meta.uncompressedBytes)
      ensures config == old(config)
              || (consent && target.profile in old(config).profiles && config == Allowed(old(config), target.profile))
    {
      ghost var bytes := if a.imported.Some? then a.imported.value else 0;
      ghost var remote := Writes(false, target.profile, database, bytes);
      assert old(effects) + Writes(true, target.profile, database, bytes) ==
               old(effects) + [ConsentSaved(target.profile)] + remote;
      if consent {
        var refused := AllowPush(target.profile, a.consent);
        if refused.Some? {
          assert old(effects) <= effects <= old(effects) + Writes(true, target.profile, database, bytes);
          return Failed;
        }
      }
      outcome := WriteRemote(a, target, meta, database, bytes);
      assert old(effects) <= effects <= old(effects) + Writes(consent, target.profile, database, bytes);
    }

    /**
     Before the confirmation a push leaves at most a new dump. After it, everything the two halves
     of the check promise holds of the cache with the new dump in it, the consent is recorded
     before the remote lock is taken, and the lock is taken before anything is written.
     */
    method Run(codec: Codec, a: Answers, requested: string, garbage: Bytes, turns: seq<Validator.Turn>)
      returns (outcome: Outcome)
      requires Published(a)
      modifies this
      ensures cache == old(cache) || cache == old(cache) + Created(a)
      ensures (QuietSince(old(effects), a) && config == old(config) && !outcome.Ready?)
              || (exists guarded, database, meta ::
                   Confirmed(old(config), old(effects), a, guarded, database, meta, outcome))
      ensures outcome.Cancelled? ==> QuietSince(old(effects), a) && config == old(config)
    {
      var guarded, consent := ChooseDestination(a);
      if guarded.Err? {
        assert effects == old(effects) + [];
        return guarded.error;
      }
      var target := guarded.value;
      var meta := ChooseDump(codec, a, requested, garbage, turns);
      if meta.None? || a.database.None? {
        return Failed;
      }
      var refusal := Decide(a, target, meta.value, a.database.value);
      if refusal.Some? {
        return refusal.value;
      }
      StaysUnshielded(config, old(cache), Created(a), target, a.database.value, meta.value, a.downgrade == Some(true));
      assert Checked(config, a, target, a.database.value, meta.value);
      ghost var before, wrote := config, effects;
      outcome := Write(a, consent, target, meta.value, a.database.value);
      assert Checked(before, a, target, a.database.value, meta.value);
      ghost var bytes :| wrote <= effects <= wrote + Writes(consent, target.profile, a.database.value, bytes);
      assert WroteInOrder(old(effects), a, consent, target, a.database.value);
      assert Confirmed(before, old(effects), a, target, a.database.value, meta.value, outcome);
    }

    function Created(a: Answers): seq<Stored> {
      if a.choice.Some? && a.choice.value.Fresh? && a.choice.value.created.Some? then [a.choice.value.created.value]
        else []
    }

    ghost predicate QuietSince(past: seq<Effect>, a: Answers)
      reads this
    {
      effects == past || effects == past + Creation(a)
    }

    /** A push that was confirmed: what was checked, and what it did up to its outcome. */
    ghost predicate Confirmed(before: Config, past: seq<Effect>, a: Answers, guarded: Guarded, database: string,
                              meta: Metadata, outcome: Outcome)
      reads this
    {
      var consent := !NamedAccepts(before, guarded.profile);
      && Checked(before, a, guarded, database, meta)
      && WroteInOrder(past, a, consent, guarded, database)
      && (config == before || (consent && config == Allowed(before, guarded.profile)))
      && (outcome.Ready? ==>
           effects == past + Creation(a) + Writes(consent, guarded.profile, database, meta.uncompressedBytes))
    }

    ghost predicate WroteInOrder(past: seq<Effect>, a: Answers, consent: bool, guarded: Guarded, database: string)
      reads this
    {
      exists bytes ::
        past + Creation(a) <= effects <= past + Creation(a) + Writes(consent, guarded.profile, database, bytes)
    }
  }

  lemma TheOneNamed(cache: seq<Stored>, id: DumpId, e: Stored)
    requires Filter(x => Validator.Named(id, x), cache) == [e]
    ensures e in cache && forall c | c in cache && Validator.Named(id, c) :: c == e
  {
    FilterElements(x => Validator.Named(id, x), cache);
    assert e in [e];
    forall c | c in cache && Validator.Named(id, c) ensures c == e {
      assert c in [e];
    }
  }

  /** A dump that was authorized shields nobody, so the cache with it in shields no more than before. */
  lemma StaysUnshielded(config: Config, cache: seq<Stored>, created: seq<Stored>, target: Guarded, database: string,
                        meta: Metadata, downgrade: bool)
    requires Unshielded(config, cache, target.serverUuid) && |created| <= 1
    requires forall e | e in created :: e.metadata == Parsed(meta)
    requires Authorize(target, database, meta, NamedAccepts(config, meta.place.profile), downgrade).None?
    ensures Unshielded(config, cache + created, target.serverUuid)
    ensures !(target.serverUuid == meta.sourceServer && database == meta.place.database)
    ensures if IsSameMajorDowngrade(meta.sourceVersion, target.serverVersion) then downgrade
              else Compatible(target, meta)
  {
    if created != [] {
      assert created == [created[0]] && created[0] in created;
      SplitCheckIsOneCheck(config, cache, created[0], target, database, downgrade);
    } else {
      assert cache + created == cache;
    }
  }
}
