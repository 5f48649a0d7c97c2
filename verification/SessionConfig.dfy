/** The stored profile preferences: every accepted change leaves profiles that
    resolve and a default that exists. */
module SessionConfig {
  import opened JsonData
  import opened ReviewProfiles
  import opened Wrappers

  /** The stored document; `context` is the review-context policy, carried along. */
  datatype Config = Config(defaultProfile: string, profiles: Profiles, context: Json)

  const MAX_SESSION_CONFIG_BYTES := 256 * 1024

  /** Character classes of profile names; how many bytes a document is written as, and
      whether its values stay within the node bound. */
  datatype Host = Host(
    nameShape: string -> bool, writtenSize: Config -> nat, countable: Config -> bool, defaultContext: Json)

  /** What the loader checks before it looks at the contents. */
  predicate Readable(host: Host, config: Config) {
    host.writtenSize(config) <= MAX_SESSION_CONFIG_BYTES && host.countable(config)
  }

  /** The text of a lens name stands in the document, with a byte or more a character. */
  ghost predicate WritesLenses(host: Host) {
    forall config, name, lens {:trigger HasLens(config, name, lens)} |
      HasLens(config, name, lens) :: |lens| <= host.writtenSize(config)
  }

  predicate HasLens(config: Config, name: string, lens: string) {
    && name in config.profiles && "lenses" in config.profiles[name]
    && config.profiles[name]["lenses"].JList? && JStr(lens) in config.profiles[name]["lenses"].items
  }

  predicate ValidName(host: Host, name: string) {
    name != "" && Builtin(name).None? && |name| <= 32 && host.nameShape(name)
  }

  predicate ValidDefinition(definition: Definition) {
    && definition.Keys <= SAFE_FIELDS + {"base"}
    && Base(definition).JStr? && Base(definition).s != ""
    && forall field | field in definition && field != "base" :: SafeSetting(field, definition[field])
  }

  predicate KnownName(profiles: Profiles, name: string) {
    name in profiles || Builtin(name).Some?
  }

  predicate ValidEntry(host: Host, profiles: Profiles, name: string)
    requires name in profiles
  {
    ValidName(host, name) && ValidDefinition(profiles[name]) && KnownName(profiles, Base(profiles[name]).s)
  }

  /** `_validated_profiles` accepts. */
  predicate ValidProfiles(host: Host, profiles: Profiles) {
    && (forall name | name in profiles :: ValidEntry(host, profiles, name))
    && forall name | name in profiles :: ResolveTo(profiles, name).Ok?
  }

  /** What `load` accepts. */
  predicate ValidConfig(host: Host, config: Config) {
    ValidProfiles(host, config.profiles) && KnownName(config.profiles, config.defaultProfile)
  }

  /** The promise to every reader of the configuration. */
  ghost predicate Good(host: Host, config: Config) {
    && (forall name | name in config.profiles :: ValidEntry(host, config.profiles, name) && Resolvable(config.profiles, name))
    && KnownName(config.profiles, config.defaultProfile)
  }

  lemma ValidIsGood(host: Host, config: Config)
    ensures ValidConfig(host, config) <==> Good(host, config)
  {
    forall name | name in config.profiles
      ensures ResolveTo(config.profiles, name).Ok? <==> Resolvable(config.profiles, name)
    {
      ResolvesExactly(config.profiles, name);
    }
  }

  method ValidateProfiles(host: Host, profiles: Profiles) returns (ok: bool)
    ensures ok == ValidProfiles(host, profiles)
  {
    var todo := profiles.Keys;
    while todo != {}
      invariant todo <= profiles.Keys
      invariant forall name | name in profiles && name !in todo :: ValidName(host, name) && ValidDefinition(profiles[name])
    {
      var name :| name in todo;
      if !ValidName(host, name) || !ValidDefinition(profiles[name]) {
        assert !ValidEntry(host, profiles, name);
        return false;
      }
      todo := todo - {name};
    }
    todo := profiles.Keys;
    while todo != {}
      invariant todo <= profiles.Keys
      invariant forall name | name in profiles && name !in todo ::
        KnownName(profiles, Base(profiles[name]).s) && ResolveTo(profiles, name).Ok?
    {
      var name :| name in todo;
      if !KnownName(profiles, Base(profiles[name]).s) {
        assert !ValidEntry(host, profiles, name);
        return false;
      }
      var resolved := Resolve(name, profiles);
      if resolved.Err? {
        return false;
      }
      todo := todo - {name};
    }
    return true;
  }

  // ---------- chains after a change ----------

  lemma {:induction false} ChainAvoiding(custom: Profiles, changed: Profiles, name: string, start: string, p: seq<string>)
    requires IsChain(custom, start, p) && name !in p
    requires forall n | n != name :: (n in custom <==> n in changed) && (n in custom ==> custom[n] == changed[n])
    ensures IsChain(changed, start, p)
    decreases |p|
  {
    if p != [] {
      assert p[0] in p && forall n | n in p[1..] :: n in p;
      ChainAvoiding(custom, changed, name, Base(custom[start]).s, p[1..]);
    }
  }

  lemma {:induction false} ChainWithin(custom: Profiles, start: string, p: seq<string>)
    requires IsChain(custom, start, p)
    ensures forall n | n in p :: n in custom
    ensures forall i | 0 < i < |p| :: Base(custom[p[i - 1]]) == JStr(p[i])
    decreases |p|
  {
    if p != [] {
      ChainWithin(custom, Base(custom[start]).s, p[1..]);
      forall n | n in p
        ensures n in custom
      {
        assert n == p[0] || n in p[1..];
      }
      forall i | 0 < i < |p|
        ensures Base(custom[p[i - 1]]) == JStr(p[i])
      {
        if i > 1 {
          assert p[1..][i - 1] == p[i] && p[1..][i - 2] == p[i - 1];
        }
      }
    }
  }

  lemma Prepended(custom: Profiles, name: string, p: seq<string>)
    requires Builtin(name).None? && name in custom && Base(custom[name]).JStr?
    requires IsChain(custom, Base(custom[name]).s, p)
    ensures IsChain(custom, name, [name] + p)
  {
    assert ([name] + p)[1..] == p;
  }

  /** A definition put in place of `name`'s: everything still resolves, unless the new
      base leads back to `name`. */
  ghost predicate LeadsBack(custom: Profiles, base: string, name: string) {
    exists p :: IsChain(custom, base, p) && name in p
  }

  /** `profiles` with `definition` under `name`, new or replaced. */
  lemma PutKeepsChains(custom: Profiles, name: string, definition: Definition, start: string)
    requires Builtin(name).None? && Base(definition).JStr?
    requires Resolvable(custom, Base(definition).s) && !LeadsBack(custom, Base(definition).s, name)
    requires start == name || Resolvable(custom, start)
    ensures Resolvable(custom[name := definition], start)
  {
    var changed := custom[name := definition];
    var q :| IsChain(custom, Base(definition).s, q);
    ChainAvoiding(custom, changed, name, Base(definition).s, q);
    Prepended(changed, name, q);
    if start != name {
      var p :| IsChain(custom, start, p);
      if name !in p {
        ChainAvoiding(custom, changed, name, start, p);
      } else {
        Spliced(custom, changed, name, start, p, [name] + q);
      }
    }
  }

  /** The new chain of `name` after the old way to it. */
  lemma {:induction false} Spliced(custom: Profiles, changed: Profiles, name: string, start: string,
                                   p: seq<string>, q: seq<string>)
    requires IsChain(custom, start, p) && name in p && IsChain(changed, name, q)
    requires forall n | n != name :: (n in custom <==> n in changed) && (n in custom ==> custom[n] == changed[n])
    ensures Resolvable(changed, start)
    decreases |p|
  {
    if start != name {
      assert name in p[1..];
      var base := Base(custom[start]).s;
      Spliced(custom, changed, name, base, p[1..], q);
      var r :| IsChain(changed, base, r);
      Prepended(changed, start, r);
    }
  }

  /** With a base that leads back, the changed profile has no chain any more. */
  lemma PutMakesCycle(custom: Profiles, name: string, definition: Definition)
    requires Builtin(name).None? && Base(definition).JStr? && LeadsBack(custom, Base(definition).s, name)
    ensures !Resolvable(custom[name := definition], name)
  {
    var changed, base := custom[name := definition], Base(definition).s;
    if Resolvable(changed, name) {
      var r :| IsChain(changed, name, r);
      var p :| IsChain(custom, base, p) && name in p;
      var k := ReachesName(custom, changed, name, base, p, r[1..]);
      NoRepeats(changed, name, r, 0, k + 1);
      assert false;
    }
  }

  /** Both walks agree until they meet `name`. */
  lemma {:induction false} ReachesName(custom: Profiles, changed: Profiles, name: string, start: string,
                                       p: seq<string>, r: seq<string>) returns (k: nat)
    requires IsChain(custom, start, p) && name in p && IsChain(changed, start, r)
    requires forall n | n != name :: (n in custom <==> n in changed) && (n in custom ==> custom[n] == changed[n])
    requires Builtin(name).None?
    ensures k < |r| && r[k] == name
    decreases |p|
  {
    if start == name {
      k := 0;
    } else {
      assert name in p[1..];
      var rest := ReachesName(custom, changed, name, Base(custom[start]).s, p[1..], r[1..]);
      k := rest + 1;
    }
  }

  /** Putting a definition keeps the promise exactly if the name and the definition
      are valid, its base is known, and the base does not lead back to the name. */
  lemma PutExactly(host: Host, config: Config, name: string, definition: Definition)
    requires Good(host, config)
    ensures Good(host, config.(profiles := config.profiles[name := definition])) <==>
      && ValidName(host, name) && ValidDefinition(definition)
      && (KnownName(config.profiles, Base(definition).s) || Base(definition).s == name)
      && Base(definition).s != name && !LeadsBack(config.profiles, Base(definition).s, name)
  {
    var custom := config.profiles;
    var changed := custom[name := definition];
    if ValidName(host, name) && ValidDefinition(definition) {
      var base := Base(definition).s;
      if base == name {
        SelfBase(changed, name);
      } else if LeadsBack(custom, base, name) {
        PutMakesCycle(custom, name, definition);
        assert name in changed;
      } else if KnownName(custom, base) {
        if Builtin(base).Some? {
          assert IsChain(custom, base, []);
        }
        forall n | n in changed
          ensures ValidEntry(host, changed, n) && Resolvable(changed, n)
        {
          assert n != name ==> ValidEntry(host, custom, n) && Resolvable(custom, n);
          PutKeepsChains(custom, name, definition, n);
        }
      } else {
        assert !ValidEntry(host, changed, name);
      }
    } else {
      assert name in changed && !ValidEntry(host, changed, name);
    }
  }

  lemma SelfBase(custom: Profiles, name: string)
    requires name in custom && Builtin(name).None? && Base(custom[name]) == JStr(name)
    ensures !Resolvable(custom, name)
  {
    if Resolvable(custom, name) {
      var p :| IsChain(custom, name, p);
      OneChain(custom, name, p, p[1..]);
      assert false;
    }
  }

  predicate HasDependents(profiles: Profiles, name: string) {
    exists other | other in profiles :: Base(profiles[other]) == JStr(name)
  }

  /** What is nobody's base lies on no other profile's chain. */
  lemma NotOnChain(custom: Profiles, start: string, p: seq<string>, name: string)
    requires IsChain(custom, start, p) && start != name && !HasDependents(custom, name)
    ensures name !in p
  {
    ChainWithin(custom, start, p);
    forall i | 0 <= i < |p|
      ensures p[i] != name
    {
      if i > 0 {
        assert p[i - 1] in p && Base(custom[p[i - 1]]) == JStr(p[i]);
      }
    }
  }

  /** Deleting keeps the promise exactly if nothing needs the profile. */
  lemma DeleteExactly(host: Host, config: Config, name: string)
    requires Good(host, config) && name in config.profiles
    ensures Good(host, config.(profiles := config.profiles - {name})) <==>
      config.defaultProfile != name && !HasDependents(config.profiles, name)
  {
    var custom := config.profiles;
    var changed := custom - {name};
    assert ValidEntry(host, custom, name);
    if Base(custom[name]) == JStr(name) {
      SelfBase(custom, name);
      assert false;
    }
    if other :| other in custom && Base(custom[other]) == JStr(name) {
      assert !ValidEntry(host, changed, other);
    } else {
      forall n | n in changed
        ensures ValidEntry(host, changed, n) && Resolvable(changed, n)
      {
        assert ValidEntry(host, custom, n);
        var p :| IsChain(custom, n, p);
        NotOnChain(custom, n, p, name);
        ChainAvoiding(custom, changed, name, n, p);
      }
    }
  }

  // ---------- the store ----------

  /** What `load` returns: the defaults when there is no file, nothing when it raises. */
  function Loaded(host: Host, file: Option<Config>): Option<Config> {
    if file.None? then Some(Config("quick", map[], host.defaultContext))
    else if Readable(host, file.value) && ValidConfig(host, file.value) then file
    else None
  }

  /** Whatever is loaded, from any file, keeps the promise. */
  lemma LoadedIsGood(host: Host, file: Option<Config>)
    ensures Loaded(host, file).Some? ==> Good(host, Loaded(host, file).value)
  {
    if file.Some? {
      ValidIsGood(host, file.value);
    }
  }

  /** A chain runs through profiles that exist, so nothing leads to a new name. */
  lemma NewNameIsNoBase(custom: Profiles, name: string, base: string)
    requires name !in custom
    ensures !LeadsBack(custom, base, name)
  {
    forall p | IsChain(custom, base, p)
      ensures name !in p
    {
      ChainWithin(custom, base, p);
    }
  }

  /** A change was refused and nothing happened, or it was written; what is written can
      be loaded again as long as it is within the reader's bounds, which are not
      checked on writing. */
  ghost predicate Outcome(host: Host, before: Option<Config>, after: Option<Config>, ok: bool, written: Config) {
    if ok then
      after == Some(written) && Good(host, written)
      && Loaded(host, after) == if Readable(host, written) then Some(written) else None
    else after == before
  }

  function WithBase(definition: Definition, base: Option<string>): Definition {
    if base.Some? then definition["base" := JStr(base.value)] else definition
  }

  /** What a definition sets a field to, if it does. */
  function Value(definition: Definition, field: string): Option<Json> {
    if field in definition then Some(definition[field]) else None
  }

  class SessionStore {
    var file: Option<Config>

    constructor ()
      ensures file == None
    {
      file := None;
    }

    /** The end of `_update_profiles`: everything is validated again, then replaced in
        one step, unless the write fails. */
    method Commit(host: Host, config: Config, profiles: Profiles, writable: bool) returns (ok: bool)
      modifies this
      ensures ok <==> writable && Good(host, config.(profiles := profiles))
      ensures Outcome(host, old(file), file, ok, config.(profiles := profiles))
    {
      var updated := config.(profiles := profiles);
      ValidIsGood(host, updated);
      ok := ValidateProfiles(host, profiles);
      if !ok || !KnownName(profiles, config.defaultProfile) || !writable {
        return false;
      }
      file := Some(updated);
    }

    /** Accepted exactly for a new valid name with safe settings and a known base. */
    method CreateProfile(host: Host, name: string, base: string, settings: Definition, writable: bool) returns (ok: bool)
      modifies this
      ensures var config, definition := Loaded(host, old(file)), map["base" := JStr(base)] + settings;
        && (ok <==> writable && config.Some? && name !in config.value.profiles && ValidName(host, name)
                    && ValidDefinition(definition) && KnownName(config.value.profiles, Base(definition).s))
        && (config.Some? ==>
            Outcome(host, old(file), file, ok, config.value.(profiles := config.value.profiles[name := definition])))
        && (config.None? ==> file == old(file))
    {
      var config := Loaded(host, file);
      LoadedIsGood(host, file);
      if config.None? || name in config.value.profiles || Builtin(name).Some? {
        return false;
      }
      var definition := map["base" := JStr(base)] + settings;
      PutExactly(host, config.value, name, definition);
      NewNameIsNoBase(config.value.profiles, name, if Base(definition).JStr? then Base(definition).s else "");
      ok := Commit(host, config.value, config.value.profiles[name := definition], writable);
    }

    /** Accepted exactly for an existing profile whose changed settings are safe and
        whose base is known and does not lead back to it. */
    method UpdateProfile(host: Host, name: string, settings: Definition, base: Option<string>, writable: bool)
      returns (ok: bool)
      modifies this
      ensures var config := Loaded(host, old(file));
        if config.None? || name !in config.value.profiles then !ok && file == old(file)
        else
          var definition := WithBase(config.value.profiles[name], base) + settings;
          && (ok <==> writable && ValidDefinition(definition) && Base(definition).s != name
                      && KnownName(config.value.profiles, Base(definition).s)
                      && !LeadsBack(config.value.profiles, Base(definition).s, name))
          && Outcome(host, old(file), file, ok, config.value.(profiles := config.value.profiles[name := definition]))
          && forall field :: Value(definition, field) ==
               if field in settings then Some(settings[field])
               else if field == "base" && base.Some? then Some(JStr(base.value))
               else Value(config.value.profiles[name], field)
    {
      var config := Loaded(host, file);
      LoadedIsGood(host, file);
      if config.None? || name !in config.value.profiles {
        return false;
      }
      var definition := WithBase(config.value.profiles[name], base) + settings;
      PutExactly(host, config.value, name, definition);
      assert ValidEntry(host, config.value.profiles, name);
      ok := Commit(host, config.value, config.value.profiles[name := definition], writable);
    }

    /** Accepted exactly for a profile that is neither the default nor a base. */
    method DeleteProfile(host: Host, name: string, writable: bool) returns (ok: bool)
      modifies this
      ensures var config := Loaded(host, old(file));
        && (ok <==> writable && config.Some? && name in config.value.profiles
                    && config.value.defaultProfile != name && !HasDependents(config.value.profiles, name))
        && (config.Some? ==>
            Outcome(host, old(file), file, ok, config.value.(profiles := config.value.profiles - {name})))
        && (config.None? ==> file == old(file))
    {
      var config := Loaded(host, file);
      LoadedIsGood(host, file);
      if config.None? || name !in config.value.profiles || config.value.defaultProfile == name {
        return false;
      }
      if HasDependents(config.value.profiles, name) {
        return false;
      }
      DeleteExactly(host, config.value, name);
      ok := Commit(host, config.value, config.value.profiles - {name}, writable);
    }

    method SetDefault(host: Host, profile: string, writable: bool) returns (ok: bool)
      modifies this
      ensures var config := Loaded(host, old(file));
        && (ok <==> writable && config.Some? && KnownName(config.value.profiles, profile))
        && (config.Some? ==> Outcome(host, old(file), file, ok, config.value.(defaultProfile := profile)))
        && (config.None? ==> file == old(file))
    {
      var config := Loaded(host, file);
      LoadedIsGood(host, file);
      if config.None? || !KnownName(config.value.profiles, profile) || !writable {
        return false;
      }
      var updated := config.value.(defaultProfile := profile);
      ValidIsGood(host, config.value);
      ValidIsGood(host, updated);
      file := Some(updated);
      ok := true;
    }
  }

  // ---------- a change that locks the configuration ----------

  const LENGTHY := seq(MAX_SESSION_CONFIG_BYTES + 1, _ => 'x')

  lemma LengthyOutgrowsReader(host: Host, config: Config, name: string)
    requires WritesLenses(host) && HasLens(config, name, LENGTHY)
    ensures Loaded(host, Some(config)) == None
  {
  }

  /** No setting bounds the length of a lens name: from no configuration at all, creating
      a profile with one lens longer than the loader's bound is accepted and written, and
      from then on nothing loads, so no operation is accepted any more. */
  method CreateUnloadable(host: Host, name: string) returns (store: SessionStore)
    requires WritesLenses(host) && ValidName(host, name)
    ensures fresh(store) && store.file.Some? && name in store.file.value.profiles
    ensures Good(host, store.file.value) && Loaded(host, store.file) == None
  {
    store := new SessionStore();
    var settings := map["lenses" := JList([JStr(LENGTHY)])];
    assert JStr(LENGTHY) in [JStr(LENGTHY)];
    var created := store.CreateProfile(host, name, "quick", settings, true);
    LengthyOutgrowsReader(host, store.file.value, name);
    var deleted := store.DeleteProfile(host, name, true);
    assert created && !deleted;
  }
}
