/** Review profiles and the inheritance walk. */
module ReviewProfiles {
  import opened JsonData
  import opened Wrappers

  type Definition = map<string, Json>
  type Profiles = map<string, Definition>

  datatype ReviewProfile = ReviewProfile(name: string, mode: string, settings: map<string, Json>)

  const RUN_MODES: set<string> := {"report", "crossexam", "gate", "loop"}
  const PRESETS: set<string> := {"inherit", "thorough", "cheap"}
  const QUALIFICATION_POLICIES: set<string> := {"cross-provider", "distinct-sessions", "distinct-models"}
  const NUMBERS: set<string> :=
    {"max_friends", "require_friends", "timeout", "max_rounds", "max_calls", "max_wall_clock", "max_loop_iterations"}
  const SAFE_FIELDS: set<string> := {"mode", "preset", "lenses", "qualification_policy"} + NUMBERS

  /** The mode of a built-in profile; they have no other settings. */
  function Builtin(name: string): Option<string> {
    if name == "quick" then Some("report")
    else if name == "balanced" then Some("crossexam")
    else if name == "thorough" then Some("loop")
    else None
  }

  predicate SafeSetting(field: string, value: Json) {
    if field == "mode" then value.JStr? && value.s in RUN_MODES
    else if field == "preset" then value.JStr? && value.s in PRESETS
    else if field == "lenses" then
      value.JList? && value.items != [] && forall i | 0 <= i < |value.items| :: value.items[i].JStr? && value.items[i].s != ""
    else if field == "qualification_policy" then value.JStr? && value.s in QUALIFICATION_POLICIES
    else field in SAFE_FIELDS && value.JInt? && value.n > 0
  }

  // ---------- resolving ----------

  datatype Failure = UnknownProfile | Cycle | UnknownBase | InvalidBase

  function Base(definition: Definition): Json {
    if "base" in definition then definition["base"] else JNull
  }

  /** The walk from `name` up to a built-in: the custom profiles on the way, nearest
      first, and the built-in. */
  function Walk(custom: Profiles, name: string, seen: set<string>): Result<(seq<string>, string), Failure>
    decreases custom.Keys - seen
  {
    if Builtin(name).Some? then Ok(([], name))
    else if name in seen then Err(Cycle)
    else if name !in custom then Err(UnknownBase)
    else if !Base(custom[name]).JStr? then Err(InvalidBase)
    else
      match Walk(custom, Base(custom[name]).s, seen + {name})
      case Err(failure) => Err(failure)
      case Ok((path, builtin)) => Ok(([name] + path, builtin))
  }

  /** Laying definitions over each other, the farthest first. */
  function Settings(custom: Profiles, path: seq<string>): map<string, Json>
    requires forall name | name in path :: name in custom
  {
    if path == [] then map[]
    else
      assert forall name | name in path[1..] :: name in path;
      Settings(custom, path[1..]) + custom[path[0]]
  }

  /** `str(value)`; validated modes are strings. */
  function ModeText(value: Json): string {
    if value.JStr? then value.s else ""
  }

  function ResolveTo(custom: Profiles, name: string): Result<ReviewProfile, Failure> {
    if Builtin(name).Some? then Ok(ReviewProfile(name, Builtin(name).value, map[]))
    else if name !in custom then Err(UnknownProfile)
    else
      match Walk(custom, name, {})
      case Err(failure) => Err(failure)
      case Ok((path, builtin)) =>
        WalkStays(custom, name, {});
        var settings := Settings(custom, path);
        Ok(ReviewProfile(
          name, if "mode" in settings then ModeText(settings["mode"]) else Builtin(builtin).value,
          settings - {"base", "mode"}))
  }

  lemma {:induction false} WalkStays(custom: Profiles, name: string, seen: set<string>)
    requires Walk(custom, name, seen).Ok?
    ensures var (path, builtin) := Walk(custom, name, seen).value;
      Builtin(builtin).Some? && forall n | n in path :: n in custom
    decreases custom.Keys - seen
  {
    if Builtin(name).None? {
      WalkStays(custom, Base(custom[name]).s, seen + {name});
    }
  }

  // ---------- what a chain is ----------

  /** `path` leads from `name` through bases to a built-in. */
  ghost predicate IsChain(custom: Profiles, name: string, path: seq<string>)
    decreases |path|
  {
    if path == [] then Builtin(name).Some?
    else
      && path[0] == name && Builtin(name).None? && name in custom && Base(custom[name]).JStr?
      && IsChain(custom, Base(custom[name]).s, path[1..])
  }

  /** Where a chain ends. */
  function Root(custom: Profiles, name: string, path: seq<string>): string {
    if path == [] || path[|path| - 1] !in custom then name else ModeText(Base(custom[path[|path| - 1]]))
  }

  ghost predicate Resolvable(custom: Profiles, name: string) {
    exists path :: IsChain(custom, name, path)
  }

  lemma {:induction false} OneChain(custom: Profiles, name: string, p: seq<string>, q: seq<string>)
    requires IsChain(custom, name, p) && IsChain(custom, name, q)
    ensures p == q
    decreases |p|
  {
    if p != [] {
      OneChain(custom, Base(custom[name]).s, p[1..], q[1..]);
      assert p == [p[0]] + p[1..] && q == [q[0]] + q[1..];
    }
  }

  lemma {:induction false} ChainFrom(custom: Profiles, name: string, p: seq<string>, i: nat)
    requires IsChain(custom, name, p) && i < |p|
    ensures IsChain(custom, p[i], p[i..])
    decreases |p|
  {
    if i > 0 {
      ChainFrom(custom, Base(custom[name]).s, p[1..], i - 1);
      assert p[1..][i - 1..] == p[i..];
    } else {
      assert p[0..] == p;
    }
  }

  /** A chain meets no profile twice. */
  lemma NoRepeats(custom: Profiles, name: string, p: seq<string>, i: nat, j: nat)
    requires IsChain(custom, name, p) && i < j < |p|
    ensures p[i] != p[j]
  {
    ChainFrom(custom, name, p, i);
    ChainFrom(custom, name, p, j);
    if p[i] == p[j] {
      OneChain(custom, p[i], p[i..], p[j..]);
      assert false;
    }
  }

  /** The walk finds the chain if there is one, and fails if there is none. */
  lemma {:induction false} WalkFindsChain(custom: Profiles, name: string, seen: set<string>, p: seq<string>)
    requires IsChain(custom, name, p) && forall n | n in p :: n !in seen
    ensures Walk(custom, name, seen) == Ok((p, Root(custom, name, p))) && Builtin(Root(custom, name, p)).Some?
    decreases |p|
  {
    if p != [] {
      var base := Base(custom[name]).s;
      forall n | n in p[1..]
        ensures n !in seen + {name}
      {
        var j :| 1 <= j < |p| && p[j] == n;
        NoRepeats(custom, name, p, 0, j);
      }
      WalkFindsChain(custom, base, seen + {name}, p[1..]);
      assert p == [name] + p[1..];
      assert p[1..] != [] ==> p[1..][|p| - 2] == p[|p| - 1];
    }
  }

  lemma {:induction false} WalkIsChain(custom: Profiles, name: string, seen: set<string>)
    requires Walk(custom, name, seen).Ok?
    ensures IsChain(custom, name, Walk(custom, name, seen).value.0)
    decreases custom.Keys - seen
  {
    if Builtin(name).None? {
      WalkIsChain(custom, Base(custom[name]).s, seen + {name});
      var path := Walk(custom, name, seen).value.0;
      assert path[1..] == Walk(custom, Base(custom[name]).s, seen + {name}).value.0;
    }
  }

  /** A known name resolves exactly if its chain of bases ends in a built-in. */
  lemma ResolvesExactly(custom: Profiles, name: string)
    requires name in custom || Builtin(name).Some?
    ensures ResolveTo(custom, name).Ok? <==> Resolvable(custom, name)
  {
    if Builtin(name).Some? {
      assert IsChain(custom, name, []);
    } else {
      if Resolvable(custom, name) {
        var p :| IsChain(custom, name, p);
        WalkFindsChain(custom, name, {}, p);
      }
      if Walk(custom, name, {}).Ok? {
        WalkIsChain(custom, name, {});
      }
    }
  }

  /** The first profile along the chain that defines a field. */
  ghost predicate NearestDefiner(custom: Profiles, path: seq<string>, field: string, i: nat)
    requires forall name | name in path :: name in custom
  {
    i < |path| && field in custom[path[i]] && forall k | 0 <= k < i :: field !in custom[path[k]]
  }

  lemma {:induction false} SettingsMeaning(custom: Profiles, path: seq<string>, field: string)
    requires forall name | name in path :: name in custom
    ensures field in Settings(custom, path) <==> exists i | 0 <= i < |path| :: field in custom[path[i]]
    ensures forall i: nat | NearestDefiner(custom, path, field, i) :: Settings(custom, path)[field] == custom[path[i]][field]
  {
    if path != [] {
      assert forall name | name in path[1..] :: name in path;
      SettingsMeaning(custom, path[1..], field);
      if i :| 0 <= i < |path[1..]| && field in custom[path[1..][i]] {
        assert field in custom[path[i + 1]];
      }
      if i :| 0 <= i < |path| && field in custom[path[i]] {
        assert i > 0 ==> field in custom[path[1..][i - 1]];
      }
      forall i: nat | NearestDefiner(custom, path, field, i)
        ensures Settings(custom, path)[field] == custom[path[i]][field]
      {
        if i > 0 {
          assert forall k | 0 <= k < i - 1 :: path[1..][k] == path[k + 1];
          assert field !in custom[path[0]];
          assert NearestDefiner(custom, path[1..], field, i - 1);
        }
      }
    }
  }

  /** Each setting of a resolved profile comes from its nearest definer, and nothing is
      set that no profile on the chain defines; so for the mode, else the built-in's. */
  lemma NearestWins(custom: Profiles, name: string, path: seq<string>, field: string)
    requires Builtin(name).None? && IsChain(custom, name, path) && field != "base"
    ensures ResolveTo(custom, name).Ok? && forall n | n in path :: n in custom
    ensures field != "mode" ==>
      var settings := ResolveTo(custom, name).value.settings;
      && (field in settings <==> exists i | 0 <= i < |path| :: field in custom[path[i]])
      && forall i: nat | NearestDefiner(custom, path, field, i) :: settings[field] == custom[path[i]][field]
    ensures var mode := ResolveTo(custom, name).value.mode;
      && (forall i: nat | NearestDefiner(custom, path, "mode", i) :: mode == ModeText(custom[path[i]]["mode"]))
      && ((forall i | 0 <= i < |path| :: "mode" !in custom[path[i]]) ==> Some(mode) == Builtin(Root(custom, name, path)))
  {
    WalkFindsChain(custom, name, {}, path);
    WalkStays(custom, name, {});
    SettingsMeaning(custom, path, field);
    SettingsMeaning(custom, path, "mode");
  }

  // ---------- the method ----------

  /** `resolve`: the walk, then the settings from the built-in down. */
  method Resolve(name: string, custom: Profiles) returns (result: Result<ReviewProfile, Failure>)
    ensures result == ResolveTo(custom, name)
  {
    if Builtin(name).Some? {
      return Ok(ReviewProfile(name, Builtin(name).value, map[]));
    }
    if name !in custom {
      return Err(UnknownProfile);
    }
    var chain: seq<string>, seen: set<string>, current := [], {}, name;
    assert Extended([], Walk(custom, name, {})) == Walk(custom, name, {}) by {
      if Walk(custom, name, {}).Ok? {
        assert [] + Walk(custom, name, {}).value.0 == Walk(custom, name, {}).value.0;
      }
    }
    while Builtin(current).None?
      invariant forall n | n in chain :: n in custom
      invariant Walk(custom, name, {}) == Extended(chain, Walk(custom, current, seen))
      decreases custom.Keys - seen
    {
      if current in seen {
        return Err(Cycle);
      }
      if current !in custom {
        return Err(UnknownBase);
      }
      if !Base(custom[current]).JStr? {
        return Err(InvalidBase);
      }
      ExtendedOnce(chain, current, Walk(custom, Base(custom[current]).s, seen + {current}));
      seen := seen + {current};
      chain := chain + [current];
      current := Base(custom[current]).s;
    }
    var settings: map<string, Json>, i := map[], |chain|;
    while i > 0
      invariant 0 <= i <= |chain| && settings == Settings(custom, chain[i..])
    {
      i := i - 1;
      assert chain[i..][1..] == chain[i + 1..];
      settings := settings + custom[chain[i]];
    }
    assert chain[0..] == chain && chain + [] == chain;
    var mode := if "mode" in settings then ModeText(settings["mode"]) else Builtin(current).value;
    return Ok(ReviewProfile(name, mode, settings - {"base", "mode"}));
  }

  function Extended(chain: seq<string>, rest: Result<(seq<string>, string), Failure>)
    : Result<(seq<string>, string), Failure>
  {
    match rest
    case Err(failure) => Err(failure)
    case Ok((path, builtin)) => Ok((chain + path, builtin))
  }

  lemma ExtendedOnce(chain: seq<string>, name: string, rest: Result<(seq<string>, string), Failure>)
    ensures Extended(chain, Extended([name], rest)) == Extended(chain + [name], rest)
  {
    if rest.Ok? {
      assert chain + ([name] + rest.value.0) == chain + [name] + rest.value.0;
    }
  }
}
