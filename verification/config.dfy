/** Configuration validation and merging (`ConfigManager` in
    config_manager.py). A configuration is a dictionary from key to a
    dynamically typed value; six keys are checked one by one, a value that
    fails its check is replaced by the default, and keys the validator does
    not know are dropped before the result is merged into the current
    configuration. */
module Config {

  /** A configuration value. `Other` stands for every other Python type
      (float, list, dict, None). */
  datatype Value = Int(i: int) | Bool(b: bool) | Str(s: string) | Other

  /** `isinstance(v, int)`, which also holds of a `bool`. */
  predicate IsInt(v: Value) { v.Int? || v.Bool? }

  /** The integer an int-like value compares as (`True == 1`). */
  function IntOf(v: Value): int
    requires IsInt(v)
  {
    if v.Int? then v.i else if v.b then 1 else 0
  }

  const MaxMemoriesKey: string := "max_memories"
  const AutoSaveKey: string := "auto_save_enabled"
  const ThresholdKey: string := "importance_threshold"
  const ManagementKey: string := "enable_memory_management"
  const InjectionKey: string := "enable_auto_injection"
  const AllowedGroupsKey: string := "allowed_groups"

  /** The keys `_validate_config` looks at; every other key is dropped. */
  const ValidatedKeys: set<string> :=
    {MaxMemoriesKey, AutoSaveKey, ThresholdKey, ManagementKey, InjectionKey, AllowedGroupsKey}

  /** The rule each validated key's value must meet to be kept. */
  predicate Accepts(key: string, v: Value) {
    if key == MaxMemoriesKey then IsInt(v) && 1 <= IntOf(v) <= 100
    else if key == ThresholdKey then IsInt(v) && 1 <= IntOf(v) <= 5
    else if key == AllowedGroupsKey then v.Str?
    else if key == AutoSaveKey || key == ManagementKey || key == InjectionKey then v.Bool?
    else false
  }

  /** A key whose value in `config` fails its rule. */
  predicate Rejected(config: map<string, Value>, key: string) {
    key in config && !Accepts(key, config[key])
  }

  /** Four keys fall back with `default_config[key]`, which raises
      `KeyError` when the default lacks the key; the other two use
      `default_config.get(key, ...)`. */
  predicate DefaultsAvailable(config: map<string, Value>, defaults: map<string, Value>) {
    && (Rejected(config, MaxMemoriesKey) ==> MaxMemoriesKey in defaults)
    && (Rejected(config, AutoSaveKey) ==> AutoSaveKey in defaults)
    && (Rejected(config, ThresholdKey) ==> ThresholdKey in defaults)
    && (Rejected(config, ManagementKey) ==> ManagementKey in defaults)
  }

  /** The value substituted for a rejected one. */
  function Fallback(key: string, defaults: map<string, Value>): Value
  {
    if key in defaults then defaults[key]
    else if key == InjectionKey then Bool(true)
    else Str("")
  }

  /** The value kept for `key`: the update's own value when it meets the
      rule, otherwise the fallback. */
  ghost predicate Agrees(m: map<string, Value>, config: map<string, Value>, defaults: map<string, Value>) {
    forall k :: k in m ==>
      k in config && m[k] == if Accepts(k, config[k]) then config[k] else Fallback(k, defaults)
  }

  /** The check `_validate_config` applies to the value `x` of `key`, in the
      source's words (`isinstance` test and range, else the default). */
  function Checked(key: string, x: Value, defaults: map<string, Value>): (kept: Value)
    requires !Accepts(key, x) && key in {MaxMemoriesKey, AutoSaveKey, ThresholdKey, ManagementKey} ==> key in defaults
    ensures key in ValidatedKeys ==> kept == if Accepts(key, x) then x else Fallback(key, defaults)
    ensures key !in ValidatedKeys ==> kept == x
  {
    if key == MaxMemoriesKey then (if IsInt(x) && 1 <= IntOf(x) <= 100 then x else defaults[key])
    else if key == AutoSaveKey then (if x.Bool? then x else defaults[key])
    else if key == ThresholdKey then (if IsInt(x) && 1 <= IntOf(x) <= 5 then x else defaults[key])
    else if key == ManagementKey then (if x.Bool? then x else defaults[key])
    else if key == InjectionKey then (if x.Bool? then x else if key in defaults then defaults[key] else Bool(true))
    else if key == AllowedGroupsKey then (if x.Str? then x else if key in defaults then defaults[key] else Str(""))
    else x
  }

  /** One step of `_validate_config`: the check of `key`, when the update
      has it, stored into the dictionary built so far. */
  function ValidateKey(config: map<string, Value>, defaults: map<string, Value>, key: string, acc: map<string, Value>)
    : (r: map<string, Value>)
    requires DefaultsAvailable(config, defaults)
    ensures forall k :: k in r <==> k in acc || (k == key && key in config)
    ensures Agrees(acc, config, defaults) && key in ValidatedKeys ==> Agrees(r, config, defaults)
  {
    if key !in config then acc
    else acc[key := Checked(key, config[key], defaults)]
  }

  /** `_validate_config`: the six checks in the source's order, starting
      from an empty dictionary. */
  function ValidateConfig(config: map<string, Value>, defaults: map<string, Value>): (validated: map<string, Value>)
    requires DefaultsAvailable(config, defaults)
    ensures validated.Keys == config.Keys * ValidatedKeys
    ensures forall k :: k in validated ==>
      validated[k] == if Accepts(k, config[k]) then config[k] else Fallback(k, defaults)
  {
    var v0: map<string, Value> := map[];
    var v1 := ValidateKey(config, defaults, MaxMemoriesKey, v0);
    var v2 := ValidateKey(config, defaults, AutoSaveKey, v1);
    var v3 := ValidateKey(config, defaults, ThresholdKey, v2);
    var v4 := ValidateKey(config, defaults, ManagementKey, v3);
    var v5 := ValidateKey(config, defaults, InjectionKey, v4);
    var v6 := ValidateKey(config, defaults, AllowedGroupsKey, v5);
    assert Agrees(v1, config, defaults) && Agrees(v2, config, defaults) && Agrees(v3, config, defaults);
    assert Agrees(v4, config, defaults) && Agrees(v5, config, defaults) && Agrees(v6, config, defaults);
    forall k
      ensures k in v6 <==> k in config && k in ValidatedKeys
    {
      assert k in v6 <==> (k in config &&
        (k == MaxMemoriesKey || k == AutoSaveKey || k == ThresholdKey || k == ManagementKey || k == InjectionKey || k == AllowedGroupsKey));
    }
    v6
  }

  /** Validating a validated configuration changes nothing. */
  lemma ValidateIdempotent(config: map<string, Value>, defaults: map<string, Value>)
    requires DefaultsAvailable(config, defaults)
    ensures DefaultsAvailable(ValidateConfig(config, defaults), defaults)
    ensures ValidateConfig(ValidateConfig(config, defaults), defaults) == ValidateConfig(config, defaults)
  {
    var v := ValidateConfig(config, defaults);
    forall k | Rejected(v, k)
      ensures Rejected(config, k)
    {
    }
    assert DefaultsAvailable(v, defaults);
    var w := ValidateConfig(v, defaults);
    assert w.Keys == v.Keys;
    forall k | k in w
      ensures w[k] == v[k]
    {
      if !Accepts(k, v[k]) {
        assert !Accepts(k, config[k]);
      }
    }
  }

  /** When every default meets its own rule, validation always yields a
      configuration whose every value meets its rule. */
  lemma ValidatedIsValid(config: map<string, Value>, defaults: map<string, Value>)
    requires DefaultsAvailable(config, defaults)
    requires forall k :: k in defaults && k in ValidatedKeys ==> Accepts(k, defaults[k])
    ensures forall k :: k in ValidateConfig(config, defaults) ==> Accepts(k, ValidateConfig(config, defaults)[k])
  {
    var v := ValidateConfig(config, defaults);
    forall k | k in v
      ensures Accepts(k, v[k])
    {
      if !Accepts(k, config[k]) {
        assert k in ValidatedKeys;
      }
    }
  }

  /** A `bool` passes the `isinstance(..., int)` check: `max_memories =
      True` is kept as it is (and counts as 1). */
  lemma TrueIsAValidMaxMemories(defaults: map<string, Value>)
    ensures ValidateConfig(map[MaxMemoriesKey := Bool(true)], defaults) == map[MaxMemoriesKey := Bool(true)]
  {
    var c := map[MaxMemoriesKey := Bool(true)];
    assert c.Keys * ValidatedKeys == {MaxMemoriesKey};
  }

  /** The configuration `update_config` leaves: the current one overwritten
      by the validated keys of the update. */
  function Merged(current: map<string, Value>, update: map<string, Value>, defaults: map<string, Value>): map<string, Value>
    requires DefaultsAvailable(update, defaults)
  {
    current + ValidateConfig(update, defaults)
  }

  /** An update changes only validated keys that it mentions; every other
      key keeps its presence and its value. */
  lemma MergeChangesOnlyValidatedKeys(current: map<string, Value>, update: map<string, Value>, defaults: map<string, Value>)
    requires DefaultsAvailable(update, defaults)
    ensures Merged(current, update, defaults).Keys == current.Keys + (update.Keys * ValidatedKeys)
    ensures forall k :: k !in ValidatedKeys || k !in update ==>
      (k in Merged(current, update, defaults) <==> k in current) &&
      (k in current ==> Merged(current, update, defaults)[k] == current[k])
  {
  }

  /** The injection texts, the reranking settings and the global-memory
      switch can never be changed by an update. */
  lemma UpdateCannotTouchPluginKeys(current: map<string, Value>, update: map<string, Value>, defaults: map<string, Value>, key: string)
    requires DefaultsAvailable(update, defaults)
    requires key in {"rerank_provider_id", "recall_top_k", "inject_top_k", "enable_global_memory", "injection_title", "injection_instruction"}
    ensures key in Merged(current, update, defaults) <==> key in current
    ensures key in current ==> Merged(current, update, defaults)[key] == current[key]
  {
    assert key !in ValidatedKeys;
    assert key !in ValidateConfig(update, defaults);
  }

  /** Applying the same update twice is the same as applying it once. */
  lemma MergeIdempotent(current: map<string, Value>, update: map<string, Value>, defaults: map<string, Value>)
    requires DefaultsAvailable(update, defaults)
    ensures Merged(Merged(current, update, defaults), update, defaults) == Merged(current, update, defaults)
  {
  }

  class ConfigManager {
    /** `self.default_config`, never reassigned. */
    const defaultConfig: map<string, Value>
    /** `self.current_config` */
    var currentConfig: map<string, Value>

    /** Starts from a copy of the defaults. */
    constructor (defaults: map<string, Value>)
      ensures defaultConfig == defaults && currentConfig == defaults
    {
      defaultConfig := defaults;
      currentConfig := defaults;
    }

    /** `update_config`: merges the validated update into the current
        configuration and returns the result. */
    method UpdateConfig(update: map<string, Value>) returns (result: map<string, Value>)
      requires DefaultsAvailable(update, defaultConfig)
      modifies this
      ensures currentConfig == Merged(old(currentConfig), update, defaultConfig)
      ensures result == currentConfig
    {
      var validated := ValidateConfig(update, defaultConfig);
      currentConfig := currentConfig + validated;
      result := currentConfig;
    }

    /** `get_config`: the current configuration as a value, so a caller
        that changes what it got back cannot change the manager. */
    function GetConfig(): (c: map<string, Value>)
      reads this
      ensures c == currentConfig
    {
      currentConfig
    }

    /** `get_config_value`: the stored value, or the caller's default. */
    function GetConfigValue(key: string, default: Value): (r: Value)
      reads this
      ensures key in currentConfig ==> r == currentConfig[key]
      ensures key !in currentConfig ==> r == default
    {
      if key in currentConfig then currentConfig[key] else default
    }

    /** `reset_to_default`: the current configuration becomes the defaults
        again, whatever updates came before. */
    method ResetToDefault() returns (result: map<string, Value>)
      modifies this
      ensures currentConfig == defaultConfig && result == defaultConfig
    {
      currentConfig := defaultConfig;
      result := currentConfig;
    }
  }
}
