/**
 * The option handling of arrrgs.js: the parsed command-line values are merged
 * over the defaults table, then the log level and the config path are checked.
 */
module Args {
  import opened Js
  import opened Results
  import opened TypeCheck

  /** An own property of a plain object: its key and its value. */
  type Property = (string, JsValue)

  const CONFIG_NAME: string := "gencss.config.json"

  /** The level table of utils/cli/logger.js, in declaration order. */
  const LOG_LEVEL: seq<(string, int)> := [("debug", 0), ("info", 1), ("warn", 2), ("error", 3)]

  /** The option names, in the order of the defaults table. */
  const OPTION_NAMES: seq<string> := ["color", "config", "output", "logLevel"]

  /** The defaults table. */
  const DEFAULT_OPTIONS: seq<Property> := [
    ("color", Bool(true)),
    ("config", Str("./" + CONFIG_NAME)),
    ("output", Str("./")),
    ("logLevel", Str("info"))
  ]

  /** `Object.keys(LOG_LEVEL)`. */
  function LogLevelNames(): (names: seq<string>)
    ensures names == ["debug", "info", "warn", "error"]
  {
    seq(|LOG_LEVEL|, i requires 0 <= i < |LOG_LEVEL| => LOG_LEVEL[i].0)
  }

  /** Property access on an object: the first property with that key, or `undefined`. */
  function Get(props: seq<Property>, key: string): (v: JsValue)
    ensures (forall i :: 0 <= i < |props| ==> props[i].0 != key) ==> v == Undefined
    ensures forall i :: 0 <= i < |props| && props[i].0 == key && (forall j :: 0 <= j < i ==> props[j].0 != key) ==> v == props[i].1
    decreases |props|
  {
    if props == [] then Undefined
    else if props[0].0 == key then props[0].1
    else Get(props[1..], key)
  }

  /**
   * Property assignment `obj[key] = v`: an existing key keeps its position and
   * takes the new value; a new key is added at the end.
   */
  function Put(props: seq<Property>, key: string, v: JsValue): (r: seq<Property>)
    ensures (forall i :: 0 <= i < |props| ==> props[i].0 != key) ==> r == props + [(key, v)]
    ensures (exists i :: 0 <= i < |props| && props[i].0 == key) ==>
      |r| == |props| && forall i :: 0 <= i < |props| ==> r[i].0 == props[i].0
    ensures Get(r, key) == v
    ensures forall k :: k != key ==> Get(r, k) == Get(props, k)
    decreases |props|
  {
    if props == [] then [(key, v)]
    else if props[0].0 == key then [(key, v)] + props[1..]
    else [props[0]] + Put(props[1..], key, v)
  }

  /** A parsed option, `undefined` when it was not given. */
  function Given(values: map<string, JsValue>, name: string): JsValue {
    if name in values then values[name] else Undefined
  }

  /** `values[name] ?? DEFAULT_GEN_CSS_CLI_OPTIONS[name]`. */
  function OptionOrDefault(values: map<string, JsValue>, name: string): (v: JsValue)
    ensures !IsNullish(Given(values, name)) ==> v == Given(values, name)
    ensures IsNullish(Given(values, name)) ==> v == Get(DEFAULT_OPTIONS, name)
  {
    var given := Given(values, name);
    if given.Null? || given.Undefined? then Get(DEFAULT_OPTIONS, name) else given
  }

  /** The merged options: one property per option name, in the order of the defaults table. */
  function MergedOptions(values: map<string, JsValue>): (merged: seq<Property>)
    ensures |merged| == |OPTION_NAMES|
    ensures forall i :: 0 <= i < |merged| ==> merged[i] == (OPTION_NAMES[i], OptionOrDefault(values, OPTION_NAMES[i]))
  {
    seq(|OPTION_NAMES|, i requires 0 <= i < |OPTION_NAMES| => (OPTION_NAMES[i], OptionOrDefault(values, OPTION_NAMES[i])))
  }

  /**
   * The merged options hold exactly the four option names, in table order;
   * each holds the given value when that is neither `null` nor `undefined`
   * (so `color: false` stays false), and the default otherwise.
   */
  lemma MergedOptionsContents(values: map<string, JsValue>)
    ensures var merged := MergedOptions(values);
      && |merged| == 4
      && (forall i :: 0 <= i < 4 ==> merged[i].0 == DEFAULT_OPTIONS[i].0)
      && (forall name :: name in OPTION_NAMES <==> exists i :: 0 <= i < 4 && merged[i].0 == name)
      && (forall i :: 0 <= i < 4 ==> Get(merged, merged[i].0) == merged[i].1)
      && (forall i :: 0 <= i < 4 && !IsNullish(Given(values, OPTION_NAMES[i])) ==>
            Get(merged, OPTION_NAMES[i]) == Given(values, OPTION_NAMES[i]))
      && (forall i :: 0 <= i < 4 && IsNullish(Given(values, OPTION_NAMES[i])) ==>
            Get(merged, OPTION_NAMES[i]) == DEFAULT_OPTIONS[i].1)
  {
    var merged := MergedOptions(values);
    forall i | 0 <= i < 4
      ensures merged[i].0 == DEFAULT_OPTIONS[i].0
      ensures Get(merged, merged[i].0) == merged[i].1
      ensures Get(merged, OPTION_NAMES[i]) == OptionOrDefault(values, OPTION_NAMES[i])
      ensures Get(DEFAULT_OPTIONS, OPTION_NAMES[i]) == DEFAULT_OPTIONS[i].1
    {
      MergedOptionAt(values, i);
    }
  }

  /** The `i`-th option is found under its name, both in the merged options and in the defaults table. */
  lemma MergedOptionAt(values: map<string, JsValue>, i: nat)
    requires i < 4
    ensures Get(MergedOptions(values), OPTION_NAMES[i]) == MergedOptions(values)[i].1
    ensures Get(DEFAULT_OPTIONS, OPTION_NAMES[i]) == DEFAULT_OPTIONS[i].1
  {
    var merged := MergedOptions(values);
    assert forall j :: 0 <= j < i ==> merged[j].0 != merged[i].0;
    assert forall j :: 0 <= j < i ==> DEFAULT_OPTIONS[j].0 != DEFAULT_OPTIONS[i].0;
  }

  /**
   * The `reduce` of `getArgs`: for each option name in table order, assign to
   * the accumulator the given value, or the default when the given value is
   * nullish.
   */
  method MergeDefaults(values: map<string, JsValue>) returns (acc: seq<Property>)
    ensures acc == MergedOptions(values)
  {
    acc := [];
    var k := 0;
    while k < |OPTION_NAMES|
      invariant 0 <= k <= |OPTION_NAMES|
      invariant acc == MergedOptions(values)[..k]
    {
      var name := OPTION_NAMES[k];
      MergeStep(values, k);
      acc := Put(acc, name, OptionOrDefault(values, name));
      k := k + 1;
    }
  }

  /** Each step of the `reduce` adds the next option, whose name is not yet in the accumulator. */
  lemma MergeStep(values: map<string, JsValue>, k: nat)
    requires k < |OPTION_NAMES|
    ensures var name := OPTION_NAMES[k];
      Put(MergedOptions(values)[..k], name, OptionOrDefault(values, name)) == MergedOptions(values)[..k + 1]
  {
    var acc := MergedOptions(values)[..k];
    var name := OPTION_NAMES[k];
    assert forall i :: 0 <= i < k ==> acc[i].0 != name;
    assert acc + [(name, OptionOrDefault(values, name))] == MergedOptions(values)[..k + 1];
  }

  /** The error text for a log level outside the table. */
  function LogLevelMessage(): (m: string)
    ensures m == "logLevel invalid. Valid values: debug, info, warn, error"
  {
    var names := LogLevelNames();
    JoinOfFour("debug", "info", "warn", "error", ", ");
    "logLevel invalid. Valid values: " + Join(names, ", ")
  }

  /** The error text for a config path that does not name the config file. */
  function ConfigMessage(config: string): (m: string)
    ensures Includes(m, CONFIG_NAME)
    ensures |m| >= |config| && m[|m| - |config|..] == config
  {
    var head := "config invalid. Should be ";
    var m := head + CONFIG_NAME + " but got: " + config;
    assert CONFIG_NAME == m[|head|..][..|CONFIG_NAME|];
    assert m[|m| - |config|..] == config;
    m
  }

  /** `logLevels.includes(logLevel)`: the value is one of the level names. */
  predicate ValidLogLevel(v: JsValue): (b: bool)
    ensures b <==> v == Str("debug") || v == Str("info") || v == Str("warn") || v == Str("error")
  {
    v.Str? && v.s in LogLevelNames()
  }

  /**
   * The checks of `getArgs` on the merged options: the log level first, then
   * the config path; the options are returned unchanged when both pass.
   */
  function CheckOptions(options: seq<Property>): (r: Result<seq<Property>, string>)
    requires ValidLogLevel(Get(options, "logLevel")) ==> Get(options, "config").Str?
    ensures !ValidLogLevel(Get(options, "logLevel")) ==> r == Err(LogLevelMessage())
    ensures ValidLogLevel(Get(options, "logLevel")) && !Includes(Get(options, "config").s, CONFIG_NAME) ==>
      r == Err(ConfigMessage(Get(options, "config").s))
    ensures r.Ok? <==> ValidLogLevel(Get(options, "logLevel")) && Includes(Get(options, "config").s, CONFIG_NAME)
    ensures r.Ok? ==> r.value == options
  {
    var logLevels := LogLevelNames();
    var logLevel := Get(options, "logLevel");
    if !(logLevel.Str? && logLevel.s in logLevels) then
      Err(LogLevelMessage())
    else
      var config := Get(options, "config").s;
      if !Includes(config, CONFIG_NAME) then
        Err(ConfigMessage(config))
      else
        Ok(options)
  }

  /** What `parseArgs` guarantees of the `config` option: a string when given. */
  predicate ConfigIsString(values: map<string, JsValue>) {
    "config" in values ==> values["config"].Str? || IsNullish(values["config"])
  }

  /** The merged config option is a string whenever the parsed one is. */
  lemma MergedConfigIsString(values: map<string, JsValue>)
    requires ConfigIsString(values)
    ensures Get(MergedOptions(values), "config").Str?
    ensures Get(MergedOptions(values), "config") == OptionOrDefault(values, "config")
    ensures Get(MergedOptions(values), "logLevel") == OptionOrDefault(values, "logLevel")
  {
    MergedOptionsContents(values);
    assert OPTION_NAMES[1] == "config" && OPTION_NAMES[3] == "logLevel";
  }

  /**
   * `getArgs` after `parseArgs`: merge over the defaults, then check the log
   * level and the config path, in that order.
   */
  method GetArgs(values: map<string, JsValue>) returns (r: Result<seq<Property>, string>)
    requires ConfigIsString(values)
    ensures var level := OptionOrDefault(values, "logLevel");
      !ValidLogLevel(level) ==> r == Err(LogLevelMessage())
    ensures var level := OptionOrDefault(values, "logLevel");
      var config := OptionOrDefault(values, "config");
      ValidLogLevel(level) && config.Str? && !Includes(config.s, CONFIG_NAME) ==> r == Err(ConfigMessage(config.s))
    ensures var level := OptionOrDefault(values, "logLevel");
      var config := OptionOrDefault(values, "config");
      r.Ok? <==> ValidLogLevel(level) && config.Str? && Includes(config.s, CONFIG_NAME)
    ensures r.Ok? ==> r.value == MergedOptions(values)
    ensures values == map[] ==> r == Ok(DEFAULT_OPTIONS)
  {
    var merged := MergeDefaults(values);
    MergedConfigIsString(values);
    r := CheckOptions(merged);
    if values == map[] {
      NothingGivenMergesToDefaults();
      DefaultsAreAccepted();
    }
  }

  /** With no option given, the merged options are the defaults table. */
  lemma NothingGivenMergesToDefaults()
    ensures MergedOptions(map[]) == DEFAULT_OPTIONS
  {
    MergedOptionsContents(map[]);
    var merged := MergedOptions(map[]);
    forall i | 0 <= i < 4
      ensures merged[i] == DEFAULT_OPTIONS[i]
    {
      assert IsNullish(Given(map[], OPTION_NAMES[i]));
    }
  }

  /** With no option given, the defaults pass both checks. */
  lemma DefaultsAreAccepted()
    ensures CheckOptions(DEFAULT_OPTIONS) == Ok(DEFAULT_OPTIONS)
  {
    assert DEFAULT_OPTIONS[0].0 != "config" && DEFAULT_OPTIONS[1] == ("config", Str("./" + CONFIG_NAME));
    assert forall j :: 0 <= j < 3 ==> DEFAULT_OPTIONS[j].0 != "logLevel";
    assert DEFAULT_OPTIONS[3] == ("logLevel", Str("info"));
    assert ValidLogLevel(Str("info"));
    DefaultConfigNamesConfig();
  }

  /** The default config path contains the config file name. */
  lemma DefaultConfigNamesConfig()
    ensures Includes("./" + CONFIG_NAME, CONFIG_NAME)
  {
    assert CONFIG_NAME == ("./" + CONFIG_NAME)[2..][..|CONFIG_NAME|];
  }
}
