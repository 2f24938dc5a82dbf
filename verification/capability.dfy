/** Capability resolution of model drivers (yggdrasil/drivers/ModelDriver.py):
    whether a language is installed, has its interface dependencies, has a
    usable communication mechanism ("comm") and is configured, each check
    delegating along the driver's chain of base languages.

    Everything the source asks of the outside world is an input here: the
    executables `tools.which` finds, the libraries `is_library_installed`
    accepts, the platform name, `tools.get_supported_comm()` and the
    persisted configuration `ygg_cfg`. */
module Capability {
  import opened Base
  import opened Strings

  /** One entry of `supported_comm_options`. An absent `platforms` key reads
      as `None` (no platform restriction) and an absent `libraries` key as
      `[]`; an explicit `None` for `libraries` skips the library check. */
  datatype CommOption = CommOption(platforms: Option<seq<string>>, libraries: Option<seq<string>>)

  /** The class attributes of a driver that the checks read. `level` ranks
      drivers so that every base language sits strictly lower than the
      drivers built on it. */
  datatype DriverInfo = DriverInfo(
    language: Option<string>,
    executable: string,
    baseLanguages: seq<string>,
    interfaceDependencies: seq<string>,
    supportedComms: seq<string>,
    commOptions: map<string, CommOption>,
    level: nat)

  /** A section of the persisted configuration: its plain options and the
      list stored under `commtypes`, if any. */
  datatype Section = Section(options: map<string, string>, commtypes: Option<seq<string>>)

  /** The facts about the host the checks consult. `libraries` holds the
      (driver, library) pairs for which `is_library_installed` answers yes. */
  datatype Host = Host(
    onPath: set<string>,
    libraries: set<(string, string)>,
    platform: string,
    supportedComms: seq<string>)

  datatype Context = Context(
    registry: map<string, DriverInfo>,
    host: Host,
    config: map<string, Section>)

  /** `import_component('model', x)` succeeds for every base language and
      base chains are acyclic (the source recurses without end on a cycle). */
  ghost predicate WellFormed(reg: map<string, DriverInfo>) {
    forall n, i {:trigger reg[n].baseLanguages[i]} ::
      n in reg && 0 <= i < |reg[n].baseLanguages| ==>
        reg[n].baseLanguages[i] in reg && reg[reg[n].baseLanguages[i]].level < reg[n].level
  }

  /** The four checks `is_installed` combines. `CommCheck` carries the
      `commtype` and `skip_config` arguments of `is_comm_installed`. */
  datatype Check =
    | LanguageCheck
    | DependencyCheck
    | ConfiguredCheck
    | CommCheck(commtype: Option<string>, skipConfig: bool)

  // ---------------------------------------------------------------------
  // The driver's own part of each check
  // ---------------------------------------------------------------------

  /** `ygg_cfg.get(language, 'disable', 'false').lower() != 'true'` together
      with `ygg_cfg.has_section(language)`. */
  predicate SectionEnabled(config: map<string, Section>, language: Option<string>) {
    && language.Some?
    && language.value in config
    && var options := config[language.value].options;
       Lower(if "disable" in options then options["disable"] else "false") != "true"
  }

  /** `ygg_cfg.get(language, 'commtypes', [])`. */
  function ConfiguredComms(config: map<string, Section>, language: Option<string>): seq<string> {
    if language.Some? && language.value in config && config[language.value].commtypes.Some? then
      config[language.value].commtypes.value
    else []
  }

  function OptionFor(d: DriverInfo, commtype: string): CommOption {
    if commtype in d.commOptions then d.commOptions[commtype] else CommOption(None, Some([]))
  }

  /** The explicit rule check of `is_comm_installed` for a named comm: it
      must be listed in `supported_comms`, the platform must be allowed, and
      every required library must be installed. */
  predicate CommRule(ctx: Context, name: string, d: DriverInfo, commtype: string) {
    var opt := OptionFor(d, commtype);
    && commtype in d.supportedComms
    && (opt.platforms.None? || ctx.host.platform in opt.platforms.value)
    && (opt.libraries.None? || forall lib :: lib in opt.libraries.value ==> (name, lib) in ctx.host.libraries)
  }

  /** `is_comm_installed` for a driver without base languages. With
      `skip_config` unset the configured list answers: for no particular comm
      it must be non-empty, otherwise it must hold the comm. With
      `skip_config` set and no particular comm, some comm of
      `tools.get_supported_comm()` must pass the rule check. */
  predicate OwnComm(ctx: Context, name: string, d: DriverInfo, commtype: Option<string>, skipConfig: bool) {
    if !skipConfig then
      var installed := ConfiguredComms(ctx.config, d.language);
      if commtype.None? then |installed| > 0 else commtype.value in installed
    else if commtype.None? then
      exists i :: 0 <= i < |ctx.host.supportedComms| && CommRule(ctx, name, d, ctx.host.supportedComms[i])
    else CommRule(ctx, name, d, commtype.value)
  }

  /** The part of a check that a driver decides by itself, before (or
      after) consulting its base languages. */
  predicate OwnHolds(ctx: Context, check: Check, name: string)
    requires name in ctx.registry
  {
    var d := ctx.registry[name];
    match check
    case LanguageCheck =>
      d.language.Some? && d.executable in ctx.host.onPath
    case DependencyCheck =>
      d.language.Some? && forall x :: x in d.interfaceDependencies ==> (name, x) in ctx.host.libraries
    case ConfiguredCheck =>
      SectionEnabled(ctx.config, d.language)
      && (|d.baseLanguages| == 0 ==> d.language.Some? && d.language.value in ctx.config && ctx.config[d.language.value].commtypes.Some?)
    case CommCheck(commtype, skipConfig) =>
      |d.baseLanguages| > 0 || OwnComm(ctx, name, d, commtype, skipConfig)
  }

  // ---------------------------------------------------------------------
  // Delegation along base languages
  // ---------------------------------------------------------------------

  /** `check` for the driver registered under `name`: its own part, then the
      same check for every base language in order, stopping at the first
      failure. */
  predicate Holds(ctx: Context, check: Check, name: string)
    requires WellFormed(ctx.registry) && name in ctx.registry
    decreases ctx.registry[name].level, |ctx.registry[name].baseLanguages| + 1
  {
    var d := ctx.registry[name];
    ChainFrom(ctx, check, d.level, OwnHolds(ctx, check, name), d.baseLanguages)
  }

  /** The loop `for x in base_languages: if not out: break; out = check(x)`. */
  predicate ChainFrom(ctx: Context, check: Check, bound: nat, out: bool, bases: seq<string>)
    requires WellFormed(ctx.registry)
    requires forall i :: 0 <= i < |bases| ==> bases[i] in ctx.registry && ctx.registry[bases[i]].level < bound
    decreases bound, |bases|
  {
    if |bases| == 0 then out
    else if !out then out
    else ChainFrom(ctx, check, bound, Holds(ctx, check, bases[0]), bases[1..])
  }

  /** The short-circuit loop over base languages is a conjunction: it holds
      exactly when the starting value and every base's check hold. */
  lemma {:induction false} ChainFromAll(ctx: Context, check: Check, bound: nat, out: bool, bases: seq<string>)
    requires WellFormed(ctx.registry)
    requires forall i :: 0 <= i < |bases| ==> bases[i] in ctx.registry && ctx.registry[bases[i]].level < bound
    ensures ChainFrom(ctx, check, bound, out, bases)
        <==> out && forall i :: 0 <= i < |bases| ==> Holds(ctx, check, bases[i])
    decreases |bases|
  {
    if |bases| > 0 && out {
      ChainFromAll(ctx, check, bound, Holds(ctx, check, bases[0]), bases[1..]);
      assert forall i :: 1 <= i < |bases| ==> bases[1..][i - 1] == bases[i];
    }
  }

  lemma BasesOf(ctx: Context, name: string)
    requires WellFormed(ctx.registry) && name in ctx.registry
    ensures forall i :: 0 <= i < |ctx.registry[name].baseLanguages| ==>
      ctx.registry[name].baseLanguages[i] in ctx.registry
      && ctx.registry[ctx.registry[name].baseLanguages[i]].level < ctx.registry[name].level
  {
    var bases := ctx.registry[name].baseLanguages;
    forall i | 0 <= i < |bases|
      ensures bases[i] in ctx.registry && ctx.registry[bases[i]].level < ctx.registry[name].level
    {
      assert ctx.registry[name].baseLanguages[i] == bases[i];
    }
  }

  /** A check holds for a driver exactly when its own part holds and the
      check holds for every one of its base languages. */
  lemma HoldsIffOwnAndBases(ctx: Context, check: Check, name: string)
    requires WellFormed(ctx.registry) && name in ctx.registry
    ensures Holds(ctx, check, name) <==>
      OwnHolds(ctx, check, name)
      && forall i :: 0 <= i < |ctx.registry[name].baseLanguages| ==>
           Holds(ctx, check, ctx.registry[name].baseLanguages[i])
  {
    var d := ctx.registry[name];
    BasesOf(ctx, name);
    ChainFromAll(ctx, check, d.level, OwnHolds(ctx, check, name), d.baseLanguages);
  }

  // ---------------------------------------------------------------------
  // is_installed
  // ---------------------------------------------------------------------

  /** `is_installed`: language, dependencies, any configured comm, and
      configuration, combined by `and`. */
  predicate IsInstalled(ctx: Context, name: string)
    requires WellFormed(ctx.registry) && name in ctx.registry
  {
    && Holds(ctx, LanguageCheck, name)
    && Holds(ctx, DependencyCheck, name)
    && Holds(ctx, CommCheck(None, false), name)
    && Holds(ctx, ConfiguredCheck, name)
  }

  /** The four own parts of `is_installed` for one driver. */
  predicate OwnInstalled(ctx: Context, name: string)
    requires name in ctx.registry
  {
    && OwnHolds(ctx, LanguageCheck, name)
    && OwnHolds(ctx, DependencyCheck, name)
    && OwnHolds(ctx, CommCheck(None, false), name)
    && OwnHolds(ctx, ConfiguredCheck, name)
  }

  /** A driver is installed exactly when its own checks pass and every base
      language is installed. */
  lemma {:induction false} InstalledIffOwnAndBases(ctx: Context, name: string)
    requires WellFormed(ctx.registry) && name in ctx.registry
    ensures IsInstalled(ctx, name) <==>
      OwnInstalled(ctx, name)
      && forall i :: 0 <= i < |ctx.registry[name].baseLanguages| ==>
           IsInstalled(ctx, ctx.registry[name].baseLanguages[i])
  {
    BasesOf(ctx, name);
    HoldsIffOwnAndBases(ctx, LanguageCheck, name);
    HoldsIffOwnAndBases(ctx, DependencyCheck, name);
    HoldsIffOwnAndBases(ctx, CommCheck(None, false), name);
    HoldsIffOwnAndBases(ctx, ConfiguredCheck, name);
  }

  /** Any base language that fails a check makes every driver built on it
      fail that check. */
  lemma BaseFailurePropagates(ctx: Context, check: Check, name: string, i: nat)
    requires WellFormed(ctx.registry) && name in ctx.registry
    requires i < |ctx.registry[name].baseLanguages|
    requires ctx.registry[name].baseLanguages[i] in ctx.registry
    requires !Holds(ctx, check, ctx.registry[name].baseLanguages[i])
    ensures !Holds(ctx, check, name)
  {
    HoldsIffOwnAndBases(ctx, check, name);
  }

  /** With base languages, `is_comm_installed` ignores the driver's own comm
      settings and is the conjunction over its base drivers. */
  lemma CommDelegatesToBases(ctx: Context, commtype: Option<string>, skipConfig: bool, name: string)
    requires WellFormed(ctx.registry) && name in ctx.registry
    requires |ctx.registry[name].baseLanguages| > 0
    ensures Holds(ctx, CommCheck(commtype, skipConfig), name) <==>
      forall i :: 0 <= i < |ctx.registry[name].baseLanguages| ==>
        Holds(ctx, CommCheck(commtype, skipConfig), ctx.registry[name].baseLanguages[i])
  {
    HoldsIffOwnAndBases(ctx, CommCheck(commtype, skipConfig), name);
  }

  // ---------------------------------------------------------------------
  // is_comm_installed without base languages
  // ---------------------------------------------------------------------

  /** The four behaviours of `is_comm_installed` for a driver without base
      languages: the configured list decides unless `skip_config` is set;
      otherwise an unsupported comm, or one barred on this platform, is
      not installed. */
  lemma CommInstalledCases(ctx: Context, name: string, commtype: Option<string>, skipConfig: bool)
    requires WellFormed(ctx.registry) && name in ctx.registry
    requires |ctx.registry[name].baseLanguages| == 0
    ensures !skipConfig && commtype.None? ==>
      (Holds(ctx, CommCheck(commtype, skipConfig), name) <==> |ConfiguredComms(ctx.config, ctx.registry[name].language)| > 0)
    ensures !skipConfig && commtype.Some? ==>
      (Holds(ctx, CommCheck(commtype, skipConfig), name) <==> commtype.value in ConfiguredComms(ctx.config, ctx.registry[name].language))
    ensures skipConfig && commtype.Some? && commtype.value !in ctx.registry[name].supportedComms ==>
      !Holds(ctx, CommCheck(commtype, skipConfig), name)
    ensures (skipConfig && commtype.Some? && OptionFor(ctx.registry[name], commtype.value).platforms.Some?
             && ctx.host.platform !in OptionFor(ctx.registry[name], commtype.value).platforms.value) ==>
      !Holds(ctx, CommCheck(commtype, skipConfig), name)
  {
    HoldsIffOwnAndBases(ctx, CommCheck(commtype, skipConfig), name);
  }

  /** With `skip_config` set, the answer does not depend on the persisted
      configuration. */
  lemma {:induction false} SkipConfigIgnoresConfig(ctx: Context, config': map<string, Section>, commtype: Option<string>, name: string)
    requires WellFormed(ctx.registry) && name in ctx.registry
    ensures Holds(ctx, CommCheck(commtype, true), name)
        == Holds(ctx.(config := config'), CommCheck(commtype, true), name)
    decreases ctx.registry[name].level
  {
    var ctx' := ctx.(config := config');
    var bases := ctx.registry[name].baseLanguages;
    BasesOf(ctx, name);
    HoldsIffOwnAndBases(ctx, CommCheck(commtype, true), name);
    HoldsIffOwnAndBases(ctx', CommCheck(commtype, true), name);
    forall i | 0 <= i < |bases|
      ensures Holds(ctx, CommCheck(commtype, true), bases[i]) == Holds(ctx', CommCheck(commtype, true), bases[i])
    {
      SkipConfigIgnoresConfig(ctx, config', commtype, bases[i]);
    }
  }

  /** `is_comm_installed(commtype=None, skip_config=True)` AS WRITTEN: the
      loop over `tools.get_supported_comm()` calls `is_comm_installed`
      without passing `skip_config` on, so each comm is looked up in the
      configured list after all. */
  predicate AnyCommAsWritten(ctx: Context, name: string)
    requires name in ctx.registry
  {
    var d := ctx.registry[name];
    exists i :: 0 <= i < |ctx.host.supportedComms| && OwnComm(ctx, name, d, Some(ctx.host.supportedComms[i]), false)
  }

  /** A C driver on Linux with no configured comms: the explicit rules admit
      `ipc`, yet the as-written lookup answers no because it consults the
      empty configuration. */
  lemma AnyCommAsWrittenConsultsConfig()
    ensures var ctx := Context(
              map["c" := DriverInfo(Some("c"), "gcc", [], [], ["ipc"], map["ipc" := CommOption(Some(["Linux"]), Some([]))], 0)],
              Host({"gcc"}, {}, "Linux", ["ipc"]),
              map[]);
            WellFormed(ctx.registry)
            && !AnyCommAsWritten(ctx, "c")
            && Holds(ctx, CommCheck(None, true), "c")
  {
    var ctx := Context(
      map["c" := DriverInfo(Some("c"), "gcc", [], [], ["ipc"], map["ipc" := CommOption(Some(["Linux"]), Some([]))], 0)],
      Host({"gcc"}, {}, "Linux", ["ipc"]),
      map[]);
    assert CommRule(ctx, "c", ctx.registry["c"], ctx.host.supportedComms[0]);
    assert OwnHolds(ctx, CommCheck(None, true), "c");
  }

  // ---------------------------------------------------------------------
  // configure: the comm cache
  // ---------------------------------------------------------------------

  /** The comms of `tools.get_supported_comm()` that pass the explicit rule
      check, in order. */
  function InstalledComms(ctx: Context, name: string, comms: seq<string>): (r: seq<string>)
    requires WellFormed(ctx.registry) && name in ctx.registry
    ensures forall c :: c in r <==> c in comms && Holds(ctx, CommCheck(Some(c), true), name)
    ensures |r| <= |comms|
  {
    if |comms| == 0 then []
    else
      var rest := InstalledComms(ctx, name, comms[1..]);
      if Holds(ctx, CommCheck(Some(comms[0]), true), name) then [comms[0]] + rest else rest
  }

  /** Whether `configure` records the located executable: the language is
      not installed, the driver names an `executable_type`, and
      `locate_file` found a path (a non-empty one). */
  predicate RecordsExecutable(ctx: Context, name: string, executableType: Option<string>, located: Option<string>)
    requires WellFormed(ctx.registry) && name in ctx.registry
  {
    !Holds(ctx, LanguageCheck, name) && executableType.Some? && located.Some? && located.value != ""
  }

  /** Some base language of the driver is not configured. */
  predicate SomeBaseUnconfigured(ctx: Context, name: string)
    requires WellFormed(ctx.registry) && name in ctx.registry
  {
    exists i :: 0 <= i < |ctx.registry[name].baseLanguages| && !Holds(ctx, ConfiguredCheck, ctx.registry[name].baseLanguages[i])
  }

  /** `configure(cfg)`: a base language that is not yet configured is
      configured by `x_drv.configure()`, a call without the `cfg` argument,
      which raises `TypeError`; otherwise the language's section exists,
      the path `locate_file` found is recorded under `executable_type` when
      the language is not installed, and for a driver without base
      languages `commtypes` lists the comms that pass the explicit rule
      check. `located` is the answer of `locate_file`. */
  function Configure(ctx: Context, name: string, executableType: Option<string>, located: Option<string>)
    : (r: Result<map<string, Section>>)
    requires WellFormed(ctx.registry) && name in ctx.registry
    requires ctx.registry[name].language.Some?
    ensures r.Failure? <==> SomeBaseUnconfigured(ctx, name)
    ensures r.Failure? ==> r.error.TypeError?
    ensures r.Success? ==>
      var lang := ctx.registry[name].language.value;
      var before := if lang in ctx.config then ctx.config[lang].options else map[];
      && lang in r.value
      && r.value.Keys == ctx.config.Keys + {lang}
      && (forall k :: k in ctx.config && k != lang ==> r.value[k] == ctx.config[k])
      && (RecordsExecutable(ctx, name, executableType, located) ==>
            r.value[lang].options == before[executableType.value := located.value])
      && (!RecordsExecutable(ctx, name, executableType, located) ==> r.value[lang].options == before)
      && (|ctx.registry[name].baseLanguages| == 0 ==>
            r.value[lang].commtypes == Some(InstalledComms(ctx, name, ctx.host.supportedComms)))
      && (|ctx.registry[name].baseLanguages| > 0 && lang in ctx.config ==>
            r.value[lang].commtypes == ctx.config[lang].commtypes)
  {
    var d := ctx.registry[name];
    if SomeBaseUnconfigured(ctx, name) then
      Failure(TypeError("configure() missing 1 required positional argument: 'cfg'"))
    else
      var lang := d.language.value;
      var section := if lang in ctx.config then ctx.config[lang] else Section(map[], None);
      var section := if RecordsExecutable(ctx, name, executableType, located)
        then section.(options := section.options[executableType.value := located.value]) else section;
      if |d.baseLanguages| == 0 then
        Success(ctx.config[lang := section.(commtypes := Some(InstalledComms(ctx, name, ctx.host.supportedComms)))])
      else
        Success(ctx.config[lang := section])
  }

  /** After `configure`, the cached answer for each comm of
      `tools.get_supported_comm()` agrees with the explicit rule check, and
      the cached "any comm" answer agrees with checking them all. */
  lemma ConfigureCacheAgrees(ctx: Context, name: string, executableType: Option<string>, located: Option<string>, c: string)
    requires WellFormed(ctx.registry) && name in ctx.registry
    requires ctx.registry[name].language.Some?
    requires |ctx.registry[name].baseLanguages| == 0
    requires c in ctx.host.supportedComms
    ensures Configure(ctx, name, executableType, located).Success?
    ensures var ctx' := ctx.(config := Configure(ctx, name, executableType, located).value);
      && (Holds(ctx', CommCheck(Some(c), false), name) <==> Holds(ctx, CommCheck(Some(c), true), name))
      && (Holds(ctx', CommCheck(None, false), name) <==> Holds(ctx, CommCheck(None, true), name))
  {
    var ctx' := ctx.(config := Configure(ctx, name, executableType, located).value);
    var comms := InstalledComms(ctx, name, ctx.host.supportedComms);
    var d := ctx.registry[name];
    assert ConfiguredComms(ctx'.config, d.language) == comms;
    HoldsIffOwnAndBases(ctx', CommCheck(Some(c), false), name);
    HoldsIffOwnAndBases(ctx', CommCheck(None, false), name);
    HoldsIffOwnAndBases(ctx, CommCheck(None, true), name);
    if Holds(ctx, CommCheck(None, true), name) {
      var i :| 0 <= i < |ctx.host.supportedComms| && CommRule(ctx, name, d, ctx.host.supportedComms[i]);
      HoldsIffOwnAndBases(ctx, CommCheck(Some(ctx.host.supportedComms[i]), true), name);
      assert ctx.host.supportedComms[i] in comms;
    }
    if |comms| > 0 {
      assert comms[0] in comms;
      HoldsIffOwnAndBases(ctx, CommCheck(Some(comms[0]), true), name);
      var i :| 0 <= i < |ctx.host.supportedComms| && ctx.host.supportedComms[i] == comms[0];
      assert CommRule(ctx, name, d, ctx.host.supportedComms[i]);
    }
  }
}
