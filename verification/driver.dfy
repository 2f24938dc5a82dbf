/** Construction of a model driver and the command and environment it runs
    the model with (yggdrasil/drivers/ModelDriver.py): argument parsing,
    the strace/dtrace/valgrind prefix and `set_env`. */
module Driver {
  import opened Base
  import opened Strings
  import opened Paths
  import Capability

  /** The host operating system as the `platform` module reports it. */
  datatype OsFamily = Linux | MacOS | Windows | OtherOs

  /** `args` is either one string or a list of strings. */
  datatype Args = ArgString(text: string) | ArgList(items: seq<string>)

  /** What `parse_arguments` records on the driver. */
  datatype Parsed = Parsed(rawModelFile: string, modelFile: string, modelArgs: seq<string>, modelDir: string)

  /** The keyword options of the constructor this model follows. */
  datatype Options = Options(
    withStrace: bool,
    straceFlags: seq<string>,
    withValgrind: bool,
    valgrindFlags: seq<string>,
    modelIndex: int,
    overwrite: bool)

  /** A constructed driver. `registryName` is the key of its class in the
      capability registry. */
  datatype ModelDriver = ModelDriver(
    registryName: string,
    language: Option<string>,
    workingDir: string,
    options: Options,
    env: map<string, string>,
    parsed: Parsed,
    products: seq<string>)

  // ---------------------------------------------------------------------
  // parse_arguments
  // ---------------------------------------------------------------------

  /** The argument list after a single string has been split on
      whitespace. */
  function Tokens(args: Args): seq<string> {
    match args
    case ArgString(text) => Words(text)
    case ArgList(items) => items
  }

  /** The directory a relative model file is resolved against:
      `default_model_dir` when given, the working directory otherwise. */
  function ModelBaseDir(defaultModelDir: Option<string>, workingDir: string): string {
    if defaultModelDir.Some? then defaultModelDir.value else workingDir
  }

  /** Where the model file ends up: unchanged for the `executable`
      language or an absolute path, otherwise joined to the base
      directory and normalised. */
  function ResolveModelFile(language: Option<string>, baseDir: string, raw: string): string {
    if language != Some("executable") && !IsAbs(raw) then NormPath(JoinPath(baseDir, raw))
    else raw
  }

  /** `parse_arguments(args, default_model_dir)`: the first token is the
      model file, the rest are its arguments in order; an empty argument
      list fails on `args[0]`. */
  function ParseArguments(args: Args, language: Option<string>, workingDir: string, defaultModelDir: Option<string>)
    : (r: Result<Parsed>)
    ensures r.Failure? <==> |Tokens(args)| == 0
    ensures r.Failure? ==> r.error == IndexError
    ensures r.Success? ==>
      && [r.value.rawModelFile] + r.value.modelArgs == Tokens(args)
      && r.value.modelDir == DirName(r.value.modelFile)
      && (language == Some("executable") || IsAbs(r.value.rawModelFile) ==> r.value.modelFile == r.value.rawModelFile)
      && (language != Some("executable") && !IsAbs(r.value.rawModelFile) ==>
            r.value.modelFile == NormPath(JoinPath(ModelBaseDir(defaultModelDir, workingDir), r.value.rawModelFile)))
  {
    var tokens := Tokens(args);
    if |tokens| == 0 then Failure(IndexError)
    else
      var raw := tokens[0];
      var modelFile := ResolveModelFile(language, ModelBaseDir(defaultModelDir, workingDir), raw);
      assert [raw] + tokens[1..] == tokens;
      Success(Parsed(raw, modelFile, tokens[1..], DirName(modelFile)))
  }

  /** Giving the arguments as one space-separated string or as the list of
      its words parses the same. */
  lemma ParseStringAsList(words: seq<string>, language: Option<string>, workingDir: string, defaultModelDir: Option<string>)
    requires forall i :: 0 <= i < |words| ==> |words[i]| > 0 && NoSpace(words[i])
    ensures ParseArguments(ArgString(Join(words, " ")), language, workingDir, defaultModelDir)
         == ParseArguments(ArgList(words), language, workingDir, defaultModelDir)
  {
    WordsOfJoin(words);
  }

  /** Against an absolute base directory, every language but
      `executable` ends up with an absolute, normalised model file inside
      an absolute model directory. */
  lemma ModelFileAbsolute(args: Args, language: Option<string>, workingDir: string, defaultModelDir: Option<string>)
    requires IsAbs(ModelBaseDir(defaultModelDir, workingDir))
    requires language != Some("executable")
    requires ParseArguments(args, language, workingDir, defaultModelDir).Success?
    ensures var p := ParseArguments(args, language, workingDir, defaultModelDir).value;
      IsAbs(p.modelFile) && IsAbs(p.modelDir)
      && (!IsAbs(p.rawModelFile) ==> NormPath(p.modelFile) == p.modelFile)
  {
    var p := ParseArguments(args, language, workingDir, defaultModelDir).value;
    var base := ModelBaseDir(defaultModelDir, workingDir);
    if !IsAbs(p.rawModelFile) {
      NormPathAbs(JoinPath(base, p.rawModelFile));
      NormPathIdempotent(JoinPath(base, p.rawModelFile));
    }
  }

  // ---------------------------------------------------------------------
  // Construction
  // ---------------------------------------------------------------------

  /** The host variables the constructor copies into the driver's own
      environment. */
  const EnvCopy: seq<string> := ["LANG", "PATH", "USER"]

  /** `for k in env_copy: if k in os.environ: env[k] = os.environ[k]`. */
  function CopyEnv(env: map<string, string>, osEnviron: map<string, string>, keys: seq<string>): (r: map<string, string>)
    ensures forall k :: k in r <==> k in env || (k in keys && k in osEnviron)
    ensures forall k :: k in keys && k in osEnviron ==> r[k] == osEnviron[k]
    ensures forall k :: k in env && !(k in keys && k in osEnviron) ==> r[k] == env[k]
    decreases |keys|
  {
    if |keys| == 0 then env
    else
      var k := keys[0];
      var env' := if k in osEnviron then env[k := osEnviron[k]] else env;
      CopyEnv(env', osEnviron, keys[1..])
  }

  function LanguageText(language: Option<string>): string {
    if language.Some? then language.value else "None"
  }

  /** The constructor: the strace/valgrind checks, the copied host
      variables, the installation check, then argument parsing. The
      product list is empty when `overwrite` removes products, and the
      base driver writes no wrappers, so it stays empty. */
  function Construct(
    ctx: Capability.Context, registryName: string, args: Args, workingDir: string,
    options: Options, env: map<string, string>, osEnviron: map<string, string>, os: OsFamily): (r: Result<ModelDriver>)
    requires Capability.WellFormed(ctx.registry) && registryName in ctx.registry
    ensures options.withStrace && options.withValgrind ==>
      r == Failure(RuntimeError("Trying to run with strace and valgrind."))
    ensures r.Success? ==>
      && !(r.value.options.withStrace && r.value.options.withValgrind)
      && (os == Windows ==> !r.value.options.withStrace && !r.value.options.withValgrind)
      && Capability.IsInstalled(ctx, registryName)
      && ParseArguments(args, ctx.registry[registryName].language, workingDir, None) == Success(r.value.parsed)
      && r.value.products == []
      && r.value.options == options
      && r.value.env == CopyEnv(env, osEnviron, EnvCopy)
      && r.value.registryName == registryName && r.value.workingDir == workingDir
    ensures (options.withStrace || options.withValgrind) && !(options.withStrace && options.withValgrind) && os == Windows ==>
      r == Failure(RuntimeError("strace/valgrind options invalid on windows."))
    ensures !Capability.IsInstalled(ctx, registryName) && !(options.withStrace || options.withValgrind) ==>
      r == Failure(RuntimeError(LanguageText(ctx.registry[registryName].language) + " is not installed"))
  {
    var language := ctx.registry[registryName].language;
    if options.withStrace && options.withValgrind then
      Failure(RuntimeError("Trying to run with strace and valgrind."))
    else if (options.withStrace || options.withValgrind) && os == Windows then
      Failure(RuntimeError("strace/valgrind options invalid on windows."))
    else if !Capability.IsInstalled(ctx, registryName) then
      Failure(RuntimeError(LanguageText(language) + " is not installed"))
    else
      var parsed :- ParseArguments(args, language, workingDir, None);
      Success(ModelDriver(registryName, language, workingDir, options, CopyEnv(env, osEnviron, EnvCopy), parsed, []))
  }

  // ---------------------------------------------------------------------
  // Commands
  // ---------------------------------------------------------------------

  /** `model_command()`. */
  function ModelCommand(d: ModelDriver): seq<string> {
    [d.parsed.modelFile] + d.parsed.modelArgs
  }

  /** The prefix `run_model` puts before the model command: strace (Linux)
      or dtrace (MacOS) with its flags, else valgrind with its flags, else
      nothing. On another system strace is requested without `pre_cmd`
      ever being bound. */
  function RunPrefix(options: Options, os: OsFamily): Result<seq<string>> {
    if options.withStrace then
      if os == Linux then Success(["strace"] + options.straceFlags)
      else if os == MacOS then Success(["dtrace"] + options.straceFlags)
      else Failure(UnboundLocalError("pre_cmd"))
    else if options.withValgrind then Success(["valgrind"] + options.valgrindFlags)
    else Success([])
  }

  /** The command `run_model` hands to `run_executable`. */
  function RunCommand(d: ModelDriver, os: OsFamily): (r: Result<seq<string>>)
    ensures r.Success? ==>
      && |r.value| >= |ModelCommand(d)|
      && r.value[|r.value| - |ModelCommand(d)|..] == ModelCommand(d)
      && r.value[|r.value| - |ModelCommand(d)|] == d.parsed.modelFile
    ensures r.Success? && !d.options.withStrace && !d.options.withValgrind ==> r.value == ModelCommand(d)
    ensures r.Success? && !d.options.withStrace && d.options.withValgrind ==>
      r.value == ["valgrind"] + d.options.valgrindFlags + ModelCommand(d)
    ensures r.Success? && d.options.withStrace ==>
      (r.value == ["strace"] + d.options.straceFlags + ModelCommand(d) && os == Linux)
      || (r.value == ["dtrace"] + d.options.straceFlags + ModelCommand(d) && os == MacOS)
    ensures r.Failure? <==> d.options.withStrace && os != Linux && os != MacOS
  {
    var pre :- RunPrefix(d.options, os);
    var command := pre + ModelCommand(d);
    assert command[|pre|..] == ModelCommand(d);
    Success(command)
  }

  /** A driver that construction accepted runs under at most one of the two
      tools, and on Linux and MacOS its command composes without error. */
  lemma ConstructedCommandComposes(
    ctx: Capability.Context, registryName: string, args: Args, workingDir: string,
    options: Options, env: map<string, string>, osEnviron: map<string, string>, os: OsFamily)
    requires Capability.WellFormed(ctx.registry) && registryName in ctx.registry
    requires os == Linux || os == MacOS
    requires Construct(ctx, registryName, args, workingDir, options, env, osEnviron, os).Success?
    ensures var d := Construct(ctx, registryName, args, workingDir, options, env, osEnviron, os).value;
      && RunCommand(d, os).Success?
      && !(d.options.withStrace && d.options.withValgrind)
  {
  }

  // ---------------------------------------------------------------------
  // set_env
  // ---------------------------------------------------------------------

  /** `set_env()`: a copy of the driver's environment, overlaid with the
      whole host environment, then the two subprocess markers. */
  function SetEnv(d: ModelDriver, osEnviron: map<string, string>): (r: map<string, string>)
    ensures r.Keys == d.env.Keys + osEnviron.Keys + {"YGG_SUBPROCESS", "YGG_MODEL_INDEX"}
    ensures r["YGG_SUBPROCESS"] == "True"
    ensures r["YGG_MODEL_INDEX"] == IntToString(d.options.modelIndex)
    ensures forall k :: k in osEnviron && k !in {"YGG_SUBPROCESS", "YGG_MODEL_INDEX"} ==> r[k] == osEnviron[k]
    ensures forall k :: k in d.env && k !in osEnviron && k !in {"YGG_SUBPROCESS", "YGG_MODEL_INDEX"} ==> r[k] == d.env[k]
  {
    (d.env + osEnviron)["YGG_SUBPROCESS" := "True"]["YGG_MODEL_INDEX" := IntToString(d.options.modelIndex)]
  }

  /** The model index a subprocess reads back from its environment is the
      driver's own. */
  lemma ModelIndexReadsBack(d: ModelDriver, osEnviron: map<string, string>)
    requires d.options.modelIndex >= 0
    ensures AllDigits(SetEnv(d, osEnviron)["YGG_MODEL_INDEX"])
    ensures DigitsValue(SetEnv(d, osEnviron)["YGG_MODEL_INDEX"]) == d.options.modelIndex
  {
    DigitsOfNat(d.options.modelIndex);
  }
}
