# yggdrasil model drivers and serializers in Dafny

This project models the deterministic core of yggdrasil's model drivers and
of three of its serializers. It covers three areas.

**Drivers** (`ModelDriver`):
- how a driver decides it is installed: the language, dependency, comm and
  configuration checks, each delegated along the chain of base languages;
- how it parses its arguments and composes the command it runs, with an
  optional strace/dtrace or valgrind prefix;
- the environment it hands to the model process;
- the drain / run-loop / kill protocol, as a sequential state machine over
  a queue of lines that ends in the `EXIT` sentinel;
- the code-block writers behind wrapper generation.

**C and C++ drivers:**
- the compiler and linker keyword policy;
- `LD_LIBRARY_PATH` editing;
- the `-std=` flag and the C++ registration step;
- the mapping between C type names and JSON type descriptions;
- call-variable preparation;
- the recursive type-definition writer.

**Serializers:**
- the ASCII key/value map format and its parser;
- the pandas field-name alignment, header flags and concatenation;
- the MATLAB `.mat` dictionary guard and metadata stripping;
- dictionary concatenation.

All external facts are inputs. They include:
- whether an executable or library is present;
- the persisted configuration;
- the platform;
- `os.environ`;
- the outcome of a read from the process;
- whether the process has finished.

Library codecs are function parameters:
- `json.dumps`/`json.loads` is an abstract `Codec`;
- `savemat`/`loadmat` and `to_csv` are abstract functions.

Their laws are stated as predicates (`AsciiMap.Lawful`, `MatSer.Lawful`) that
the round-trip lemmas assume. Python exceptions become the `Failure` branch
of `Base.Result`, with the exception class and, where the source fixes it,
the message.

Modules, one file each:

| module | file | models |
|---|---|---|
| `Base` | base.dfy | `Option`, `Result` and the exception kinds |
| `Strings` | strings.dfy | `str.split`/`join`/`replace`/`strip`, `in` on strings, int/text conversion |
| `Paths` | paths.dfy | the POSIX `os.path` functions the drivers call |
| `Capability` | capability.dfy | the driver registry and the installed checks |
| `Driver` | driver.dfy | construction, arguments, command and environment |
| `Lifecycle` | lifecycle.dfy | drain, run loop, kill |
| `CodeGen` | codegen.dfy | the `str.format` subset the templates use, and the block writers |
| `CBuild` | cbuild.dfy | C/C++ compiler and linker policy |
| `CTypes` | ctypes.dfy | native and JSON types |
| `CTypeDefs` | ctypedefs.dfy | variable lists and type definitions |
| `Sorting` | sorting.dfy | Python's string order and `sorted` |
| `DictMerge` | dictmerge.dfy | `dict.update` concatenation |
| `AsciiMap` | asciimap.dfy | the ASCII map serializer |
| `Pandas` | pandas.dfy | the pandas serializer |
| `MatSer` | matser.dfy | the `.mat` serializer |

## Model

| member | source | states |
|---|---|---|
| Capability.HoldsIffOwnAndBases | yggdrasil/drivers/ModelDriver.py:435-508 | each check passes for a driver exactly when the driver's own test passes and the same check passes for every base language; the short-circuit loop over `base_languages` is a conjunction |
| Capability.ChainFromAll | yggdrasil/drivers/ModelDriver.py:444-447 | the loop `if not out: break; out = check(base)` ends true exactly when the starting value and every base's check are true |
| Capability.InstalledIffOwnAndBases | yggdrasil/drivers/ModelDriver.py:422-432 | `is_installed` holds exactly when the driver's four own checks pass and every base language is installed |
| Capability.BaseFailurePropagates | yggdrasil/drivers/ModelDriver.py:443-453 | one base language failing a check makes every driver built on it fail that check |
| Capability.CommDelegatesToBases | yggdrasil/drivers/ModelDriver.py:543-550 | with base languages, `is_comm_installed` is the conjunction of the same call over the base drivers |
| Capability.CommInstalledCases | yggdrasil/drivers/ModelDriver.py:552-575 | without base languages: without `skip_config` no commtype means "the configured list is non-empty" and a commtype means membership in it; with `skip_config` an unsupported comm, or one whose platform list excludes the host, is not installed |
| Capability.SkipConfigIgnoresConfig | yggdrasil/drivers/ModelDriver.py:511-581 | with `skip_config` the answer is the same under any persisted configuration |
| Capability.AnyCommAsWrittenConsultsConfig | yggdrasil/drivers/ModelDriver.py:559-563 | a concrete driver whose rules admit `ipc` but whose configuration is empty: the code as written answers no to "any comm, skip_config", while the corrected check answers yes |
| Capability.InstalledComms | yggdrasil/drivers/ModelDriver.py:617-620 | the cached comm list holds exactly the supported comms that pass the explicit rule check |
| Capability.Configure | yggdrasil/drivers/ModelDriver.py:584-621 | `configure` raises `TypeError` exactly when some base language is not configured, since `x_drv.configure()` is called without `cfg`; otherwise it adds the language's section, leaves every other section unchanged, records the path `locate_file` found under `executable_type` exactly when the language is not installed and a path was found, and, without base languages, stores the comms that pass the explicit rule check as `commtypes` |
| Capability.ConfigureCacheAgrees | yggdrasil/drivers/ModelDriver.py:584-621 | `configure` of a driver without base languages succeeds, and afterwards the configuration-based answer for every supported comm, and for "any comm", equals the explicit rule check |
| Driver.ParseArguments | yggdrasil/drivers/ModelDriver.py:230-258 | an empty argument list fails on `args[0]`; otherwise the first token is `raw_model_file` and the rest are `model_args` in order; `model_dir` is `dirname(model_file)`; the executable language and absolute paths keep the file as given, and any other file is joined to `default_model_dir` (the working directory when not given) and normalised |
| Driver.ParseStringAsList | yggdrasil/drivers/ModelDriver.py:241-253 | a space-joined argument string parses exactly like the list of its words |
| Driver.ModelFileAbsolute | yggdrasil/drivers/ModelDriver.py:254-258 | for any language except `executable`, against an absolute base directory (`default_model_dir`, or the working directory), the model file and model directory are absolute, and a relative file comes out normalised |
| Driver.CopyEnv | yggdrasil/drivers/ModelDriver.py:186-191 | `LANG`, `PATH` and `USER` are copied from the host when present; every other key keeps the driver's value |
| Driver.Construct | yggdrasil/drivers/ModelDriver.py:171-209 | requesting both strace and valgrind raises `RuntimeError("Trying to run with strace and valgrind.")`; on Windows either one alone raises `RuntimeError("strace/valgrind options invalid on windows.")`; an uninstalled language raises `RuntimeError("<language> is not installed")`; a constructed driver is installed, keeps the registry name, working directory and options it was given, holds the arguments parsed against the working directory, and its environment is the given `env` with `LANG`, `PATH` and `USER` copied from `os.environ` where set |
| Driver.RunCommand | yggdrasil/drivers/ModelDriver.py:375-393 | the run command ends with `model_command()`; the prefix is strace (Linux) or dtrace (MacOS) with `strace_flags`, else valgrind with `valgrind_flags`, else nothing; strace on any other system fails because `pre_cmd` is unbound |
| Driver.ConstructedCommandComposes | yggdrasil/drivers/ModelDriver.py:180-181 | a driver that construction accepted never runs under both tools, and on Linux or MacOS its command composes |
| Driver.SetEnv | yggdrasil/drivers/ModelDriver.py:637-648 | the environment holds the driver's keys, all host keys and the two markers; host values override driver values; `YGG_SUBPROCESS` is `True` and `YGG_MODEL_INDEX` is the index as text |
| Driver.ModelIndexReadsBack | yggdrasil/drivers/ModelDriver.py:646-647 | parsing `YGG_MODEL_INDEX` back as digits gives the driver's model index |
| Lifecycle.Drain | yggdrasil/drivers/ModelDriver.py:667-692 | an empty read or a failed read sets the drain break flag and queues `EXIT`; a decoded line is queued; a line that fails to decode changes nothing |
| Lifecycle.DrainQueuesReceived | yggdrasil/drivers/ModelDriver.py:667-692 | draining a stream up to its end queues every decoded line in order, followed by `EXIT`, and sets the drain break flag |
| Lifecycle.RunStep | yggdrasil/drivers/ModelDriver.py:700-718 | an empty queue changes nothing; popping `EXIT` sets the loop break flag; any other line is forwarded |
| Lifecycle.RunForwardsUntilExit | yggdrasil/drivers/ModelDriver.py:700-718 | the run loop forwards exactly the lines before the first `EXIT`, then stops with the rest of the queue untouched |
| Lifecycle.ForwardsEverythingReceived | yggdrasil/drivers/ModelDriver.py:667-718 | draining a whole stream and then running the loop forwards exactly the decoded lines, in order, and sets the loop break flag |
| Lifecycle.Kill | yggdrasil/drivers/ModelDriver.py:768-794 | once the kill flag is set a later call changes nothing; a first call sets the flag, forces at most one kill of an unfinished process, and either completes or raises a bare `AssertionError` when the process cannot be reaped, leaving the completion flag as it was |
| Lifecycle.KillIdempotent | yggdrasil/drivers/ModelDriver.py:775-777 | a second `kill_process` returns without touching the state |
| Lifecycle.AtMostOneForcedKill | yggdrasil/drivers/ModelDriver.py:768-794 | any number of `kill_process` calls kill the process at most once |
| Lifecycle.KillStaysPut | yggdrasil/drivers/ModelDriver.py:768-794 | a state that one kill leaves unchanged is a fixed point of every sequence of kills |
| Lifecycle.AfterLoop | yggdrasil/drivers/ModelDriver.py:720-738 | `after_loop` always ends with the kill flag set; for a driver whose `kill_process` was not called before, an `after_loop` without an exception leaves the kill complete and the process finished |
| Lifecycle.CleanExitNeedsNoKill | yggdrasil/drivers/ModelDriver.py:720-738 | when the drainer joins and the process exits in time, `after_loop` completes without a forced kill or an exception |
| CodeGen.FormatLiteral | yggdrasil/drivers/CModelDriver.py:313-318 | formatting a template with every brace doubled gives the text back (the `{{`/`}}` escapes of the templates) |
| CodeGen.FormatField | yggdrasil/drivers/CModelDriver.py:313-318 | a `{name}` field is replaced by its argument, and a missing argument is a `KeyError` |
| CodeGen.WriteBlock | yggdrasil/drivers/ModelDriver.py:851-877 | without `function_param` the writer raises `NotImplementedError`; it succeeds exactly when the templates it needs exist; the output is the filled opening line, each content line with the indent, then the specific end template or `block_end` |
| CodeGen.BlockBodyOfWrite | yggdrasil/drivers/ModelDriver.py:863-877 | stripping the first and last lines and the indent from a written block gives back the contents |
| CodeGen.CIfBlock | yggdrasil/drivers/ModelDriver.py:851-877 | for C, `write_if_block(cond, xs)` is `if (cond) {`, each line indented by two spaces, then `}` |
| CodeGen.CWhileLoop | yggdrasil/drivers/ModelDriver.py:912-940 | for C, `write_while_loop(cond, xs)` is `while (cond) {`, each line indented by two spaces, then `}` |
| CodeGen.WriteTryExcept | yggdrasil/drivers/ModelDriver.py:941-982 | a try/except block has len(try) + len(except) + 3 lines: `try_begin`, the indented try lines, the filled `try_except` line, the indented except lines, then the closing line; a missing `try_begin` is a `KeyError` |
| CodeGen.CHasNoTry | yggdrasil/drivers/ModelDriver.py:969 | the C table has no `try_begin`, so C try/except fails with `KeyError` |
| CodeGen.CppCatchArgs | yggdrasil/drivers/CPPModelDriver.py:114-119 | if either the error type or the error variable is `...`, the call goes on with type `''` and variable `...`; otherwise both pass through unchanged |
| CodeGen.CppCatchDefault | yggdrasil/drivers/CPPModelDriver.py:65-72 | by default the C++ catch line catches `const std::exception&` under the given name |
| CodeGen.CppCatchAll | yggdrasil/drivers/CPPModelDriver.py:114-119 | naming `...` as the type or the variable gives the catch-all `} catch ( ...) {` |
| CBuild.CompilerCall | yggdrasil/drivers/CModelDriver.py:97-99 | `linker_language` becomes `c++` only when linking and it was not passed; a passed value, even `None`, and `dont_link` are kept |
| CBuild.CompilerCallIdempotent | yggdrasil/drivers/CModelDriver.py:97-99 | applying the keyword policy twice changes nothing more |
| CBuild.CallLinker | yggdrasil/drivers/CModelDriver.py:444-451 | the C driver linking a model, with no language given and interface flags not skipped, links as `c++` with the keywords `update_linker_kwargs` produces and the interface flags skipped; every other call passes through unchanged |
| CBuild.CallLinkerIdempotent | yggdrasil/drivers/CModelDriver.py:444-451 | feeding the linker policy's output back in changes nothing |
| CBuild.UpdateLdLibraryPath | yggdrasil/drivers/CModelDriver.py:470-485 | off Linux the environment is unchanged; on Linux only `LD_LIBRARY_PATH` changes, becoming the previous value with every path not already a substring of it appended (or put in front), joined by `:` |
| CBuild.UpdateLdLibraryPathLoop | yggdrasil/drivers/CModelDriver.py:470-485 | the loop that builds the path list computes the same environment as the functional definition |
| CBuild.LdPathCoversPaths | yggdrasil/drivers/CModelDriver.py:470-485 | afterwards every given path, and the previous value, appear in `LD_LIBRARY_PATH` |
| CBuild.LdLibraryPathIdempotent | yggdrasil/drivers/CModelDriver.py:474-484 | updating twice with the same paths gives the same environment as updating once |
| CBuild.SubstringShadowsEntry | yggdrasil/drivers/CModelDriver.py:476-477 | the substring test means `/opt/lib` is not added when `/opt/lib64` is present |
| CBuild.CSetEnv | yggdrasil/drivers/CModelDriver.py:487-500 | the C driver's environment carries both subprocess markers, and on Linux its library path contains the language directory |
| CBuild.StdFlagIndex | yggdrasil/drivers/CPPModelDriver.py:33-37 | finds the first flag starting with `-std=`, or none when there is none |
| CBuild.CppFlags | yggdrasil/drivers/CPPModelDriver.py:32-39 | `-std=c++11` is appended exactly when no flag starts with `-std=`; the result always has such a flag |
| CBuild.CppFlagsOnce | yggdrasil/drivers/CPPModelDriver.py:33-39 | the rule never adds a second `-std=` flag, and applying it to its own output changes nothing |
| CBuild.CppDefaultCompiler | yggdrasil/drivers/CPPModelDriver.py:78-79 | on MacOS an unset default compiler becomes `clang++`; otherwise it is kept |
| CBuild.RenameInterfaceLibrary | yggdrasil/drivers/CPPModelDriver.py:82-87 | the `ygg` entry moves to `ygg++` with its source extension replaced by `.cpp`; every other entry is unchanged; a missing entry or source is a `KeyError` |
| CBuild.RenamedSourceStem | yggdrasil/drivers/CPPModelDriver.py:82-87 | the renamed source keeps its stem and ends in `.cpp` |
| CTypes.NativeType | yggdrasil/drivers/CModelDriver.py:538-552 | an unknown type is a `KeyError`; a name without `X`, other than `*` and `float`, is returned as mapped; `X` becomes the precision digits; `float` at precision 64 is `double`; `*` becomes the element's native type plus `*`; the result never holds a placeholder |
| CTypes.AsWrittenAgreesOnPlainElements | yggdrasil/drivers/CModelDriver.py:538-552 | the code as written and the corrected rewrite agree whenever no array element type needs rewriting |
| CTypes.ElementRewriteFails | yggdrasil/drivers/CModelDriver.py:540-545 | for a `1darray` of `float` at precision 64, the code as written fails its `datatype` assertion, while the corrected rewrite gives `double*` |
| CTypes.ParseNative | yggdrasil/drivers/CModelDriver.py:569-570 | a native name splits into a non-empty type, digits for the precision, and a count of trailing stars |
| CTypes.ParseWithStars | yggdrasil/drivers/CModelDriver.py:569-570 | a name followed by k stars parses as that name with k pointers |
| CTypes.JsonType | yggdrasil/drivers/CModelDriver.py:555-595 | a description fails exactly when the name does not parse; it has no units, items or properties; zero effective pointers give a scalar, one gives `1darray` and more give `ndarray`, with the scalar as subtype |
| CTypes.StarsWrap | yggdrasil/drivers/CModelDriver.py:586-595 | k stars wrap the scalar k levels deep, one level fewer for `char` |
| CTypes.CharPointers | yggdrasil/drivers/CModelDriver.py:573-595 | `char` and `char*` are both `bytes`; each further star adds an array level |
| CTypes.PlaceholderRoundTrip | yggdrasil/drivers/CModelDriver.py:546-548 | `int`, `uint` and `complex` at any precision map to the C name with the digits spelled in, and `get_json_type` of that name gives the description back |
| CTypes.FloatRoundTrip | yggdrasil/drivers/CModelDriver.py:549-551 | `float` maps to `double` at precision 64 and to `float` otherwise; mapping back gives precision 64 or 32 |
| CTypes.ArrayRoundTrip | yggdrasil/drivers/CModelDriver.py:541-544 | a `1darray` of `int`, `uint` or `complex` maps to the element's C name plus one star, and maps back to the same description |
| CTypes.ArrayOfElement | yggdrasil/drivers/CModelDriver.py:541-544 | an array's native type is its element's native type followed by `*` |
| CTypeDefs.ExpandEntries | yggdrasil/drivers/CModelDriver.py:691-702 | the variable list fails exactly when some entry's native type fails; otherwise it grows by exactly one entry per `char*` description |
| CTypeDefs.EntryLands | yggdrasil/drivers/CModelDriver.py:694-701 | every entry keeps its relative order in the output, and a `char*` description is followed at once by its `<name>_length` companion |
| CTypeDefs.PrepareOutputVariables | yggdrasil/drivers/CModelDriver.py:719-722 | as inputs, every output variable keeps its type and gets `&` in front of its name; otherwise the list is unchanged |
| CTypeDefs.AddressOfRoundTrip | yggdrasil/drivers/CModelDriver.py:719-722 | dropping the leading `&` gives the original variables back |
| CTypeDefs.FirstMissing | yggdrasil/drivers/CModelDriver.py:785-795 | finds the first required key the description lacks, and none exactly when every key is present |
| CTypeDefs.LeafArgs | yggdrasil/drivers/CModelDriver.py:780-798 | the arguments of a leaf constructor fail exactly when a required key is missing, with `KeyError` for the first one in the order the source reads them |
| CTypeDefs.LeafCall | yggdrasil/drivers/CModelDriver.py:780-806 | a non-container definition fails exactly when a key its kind requires is missing, with `KeyError` for the first such key; otherwise the type name is the kind for `ply`, `obj`, `1darray` and `ndarray` and `scalar` for every other kind, and the call is `get_<type name>_type(` followed by its arguments |
| CTypeDefs.TypeDef | yggdrasil/drivers/CModelDriver.py:725-807 | the lines are exactly the reference layout `CTypeDefs.Layout`, which does not depend on the freeing list: a leaf is its one definition line, an array or object its allocations, its members' definitions in order and its own line; with a freeing list the call fails exactly when the layout fails, with the same error, and appends exactly the names `CTypeDefs.FreeNames` lists (members' first, then the container's own); the line count matches the description; a container with no freeing list fails |
| CTypeDefs.ArrayDef | yggdrasil/drivers/CModelDriver.py:748-761 | an array's lines are its layout: the `malloc` of `<name>_items`, the items' definitions in order, then its own `get_json_array_type` line; it appends the items' frees and then `<name>_items` to `requires_freeing`; missing `items` is a `KeyError`; no freeing list fails |
| CTypeDefs.ObjectDef | yggdrasil/drivers/CModelDriver.py:762-779 | an object's lines are its layout: the `malloc`s of `<name>_vals` and `<name>_keys`, per property in order its key line and its value's definition, then its own `get_json_object_type` line; it appends the values' frees and then `<name>_vals` and `<name>_keys`; missing `properties` is a `KeyError` |
| CTypeDefs.ItemDefs | yggdrasil/drivers/CModelDriver.py:756-759 | items `i..` produce exactly their layout (item `i` assigned into `<name>_items[i]` without declaration, then the rest) and fail exactly when it does, with the same error; they append exactly the items' frees in item order |
| CTypeDefs.PropDefs | yggdrasil/drivers/CModelDriver.py:773-777 | properties `i..` produce exactly their layout (the key line `<name>_keys[i] = "key"`, the value declared into `<name>_vals[i]`, then the rest) and fail exactly when it does; they append exactly the values' frees in property order |
| CTypeDefs.ItemsBlockTail | yggdrasil/drivers/CModelDriver.py:756-759 | the lines of items `j..` are the tail of the lines of items `i..` for `i <= j`, so every item's definition comes after those of the items before it |
| CTypeDefs.PropsBlockTail | yggdrasil/drivers/CModelDriver.py:773-777 | the lines of properties `j..` are the tail of the lines of properties `i..` for `i <= j` |
| CTypeDefs.DefLine | yggdrasil/drivers/CModelDriver.py:799-806 | the definition line starts with the serializer declaration, the typed declaration, or the bare name, as `as_seri` and `no_decl` select |
| Sorting.SortedKeys | yggdrasil/serialize/AsciiMapSerialize.py:40 | `sorted` of a set of keys is ordered by Python string order, has one entry per key, and holds exactly the keys |
| Sorting.BelowTotal | yggdrasil/serialize/AsciiMapSerialize.py:40 | any two distinct strings are ordered one way or the other |
| Sorting.BelowTransitive | yggdrasil/serialize/AsciiMapSerialize.py:40 | string order is transitive |
| DictMerge.MergeKeys | yggdrasil/serialize/AsciiMapSerialize.py:94-97 | a key is in the merged dictionary exactly when some object holds it |
| DictMerge.LastWriterWins | yggdrasil/serialize/MatSerialize.py:69-72 | a key takes its value from the last object that holds it |
| DictMerge.MergeLoop | yggdrasil/serialize/AsciiMapSerialize.py:94-97 | the `total.update(x)` loop computes the merge |
| AsciiMap.Serialize | yggdrasil/serialize/AsciiMapSerialize.py:39-50 | serialization succeeds exactly when every key is a string; all-integer keys raise `ValueError`; mixed keys fail inside `sorted` with `TypeError`; the empty dictionary gives the empty text |
| AsciiMap.SerializedLines | yggdrasil/serialize/AsciiMapSerialize.py:39-50 | the output split on the newline is one `key + delimiter + json(value)` line per key, in sorted order, followed by the empty tail |
| AsciiMap.ParseLines | yggdrasil/serialize/AsciiMapSerialize.py:63-78 | parsing fails with `ValueError` exactly when some line holds more than one delimiter |
| AsciiMap.Deserialize | yggdrasil/serialize/AsciiMapSerialize.py:62-79 | a message fails exactly when one of its lines holds more than one delimiter |
| AsciiMap.SkipsBareLine | yggdrasil/serialize/AsciiMapSerialize.py:65-67 | a line without the delimiter, including the empty tail, is skipped |
| AsciiMap.QuotedValue | yggdrasil/serialize/AsciiMapSerialize.py:70-71 | a value in single quotes comes back as the string inside them |
| AsciiMap.ParseValue | yggdrasil/serialize/AsciiMapSerialize.py:72-76 | unquoted text that does not parse as JSON comes back as the raw text |
| AsciiMap.SplitCount | yggdrasil/serialize/AsciiMapSerialize.py:64-66 | splitting gives one more piece than there are separators |
| AsciiMap.RoundTrip | yggdrasil/serialize/AsciiMapSerialize.py:39-79 | for string keys without the delimiter or newline, and encodings without the delimiter, deserializing the serialization gives the dictionary back |
| AsciiMap.ParseEmitted | yggdrasil/serialize/AsciiMapSerialize.py:62-79 | parsing the emitted lines of any key list adds exactly those keys with their values |
| AsciiMap.ParseSorted | yggdrasil/serialize/AsciiMapSerialize.py:62-79 | the lines of a whole dictionary in sorted key order, followed by the empty last piece, parse back to that dictionary |
| AsciiMap.Concatenate | yggdrasil/serialize/AsciiMapSerialize.py:94-97 | one dictionary, holding exactly the keys of all objects, each with the value of the last object that has it; no objects give `[{}]` |
| Pandas.Missing | yggdrasil/serialize/PandasSerialize.py:58-61 | the missing field names are exactly those not among the columns; none missing, or all missing, are recognised exactly |
| Pandas.ApplyFieldNames | yggdrasil/serialize/PandasSerialize.py:49-74 | no field names leave the frame unchanged; a count mismatch or a partial overlap raises `RuntimeError`; on success the column names are the field names, relabelled by position when none match and selected by name when all match |
| Pandas.ApplyFieldNamesIdempotent | yggdrasil/serialize/PandasSerialize.py:49-74 | applying distinct field names to an already aligned frame changes nothing |
| Pandas.Relabel | yggdrasil/serialize/PandasSerialize.py:66 | relabelling keeps every column's cells by position |
| Pandas.Select | yggdrasil/serialize/PandasSerialize.py:73 | `frame[field_names]` has the field names in order and only columns of the frame |
| Pandas.SelectPermutes | yggdrasil/serialize/PandasSerialize.py:73 | with distinct names covering the columns, selecting reorders the columns without losing or duplicating any |
| Pandas.SelectOwnNames | yggdrasil/serialize/PandasSerialize.py:73 | selecting a frame's own distinct names gives the frame |
| Pandas.SerializeHeader | yggdrasil/serialize/PandasSerialize.py:298-299 | `serialize_header` turns the header on and marks it as written once |
| Pandas.AfterMessage | yggdrasil/serialize/PandasSerialize.py:105-106 | after a message with `write_header_once`, the header is off; otherwise the flags stay |
| Pandas.DecodeColumn | yggdrasil/serialize/PandasSerialize.py:96-97 | a column keeps its label and length; every cell is decoded exactly when the first cell is bytes |
| Pandas.DecodeBytesColumns | yggdrasil/serialize/PandasSerialize.py:95-97 | the column loop raises `KeyError` exactly when some column is empty; otherwise it keeps the column labels and decodes each column on its own |
| Pandas.DecodeWithoutBytes | yggdrasil/serialize/PandasSerialize.py:95-97 | a frame with no bytes column comes out of the loop unchanged |
| Pandas.Serialize | yggdrasil/serialize/PandasSerialize.py:86-113 | a non-DataFrame raises `TypeError`; a frame with an empty column raises `KeyError` on `column[0]`; a frame fails exactly when it has an empty column or field-name alignment fails; on success the text is `to_csv` of the decoded, aligned frame, with the header exactly when `dont_write_header` is off, and its platform newlines replaced; the flags are updated as after a message |
| Pandas.Aligned | yggdrasil/serialize/PandasSerialize.py:95-98 | the frame handed to `to_csv` exists exactly when no column is empty and the field names align, and then carries the field names (or the frame's own names when there are none) |
| Pandas.SerializeAll | yggdrasil/serialize/PandasSerialize.py:86-113 | successive messages on one serializer fail exactly when some message is not a frame, has an empty column or cannot be aligned; otherwise there is one text per message |
| Pandas.SerializeAllHeaders | yggdrasil/serialize/PandasSerialize.py:99-106 | in a run of messages, message `k` is the `to_csv` text of its aligned frame, with the header exactly when `Headers` gives `true` at `k` |
| Pandas.HeaderOnlyInFirst | yggdrasil/serialize/PandasSerialize.py:99-106 | after `serialize_header`, only the first message of a run is written with a header |
| Pandas.HeaderWrittenOnce | yggdrasil/serialize/PandasSerialize.py:103-106 | after `serialize_header`, the next message has a header and every later one has none |
| Pandas.SteadyHeaders | yggdrasil/serialize/PandasSerialize.py:103-106 | without the write-once flag (or with the header already off), every message does the same |
| Pandas.Concatenate | yggdrasil/serialize/PandasSerialize.py:241-246 | no frames give `[]`; otherwise one frame with the same column names whose cells are the inputs stacked in order |
| Pandas.StackedCellsAppend | yggdrasil/serialize/PandasSerialize.py:246 | stacking two runs of frames gives the rows of the first run followed by those of the second |
| Pandas.ConcatenateSingle | yggdrasil/serialize/PandasSerialize.py:246 | concatenating one frame gives that frame back |
| Pandas.ConcatenateAssociative | yggdrasil/serialize/PandasSerialize.py:241-246 | concatenating two runs and then the two results is the same as concatenating both runs at once |
| MatSer.Serialize | yggdrasil/serialize/MatSerialize.py:30-37 | a non-dictionary raises `TypeError("Object (type T) is not a dictionary")`; a dictionary is handed to `savemat` |
| MatSer.DeleteKeys | yggdrasil/serialize/MatSerialize.py:51-53 | deleting succeeds exactly when the keys are distinct and present; then exactly those keys are gone and all others keep their values; otherwise it is a `KeyError` for one of the keys |
| MatSer.Deserialize | yggdrasil/serialize/MatSerialize.py:49-55 | the three metadata keys are removed and every other key of the loaded map keeps its value; a missing metadata key is a `KeyError` |
| MatSer.RoundTrip | yggdrasil/serialize/MatSerialize.py:30-55 | for a dictionary without metadata keys and a lawful `savemat`/`loadmat`, deserializing the serialization gives it back |
| MatSer.Concatenate | yggdrasil/serialize/MatSerialize.py:69-72 | one dictionary, holding exactly the keys of all objects, each with the value of the last object that has it; no objects give `[{}]` |
| Paths.NormPathIdempotent | yggdrasil/drivers/ModelDriver.py:256-257 | normalising a normalised path changes nothing |
| Paths.NormPathAbs | yggdrasil/drivers/ModelDriver.py:256-257 | the normal form of an absolute path is absolute |
| Paths.DirName | yggdrasil/drivers/ModelDriver.py:258 | `dirname` is a prefix of the path, empty without a separator, and absolute for an absolute path |
| Paths.SplitExt | yggdrasil/drivers/CPPModelDriver.py:86-87 | `splitext` splits a path into stem and extension that concatenate back to it, the extension empty or a dot with no separator |

## Left out

- Process spawning and I/O: `run_executable`, `popen_nobuffer`, the reads and closes of the process's stdout, `language_version` and `get_OSX_SYSROOT`. These are external effects; a read's outcome is a parameter of `Lifecycle.Drain`.
- Threads, events, `join`/`wait` timeouts, `sleep` and `wait_process` polling. The lifecycle is a sequential state machine. Whether the drainer joins, whether the process exits in time, and whether it can be reaped are inputs.
- Lifecycle.RunStep: an empty queue is modelled as "no change", so the sleep in `run_loop` and any concurrent refill of the queue are not modelled.
- `remove_products`, `write_wrappers` and `after_registration`. They are filesystem effects or tool lookups in files that are not part of this model; `Driver.Construct` keeps the product list empty.
- The parent classes' `get_native_type`, `get_json_type`, `prepare_variables`, `get_flags`, `update_compiler_kwargs` and `get_field_names` are not part of this model. The type map is a table, the reverse lookup is a function parameter constrained by `CTypes.InvertsTypeMap`, the C++ flags start from the given list, and the field names are a parameter.
- CTypeDefs.TypeDef, ArrayDef, ObjectDef, ItemDefs and PropDefs return the freed names with the result. The source appends them to the caller's list in place, so on an error the caller's list keeps the names appended before it. The model's failure does not carry those names.
- CTypeDefs.ExpandEntries ends at the expanded list; the parent's joining of the names into one string is not modelled.
- `CodeGen`: only the `str.format` features the templates use (literal text, doubled braces, named fields) are modelled; conversions, format specs and positional fields are not.
- CodeGen.WriteTryExcept: `error_type=None` is looked up in `try_error_type`, and a missing entry formats as the text `None`.
- Driver.SetEnv copies all of `os.environ`, as the code does.
- `os.path` functions are modelled for POSIX paths only.
- `Capability`: `tools.which`, `is_library_installed`, the persisted configuration, the platform and `tools.get_supported_comm()` are inputs. `configure_libraries` and `update_language_config` are not modelled.
- Capability.Configure requires the driver to name a language. The list of options that could not be set, which `configure_libraries` produces, is not modelled. `locate_file` is an input.
- Capability.ConfigureCacheAgrees and Capability.ConfiguredComms: `commtypes` is stored as the text `str(comms)` and is assumed to read back as the same list. The `cfg` that `configure` fills is assumed to be the `ygg_cfg` that `is_comm_installed` reads.
- CBuild.CallLinker: `update_linker_kwargs` is defined in a file that is not part of this model. It is a parameter giving the keywords after the update, so nothing is promised about `for_model` or the other keywords of a switched call beyond what it returns.
- Strings.IsSpace and Strings.IsDigit cover ASCII characters only. IsSpace accepts every ASCII character that `str.split` and `\s` treat as whitespace, including U+001C to U+001F. Non-ASCII whitespace such as U+0085 and U+00A0, and non-ASCII digits, which `str.split`, `\s` and `\d` also accept, are not covered. This affects Driver.ParseArguments, Driver.ParseStringAsList and CTypes.ParseNative.
- Capability.WellFormed requires the base-language graph to be ranked (acyclic). The source would recurse without end on a cycle.
- JSON encoding and decoding are an abstract `Codec`. Its law (`AsciiMap.Lawful`) says that `loads` undoes `dumps`, that a dump holds no newline and that a dump does not start with a quote. Floats and nested objects are not among the modelled JSON values.
- AsciiMap: the delimiter and newline are single characters. Keys are strings or integers; other key types are not modelled. The exact `TypeError` text raised by `sorted` on mixed keys is not modelled.
- `bytes`/`str` conversions (`as_bytes`, `as_str`) are identity here. The bytes test and UTF-8 decoding of a pandas cell are function parameters.
- Pandas.DecodeBytesColumns: `args_[c][0]` is modelled as the first cell of the column, which assumes the default index 0..n-1. A frame with another index, whose labels do not include 0, would raise `KeyError` even when no column is empty. Decoding a cell is assumed to succeed; the `AttributeError` or `UnicodeDecodeError` it can raise is not modelled.
- Pandas.Serialize: requires a non-empty platform newline, which `platform._newline` always is. `to_csv` is a function parameter, and the replacement of the platform newline is modelled as text replacement on its output.
- `func_deserialize` of the pandas serializer (`read_csv`, dtype conversions) is not modelled.
- Pandas concatenation of lists (the `as_array` branch) is not modelled.
- Pandas.Concatenate requires the frames to have the same column names; pandas would align differing columns and fill in NaN.
- Pandas.ColumnNamed and Pandas.Select: with duplicate column labels the first match is taken, where pandas would return every match.
- Pandas.ListRepr does not reproduce Python's choice of quote character in `repr`.
- `MatSer`: `savemat` and `loadmat` are function parameters. The value conversions of `loadmat(matlab_compatible=True)` are idealised away by the law `MatSer.Lawful`.
- The YAML and Pickle serializers, the example models and the component registry have no logic of their own to model.

## Findings

| source | as written | input that shows it | evidently intended | confidence | as-written member | corrected member |
|---|---|---|---|---|---|---|
| yggdrasil/drivers/ModelDriver.py:559-563 | with `commtype=None` and `skip_config=True`, the loop calls `is_comm_installed(commtype=c)` without passing `skip_config` on, so each comm is looked up in the configured list | a C driver on Linux whose rules admit `ipc` but whose configuration has no `commtypes`: the call answers False | the explicit rule check for some supported comm (True here) | medium, not executed | Capability.AnyCommAsWrittenConsultsConfig | Capability.SkipConfigIgnoresConfig |
| yggdrasil/drivers/CModelDriver.py:540-545 | the element call passes the subtype as `type=`, but the rewrite reads `datatype` and asserts it is a dict | `get_native_type(datatype={'type': '1darray', 'subtype': 'float', 'precision': 64})` reaches the element call with `datatype` unset and fails the assertion | `double*` | medium, not executed | CTypes.ElementRewriteFails | CTypes.ArrayRoundTrip |
