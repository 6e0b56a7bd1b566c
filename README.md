# Foreign-snippet runners for Bun, modelled in Dafny

This project models the snippet-execution engine of *In-the-next-version-of-Bun*.
That repository adds `Bun.Rust`, `Bun.Cpp`, `Bun.Go`, `Bun.PHP` and `Bun.Open`
to the runtime.

- **Rust and C++ engines.** A tagged template literal becomes a snippet of Rust
  or C++. The snippet is wrapped in a scaffold when it has no `main` of its own.
  The program is compiled once per content hash, into a build directory that is
  kept between calls. The binary is run and its output is turned into a
  `Result`.
- **Rust dependencies.** A Rust snippet whose comment reads
  `// cargo-deps: ...` is built with Cargo. The engine writes a manifest that
  declares `serde` and `serde_json` when the snippet does not.
- **Rust result protocol.** The scaffold prints the value between
  `__JS_RESULT__=OK<<<EOT` (or `__JS_RESULT__=ERR<<<EOT`) and a line `EOT`.
  The engine extracts that payload, parses it as JSON, and falls back to the
  program's whole stdout when neither marker is present.
- **Go, PHP and Open front ends.**
  - Go and PHP hand the snippet to `yaegi -e` and `php -r` through Bun's shell.
  - Go drops lines that are bare pointer values, such as `0xc000012345`.
  - PHP strips `<?php` and `?>`.
  - Open builds a `schema://path?query` URI and spawns the platform's opener.

## How the model is built

- **External collaborators are parameters.** Everything outside the code is a
  function parameter:
  - a process run is an `Execution(exitCode, stdout, stderr)` that a `build`,
    `runner` or `shell` function returns;
  - `JSON.parse` is `parse: string -> Option<Json>`, with `None` where it
    throws;
  - `Bun.which` becomes a boolean per tool;
  - `URLSearchParams` becomes `encode`;
  - `Bun.spawn`'s immediate `exitCode` becomes `spawn`.
- **Cache and hash.**
  - The on-disk build cache is the class `BuildCache.ArtifactCache`. Its field
    `built` is the set of keys that have a binary.
  - The SHA-256 of the JSON-encoded `{mode, deps, source}` is the datatype
    `CacheKey(mode, deps, source)`. The model therefore takes the digest to be
    collision-free.
- **Results.** A returned `Result` is `Results.Result<Json, EngineError>`.
  `EngineTypes.Unwrap` says what `unwrap()` returns or throws.

| file | module | what it holds |
|---|---|---|
| `results.dfy` | `Results` | `Option`, `Result` with `IsOk`, `IsErr`, `UnwrapOr` |
| `js_text.dfy` | `JsText` | the JavaScript string operations the code uses: `trim`, `indexOf`, `includes`, `startsWith`, `endsWith`, `slice`, `split`, `join` |
| `engine_types.dfy` | `EngineTypes` | process results, JSON values, the error taxonomy and `unwrap` |
| `templates.dfy` | `Templates` | template interleaving (the Rust/C++ loop, the Go/PHP `reduce`) |
| `entry_point.dfy` | `EntryPoint` | the `\bfn\s+main\s*\(` / `\bint\s+main\s*\(` entry-point test |
| `rust_snippet.dfy` | `RustSnippet` | the `cargo-deps` directive and `prepareRustSource` |
| `cargo_manifest.dfy` | `CargoManifest` | `splitTopLevelCommaSeparated`, serde injection, the TOML manifest |
| `wire_protocol.dfy` | `WireProtocol` | `extractDelimited`, payload decoding, run classification |
| `build_cache.dfy` | `BuildCache` | cache keys and the artifact cache |
| `rust_engine.dfy` | `RustEngine` | `rust()`: checks, build plan, build, run |
| `cpp_engine.dfy` | `CppEngine` | `runCpp()` and its own interleaving and scaffold |
| `shell_front.dfy` | `ShellFront` | the `$.ShellError` handling shared by Go and PHP |
| `go_runner.dfy` | `GoRunner` | `runYaegi()` |
| `php_runner.dfy` | `PhpRunner` | `runPHP()` |
| `open_uri.dfy` | `OpenUri` | `runOpen()` |

### Details of the code the model keeps

- **Cache location.** Build directories live under `.bun/rust`,
  `.bun/rust-cargo` and `.bun/cpp` in the working directory. The model keeps
  only the keys, so this does not show in any contract.
- **The `cargo-deps` directive.** It is not required to sit on one line of its
  own:
  - the keyword is matched case-insensitively;
  - the `\s*` after the colon also skips line breaks;
  - the capture runs to the end of the line where the list starts.

  `RustSnippet.CargoDeps` matches that.
- **Legacy fallback.** On a run without markers that exits with 0, the value
  is the trimmed stdout *parsed as JSON when it parses*, not the trimmed text
  as such. For example, `42` becomes a number. See `WireProtocol.Classify`.
- **Go and PHP failures.** Errors are thrown, not returned. The model gives
  them as `Err(message)` of a `Result<string, string>`.

## Model

| member | source | states |
|---|---|---|
| Results.Result.UnwrapOr | bun-rust/setup.ts:14-30 | `unwrapOr(d)` is the value on success and `d` on failure |
| EngineTypes.Thrown | bun-rust/setup.ts:394-416 | a run failure throws its decoded error payload; without one it throws an `Error` carrying stderr, or stdout when stderr is empty; a compile failure throws the compiler's stderr; a missing tool throws its fixed message |
| EngineTypes.Unwrap | bun-rust/setup.ts:14-30 | `unwrap()` returns exactly when the result is `ok`, returns its value, and otherwise throws what `Thrown` gives for the error |
| Templates.InterleaveTemplate | bun-rust/setup.ts:38-45 | the loop's output is the interleaving of the fragments with the stringified expressions |
| Templates.InterleavedIsZipped | bun-rust/setup.ts:38-45 | for a template (one more fragment than values) the interleaving is fragment₀ value₀ fragment₁ … fragmentₙ |
| Templates.ExtraValuesIgnored | bun-rust/setup.ts:38-45 | values beyond the number of fragments never reach the output |
| Templates.ReducedIsInterleaved | bun-go/setup.ts:16-17 | the `reduce` with `values[i] ?? ''` equals the interleaving with missing values rendered as the empty string |
| Templates.SnippetCode | bun-go/setup.ts:15-20 | a plain string is used as is; a template is interleaved with nullish values as `''` |
| Templates.Texts | bun-go/setup.ts:17 | each value is rendered by `?? ''` and the count is kept |
| EntryPoint.PlainSignature | bun-rust/setup.ts:107-108 | `fn main(` at a word boundary satisfies the entry-point test |
| EntryPoint.SignatureInText | bun-rust/setup.ts:107-108 | any text with `<kw> main(` after a non-word character or at the start has an entry point |
| EntryPoint.NoMainNoSignature | bun-rust/setup.ts:107-108 | text without `main` never has an entry point |
| RustSnippet.AsciiLower | bun-rust/setup.ts:186 | the `i` flag folds exactly `A`–`Z` to lower case |
| RustSnippet.DirectiveColon | bun-rust/setup.ts:186 | when found, the position is after `//`, optional spaces, the `cargo-deps` keyword and optional spaces, or there is none |
| RustSnippet.LineEnd | bun-rust/setup.ts:186 | `(.*)` stops at the first line terminator |
| RustSnippet.CaptureAfter | bun-rust/setup.ts:186 | the captured list holds no line terminator and does not start with white space |
| RustSnippet.CargoDepsFrom | bun-rust/setup.ts:186 | a capture holds no line terminator and does not start with white space |
| RustSnippet.CargoDeps | bun-rust/setup.ts:186 | the dependency list holds no line terminator |
| RustSnippet.CargoDepsFromFound | bun-rust/setup.ts:186 | the search from a position succeeds exactly when a directive occurs at or after it |
| RustSnippet.CargoModeIffDirective | bun-rust/setup.ts:186-187 | Cargo mode is chosen if and only if the snippet contains a `cargo-deps` directive |
| RustSnippet.CargoDepsLeftmost | bun-rust/setup.ts:186 | the dependency list is the one captured at the leftmost directive |
| RustSnippet.DirectiveOnFirstLine | bun-rust/setup.ts:186 | `// cargo-deps: <list>` on the first line yields exactly `<list>` |
| RustSnippet.PrepareRustSource | bun-rust/setup.ts:105-142 | the result always starts with the allow header; a snippet with its own `fn main(` is kept verbatim after it, any other is wrapped in the scaffold |
| RustSnippet.ScaffoldWrapsCode | bun-rust/setup.ts:109-141 | the scaffold is header, head, the user's code unchanged, tail |
| RustSnippet.HeadOpensClosure | bun-rust/setup.ts:111-115 | the user's code is placed inside `let __res = (|| {` |
| RustSnippet.TailCallsClosure | bun-rust/setup.ts:117 | the closure is closed and called right after the user's code |
| RustSnippet.ScaffoldOkArm | bun-rust/setup.ts:119-131 | the `Ok` arm prints the OK marker, the value and `EOT` on stdout |
| RustSnippet.ScaffoldErrArm | bun-rust/setup.ts:132-137 | the `Err` arm prints the ERR marker, the error and `EOT` on stderr and exits with 1 |
| RustSnippet.ScaffoldImportsSerde | bun-rust/setup.ts:113 | in Cargo mode the scaffold imports `serde_json` |
| RustSnippet.ScaffoldWithoutSerde | bun-rust/setup.ts:110-141 | in rustc mode nothing of the scaffold names `serde_json` |
| RustSnippet.ScaffoldHasMain | bun-rust/setup.ts:109-141 | the scaffold itself passes the entry-point test, so preparing twice is harmless |
| RustSnippet.MainLineSignature | bun-rust/setup.ts:114 | the scaffold's `fn main()` line is an entry point wherever it starts a line |
| CargoManifest.Close | bun-rust/setup.ts:91-95 | a closing bracket lowers its depth by one and never below zero |
| CargoManifest.Step | bun-rust/setup.ts:71-99 | a comma splits exactly when it is not escaped, not quoted and at depth zero in all three bracket kinds; a backslash inside a string escapes the next character |
| CargoManifest.EscapedQuoteStaysInString | bun-rust/setup.ts:74-84 | a backslash followed by the quote character leaves the lexer inside the same string |
| CargoManifest.Cleaned | bun-rust/setup.ts:102 | every piece kept is trimmed and not empty |
| CargoManifest.SplitTopLevel | bun-rust/setup.ts:63-103 | every resulting entry is trimmed and not empty |
| CargoManifest.SplitTopLevelCommaSeparated | bun-rust/setup.ts:63-103 | the loop computes the specification split |
| CargoManifest.ScanRejoins | bun-rust/setup.ts:71-100 | joining the pieces of any prefix with `,` gives back that prefix: no character is lost or moved |
| CargoManifest.PiecesRejoin | bun-rust/setup.ts:63-103 | joining all raw pieces with `,` gives back the input |
| CargoManifest.CleanedDropsBlank | bun-rust/setup.ts:101-102 | a blank last piece adds no entry |
| CargoManifest.SplitIgnoresFinalCheck | bun-rust/setup.ts:101-102 | pushing the last piece unconditionally and filtering gives the same entries |
| CargoManifest.PlainPiecesAreSplit | bun-rust/setup.ts:63-103 | without brackets, quotes or backslashes the splitter is `split(',')` |
| CargoManifest.DepName | bun-rust/setup.ts:230-234 | a dependency's name is trimmed and contains no `=` |
| CargoManifest.NamedEntry | bun-rust/setup.ts:230-234 | the name of `name = value` is `name` |
| CargoManifest.InjectedNames | bun-rust/setup.ts:236-241 | the injected entries are named `serde` and `serde_json` |
| CargoManifest.WithSerde | bun-rust/setup.ts:236-241 | the user's entries come first and unchanged, followed by at most two more |
| CargoManifest.InjectSerde | bun-rust/setup.ts:229-241 | the method appends the serde entries as the specification says |
| CargoManifest.SerdeDeclared | bun-rust/setup.ts:236-241 | after injection both `serde` and `serde_json` are declared |
| CargoManifest.AddedOnlyWhenMissing | bun-rust/setup.ts:236-241 | the user's entries are kept in order, and each serde entry is added if and only if its name was missing |
| CargoManifest.InjectionIdempotent | bun-rust/setup.ts:236-241 | injecting twice is injecting once |
| CargoManifest.DepValue | bun-rust/setup.ts:248-250 | the value after the first `=` is trimmed and non-empty (`"*"` when blank) |
| CargoManifest.DepLine | bun-rust/setup.ts:243-251 | a table or array entry is passed through; any other line ends with its value or with `"*"` |
| CargoManifest.DepLineShape | bun-rust/setup.ts:242-252 | a bare name becomes `name = "*"`, a pair becomes `name = value` |
| CargoManifest.DepLineKeepsName | bun-rust/setup.ts:242-252 | rendering an entry as a TOML line keeps its name |
| CargoManifest.DepLineIdempotent | bun-rust/setup.ts:242-252 | rendering a rendered line changes nothing |
| CargoManifest.RenderedLine | bun-rust/setup.ts:242-252 | an already normal `name = value` line is rendered as itself |
| CargoManifest.NameHasNoTable | bun-rust/setup.ts:245-248 | a name never looks like a table when the whole entry does not |
| CargoManifest.ValueHasNoTable | bun-rust/setup.ts:245-250 | a value never looks like a table when the whole entry does not |
| CargoManifest.DepLines | bun-rust/setup.ts:242-252 | one TOML line per entry, in order |
| CargoManifest.ManifestLayout | bun-rust/setup.ts:254-263 | the manifest is the package section, then the dependency lines, then a final newline |
| CargoManifest.ManifestHasEntry | bun-rust/setup.ts:254-263 | every dependency's line occurs in the manifest |
| CargoManifest.ManifestDeclaresSerde | bun-rust/setup.ts:229-263 | every manifest built from a directive declares `serde` and `serde_json` |
| WireProtocol.ExtractDelimited | bun-rust/setup.ts:152-160 | with the corrected search, the payload exists exactly when the delimited content does, and is that content trimmed |
| WireProtocol.ExtractDelimitedAsWritten | bun-rust/setup.ts:152-160 | as written, the payload exists exactly when the as-written content does, and is that content trimmed |
| WireProtocol.DelimitedContent | bun-rust/setup.ts:152-160 | corrected search: no content without a start marker |
| WireProtocol.DelimitedContentAsWritten | bun-rust/setup.ts:152-160 | search as written: no content without a start marker |
| WireProtocol.ContentFollowsMarker | bun-rust/setup.ts:152-160 | with the corrected search, found content lies after the first start marker and ends where an end marker begins |
| WireProtocol.ExtractFramedPayload | bun-rust/setup.ts:152-160 | text framed as marker, newline, payload, newline, `EOT` yields the trimmed payload |
| WireProtocol.NothingAfterFinalMarker | bun-rust/setup.ts:152-160 | with the intended search, a start marker at the very end of the text frames nothing |
| WireProtocol.FinalMarkerAsWritten | bun-rust/setup.ts:155-158 | as written, an OK marker at the very end of the text frames the empty string |
| WireProtocol.FinalMarkerFramesNothing | bun-rust/setup.ts:155-158 | corrected, an OK marker at the very end frames nothing |
| WireProtocol.ParseOr | bun-rust/setup.ts:360-364 | the parsed value when `JSON.parse` succeeds, the text itself when it throws |
| WireProtocol.Reparse | bun-rust/setup.ts:362-370 | a string that looks like an object or array once trimmed, and parses, is replaced by its parse; non-strings, other strings and strings whose second parse fails are left alone |
| WireProtocol.DecodePayload | bun-rust/setup.ts:358-370 | a non-string JSON payload is returned parsed; a payload that parses to a string is re-parsed when that string, trimmed, looks like an object or array and parses, else kept as that string; an unparsable payload is kept as text, or parsed after trimming when it looks structured |
| WireProtocol.Classify | bun-rust/setup.ts:356-442 | the OK payload wins, then the ERR payload, then a non-zero exit is a run failure, else the legacy value |
| WireProtocol.LegacyValue | bun-rust/setup.ts:418-433 | empty stdout is the empty string; other stdout is its parsed value, or the text when it does not parse and does not look structured |
| WireProtocol.ResolveRun | bun-rust/setup.ts:352-442 | every failure is a run failure carrying the exit status and both trimmed streams; it fails exactly when there is no OK payload and there is an ERR payload or a non-zero exit |
| WireProtocol.ResolveRunAsWritten | bun-rust/setup.ts:352-442 | as written, every failure is a run failure carrying the exit status and both trimmed streams; it fails exactly when the as-written search finds no OK payload and there is an ERR payload or a non-zero exit |
| WireProtocol.ResolvedSuccess | bun-rust/setup.ts:356-379 | an OK payload on stdout resolves to its decoded value |
| WireProtocol.ResolvedFailure | bun-rust/setup.ts:380-402 | an ERR payload on stderr without an OK payload resolves to a run failure carrying it |
| WireProtocol.SuccessFrameRoundTrip | bun-rust/setup.ts:119-131 | what the scaffold's `Ok` arm prints (after any earlier output) resolves to the decoded trimmed payload |
| WireProtocol.FailureFrameRoundTrip | bun-rust/setup.ts:132-137 | what the `Err` arm prints on stderr resolves to a run failure carrying the decoded payload |
| WireProtocol.PanicAfterMarkerAsWritten | bun-rust/setup.ts:155-158 | as written, a failing run whose trimmed stdout ends with the OK marker extracts the empty payload and resolves to `Ok` of the decoded empty string |
| WireProtocol.PanicAfterMarkerIsFailure | bun-rust/setup.ts:404-416 | corrected, that run resolves to a run failure with its exit code and output |
| WireProtocol.Framed | bun-rust/setup.ts:119-131 | the printed frame's length and its leading part |
| BuildCache.ArtifactCache.constructor | bun-rust/setup.ts:51-53 | a fresh cache holds no artifacts |
| BuildCache.ArtifactCache.Record | bun-rust/setup.ts:268-272 | a successful build adds exactly its key to the cache |
| RustEngine.KeyDeterminesBuild | bun-rust/setup.ts:211-214 | equal cache keys mean equal build inputs, so a hit never reuses a wrong binary |
| RustEngine.CargoSource | bun-rust/setup.ts:212-213 | code with its own `fn main(` is compiled as is (without the allow header), other code in the serde scaffold; the result always has an entry point |
| RustEngine.PlanFor | bun-rust/setup.ts:186-296 | the key names exactly the source that is compiled, and Cargo mode goes with a Cargo build |
| RustEngine.RustCall | bun-rust/setup.ts:162-447 | without rustc, a check failure and no change; the cache gains at most this call's key; a check or compile failure leaves the cache unchanged |
| RustEngine.PlanMode | bun-rust/setup.ts:186-296 | the Cargo build is planned if and only if the snippet has a directive, with the directive's list in the key |
| RustEngine.Rust | bun-rust/setup.ts:162-447 | the method's result and new cache are those of `RustCall`, which classifies the run with the corrected end-marker search |
| RustEngine.RustcCheckedFirst | bun-rust/setup.ts:167-183 | without rustc the call fails at the check stage, changes nothing and `unwrap()` throws "rustc not found in PATH." |
| RustEngine.CargoNeededOnlyForDirective | bun-rust/setup.ts:196-209 | with rustc but without Cargo, a snippet with a directive fails at the check stage |
| RustEngine.ResolveNeverMissing | bun-rust/setup.ts:356-442 | a run never fails at the check or compile stage |
| RustEngine.CacheGrowsOnlyBySuccess | bun-rust/setup.ts:268-327 | the cache changes only by this call's key after a successful build; a compile failure leaves it unchanged and reports the compiler's stderr |
| RustEngine.CacheHitSkipsBuild | bun-rust/setup.ts:224-327 | on a cache hit the build is not consulted |
| RustEngine.RustCompileFails | bun-rust/setup.ts:268-289 | with the tools found and no cached binary, a failing build is a compile-stage error with the compiler's exit code and stderr, and nothing is cached |
| RustEngine.RustRuns | bun-rust/setup.ts:224-442 | with the tools found and a binary cached or built, the outcome is the resolution of that binary's run, and its key is cached |
| RustEngine.SecondCallReusesBuild | bun-rust/setup.ts:224-327 | once a call has built (or found) the binary, a second call with the same code gives the same result without building |
| CppEngine.Render | bun-cpp/setup.ts:49 | a scalar is its text; an array is `{ `, its elements joined by `, `, then ` }` |
| CppEngine.CppKey | bun-cpp/setup.ts:108-109 | the key is in C++ mode, carries no dependencies, and names a source with an entry point |
| CppEngine.CppCall | bun-cpp/setup.ts:88-182 | without a compiler, a check failure and no change; the cache gains at most this call's key; a check or compile failure leaves the cache unchanged |
| CppEngine.Rendered | bun-cpp/setup.ts:49 | each argument rendered, in order |
| CppEngine.InterleaveCpp | bun-cpp/setup.ts:44-52 | the loop's output is the interleaving of the fragments with the rendered arguments |
| CppEngine.ArrayRendersAsList | bun-cpp/setup.ts:49 | an array argument becomes a braced initializer list holding each element |
| CppEngine.ArrayListInOrder | bun-cpp/setup.ts:49 | an empty array is `{  }`, one element `{ x }`, and each further element is placed last after `, ` |
| CppEngine.ScalarsAsInRust | bun-cpp/setup.ts:44-52 | without arrays the C++ interleaving is the Rust one |
| CppEngine.PrepareCppSource | bun-cpp/setup.ts:67-86 | a snippet with its own `int main(` is kept verbatim, any other is wrapped in the scaffold |
| CppEngine.CppScaffoldWrapsCode | bun-cpp/setup.ts:71-85 | the scaffold is head, the user's code unchanged, tail |
| CppEngine.CppScaffoldReports | bun-cpp/setup.ts:80-82 | the scaffold reports a caught exception's `what()` on stderr |
| CppEngine.PreparedHasMain | bun-cpp/setup.ts:67-86 | every prepared source has an entry point |
| CppEngine.CppMainLineSignature | bun-cpp/setup.ts:74 | the scaffold's `int main() {` line is an entry point |
| CppEngine.SelectCompiler | bun-cpp/setup.ts:93 | `g++` when present, else `clang++`, and none exactly when neither is found |
| CppEngine.CppRunOutcome | bun-cpp/setup.ts:144-169 | a run succeeds exactly when the process does, with the trimmed stdout as a string; otherwise a run failure with trimmed stdout and stderr |
| CppEngine.RunCpp | bun-cpp/setup.ts:88-182 | the method's result and new cache are those of the specification of one call |
| CppEngine.CompilerNotInKey | bun-cpp/setup.ts:109-116 | on a cache hit the result does not depend on which compiler was found |
| CppEngine.CppCompileFails | bun-cpp/setup.ts:116-135 | with a compiler found and no cached binary, a failing build is a compile-stage error with the compiler's exit code and stderr, and nothing is cached |
| CppEngine.CppRuns | bun-cpp/setup.ts:116-169 | with a compiler found and a binary cached or built, the outcome is that of the binary's run, and its key is cached |
| CppEngine.CppHitSkipsBuild | bun-cpp/setup.ts:116 | when the binary exists the compiler is not invoked and the cache is unchanged |
| CppEngine.CppSuccessIsText | bun-cpp/setup.ts:116-169 | a successful call leaves its key in the cache and returns the trimmed stdout as text, also through `unwrap`/`unwrapOr` |
| CppEngine.CppRunFailureRaises | bun-cpp/setup.ts:147-158 | a failed run makes `unwrap()` throw stderr (or stdout) and `unwrapOr(d)` return `d` |
| CppEngine.CppNeedsCompiler | bun-cpp/setup.ts:93-105 | without a compiler the call fails at the check stage and changes nothing |
| ShellFront.ShellResult | bun-go/setup.ts:27-40 | the call succeeds exactly when the shell does; a failure reports the install hint when stderr says "command not found:", else stderr |
| GoRunner.WrapGo | bun-go/setup.ts:22 | code containing `func main()` runs as is; other code is wrapped in `package main` and a `main` |
| GoRunner.PreludeHasMain | bun-go/setup.ts:22 | the wrapper supplies `func main()` |
| GoRunner.WrappedHasMain | bun-go/setup.ts:22 | wrapped code always contains `func main()`, so wrapping is idempotent |
| GoRunner.YaegiPath | bun-go/setup.ts:25 | `yaegi` when found, else `~/go/bin/yaegi` |
| GoRunner.KeptLinesAreNonPointer | bun-go/setup.ts:29 | exactly the lines that are not a bare hexadecimal pointer are kept |
| GoRunner.KeptLinesInOrder | bun-go/setup.ts:28-30 | filtering a prefix of the lines gives a prefix of the kept lines (order is kept) |
| GoRunner.KeptLines | bun-go/setup.ts:29 | filtering never adds lines |
| GoRunner.CleanOutput | bun-go/setup.ts:28-31 | the returned text is trimmed |
| GoRunner.RunYaegi | bun-go/setup.ts:14-43 | the call succeeds exactly when the shell run does, and then returns the cleaned output |
| GoRunner.NothingToDrop | bun-go/setup.ts:29 | without pointer lines nothing is dropped |
| GoRunner.CleanOutputOfPlainText | bun-go/setup.ts:27-31 | output without pointer lines is returned just trimmed |
| GoRunner.YaegiCommand | bun-go/setup.ts:25-27 | the command is `<yaegi> -e <wrapped code>` |
| GoRunner.YaegiOutcome | bun-go/setup.ts:27-40 | a successful run returns trimmed text; a failing one returns the install hint or stderr |
| PhpRunner.PhpBody | bun-php/setup.ts:28-37 | the body is always trimmed; code without tags is only trimmed |
| PhpRunner.StripPhpTags | bun-php/setup.ts:28-37 | the step-by-step stripping computes the specification body |
| PhpRunner.BothTagsStripped | bun-php/setup.ts:30-35 | `<?php body ?>` becomes the trimmed body |
| PhpRunner.OpenTagStripped | bun-php/setup.ts:30-32 | `<?php body` becomes the trimmed body |
| PhpRunner.CloseTagStripped | bun-php/setup.ts:33-35 | `body ?>` becomes the trimmed body |
| PhpRunner.OneOpenTagOnly | bun-php/setup.ts:30-32 | only one leading `<?php` is removed |
| PhpRunner.RunPhp | bun-php/setup.ts:14-48 | without php the call fails with the install message; otherwise it is the shell result of `php -r <body>`, trimmed |
| PhpRunner.PhpMissingEitherWay | bun-php/setup.ts:43 | a shell reporting "command not found:" gives the same message as a failed lookup |
| PhpRunner.PhpOutputTrimmed | bun-php/setup.ts:39 | successful output is trimmed |
| OpenUri.UriPath | bun-open/setup.ts:18-24 | an absent or empty path adds nothing; one leading `/` is dropped; otherwise the path is added as is |
| OpenUri.BuildUri | bun-open/setup.ts:16-29 | the URI is `schema://`, the path part, then `?` and the encoded options when options are given |
| OpenUri.OneSlashDropped | bun-open/setup.ts:19-20 | `/p` and `p` give the same URI path; `//p` keeps one slash |
| OpenUri.QueryPart | bun-open/setup.ts:26-29 | there is a query part exactly when options are given, and it is `?` and their encoding |
| OpenUri.PlatformCommand | bun-open/setup.ts:31-40 | `open` on macOS, `cmd /c start ""` on Windows, `xdg-open` elsewhere, with the URI last |
| OpenUri.RunOpen | bun-open/setup.ts:15-52 | the call returns `true` exactly when the spawned opener has no exit code yet, and otherwise fails with the fixed message |

## Left out

- Process spawning and the filesystem are left out. Compiling, running,
  `Bun.which`, `mkdir`, `Bun.write`, `existsSync`/`Bun.file().exists()` and the
  shell become the parameters `build`, `runner`, `shell`, `spawn`, the
  tool-found booleans and the `ArtifactCache`. The written file names and
  directories are not modelled.
- SHA-256 and `JSON.stringify` are left out. The cache key is the triple they
  encode, so a hash collision is not modelled.
- `JSON.parse` is an oracle. `TextDecoder` is the identity, since text is
  already `seq<char>`. `String(v)` of an interpolated value is taken as given:
  the values are strings.
- The outer `catch` blocks are left out: `bun-rust/setup.ts:436-447`,
  `bun-cpp/setup.ts:170-181`, and the non-`ShellError` rethrows at
  `bun-go/setup.ts:41` and `bun-php/setup.ts:46`. They only pass on an
  exception that a collaborator threw.
- The "No binary to run" branch (`bun-rust/setup.ts:333-345`) is left out
  because it cannot be reached: the run command is always set.
- `makeTmpDir` (`bun-rust/setup.ts:144-150`) is left out because it is never
  called.
- `console.log` of the C++ output (`bun-cpp/setup.ts:160`) is left out. It is
  output only.
- Concurrent callers racing on one cache directory are left out. Each call is
  modelled as one atomic step.
- BuildCache.ArtifactCache.Record: a successful build is assumed to leave the
  binary in place. A build that exits with 0 but writes no binary is not
  modelled.
- OpenUri.RunOpen: `spawn` gives the `exitCode` read right after `Bun.spawn`,
  as a function of the command alone. Its timing is not modelled. An opener
  that has already exited, even with status 0, counts as a failure, as in the
  code.
- The shell's quoting of `${pathToYaegi}` is not modelled, and neither is
  whether `~` in `~/go/bin/yaegi` is expanded. The path is passed as the first
  word.
- The Go and PHP error classes (`GoError`, `PHPError`) and the C++
  `CppError`/`Error` distinction are left out. Only their messages are kept.
- The `.bun/rust`, `.bun/rust-cargo` and `.bun/cpp` directories appear only
  as the `Mode` of a key.
- ExtractDelimited, ResolveRun and RustEngine.Rust use the corrected end-marker
  search of `DelimitedContent`. When no newline follows the start marker, they
  look for `EOT` after the marker, whereas `bun-rust/setup.ts:156` looks from
  the start of the marker. The two differ only when a start marker stands
  on the last line of its trimmed stream. There the code returns an empty payload,
  and the model returns none, or the text up to a later `EOT` on that line
  (see "## Findings").
  `ExtractDelimitedAsWritten` and `ResolveRunAsWritten` model the search as
  written.
- ContentFollowsMarker holds of the corrected search only. As written, the
  content can end inside the start marker.
- The exit status is an `int`. A run killed by a signal has `exitCode` `null`
  and `success` false in Bun, and that case is not modelled. Every run with a
  status is classified by `exitCode != 0`, which is `!run.success` there.
- RustEngine.SecondCallReusesBuild and CppEngine.CompilerNotInKey give "the
  same result" because `runner` is a function of the key. A binary whose
  output varies between runs (time, randomness, the environment) is not
  modelled.

## Findings

| source | as written | input that shows it | evidently intended | confidence | as-written member | corrected member |
|---|---|---|---|---|---|---|
| bun-rust/setup.ts:155-158 | when no newline follows the start marker, the end marker is searched from the start of the marker, so the `EOT` inside `__JS_RESULT__=OK<<<EOT` itself is found and the payload is the empty string | a run that prints `__JS_RESULT__=OK<<<EOT` and then panics (exit code 101, nothing more on stdout, no ERR marker on stderr): the trimmed stdout ends with the marker, so the call returns `Ok("")` | search for the end marker after the start marker and report no payload, so the run is classified as a failure with its exit code | medium, not executed | WireProtocol.PanicAfterMarkerAsWritten | WireProtocol.PanicAfterMarkerIsFailure |
