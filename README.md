# Shell scope of tauri-plugin-unshell, in Dafny

This project models the shell scope of the unshell plugin (`src/scope.rs`). The scope is the allowlist between a front end's request and the host:

- it decides whether a request to run a configured command is authorised;
- if so, it says which program runs and with which arguments;
- it also gates requests to open a path or URL in an external handler.

The model covers these parts of the scope:

- the argument shapes a caller may send (`ExecuteArgs`) and their emptiness test;
- the template entries (`Fixed` literal or `Var` with a validator);
- the configuration (`ScopeConfig`, `ScopeAllowedCommand`) and the error taxonomy (`Error`);
- the decision procedure `_prepare` with its wrappers `prepare` and `prepare_sidecar`;
- the pattern gate of `open`.

All of these are pure in the source, so they are Dafny functions, with lemmas that relate several calls.

The outside collaborators are passed in as function parameters:

- the regex engine is a `Matcher`, `(Regex, string) -> bool`, and a `Regex` shows only its source text;
- `Command::new_sidecar` is a `SidecarLocator`, which gives either the bundled executable's path or an error message;
- `::open::with` / `::open::that` is an `Opener`, whose error message becomes `Io`.

Files:

- `wrappers.dfy`: `Option` and `Result`.
- `paths.dfy`: the last component of a Unix path, as `Path::components().last()` gives it.
- `scope.dfy`: the data model and the operations.
- `scope_properties.dfy`: lemmas about them.

Two behaviours of the code are worth stating up front:

- An empty template (`Some([])`) with a list of any length gives `Ok([])`, because the `(Some(list), List(args))` arm comes first. Only a non-empty `Single` gives `InvalidInput`. `EmptyTemplateResolvesToNothing` states this.
- Supplied values beyond the template's length are ignored. `ExtraSuppliedIgnored` states this.

The decision procedure is a function, so calling it twice with the same inputs gives the same result by construction.

## Model

| member | source | states |
|---|---|---|
| ShellScopeProperties.IsEmptyExactly | src/scope.rs:30-37 | `is_empty` holds exactly for `None`, `Single("")` and `List([])` |
| Paths.LastComponent | src/scope.rs:229-238 | the executable name taken from a non-empty sidecar script is the last `/`-separated segment that is neither empty nor `.`. When there is none, it is `/` for an absolute path and `.` otherwise. It is never empty and holds no `/` unless it is the root |
| Paths.LastComponentIgnoresTrailing | src/scope.rs:231-237 | a trailing `/` or `/.` does not change the name taken, so `bin/tool/` names `tool` |
| Paths.LastComponentOfFileName | src/scope.rs:231-237 | a script `dir/name` names the program `name`, and a bare file name names itself: directories are stripped |
| ShellScope.ResolveTemplate | src/scope.rs:196-216 | positional reconciliation succeeds iff every `Var` position has a supplied value that matches its validator. On success the output is exactly as long as the template, with the literal at each `Fixed` position and the supplied value at each `Var` position. On failure the error is `MissingVar(i, pattern)` or `Validation{i, pattern}` for the first rejected index `i`, depending on whether `supplied[i]` exists |
| ShellScope.IsFixed | src/scope.rs:96-98 | an entry is fixed exactly when it is a `Fixed` literal; what that means for resolution is stated by `ResolveArgs`'s `AllFixed` clause, `FixedTemplateIgnoresCaller` and `AllFixedIffAcceptsEmptyList` |
| ShellScope.AllFixed | src/scope.rs:217 | `list.iter().all(is_fixed)`: every entry of the template is fixed. `ResolveArgs` admits an empty non-list request exactly when it holds, and `AllFixedIffAcceptsEmptyList` ties it to accepting an empty list |
| ShellScopeProperties.AllFixedIffAcceptsEmptyList | src/scope.rs:196-224 | a template is all fixed exactly when positional reconciliation accepts an empty list. Then `None` and `List([])` resolve to the same literals |
| ShellScope.FixedLiterals | src/scope.rs:217-224 | the resolved list of an all-fixed template is its literals, in order, one per entry |
| ShellScope.ResolveArgs | src/scope.rs:192-227 | with no template, the caller's arguments pass through verbatim (`[]`, `[s]`, `l`). With a template and a list, the result is positional reconciliation. With a template and any other shape, success happens iff the arguments are empty and every entry is `Fixed`; it then gives the literals, and otherwise the error is `InvalidInput(name)` |
| ShellScope.PrepareInternal | src/scope.rs:177-247 | the checks run in order: a missing name gives `NotFound(name)`, then a sidecar-flag mismatch gives `BadSidecarFlag`, then argument errors, then a failed sidecar lookup gives `Sidecar(msg)`. Success happens iff every stage passes. The descriptor carries the resolved arguments. Its program is the record's `command` for a plain call and the located last component of the script for a sidecar call |
| ShellScope.Prepare | src/scope.rs:171-174 | a missing name gives `NotFound`. A sidecar record gives `BadSidecarFlag`. A plain record whose arguments fail gives that argument error (`MissingVar`, `Validation` or `InvalidInput`). Success happens iff the record is plain and its arguments resolve; the program is then the record's `command` and the arguments are the resolved ones |
| ShellScope.PrepareSidecar | src/scope.rs:161-169 | a missing name gives `NotFound`. A plain record gives `BadSidecarFlag`. For a sidecar record, failed arguments give their own error, before the locator is consulted. If the arguments resolve but the script's last component cannot be located, the result is `Sidecar(msg)` with the locator's message. Success happens iff every stage passes; the program is then the located path |
| ShellScope.Open | src/scope.rs:253-271 | a configured pattern that does not match the path gives `Validation{0, pattern}`. Otherwise, including when no pattern is configured, the opener decides, and its error becomes `Io` |
| ShellScopeProperties.FixedTemplateIgnoresCaller | src/scope.rs:196-224 | against a template whose entries are all fixed (`is_fixed`), any supplied list resolves to the template's literals, the same as the empty-request arm gives |
| ShellScopeProperties.ExtraSuppliedIgnored | src/scope.rs:199-205 | supplied values past the template's length are never read: appending more of them leaves the outcome unchanged |
| ShellScopeProperties.EmptyTemplateResolvesToNothing | src/scope.rs:196-226 | an empty template gives `[]` for any list and for any empty request, and `InvalidInput(name)` for a non-empty single string |
| ShellScopeProperties.SuccessIsValidated | src/scope.rs:192-246 | a descriptor for a templated command holds one argument per entry. Each is the entry's literal, or the caller's list value at that position, which matched the entry's validator |
| ShellScopeProperties.NoTemplateIgnoresMatcher | src/scope.rs:193-195 | for a command without a template, the outcome is the same under every regex engine: no validation is applied |
| ShellScopeProperties.MixedTemplateExample | src/scope.rs:196-216 | `[Fixed("a"), Var(p)]` with `["ignored","123"]` gives `["a","123"]`. With `["ignored","abc"]` it gives `Validation{1, p}`, and with `["ignored"]` it gives `MissingVar(1, p)` |
| ShellScopeProperties.FixedTemplateExample | src/scope.rs:217-226 | `[Fixed("x"), Fixed("y")]` with `None`, `Single("")` or `List([])` gives `["x","y"]`, and with `Single("x")` it gives `InvalidInput` |

## Left out

- `Scope::new` (src/scope.rs:152-159): it rewrites each command path through the host framework's path resolver, for every entry, sidecar or not, and keeps the original path when resolution fails. That resolver is not part of this model. The model takes the configuration after construction.
- The regex engine: matching is the `Matcher` parameter, and a `Regex` is only its source text. `to_string` and `as_str` both give that text. The default open pattern is not modelled.
- `::open::with` / `::open::that` are the `Opener` parameter. `Program::name` is modelled as the handler's name, given as an optional string.
- `Command::new_sidecar` is the `SidecarLocator` parameter. `Command` is a (program, arguments) value. `Command::new` and `new_sidecar` both start it with no arguments, and `Command::args` appends.
- ShellScope.PrepareInternal: it requires a non-empty sidecar script. In the source, an empty script makes `.unwrap()` panic, but only once the earlier checks have passed. The model excludes the empty script even where the source would first return `NotFound`, `BadSidecarFlag` or an argument error.
- ShellScope.PrepareSidecar: it requires a non-empty script, for the same reason.
- Paths.LastComponent: follows Unix `Path::components()` only. It does not model Windows prefixes, backslash separators or the byte-level effect of `to_string_lossy`.
- `usize` indices are unbounded naturals. Positions never exceed the template's length, so no wrap-around arises.
- Left out as plumbing: serde deserialisation (`untagged`, `deny_unknown_fields`), the `From` conversions into `ExecuteArgs`, and the wrapping of `std::io::Error` into `Io`, which is modelled as a message string.
