/**
 * The shell scope of the unshell plugin: the allowlist that decides whether a
 * request to run a host program, or to open a path in an external handler,
 * is permitted, and which program and arguments it resolves to.
 *
 * The regex engine, the sidecar locator and the platform "open" handler are
 * outside the model; they are passed in as functions.
 */
module ShellScope {
  import W = Wrappers
  import Paths

  /** A compiled validation pattern; only its source text is visible. */
  datatype Regex = Regex(source: string)

  /** The regex engine: whether `text` matches `pattern` (`Regex::is_match`). */
  type Matcher = (Regex, string) -> bool

  /**
   * `Command::new_sidecar`: from a sidecar's name, the path of the bundled
   * executable, or the message of the error that locating it raised.
   */
  type SidecarLocator = string -> W.Result<string, string>

  /** `::open::with` / `::open::that`: open `path`, with the named program if one is given. */
  type Opener = (string, W.Option<string>) -> W.Result<(), string>

  /** The arguments a caller supplies, in whichever shape they arrived. */
  datatype ExecuteArgs = None | Single(text: string) | List(items: seq<string>)

  /** Whether the caller supplied nothing meaningful. */
  predicate IsEmpty(a: ExecuteArgs)
  {
    match a
    case None => true
    case Single(s) => s == ""
    case List(l) => l == []
  }

  /** One position of a command's argument template. */
  datatype ScopeAllowedArg =
    | Fixed(literal: string)
    | Var(validator: Regex)

  predicate IsFixed(a: ScopeAllowedArg)
  {
    a.Fixed?
  }

  /** One allowed command: its program, its optional template, its kind. */
  datatype ScopeAllowedCommand = ScopeAllowedCommand(
    command: string,
    args: W.Option<seq<ScopeAllowedArg>>,
    sidecar: bool)

  datatype ScopeConfig = ScopeConfig(
    open: W.Option<Regex>,
    scopes: map<string, ScopeAllowedCommand>)

  datatype Scope = Scope(config: ScopeConfig)

  datatype Error =
    | BadSidecarFlag
    | Sidecar(message: string)
    | NotFound(name: string)
    | MissingVar(position: nat, pattern: string)
    | Validation(index: nat, validation: string)
    | InvalidInput(command: string)
    | Io(cause: string)

  /** The invocation descriptor handed to the process-spawning code. */
  datatype Command = Command(program: string, args: seq<string>)

  /** `Command::new`: a command with no arguments yet. */
  function NewCommand(program: string): Command
  {
    Command(program, [])
  }

  /** `Command::args`: appends arguments, in order. */
  function WithArgs(c: Command, extra: seq<string>): Command
  {
    c.(args := c.args + extra)
  }

  /** Whether template entry `e`, at position `k`, admits what was supplied. */
  predicate Accepts(e: ScopeAllowedArg, k: nat, supplied: seq<string>, isMatch: Matcher)
  {
    e.Var? ==> k < |supplied| && isMatch(e.validator, supplied[k])
  }

  /** The error a rejected variable entry at position `k` is reported with. */
  function Rejection(e: ScopeAllowedArg, k: nat, supplied: seq<string>): Error
    requires e.Var?
  {
    if k < |supplied| then Validation(k, e.validator.source)
    else MissingVar(k, e.validator.source)
  }

  /**
   * Positional reconciliation of a template with a supplied list: each entry
   * is resolved in order and the first failure is the result. The recursion
   * is on the prefix, so the entry resolved last sits at index |t| - 1.
   */
  function ResolveTemplate(t: seq<ScopeAllowedArg>, supplied: seq<string>, isMatch: Matcher)
    : (r: W.Result<seq<string>, Error>)
    ensures r.Ok? <==> forall k :: 0 <= k < |t| ==> Accepts(t[k], k, supplied, isMatch)
    ensures r.Ok? ==> |r.value| == |t|
    ensures r.Ok? ==> forall k :: 0 <= k < |t| && t[k].Fixed? ==> r.value[k] == t[k].literal
    ensures r.Ok? ==> forall k :: 0 <= k < |t| && t[k].Var? ==>
      k < |supplied| && r.value[k] == supplied[k] && isMatch(t[k].validator, supplied[k])
    ensures r.Err? ==> exists k ::
      && 0 <= k < |t|
      && !Accepts(t[k], k, supplied, isMatch)
      && (forall j :: 0 <= j < k ==> Accepts(t[j], j, supplied, isMatch))
      && r.error == Rejection(t[k], k, supplied)
  {
    if t == [] then W.Ok([])
    else
      var n := |t| - 1;
      var done := ResolveTemplate(t[..n], supplied, isMatch);
      assert forall k :: 0 <= k < n ==> t[..n][k] == t[k];
      if done.Err? then done
      else
        match t[n]
        case Fixed(fixed) => W.Ok(done.value + [fixed])
        case Var(validator) =>
          if n >= |supplied| then W.Err(MissingVar(n, validator.source))
          else if isMatch(validator, supplied[n]) then W.Ok(done.value + [supplied[n]])
          else W.Err(Validation(n, validator.source))
  }

  /** `list.iter().all(ScopeAllowedArg::is_fixed)` */
  predicate AllFixed(t: seq<ScopeAllowedArg>)
  {
    forall k :: 0 <= k < |t| ==> IsFixed(t[k])
  }

  /** The literals of an all-fixed template, in order. */
  function FixedLiterals(t: seq<ScopeAllowedArg>): (r: seq<string>)
    requires AllFixed(t)
    ensures |r| == |t|
    ensures forall k :: 0 <= k < |t| ==> r[k] == t[k].literal
  {
    if t == [] then [] else [t[0].literal] + FixedLiterals(t[1..])
  }

  /**
   * Reconciles the caller's arguments with a command's optional template;
   * `name` is the command's name, reported by `InvalidInput`.
   */
  function ResolveArgs(name: string, template: W.Option<seq<ScopeAllowedArg>>, args: ExecuteArgs,
                       isMatch: Matcher): (r: W.Result<seq<string>, Error>)
    // No template: the caller's arguments pass through verbatim, unvalidated.
    ensures template.None? && args.None? ==> r == W.Ok([])
    ensures template.None? && args.Single? ==> r == W.Ok([args.text])
    ensures template.None? && args.List? ==> r == W.Ok(args.items)
    // A template and a list: positional reconciliation.
    ensures template.Some? && args.List? ==> r == ResolveTemplate(template.value, args.items, isMatch)
    // A template and any other shape: only an empty request to a fully fixed command passes.
    ensures template.Some? && !args.List? ==>
      (r.Ok? <==> IsEmpty(args) && AllFixed(template.value))
    ensures template.Some? && !args.List? && r.Ok? ==>
      |r.value| == |template.value|
      && forall k :: 0 <= k < |template.value| ==>
           template.value[k].Fixed? && r.value[k] == template.value[k].literal
    ensures template.Some? && !args.List? && r.Err? ==> r.error == InvalidInput(name)
  {
    match (template, args)
    case (None, None) => W.Ok([])
    case (None, List(list)) => W.Ok(list)
    case (None, Single(s)) => W.Ok([s])
    case (Some(list), List(supplied)) => ResolveTemplate(list, supplied, isMatch)
    case (Some(list), arg) =>
      if IsEmpty(arg) && AllFixed(list) then W.Ok(FixedLiterals(list))
      // The arm for an empty template and the catch-all arm both give InvalidInput.
      else W.Err(InvalidInput(name))
  }

  /**
   * The shared decision procedure behind `Prepare` and `PrepareSidecar`:
   * `sidecar` is the script a sidecar call names, if any.
   */
  function PrepareInternal(scope: Scope, name: string, args: ExecuteArgs, sidecar: W.Option<string>,
                           isMatch: Matcher, locate: SidecarLocator): (r: W.Result<Command, Error>)
    requires sidecar.Some? ==> sidecar.value != ""
    // 1. lookup
    ensures name !in scope.config.scopes ==> r == W.Err(NotFound(name))
    // 2. the record's kind must match the entry point, before any argument is looked at
    ensures name in scope.config.scopes && scope.config.scopes[name].sidecar != sidecar.Some? ==>
      r == W.Err(BadSidecarFlag)
    // 3. argument errors come before any sidecar error
    ensures (&& name in scope.config.scopes
             && scope.config.scopes[name].sidecar == sidecar.Some?
             && ResolveArgs(name, scope.config.scopes[name].args, args, isMatch).Err?) ==>
      r == W.Err(ResolveArgs(name, scope.config.scopes[name].args, args, isMatch).error)
    // 4. then a sidecar that cannot be located
    ensures (&& name in scope.config.scopes
             && scope.config.scopes[name].sidecar
             && sidecar.Some?
             && ResolveArgs(name, scope.config.scopes[name].args, args, isMatch).Ok?
             && locate(Paths.LastComponent(sidecar.value)).Err?) ==>
      r == W.Err(Sidecar(locate(Paths.LastComponent(sidecar.value)).error))
    // success exactly when every stage passes
    ensures r.Ok? <==>
      && name in scope.config.scopes
      && scope.config.scopes[name].sidecar == sidecar.Some?
      && ResolveArgs(name, scope.config.scopes[name].args, args, isMatch).Ok?
      && (sidecar.Some? ==> locate(Paths.LastComponent(sidecar.value)).Ok?)
    // 5. the descriptor: resolved arguments, and the program by entry point
    ensures r.Ok? ==>
      && r.value.args == ResolveArgs(name, scope.config.scopes[name].args, args, isMatch).value
      && (sidecar.None? ==> r.value.program == scope.config.scopes[name].command)
      && (sidecar.Some? ==> W.Ok(r.value.program) == locate(Paths.LastComponent(sidecar.value)))
  {
    if name !in scope.config.scopes then W.Err(NotFound(name))
    else
      var command := scope.config.scopes[name];
      if command.sidecar != sidecar.Some? then W.Err(BadSidecarFlag)
      else
        var resolved := ResolveArgs(name, command.args, args, isMatch);
        if resolved.Err? then W.Err(resolved.error)
        else
          var commandS := if sidecar.Some? then Paths.LastComponent(sidecar.value) else command.command;
          if command.sidecar then
            match locate(commandS)
            case Err(message) => W.Err(Sidecar(message))
            case Ok(program) => W.Ok(WithArgs(NewCommand(program), resolved.value))
          else
            W.Ok(WithArgs(NewCommand(commandS), resolved.value))
  }

  /**
   * Validates a request to run the non-sidecar command `name`. The locator is
   * never consulted on this path, so any will do.
   */
  function Prepare(scope: Scope, name: string, args: ExecuteArgs, isMatch: Matcher)
    : (r: W.Result<Command, Error>)
    ensures name !in scope.config.scopes ==> r == W.Err(NotFound(name))
    ensures name in scope.config.scopes && scope.config.scopes[name].sidecar ==> r == W.Err(BadSidecarFlag)
    ensures r.Ok? <==>
      && name in scope.config.scopes
      && !scope.config.scopes[name].sidecar
      && ResolveArgs(name, scope.config.scopes[name].args, args, isMatch).Ok?
    // a plain record whose arguments fail reports the argument error itself
    ensures (&& name in scope.config.scopes
             && !scope.config.scopes[name].sidecar
             && ResolveArgs(name, scope.config.scopes[name].args, args, isMatch).Err?) ==>
      r == W.Err(ResolveArgs(name, scope.config.scopes[name].args, args, isMatch).error)
    ensures r.Ok? ==>
      && r.value.program == scope.config.scopes[name].command
      && W.Ok(r.value.args) == ResolveArgs(name, scope.config.scopes[name].args, args, isMatch)
  {
    PrepareInternal(scope, name, args, W.None, isMatch, program => W.Err(program))
  }

  /** Validates a request to run the sidecar command `name` through `script`. */
  function PrepareSidecar(scope: Scope, name: string, script: string, args: ExecuteArgs,
                          isMatch: Matcher, locate: SidecarLocator): (r: W.Result<Command, Error>)
    requires script != ""
    ensures name !in scope.config.scopes ==> r == W.Err(NotFound(name))
    ensures name in scope.config.scopes && !scope.config.scopes[name].sidecar ==> r == W.Err(BadSidecarFlag)
    ensures r.Ok? <==>
      && name in scope.config.scopes
      && scope.config.scopes[name].sidecar
      && ResolveArgs(name, scope.config.scopes[name].args, args, isMatch).Ok?
      && locate(Paths.LastComponent(script)).Ok?
    // argument errors come before any error from locating the sidecar
    ensures (&& name in scope.config.scopes
             && scope.config.scopes[name].sidecar
             && ResolveArgs(name, scope.config.scopes[name].args, args, isMatch).Err?) ==>
      r == W.Err(ResolveArgs(name, scope.config.scopes[name].args, args, isMatch).error)
    ensures (&& name in scope.config.scopes
             && scope.config.scopes[name].sidecar
             && ResolveArgs(name, scope.config.scopes[name].args, args, isMatch).Ok?
             && locate(Paths.LastComponent(script)).Err?) ==>
      r == W.Err(Sidecar(locate(Paths.LastComponent(script)).error))
    ensures r.Ok? ==>
      && W.Ok(r.value.program) == locate(Paths.LastComponent(script))
      && W.Ok(r.value.args) == ResolveArgs(name, scope.config.scopes[name].args, args, isMatch)
  {
    PrepareInternal(scope, name, args, W.Some(script), isMatch, locate)
  }

  /**
   * Opens `path`, with the program named by `with` if one is given, once the
   * configured open pattern (if any) accepts it.
   */
  function Open(scope: Scope, path: string, with: W.Option<string>, isMatch: Matcher, opener: Opener)
    : (r: W.Result<(), Error>)
    ensures scope.config.open.Some? && !isMatch(scope.config.open.value, path) ==>
      r == W.Err(Validation(0, scope.config.open.value.source))
    ensures r.Ok? ==>
      (scope.config.open.Some? ==> isMatch(scope.config.open.value, path)) && opener(path, with).Ok?
    ensures scope.config.open.None? || isMatch(scope.config.open.value, path) ==>
      (r.Ok? <==> opener(path, with).Ok?)
      && (r.Err? ==> r.error == Io(opener(path, with).error))
  {
    if scope.config.open.Some? && !isMatch(scope.config.open.value, path) then
      W.Err(Validation(0, scope.config.open.value.source))
    else
      match opener(path, with)
      case Ok(_) => W.Ok(())
      case Err(cause) => W.Err(Io(cause))
  }
}
