/** Properties of the shell scope's decision procedure that relate several calls. */
module ShellScopeProperties {
  import W = Wrappers
  import opened ShellScope

  /** `is_empty` holds for exactly three values. */
  lemma IsEmptyExactly(a: ExecuteArgs)
    ensures IsEmpty(a) <==> a == None || a == Single("") || a == List([])
  {
  }

  /**
   * Against a template with no variable entry, a list resolves to the template's
   * literals whatever it holds: caller input never reaches a fixed position.
   */
  lemma {:induction false} FixedTemplateIgnoresCaller(t: seq<ScopeAllowedArg>, supplied: seq<string>,
                                                      isMatch: Matcher)
    requires AllFixed(t)
    ensures ResolveTemplate(t, supplied, isMatch) == W.Ok(FixedLiterals(t))
  {
    var r := ResolveTemplate(t, supplied, isMatch);
    assert forall k :: 0 <= k < |t| ==> IsFixed(t[k]);
    assert r.Ok?;
    assert r.value == FixedLiterals(t);
  }

  /**
   * A template is fully fixed exactly when it accepts an empty list, and then
   * both arms that can serve it give the same literals.
   */
  lemma {:induction false} AllFixedIffAcceptsEmptyList(name: string, t: seq<ScopeAllowedArg>, isMatch: Matcher)
    ensures AllFixed(t) <==> ResolveTemplate(t, [], isMatch).Ok?
    ensures AllFixed(t) ==>
      ResolveArgs(name, W.Some(t), None, isMatch) == ResolveArgs(name, W.Some(t), List([]), isMatch)
  {
    if !AllFixed(t) {
      var k :| 0 <= k < |t| && !IsFixed(t[k]);
      assert !Accepts(t[k], k, [], isMatch);
    } else {
      FixedTemplateIgnoresCaller(t, [], isMatch);
    }
  }

  /**
   * Supplied values beyond the template's length are never read: appending
   * more of them changes nothing.
   */
  lemma {:induction false} ExtraSuppliedIgnored(t: seq<ScopeAllowedArg>, supplied: seq<string>,
                                                extra: seq<string>, isMatch: Matcher)
    requires |t| <= |supplied|
    ensures ResolveTemplate(t, supplied + extra, isMatch) == ResolveTemplate(t, supplied, isMatch)
  {
    if t != [] {
      var n := |t| - 1;
      ExtraSuppliedIgnored(t[..n], supplied, extra, isMatch);
      assert (supplied + extra)[n] == supplied[n];
    }
  }

  /**
   * An empty template resolves any list, whatever its length, and any empty
   * request to no arguments; only a non-empty single string is refused.
   */
  lemma EmptyTemplateResolvesToNothing(name: string, args: ExecuteArgs, isMatch: Matcher)
    ensures args.List? || IsEmpty(args) ==> ResolveArgs(name, W.Some([]), args, isMatch) == W.Ok([])
    ensures !args.List? && !IsEmpty(args) ==>
      ResolveArgs(name, W.Some([]), args, isMatch) == W.Err(InvalidInput(name))
  {
  }

  /**
   * The allowlist guarantee: a descriptor built for a templated command holds
   * one argument per template entry, each either the entry's literal or the
   * caller's value at that position, which then matched the entry's validator.
   */
  lemma SuccessIsValidated(scope: Scope, name: string, args: ExecuteArgs, sidecar: W.Option<string>,
                           isMatch: Matcher, locate: SidecarLocator)
    requires sidecar.Some? ==> sidecar.value != ""
    requires PrepareInternal(scope, name, args, sidecar, isMatch, locate).Ok?
    requires name in scope.config.scopes && scope.config.scopes[name].args.Some?
    ensures var t := scope.config.scopes[name].args.value;
            var out := PrepareInternal(scope, name, args, sidecar, isMatch, locate).value.args;
            && |out| == |t|
            && (forall k :: 0 <= k < |t| && t[k].Fixed? ==> out[k] == t[k].literal)
            && (forall k :: 0 <= k < |t| && t[k].Var? ==>
                  args.List? && k < |args.items| && out[k] == args.items[k]
                  && isMatch(t[k].validator, out[k]))
  {
  }

  /**
   * Without a template no validator is consulted: the outcome is the same
   * under any regex engine.
   */
  lemma NoTemplateIgnoresMatcher(scope: Scope, name: string, args: ExecuteArgs, sidecar: W.Option<string>,
                                 m1: Matcher, m2: Matcher, locate: SidecarLocator)
    requires sidecar.Some? ==> sidecar.value != ""
    requires name in scope.config.scopes && scope.config.scopes[name].args.None?
    ensures PrepareInternal(scope, name, args, sidecar, m1, locate)
         == PrepareInternal(scope, name, args, sidecar, m2, locate)
  {
  }

  /**
   * A template `[Fixed("a"), Var(p)]`: the first supplied value is ignored, the
   * second is validated, and a list too short for the variable is reported.
   */
  lemma MixedTemplateExample(p: Regex, isMatch: Matcher)
    requires isMatch(p, "123") && !isMatch(p, "abc")
    ensures var t := [Fixed("a"), Var(p)];
            && ResolveTemplate(t, ["ignored", "123"], isMatch) == W.Ok(["a", "123"])
            && ResolveTemplate(t, ["ignored", "abc"], isMatch) == W.Err(Validation(1, p.source))
            && ResolveTemplate(t, ["ignored"], isMatch) == W.Err(MissingVar(1, p.source))
  {
    var t := [Fixed("a"), Var(p)];
    var ok := ResolveTemplate(t, ["ignored", "123"], isMatch);
    assert Accepts(t[0], 0, ["ignored", "123"], isMatch) && Accepts(t[1], 1, ["ignored", "123"], isMatch);
    assert ok.value == ["a", "123"];
  }

  /** A fully fixed template is run with its literals when nothing is supplied. */
  lemma FixedTemplateExample(name: string, isMatch: Matcher)
    ensures var t := W.Some([Fixed("x"), Fixed("y")]);
            && ResolveArgs(name, t, None, isMatch) == W.Ok(["x", "y"])
            && ResolveArgs(name, t, Single(""), isMatch) == W.Ok(["x", "y"])
            && ResolveArgs(name, t, List([]), isMatch) == W.Ok(["x", "y"])
            && ResolveArgs(name, t, Single("x"), isMatch) == W.Err(InvalidInput(name))
  {
    var t := [Fixed("x"), Fixed("y")];
    assert FixedLiterals(t) == ["x", "y"];
    FixedTemplateIgnoresCaller(t, [], isMatch);
  }
}
