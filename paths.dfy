/**
 * The part of Rust's `std::path` that the scope uses: the text of the last
 * component of a Unix path (`PathBuf::from(s).components().last()`, read back
 * with `as_os_str().to_string_lossy()`).
 *
 * On Unix, `components()` yields a root component `/` when the path starts with
 * a separator, a current-directory component `.` only when the path starts with
 * `.` followed by a separator or the end, and one component per remaining
 * segment between separators, skipping empty segments and `.` segments.
 */
module Paths {
  import W = Wrappers

  /** The `/`-separated segments of `s`, empty ones included. */
  function Split(s: string): (parts: seq<string>)
    ensures |parts| >= 1
    ensures forall k :: 0 <= k < |parts| ==> '/' !in parts[k]
    ensures '/' !in s ==> parts == [s]
    ensures '/' in s ==> |parts| >= 2
    decreases |s|
  {
    if s == [] then [""]
    else if s[0] == '/' then [""] + Split(s[1..])
    else
      var rest := Split(s[1..]);
      assert '/' !in s ==> '/' !in s[1..] && [s[0]] + s[1..] == s;
      [[s[0]] + rest[0]] + rest[1..]
  }

  /** The last segment that names something: neither empty nor `.`. */
  function LastNamed(parts: seq<string>): (r: W.Option<string>)
    ensures r.Some? ==> exists i ::
      && 0 <= i < |parts|
      && parts[i] == r.value
      && r.value != "" && r.value != "."
      && forall j :: i < j < |parts| ==> parts[j] == "" || parts[j] == "."
    ensures r.None? ==> forall k :: 0 <= k < |parts| ==> parts[k] == "" || parts[k] == "."
  {
    if parts == [] then W.None
    else
      var n := |parts| - 1;
      assert forall k :: 0 <= k < n ==> parts[..n][k] == parts[k];
      if parts[n] != "" && parts[n] != "." then W.Some(parts[n])
      else LastNamed(parts[..n])
  }

  /**
   * The text of the last component of the non-empty Unix path `s`. The empty
   * path has no component at all, and `.unwrap()` panics on it in the source.
   */
  function LastComponent(s: string): (r: string)
    requires s != ""
    ensures r != ""
    ensures '/' in r ==> r == "/"
    // Some segment names something: the last such segment is the component.
    ensures var parts := Split(s);
      (exists i :: 0 <= i < |parts| && parts[i] != "" && parts[i] != ".") ==>
      exists i ::
        && 0 <= i < |parts|
        && parts[i] == r
        && r != "" && r != "."
        && forall j :: i < j < |parts| ==> parts[j] == "" || parts[j] == "."
    // None does: the root for an absolute path, the current directory otherwise.
    ensures var parts := Split(s);
      (forall i :: 0 <= i < |parts| ==> parts[i] == "" || parts[i] == ".") ==>
      r == (if s[0] == '/' then "/" else ".")
  {
    match LastNamed(Split(s))
    case Some(name) => name
    case None => if s[0] == '/' then "/" else "."
  }

  /** A separator followed by one more segment adds that segment to the split. */
  lemma {:induction false} SplitAppend(dir: string, segment: string)
    requires '/' !in segment
    ensures Split(dir + "/" + segment) == Split(dir) + [segment]
    decreases |dir|
  {
    var s := dir + "/" + segment;
    if dir == [] {
      assert s == "/" + segment;
      assert s[1..] == segment;
    } else {
      assert s[1..] == dir[1..] + "/" + segment;
      SplitAppend(dir[1..], segment);
      if dir[0] != '/' {
        var rest := Split(dir[1..]);
        assert Split(s[1..]) == rest + [segment];
        assert (rest + [segment])[1..] == rest[1..] + [segment];
      }
    }
  }

  /** A trailing segment that names nothing does not change the last named one. */
  lemma LastNamedSkipsUnnamed(parts: seq<string>, segment: string)
    requires segment == "" || segment == "."
    ensures LastNamed(parts + [segment]) == LastNamed(parts)
  {
    assert (parts + [segment])[..|parts|] == parts;
  }

  /**
   * A sidecar script given with directories names the program by its file
   * name; one given without a directory is its own name.
   */
  lemma LastComponentOfFileName(dir: string, name: string)
    requires name != "" && name != "." && '/' !in name
    ensures LastComponent(name) == name
    ensures LastComponent(dir + "/" + name) == name
  {
    assert Split(name) == [name];
    SplitAppend(dir, name);
  }

  /** A trailing `/` or `/.` does not change the last component: `bin/tool/` names `tool`. */
  lemma LastComponentIgnoresTrailing(s: string)
    requires s != ""
    ensures LastComponent(s + "/") == LastComponent(s)
    ensures LastComponent(s + "/.") == LastComponent(s)
  {
    assert s + "/" == s + "/" + "";
    SplitAppend(s, "");
    LastNamedSkipsUnnamed(Split(s), "");
    assert s + "/." == s + "/" + "." && (s + "/.")[0] == s[0];
    SplitAppend(s, ".");
    LastNamedSkipsUnnamed(Split(s), ".");
  }
}
