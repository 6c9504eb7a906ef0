/**
 * The path reported for a gesture that already has a script bound to it:
 * `[module, class, name]`, with keyboard commands reported under the
 * canonical global-commands location.
 */
module ScriptPaths {

  import opened Wrappers

  /** A bound script, given by what `getScriptName` and `getScriptLocation` return for it. */
  datatype Script = Script(name: string, location: string)

  /** The index of the last occurrence of `c` in `s`, if any. */
  function LastIndexOf(s: string, c: char): (r: Option<nat>)
    ensures r.None? <==> c !in s
    ensures r.Some? ==> r.value < |s| && s[r.value] == c && c !in s[r.value + 1..]
  {
    if |s| == 0 then None
    else if s[|s| - 1] == c then Some(|s| - 1)
    else
      var r := LastIndexOf(s[..|s| - 1], c);
      assert s == s[..|s| - 1] + [s[|s| - 1]];
      assert r.Some? ==> s[r.value + 1..] == s[..|s| - 1][r.value + 1..] + [s[|s| - 1]];
      r
  }

  /** Joins the parts with `"."` between them (Python's `".".join(parts)`). */
  function JoinDot(parts: seq<string>): string
  {
    if |parts| == 0 then ""
    else if |parts| == 1 then parts[0]
    else JoinDot(parts[..|parts| - 1]) + "." + parts[|parts| - 1]
  }

  /** Python's `s.rsplit(".", 1)`: the text split at its last dot, or the text alone when it has none. */
  function RSplitLastDot(s: string): (parts: seq<string>)
    ensures 1 <= |parts| <= 2
    ensures |parts| == 1 <==> '.' !in s
    ensures '.' !in parts[|parts| - 1]
    ensures JoinDot(parts) == s
  {
    match LastIndexOf(s, '.')
    case None => [s]
    case Some(i) =>
      assert s == s[..i] + "." + s[i + 1..];
      [s[..i], s[i + 1..]]
  }

  /** Splitting undoes joining: a prefix and a dot-free last part come back unchanged. */
  lemma {:induction false} RSplitOfJoin(prefix: string, last: string)
    requires '.' !in last
    ensures RSplitLastDot(prefix + "." + last) == [prefix, last]
  {
    var s := prefix + "." + last;
    var r := LastIndexOf(s, '.');
    assert s[|prefix|] == '.';
    assert r.Some?;
    var i := r.value;
    assert i == |prefix|;
    assert s[..i] == prefix;
    assert s[i + 1..] == last;
  }

  /** Python's `name.startswith("kb")`. */
  predicate IsKeyboardCommand(name: string) {
    "kb" <= name
  }

  /**
   * The script path of a bound script: its location split at the last dot,
   * followed by its name; a `kb` command is always reported under
   * `globalCommands.GlobalCommands`, whatever its location says.
   */
  function BoundScriptPath(script: Script): (path: seq<string>)
    ensures 2 <= |path| <= 3 && path[|path| - 1] == script.name
    ensures IsKeyboardCommand(script.name) ==> path == ["globalCommands", "GlobalCommands", script.name]
    ensures !IsKeyboardCommand(script.name) ==>
              JoinDot(path[..|path| - 1]) == script.location && '.' !in path[|path| - 2]
  {
    var location :=
      if IsKeyboardCommand(script.name) then ["globalCommands", "GlobalCommands"]
      else RSplitLastDot(script.location);
    assert (location + [script.name])[..|location|] == location;
    location + [script.name]
  }
}
