/**
 * Locating the Everything command-line tool: the conventional install
 * locations in a fixed order, then the first line the `where` lookup prints.
 */
module Locator {
  import opened Wrappers
  import opened Text
  import opened Process

  /**
   * The candidate install locations, in probe order. The last two go through
   * environment-variable expansion, given here as `expandVars`.
   */
  function CommonPaths(expandVars: string -> string): (paths: seq<string>)
    ensures |paths| == 4
  {
    [ @"C:\Program Files\Everything\es.exe",
      @"C:\Program Files (x86)\Everything\es.exe",
      expandVars(@"%ProgramFiles%\Everything\es.exe"),
      expandVars(@"%ProgramFiles(x86)%\Everything\es.exe") ]
  }

  /** `k` is the first position of `candidates` whose path exists. */
  predicate FirstExistingAt(candidates: seq<string>, pathExists: string -> bool, k: int)
  {
    0 <= k < |candidates| && pathExists(candidates[k])
    && forall j :: 0 <= j < k ==> !pathExists(candidates[j])
  }

  /**
   * What the `where es.exe` fallback yields: the first line of its stripped
   * output when it exited with 0 and printed something other than whitespace,
   * and nothing otherwise. A path it yields is never empty, holds no line
   * break, does not start with whitespace, and is the whole first line of the
   * stripped output: it runs from its start up to the first line break or the end.
   */
  function FromWhere(lookup: ProcessResult): (r: Option<string>)
    ensures r.Some? <==> lookup.returncode == 0 && !AllWhitespace(lookup.stdout)
    ensures r.Some? ==>
              && r.value != []
              && '\n' !in r.value
              && !IsWhitespace(r.value[0])
              && |r.value| <= |Strip(lookup.stdout)|
              && r.value == Strip(lookup.stdout)[..|r.value|]
              && (|r.value| < |Strip(lookup.stdout)| ==> Strip(lookup.stdout)[|r.value|] == '\n')
  {
    var out := Strip(lookup.stdout);
    if lookup.returncode == 0 && out != [] then
      FirstLineShape(out);
      SplitShape(out, '\n');
      Some(Split(out, '\n')[0])
    else
      None
  }

  /**
   * `find_everything_cli`: the first candidate location that exists, in list
   * order; only when none exists, what the `where` lookup yields.
   */
  method FindEverythingCli(expandVars: string -> string, pathExists: string -> bool, lookup: ProcessResult)
    returns (path: Option<string>)
    ensures var candidates := CommonPaths(expandVars);
      (exists k :: FirstExistingAt(candidates, pathExists, k)) ==>
        exists k :: FirstExistingAt(candidates, pathExists, k) && path == Some(candidates[k])
    ensures var candidates := CommonPaths(expandVars);
      (forall k :: 0 <= k < |candidates| ==> !pathExists(candidates[k])) ==> path == FromWhere(lookup)
  {
    var candidates := CommonPaths(expandVars);
    var i := 0;
    while i < |candidates|
      invariant 0 <= i <= |candidates|
      invariant forall j :: 0 <= j < i ==> !pathExists(candidates[j])
    {
      if pathExists(candidates[i]) {
        assert FirstExistingAt(candidates, pathExists, i);
        return Some(candidates[i]);
      }
      i := i + 1;
    }
    path := FromWhere(lookup);
  }
}
