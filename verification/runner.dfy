/**
 * `execute_search`: the argument vector handed to the Everything
 * command-line tool, and how its outcome becomes a list of result paths or
 * the failure signal (`None`).
 */
module Runner {
  import opened Wrappers
  import opened Text
  import opened Decimal
  import opened Process

  /** A search as the external tool reads it from its argument vector. */
  datatype Request = Request(esPath: string, limit: int, folder: Option<string>, query: string)

  /** Python truthiness of the folder argument: `None` and "" both mean no folder filter. */
  predicate FolderGiven(folder: Option<string>)
  {
    folder.Some? && folder.value != []
  }

  /** The argument vector `[es_path, "-n", str(limit)] (+ ["-path", folder]) + [query]`. */
  function Command(query: string, esPath: string, limit: int, folder: Option<string>): seq<string>
  {
    [esPath, "-n", IntToDecimal(limit)]
    + (if FolderGiven(folder) then ["-path", folder.value] else [])
    + [query]
  }

  /** Builds the argument vector in place, as the source does with `extend` and `append`. */
  method BuildCommand(query: string, esPath: string, limit: int, folder: Option<string>)
    returns (cmd: seq<string>)
    ensures cmd == Command(query, esPath, limit, folder)
    ensures |cmd| == (if FolderGiven(folder) then 6 else 4)
    ensures cmd[|cmd| - 1] == query
  {
    cmd := [esPath, "-n", IntToDecimal(limit)];
    if FolderGiven(folder) {
      cmd := cmd + ["-path", folder.value];
    }
    cmd := cmd + [query];
  }

  /**
   * How the external tool reads a vector of that shape: the executable, the
   * limit after "-n", an optional non-empty folder after "-path", and the
   * query in last position.
   */
  function ParseCommand(cmd: seq<string>): Option<Request>
  {
    if |cmd| == 4 && cmd[1] == "-n" then
      match ParseInt(cmd[2])
      case Some(limit) => Some(Request(cmd[0], limit, None, cmd[3]))
      case None => None
    else if |cmd| == 6 && cmd[1] == "-n" && cmd[3] == "-path" && cmd[4] != [] then
      match ParseInt(cmd[2])
      case Some(limit) => Some(Request(cmd[0], limit, Some(cmd[4]), cmd[5]))
      case None => None
    else
      None
  }

  /**
   * The argument vector has four or six elements, ends with the query, and
   * carries the executable, the limit and (when it is given and non-empty)
   * the folder so that they can all be read back from it.
   */
  lemma CommandRoundTrip(query: string, esPath: string, limit: int, folder: Option<string>)
    ensures var cmd := Command(query, esPath, limit, folder);
      && |cmd| == (if FolderGiven(folder) then 6 else 4)
      && cmd[|cmd| - 1] == query
      && ParseCommand(cmd)
         == Some(Request(esPath, limit, if FolderGiven(folder) then folder else None, query))
  {
    IntDecimalRoundTrip(limit);
  }

  /** Every line stripped: the `line.strip()` of the list comprehension. Each result is stripped. */
  function StripAll(lines: seq<string>): (r: seq<string>)
    ensures |r| == |lines|
    ensures forall i :: 0 <= i < |r| ==> IsStripped(r[i])
  {
    seq(|lines|, i requires 0 <= i < |lines| => Strip(lines[i]))
  }

  /** The comprehension's `if line.strip()`: empty texts dropped, the others kept in order. */
  function DropEmpty(texts: seq<string>): (r: seq<string>)
    ensures |r| <= |texts|
    ensures forall i :: 0 <= i < |r| ==> r[i] != [] && r[i] in texts
  {
    if texts == [] then []
    else
      var rest := DropEmpty(texts[1..]);
      if texts[0] == [] then rest
      else
        assert forall i :: 1 <= i < |rest| + 1 ==> ([texts[0]] + rest)[i] == rest[i - 1];
        [texts[0]] + rest
  }

  /** The list comprehension's filter: every line stripped, blank ones dropped, order kept. */
  function NonBlankLines(lines: seq<string>): (r: seq<string>)
    ensures |r| <= |lines|
  {
    DropEmpty(StripAll(lines))
  }

  /** Every line the filter keeps is non-empty, stripped, and free of a character no line holds. */
  lemma NonBlankLinesShape(lines: seq<string>, c: char)
    requires forall i :: 0 <= i < |lines| ==> c !in lines[i]
    ensures var r := NonBlankLines(lines);
      forall i :: 0 <= i < |r| ==> r[i] != [] && IsStripped(r[i]) && c !in r[i]
  {
    var stripped := StripAll(lines);
    forall i | 0 <= i < |stripped|
      ensures IsStripped(stripped[i]) && c !in stripped[i]
    {
      StripKeepsOut(lines[i], c);
    }
  }

  /** The filter works piece by piece: filtering a concatenation concatenates the filtered parts. */
  lemma {:induction false} DropEmptyAppend(a: seq<string>, b: seq<string>)
    ensures DropEmpty(a + b) == DropEmpty(a) + DropEmpty(b)
  {
    if a == [] {
      assert a + b == b;
    } else {
      assert (a + b)[1..] == a[1..] + b;
      DropEmptyAppend(a[1..], b);
    }
  }

  /**
   * The comprehension line by line: the kept lines of `a + b` are those of
   * `a` followed by those of `b`, so every non-blank line is kept, in order.
   */
  lemma NonBlankLinesAppend(a: seq<string>, b: seq<string>)
    ensures NonBlankLines(a + b) == NonBlankLines(a) + NonBlankLines(b)
  {
    assert StripAll(a + b) == StripAll(a) + StripAll(b);
    DropEmptyAppend(StripAll(a), StripAll(b));
  }

  /** A single line contributes its stripped text when that is not blank, and nothing otherwise. */
  lemma NonBlankLinesSingle(line: string)
    ensures NonBlankLines([line]) == (if AllWhitespace(line) then [] else [Strip(line)])
  {
    assert StripAll([line]) == [Strip(line)];
    assert [Strip(line)][1..] == [];
  }

  /** Dropping empty texts leaves nothing exactly when every text is empty. */
  lemma {:induction false} DropEmptyEmptyIff(texts: seq<string>)
    ensures (DropEmpty(texts) == []) == (forall i :: 0 <= i < |texts| ==> texts[i] == [])
  {
    if texts != [] {
      DropEmptyEmptyIff(texts[1..]);
      if texts[0] == [] {
        forall i | 1 <= i < |texts|
          ensures texts[i] == texts[1..][i - 1]
        {
        }
      }
    }
  }

  /**
   * The result list of a successful run: the non-blank lines of the stripped
   * standard output, each stripped, in output order.
   */
  function ParseOutput(stdout: string): seq<string>
  {
    NonBlankLines(Split(Strip(stdout), '\n'))
  }

  /**
   * Every result is non-empty, already stripped and free of line breaks, and
   * there are none exactly when the output is all whitespace.
   */
  lemma ParseOutputShape(stdout: string)
    ensures var results := ParseOutput(stdout);
      && (forall i :: 0 <= i < |results| ==> results[i] != [] && IsStripped(results[i]) && '\n' !in results[i])
      && (results == [] <==> AllWhitespace(stdout))
  {
    ParseOutputEmptyIff(stdout);
    SplitShape(Strip(stdout), '\n');
    NonBlankLinesShape(Split(Strip(stdout), '\n'), '\n');
  }

  /** Some line survives the filter exactly when the output is not all whitespace. */
  lemma ParseOutputEmptyIff(stdout: string)
    ensures (NonBlankLines(Split(Strip(stdout), '\n')) == []) == AllWhitespace(stdout)
  {
    var out := Strip(stdout);
    var lines := Split(out, '\n');
    var stripped := StripAll(lines);
    DropEmptyEmptyIff(stripped);
    if out != [] {
      assert stripped[0] != [] by {
        FirstLineShape(out);
        assert !AllWhitespace(lines[0]);
      }
    } else {
      assert stripped[0] == [] by {
        assert lines == [[]];
      }
    }
  }

  /** The output the tool writes for a list of paths: one path per line. */
  function Emit(paths: seq<string>): string
  {
    if paths == [] then [] else paths[0] + "\n" + Emit(paths[1..])
  }

  /** A well-formed path: non-empty, without surrounding whitespace, on one line. */
  predicate CleanPath(p: string)
  {
    p != [] && IsStripped(p) && '\n' !in p
  }

  /**
   * Parsing what the tool writes for a list of clean paths gives back exactly
   * that list, in order.
   */
  lemma ParseOutputOfEmit(paths: seq<string>)
    requires forall i :: 0 <= i < |paths| ==> CleanPath(paths[i])
    ensures ParseOutput(Emit(paths)) == paths
  {
    if paths == [] {
      ParseOutputShape([]);
    } else {
      FilterEmit(paths);
    }
  }

  lemma FilterEmit(paths: seq<string>)
    requires |paths| >= 1
    requires forall i :: 0 <= i < |paths| ==> CleanPath(paths[i])
    ensures NonBlankLines(Split(Strip(Emit(paths)), '\n')) == paths
  {
    StripEmit(paths);
    SplitJoin(paths, '\n');
    NonBlankLinesOfClean(paths);
  }

  /** Stripping the tool's output of clean paths leaves the lines joined by line breaks. */
  lemma StripEmit(paths: seq<string>)
    requires |paths| >= 1
    requires forall i :: 0 <= i < |paths| ==> CleanPath(paths[i])
    ensures Strip(Emit(paths)) == Join(paths, '\n')
  {
    EmitIsJoin(paths);
    JoinOfCleanIsStripped(paths);
    StripTrailingBreak(Join(paths, '\n'));
  }

  /** Clean paths joined by line breaks have no whitespace at either end. */
  lemma JoinOfCleanIsStripped(paths: seq<string>)
    requires |paths| >= 1
    requires CleanPath(paths[0]) && CleanPath(paths[|paths| - 1])
    ensures Join(paths, '\n') != [] && IsStripped(Join(paths, '\n'))
  {
    JoinEnds(paths, '\n');
    BetweenStrippedEnds(Join(paths, '\n'), paths[0], paths[|paths| - 1]);
  }

  lemma BetweenStrippedEnds(s: string, first: string, last: string)
    requires first != [] && IsStripped(first) && |first| <= |s| && s[..|first|] == first
    requires last != [] && IsStripped(last) && |last| <= |s| && s[|s| - |last|..] == last
    ensures s != [] && IsStripped(s)
  {
    assert s[0] == first[0];
    assert s[|s| - 1] == last[|last| - 1];
  }

  lemma {:induction false} EmitIsJoin(paths: seq<string>)
    requires |paths| >= 1
    ensures Emit(paths) == Join(paths, '\n') + "\n"
  {
    if |paths| > 1 {
      EmitIsJoin(paths[1..]);
    }
  }

  lemma NonBlankLinesOfClean(lines: seq<string>)
    requires forall i :: 0 <= i < |lines| ==> CleanPath(lines[i])
    ensures NonBlankLines(lines) == lines
  {
    forall i | 0 <= i < |lines|
      ensures Strip(lines[i]) == lines[i]
    {
      StripFixesStripped(lines[i]);
    }
    assert StripAll(lines) == lines;
    DropEmptyOfNonEmpty(lines);
  }

  lemma {:induction false} DropEmptyOfNonEmpty(texts: seq<string>)
    requires forall i :: 0 <= i < |texts| ==> texts[i] != []
    ensures DropEmpty(texts) == texts
  {
    if texts != [] {
      DropEmptyOfNonEmpty(texts[1..]);
      assert [texts[0]] + texts[1..] == texts;
    }
  }

  /** A run succeeded: it finished in time with exit code 0. */
  predicate Succeeded(outcome: RunOutcome)
  {
    outcome.Finished? && outcome.result.returncode == 0
  }

  /**
   * `execute_search`: runs the tool once on the argument vector (`run` stands
   * for the subprocess call with its 10-second timeout) and yields the parsed
   * result list after a zero exit code, or `None` after a non-zero exit code,
   * a timeout or any other exception. An empty list is a success.
   */
  method ExecuteSearch(query: string, esPath: string, limit: int, folder: Option<string>,
                       run: seq<string> -> RunOutcome)
    returns (results: Option<seq<string>>)
    ensures var outcome := run(Command(query, esPath, limit, folder));
      && (results.Some? <==> Succeeded(outcome))
      && (results.Some? ==> results.value == ParseOutput(outcome.result.stdout))
  {
    var cmd := BuildCommand(query, esPath, limit, folder);
    var outcome := run(cmd);
    match outcome
    case Finished(result) =>
      if result.returncode == 0 {
        results := Some(ParseOutput(result.stdout));
      } else {
        results := None;
      }
    case TimedOut =>
      results := None;
    case Raised(_) =>
      // the source reports the exception on standard error first
      results := None;
  }
}
