# Everything Search wrapper — a verified model

`everything-search/scripts/search.py` lets a user search the file system
with the Everything search engine on Windows. It locates the engine's
command-line tool `es.exe`, runs one search through it and formats the paths
it prints as a Markdown report. This project models those three steps in
Dafny and proves what each one promises:

- **Locating the tool** (`locator.dfy`, module `Locator`). `find_everything_cli`
  probes four install locations in a fixed order and returns the first one
  that exists. Only when none exists does it fall back to the output of
  `where es.exe`, which it uses only if the lookup exited with 0 and printed
  something other than whitespace. The existence check and environment-variable
  expansion are function parameters, and the `where` run is a value.
- **Running a search** (`runner.dfy`, module `Runner`). `execute_search`
  builds the argument vector `[es_path, "-n", str(limit)]`. It adds
  `["-path", folder]` when the folder is truthy and puts the query last.
  A run that exits with 0 becomes the list of non-blank, stripped lines of its
  output. A non-zero exit code, a timeout or any other exception becomes
  `None`. An empty list means the search succeeded and found nothing.
  The subprocess call is a function parameter returning a `RunOutcome`
  (`process.dfy`).
- **Formatting** (`formatter.dfy`, module `Formatter`).
  `format_results_as_markdown` writes a fixed message for an empty result
  list. Otherwise it writes:
  - a heading;
  - the query, unescaped;
  - the count, with ` (limited to L)` when the count reached the limit;
  - the paths as a numbered list, numbered from 1 in input order, with `[`
    and `]` escaped by a backslash.

  The method builds the text with `+=` and a loop, as the source does. Its
  contract ties it to the function `Render`.

Two more modules give the model its partners. `Text` (`text.dfy`) holds
Python's `str.isspace`, `strip`, `split` and `join`, with their laws.
`Decimal` (`decimal.dfy`) holds `str(int)` and its inverse.
`ReportReader` (`report_reader.dfy`) reads a report back. The proof that it
recovers the query, the count, the limit notice and every path shows that
the report loses nothing.

## Model

| member | source | states |
|---|---|---|
| Locator.CommonPaths | everything-search/scripts/search.py:26-31 | there are exactly four candidates; the body is the source's list in its order, with the last two passed through `expandVars` |
| Locator.FromWhere | everything-search/scripts/search.py:44-47 | the `where` fallback yields a path exactly when the lookup exited with 0 and its output is not all whitespace; the path is then non-empty, holds no line break, does not start with whitespace, and is the whole first line of the stripped output: a prefix of it followed by a line break or the end |
| Locator.FindEverythingCli | everything-search/scripts/search.py:21-47 | when some candidate exists, the result is the first existing candidate in list order; when none exists, the result is what the `where` lookup yields |
| Runner.BuildCommand | everything-search/scripts/search.py:63-68 | the vector is `[es_path, "-n", str(limit)]`, then `["-path", folder]` only for a non-empty folder, then the query; it has 6 elements with a folder and 4 without, and the query is last |
| Runner.CommandRoundTrip | everything-search/scripts/search.py:63-68 | the executable, the limit, the folder (when truthy) and the query can all be read back from the vector, so none is lost or misplaced |
| Runner.DropEmpty | everything-search/scripts/search.py:79 | what the filter keeps is non-empty and comes from the input |
| Runner.DropEmptyAppend | everything-search/scripts/search.py:79 | the filter works piece by piece: filtering a concatenation gives the filtered parts, concatenated in order |
| Runner.NonBlankLinesAppend | everything-search/scripts/search.py:79 | the kept lines of `a + b` are the kept lines of `a` followed by those of `b`; with `NonBlankLinesSingle` this determines the result for every list of lines, keeping every non-blank line in input order |
| Runner.NonBlankLinesSingle | everything-search/scripts/search.py:79 | one line contributes its stripped text when it is not all whitespace, and nothing otherwise |
| Runner.DropEmptyEmptyIff | everything-search/scripts/search.py:79 | the filter keeps nothing exactly when every text is empty |
| Runner.NonBlankLinesShape | everything-search/scripts/search.py:79 | every kept line is non-empty and stripped, and holds no character absent from the input |
| Runner.ParseOutputShape | everything-search/scripts/search.py:78-80 | each result of a successful run is non-empty, stripped and on one line; there are no results exactly when the output is all whitespace |
| Runner.ParseOutputEmptyIff | everything-search/scripts/search.py:79 | some line survives the filter exactly when the output is not all whitespace |
| Runner.ParseOutputOfEmit | everything-search/scripts/search.py:78-80 | parsing output that prints clean paths one per line gives back exactly those paths, in order |
| Runner.ExecuteSearch | everything-search/scripts/search.py:50-87 | the tool runs on the built vector; the result is a list exactly when the run finished with exit code 0, and that list is the parsed output; a non-zero exit code, a timeout or an exception gives `None` |
| Text.Strip | everything-search/scripts/search.py:44 | `strip()` is empty exactly when the text is all whitespace, and starts and ends with non-whitespace otherwise |
| Text.TrimLeftShape | everything-search/scripts/search.py:44 | the left trim is the longest suffix not starting with whitespace, and what it drops is all whitespace |
| Text.TrimRightShape | everything-search/scripts/search.py:44 | the right trim is the longest prefix not ending with whitespace, and what it drops is all whitespace |
| Text.StripIsSlice | everything-search/scripts/search.py:79 | the text is the stripped text between a run of leading and a run of trailing whitespace |
| Text.StripFixesStripped | everything-search/scripts/search.py:79 | stripping leaves a text unchanged exactly when it has no whitespace at either end |
| Text.StripIdempotent | everything-search/scripts/search.py:79 | stripping twice equals stripping once, so stripping a line of already stripped output changes nothing more |
| Text.StripKeepsOut | everything-search/scripts/search.py:79 | stripping adds no character |
| Text.SplitShape | everything-search/scripts/search.py:45 | no piece of `split` contains the separator, and the first piece runs from the start up to the first separator |
| Text.FirstLineShape | everything-search/scripts/search.py:45 | the first line of a text starting with non-whitespace is non-empty, has no line break and is a prefix of the text |
| Text.JoinSplit | everything-search/scripts/search.py:79 | joining the pieces of a split with the separator gives back the text, so `split` loses nothing |
| Text.SplitJoin | everything-search/scripts/search.py:79 | splitting a join of separator-free pieces gives back the pieces |
| Text.SplitConcat | everything-search/scripts/search.py:79 | splitting at a separator splits each side independently |
| Decimal.NatToDecimal | everything-search/scripts/search.py:108 | `str(n)`: at least one digit, only digits, no leading zero unless `n` is 0 |
| Decimal.IntToDecimal | everything-search/scripts/search.py:63 | `str(i)`: a leading '-' exactly for negatives, digits otherwise |
| Decimal.IntDecimalRoundTrip | everything-search/scripts/search.py:63 | reading `str(i)` back gives `i` |
| Decimal.DecimalOfDigitsValue | everything-search/scripts/search.py:119 | every canonical digit string is `str` of the number it denotes |
| Formatter.EscapeIsPerCharacter | everything-search/scripts/search.py:118 | the two `replace` calls equal escaping character by character: a bracket gets a backslash in front, every other character stays |
| Formatter.EscapeLength | everything-search/scripts/search.py:118 | the escaped path is longer by the number of brackets in the path |
| Formatter.EscapedBracketsArePreceded | everything-search/scripts/search.py:118 | every bracket in an escaped path is immediately preceded by a backslash |
| Formatter.EscapeKeepsOthers | everything-search/scripts/search.py:118 | any character other than a bracket or a backslash occurs in the escaped path exactly when it occurs in the path |
| Formatter.UnescapeEscape | everything-search/scripts/search.py:118 | escaping is reversible, so it loses nothing |
| Formatter.FormatResultsAsMarkdown | everything-search/scripts/search.py:90-121 | the text built with `+=` is the report `Render` describes |
| Formatter.AppendItems | everything-search/scripts/search.py:116-119 | the loop appends exactly the numbered item lines of all paths, numbered from 1, in input order |
| ReportReader.RenderRoundTrip | everything-search/scripts/search.py:102-121 | for a query and paths without line breaks, the report reads back as "no results" with the query when the list is empty; otherwise it reads back as a listing of the query, the count, the limit notice exactly when the count reached the limit, and every path unescaped and in order |
| ReportReader.ReportRoundTrip | everything-search/scripts/search.py:102-121 | the same round trip for any wording whose texts hold no line break and whose limit notice does not start with a digit |
| ReportReader.TextsReadable | everything-search/scripts/search.py:103-111 | the fixed texts of the report hold no line break, and the limit notice does not start with a digit |
| ReportReader.CountLineRoundTrip | everything-search/scripts/search.py:108-111 | the count line gives back the count, and the limit exactly when the count reached it |
| ReportReader.ReportLines | everything-search/scripts/search.py:106-121 | a non-empty report has 6 more lines than results: heading, blank, query line, count line, blank, one line per item, and an empty last piece after the final line break |
| ReportReader.ItemsRoundTrip | everything-search/scripts/search.py:116-119 | the item lines give back the paths, in order |
| ReportReader.SplitItems | everything-search/scripts/search.py:119 | each item ends in a line break, so the items split into one line each |
| ReportReader.NoResultsRoundTrip | everything-search/scripts/search.py:102-103 | the no-results message has three lines and gives back the query, unescaped |

## Left out

- `main` of `search.py` is not part of this model. It does argument parsing, prints fixed texts and calls `sys.exit`. It only branches on `None` against a list, which `Runner.ExecuteSearch` states.
- `verify_es_installation.py` is not part of this model. It is a diagnostic script around the same lookup and a bare subprocess call.
- The real processes are parameters. `subprocess.run` for `where es.exe` is a `ProcessResult` value. The search run is a function to `RunOutcome`. `os.path.exists` and `os.path.expandvars` are functions passed in. The model assumes nothing about what they return.
- Runner.ExecuteSearch: the message printed on standard error for an unexpected exception is not modelled; only the resulting `None` is.
- Locator.FindEverythingCli: an exception raised by the `where` run itself propagates out of `find_everything_cli`, and the model does not represent it. The lookup is given as a finished result.
- Decimal.IntToDecimal: it is total. CPython versions that limit integer-to-text conversion to 4300 digits raise `ValueError` in `str(limit)` when the limit has more digits. At search.py:63 that happens before the `try`, so the exception escapes `execute_search`; at search.py:111 it escapes `format_results_as_markdown`. The model has no such limit. `main` reads the limit with `int()`, which rejects such limits first.
- The 10-second timeout is the `TimedOut` outcome; how long a run takes is not modelled.
- Captured output is text after Python's universal-newline translation, so a `\r\n` from the tool is already `\n` in the modelled `stdout`. The model does not restate that decoding.
- ReportReader.RenderRoundTrip requires that neither the query nor any path holds a line break. A line break there would split the report at a different place, so such a report cannot be read back unambiguously. `format_results_as_markdown` itself is modelled for every input.
- Formatter.AppendItems: the `enumerate` loop is a method of its own, called by `FormatResultsAsMarkdown`. The source has it inline; the text it builds is the same.
- `Formatter.Wording` gathers the report's fixed texts so that the reading lemmas can be stated for any wording. `Render` uses the source's exact texts (`Formatter.Texts`).
- `str.strip()` uses Python's `str.isspace` set of code points, written out in `Text.IsWhitespace`. Python strings are sequences of Dafny `char`, that is, of Unicode scalar values.
