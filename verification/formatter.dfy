/**
 * `format_results_as_markdown`: the Markdown report for a search, with the
 * escaping of brackets in result paths.
 */
module Formatter {
  import opened Decimal

  /** The fixed texts of a report, around the query, the numbers and the paths. */
  datatype Wording = Wording(
    noResultsHeading: string,
    noMatchLabel: string,
    resultsHeading: string,
    queryLabel: string,
    resultsLabel: string,
    limitLabel: string)

  const NoResultsHeading := "# Everything Search: No results"
  const NoMatchLabel := "No files found matching: `"
  const ResultsHeading := "# Everything Search Results"
  const QueryLabel := "**Query:** `"
  const ResultsLabel := "**Results:** "
  const LimitLabel := " (limited to "

  /** The wording `format_results_as_markdown` writes. */
  const Texts := Wording(NoResultsHeading, NoMatchLabel, ResultsHeading, QueryLabel, ResultsLabel, LimitLabel)

  predicate IsBracket(c: char)
  {
    c == '[' || c == ']'
  }

  /** `s.replace(c, replacement)` for a one-character pattern: every `c` becomes `replacement`. */
  function ReplaceChar(s: string, c: char, replacement: string): string
  {
    if s == [] then [] else (if s[0] == c then replacement else [s[0]]) + ReplaceChar(s[1..], c, replacement)
  }

  /** The escaping of a result path: `path.replace("[", r"\[").replace("]", r"\]")`. */
  function Escape(path: string): string
  {
    ReplaceChar(ReplaceChar(path, '[', @"\["), ']', @"\]")
  }

  /** The escaping of one character: a bracket gets a backslash in front, nothing else changes. */
  function EscapeChar(c: char): string
  {
    if IsBracket(c) then ['\\', c] else [c]
  }

  /** Escaping described character by character. */
  function EscapeEach(path: string): string
  {
    if path == [] then [] else EscapeChar(path[0]) + EscapeEach(path[1..])
  }

  /** Reverses the escaping: a backslash followed by a bracket stands for the bracket. */
  function Unescape(e: string): string
  {
    if e == [] then []
    else if |e| >= 2 && e[0] == '\\' && IsBracket(e[1]) then [e[1]] + Unescape(e[2..])
    else [e[0]] + Unescape(e[1..])
  }

  lemma {:induction false} ReplaceCharAppend(a: string, b: string, c: char, replacement: string)
    ensures ReplaceChar(a + b, c, replacement) == ReplaceChar(a, c, replacement) + ReplaceChar(b, c, replacement)
  {
    if a != [] {
      assert (a + b)[1..] == a[1..] + b;
      ReplaceCharAppend(a[1..], b, c, replacement);
    } else {
      assert a + b == b;
    }
  }

  /**
   * The two chained replacements act character by character: each bracket
   * becomes backslash-bracket and every other character stays as it is (the
   * backslashes the first replacement inserts are not touched by the second).
   */
  lemma {:induction false} EscapeIsPerCharacter(path: string)
    ensures Escape(path) == EscapeEach(path)
  {
    if path != [] {
      var x, rest := path[0], path[1..];
      var first := if x == '[' then @"\[" else [x];
      assert ReplaceChar(path, '[', @"\[") == first + ReplaceChar(rest, '[', @"\[");
      ReplaceCharAppend(first, ReplaceChar(rest, '[', @"\["), ']', @"\]");
      EscapeIsPerCharacter(rest);
      if x == '[' {
        assert ReplaceChar(@"\[", ']', @"\]") == @"\[" by {
          assert @"\["[1..] == "[";
          assert "["[1..] == [];
        }
      } else {
        assert ReplaceChar([x], ']', @"\]") == (if x == ']' then @"\]" else [x]) by {
          assert [x][1..] == [];
        }
      }
    }
  }

  /** An escaped text never starts with a bracket. */
  lemma EscapeEachHead(path: string)
    ensures EscapeEach(path) != [] ==> !IsBracket(EscapeEach(path)[0])
  {
  }

  /** Escaping lengthens a path by one character per bracket in it. */
  lemma {:induction false} EscapeLength(path: string)
    ensures |Escape(path)| == |path| + multiset(path)['['] + multiset(path)[']']
  {
    EscapeIsPerCharacter(path);
    EscapeEachLength(path);
  }

  lemma {:induction false} EscapeEachLength(path: string)
    ensures |EscapeEach(path)| == |path| + multiset(path)['['] + multiset(path)[']']
  {
    if path != [] {
      EscapeEachLength(path[1..]);
      assert path == [path[0]] + path[1..];
      assert multiset(path) == multiset{path[0]} + multiset(path[1..]);
    }
  }

  /** In an escaped path every bracket is immediately preceded by a backslash. */
  lemma EscapedBracketsArePreceded(path: string)
    ensures var e := Escape(path);
      forall k :: 0 <= k < |e| && IsBracket(e[k]) ==> k > 0 && e[k - 1] == '\\'
  {
    EscapeIsPerCharacter(path);
    EscapeEachBracketsArePreceded(path);
  }

  lemma {:induction false} EscapeEachBracketsArePreceded(path: string)
    ensures var e := EscapeEach(path);
      forall k :: 0 <= k < |e| && IsBracket(e[k]) ==> k > 0 && e[k - 1] == '\\'
  {
    if path != [] {
      var head, tail := EscapeChar(path[0]), EscapeEach(path[1..]);
      var e := EscapeEach(path);
      assert e == head + tail;
      EscapeEachBracketsArePreceded(path[1..]);
      EscapeEachHead(path[1..]);
      forall k | 0 <= k < |e| && IsBracket(e[k]) ensures k > 0 && e[k - 1] == '\\' {
        if k >= |head| {
          assert e[k] == tail[k - |head|];
          if k > |head| {
            assert e[k - 1] == tail[k - 1 - |head|];
          }
        }
      }
    }
  }

  /** Characters other than brackets and the backslash are in the escaped path exactly when in the path. */
  lemma {:induction false} EscapeKeepsOthers(path: string, c: char)
    requires c != '\\' && !IsBracket(c)
    ensures c in Escape(path) <==> c in path
  {
    EscapeIsPerCharacter(path);
    EscapeEachKeepsOthers(path, c);
  }

  lemma {:induction false} EscapeEachKeepsOthers(path: string, c: char)
    requires c != '\\' && !IsBracket(c)
    ensures c in EscapeEach(path) <==> c in path
  {
    if path != [] {
      EscapeEachKeepsOthers(path[1..], c);
      assert path == [path[0]] + path[1..];
    }
  }

  /** Unescaping an escaped path gives back the path: escaping loses nothing. */
  lemma UnescapeEscape(path: string)
    ensures Unescape(Escape(path)) == path
  {
    EscapeIsPerCharacter(path);
    UnescapeEscapeEach(path);
  }

  lemma {:induction false} UnescapeEscapeEach(path: string)
    ensures Unescape(EscapeEach(path)) == path
  {
    if path != [] {
      var x, rest := path[0], path[1..];
      var tail := EscapeEach(rest);
      UnescapeEscapeEach(rest);
      EscapeEachHead(rest);
      if IsBracket(x) {
        assert EscapeEach(path) == ['\\', x] + tail;
        assert (['\\', x] + tail)[2..] == tail;
      } else {
        assert EscapeEach(path) == [x] + tail;
        assert ([x] + tail)[1..] == tail;
      }
      assert [x] + rest == path;
    }
  }

  /** The whole report when the search found nothing: a heading, a blank line and the message line. */
  function NoResultsMessage(w: Wording, query: string): string
  {
    w.noResultsHeading + "\n\n" + (w.noMatchLabel + query + "`")
  }

  /** The query line, without its line break. */
  function QueryLine(w: Wording, query: string): string
  {
    w.queryLabel + query + "`"
  }

  /** The suffix that marks a result count that reached the limit. */
  function LimitNotice(w: Wording, limit: int): string
  {
    w.limitLabel + IntToDecimal(limit) + ")"
  }

  /** The count line: the count, and the limit notice when the count reached the limit. */
  function CountLine(w: Wording, count: nat, limit: int): string
  {
    w.resultsLabel + NatToDecimal(count) + (if count >= limit then LimitNotice(w, limit) else "")
  }

  /** Heading, query line and count line of a non-empty report. */
  function Header(w: Wording, query: string, count: nat, limit: int): string
  {
    w.resultsHeading + "\n\n" + QueryLine(w, query) + "\n" + CountLine(w, count, limit)
  }

  /** The list item for the path numbered `number`, without its line break: "n. `escaped path`". */
  function ItemText(number: nat, path: string): string
  {
    NatToDecimal(number) + ". `" + Escape(path) + "`"
  }

  /** The list items of the first `n` results, numbered from 1, each ending in a line break. */
  function Items(results: seq<string>, n: nat): string
    requires n <= |results|
  {
    if n == 0 then [] else Items(results, n - 1) + (ItemText(n, results[n - 1]) + "\n")
  }

  /** The report for a search in a given wording. */
  function Markdown(w: Wording, query: string, results: seq<string>, limit: int): string
  {
    if results == [] then NoResultsMessage(w, query)
    else Header(w, query, |results|, limit) + "\n\n" + Items(results, |results|)
  }

  /** The report `format_results_as_markdown` produces. */
  function Render(query: string, results: seq<string>, limit: int): string
  {
    Markdown(Texts, query, results, limit)
  }

  lemma ConcatAssoc(a: string, b: string, c: string)
    ensures a + (b + c) == a + b + c
  {
  }

  /** The header assembled piece by piece, as the source appends it. */
  lemma HeaderAsBuilt(w: Wording, query: string, count: nat, limit: int)
    ensures w.resultsHeading + "\n\n" + (w.queryLabel + query + "`\n") + (w.resultsLabel + NatToDecimal(count))
            + (if count >= limit then LimitNotice(w, limit) else "") + "\n\n"
            == Header(w, query, count, limit) + "\n\n"
  {
  }

  /**
   * `format_results_as_markdown`, building the report with `+=` as the
   * source does: the fixed message when there are no results, otherwise the
   * header and one numbered item per path, in input order.
   */
  method FormatResultsAsMarkdown(query: string, results: seq<string>, limit: int)
    returns (markdown: string)
    ensures markdown == Render(query, results, limit)
  {
    if |results| == 0 {
      return NoResultsHeading + "\n\n" + NoMatchLabel + query + "`";
    }
    var resultCount := |results|;
    markdown := ResultsHeading + "\n\n";
    markdown := markdown + (QueryLabel + query + "`\n");
    markdown := markdown + (ResultsLabel + NatToDecimal(resultCount));
    if resultCount >= limit {
      markdown := markdown + LimitNotice(Texts, limit);
    }
    markdown := markdown + "\n\n";
    HeaderAsBuilt(Texts, query, resultCount, limit);
    markdown := AppendItems(markdown, results);
  }

  /** The numbered list loop: appends one item line per path, numbered from 1, in input order. */
  method AppendItems(header: string, results: seq<string>) returns (markdown: string)
    ensures markdown == header + Items(results, |results|)
  {
    markdown := header;
    var i := 0;
    while i < |results|
      invariant 0 <= i <= |results|
      invariant markdown == header + Items(results, i)
    {
      var escapedPath := Escape(results[i]);
      var item := NatToDecimal(i + 1) + ". `" + escapedPath + "`\n";
      ConcatAssoc(NatToDecimal(i + 1) + ". `" + escapedPath, "`", "\n");
      ConcatAssoc(header, Items(results, i), item);
      markdown := markdown + item;
      i := i + 1;
    }
  }
}
