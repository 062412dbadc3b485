/**
 * Reading a Markdown report back: the inverse of `Formatter.Render`. It is
 * the partner that shows the report keeps everything it was given — the
 * query, the number of results, whether the limit was reached, and every
 * path, unescaped and in order.
 */
module ReportReader {
  import opened Wrappers
  import opened Text
  import opened Decimal
  import opened Formatter

  /** What a report says. */
  datatype Report =
    | NoResults(query: string)
    | Listing(query: string, count: nat, limitNotice: Option<int>, paths: seq<string>)

  /** The text of `line` between `prefix` and `suffix`, when it has both. */
  function Between(prefix: string, line: string, suffix: string): (r: Option<string>)
    ensures r.Some? ==> prefix + r.value + suffix == line
  {
    if |line| >= |prefix| + |suffix| && line[..|prefix|] == prefix && line[|line| - |suffix|..] == suffix
    then
      var middle := line[|prefix|..|line| - |suffix|];
      assert prefix + middle + suffix == line;
      Some(middle)
    else None
  }

  lemma BetweenOf(prefix: string, middle: string, suffix: string)
    ensures Between(prefix, prefix + middle + suffix, suffix) == Some(middle)
  {
    var line := prefix + middle + suffix;
    assert line[..|prefix|] == prefix;
    assert line[|line| - |suffix|..] == suffix;
    assert line[|prefix|..|line| - |suffix|] == middle;
  }

  /** The longest run of digits at the start of `s`. */
  function LeadingDigits(s: string): (r: string)
    ensures |r| <= |s| && r == s[..|r|] && AllDigits(r)
    ensures |r| < |s| ==> !IsDigit(s[|r|])
  {
    if s != [] && IsDigit(s[0]) then [s[0]] + LeadingDigits(s[1..]) else []
  }

  lemma {:induction false} LeadingDigitsOf(digits: string, rest: string)
    requires AllDigits(digits)
    requires rest != [] ==> !IsDigit(rest[0])
    ensures LeadingDigits(digits + rest) == digits
  {
    if digits != [] {
      assert (digits + rest)[1..] == digits[1..] + rest;
      LeadingDigitsOf(digits[1..], rest);
    } else {
      assert digits + rest == rest;
    }
  }

  /**
   * The texts of a wording a report can be read back with: none holds a line
   * break, and the limit notice does not start with a digit, so the count
   * ends where the notice begins.
   */
  predicate Readable(w: Wording)
  {
    && '\n' !in w.noResultsHeading && '\n' !in w.noMatchLabel && '\n' !in w.resultsHeading
    && '\n' !in w.queryLabel && '\n' !in w.resultsLabel && '\n' !in w.limitLabel
    && w.limitLabel != [] && !IsDigit(w.limitLabel[0])
  }

  /** The wording of `format_results_as_markdown` can be read back. */
  lemma TextsReadable()
    ensures Readable(Texts)
  {
    NoBreakIn(NoResultsHeading);
    NoBreakIn(NoMatchLabel);
    NoBreakIn(ResultsHeading);
    NoBreakIn(QueryLabel);
    NoBreakIn(ResultsLabel);
    NoBreakIn(LimitLabel);
  }

  lemma NoBreakIn(s: string)
    requires forall k :: 0 <= k < |s| ==> s[k] != '\n'
    ensures '\n' !in s
  {
  }

  /**
   * Reads the count line: the count, and the limit named by the notice when
   * there is one.
   */
  function ParseCountLine(w: Wording, line: string): Option<(nat, Option<int>)>
  {
    if |line| >= |w.resultsLabel| && line[..|w.resultsLabel|] == w.resultsLabel then
      var rest := line[|w.resultsLabel|..];
      var digits := LeadingDigits(rest);
      var after := rest[|digits|..];
      if digits == [] then None
      else if after == [] then Some((DigitsValue(digits), None))
      else
        match Between(w.limitLabel, after, ")")
        case None => None
        case Some(l) =>
          match ParseInt(l)
          case None => None
          case Some(limit) => Some((DigitsValue(digits), Some(limit)))
    else None
  }

  /** The count line gives back its count, and the limit exactly when the count reached it. */
  lemma CountLineRoundTrip(w: Wording, count: nat, limit: int)
    requires w.limitLabel != [] && !IsDigit(w.limitLabel[0])
    ensures ParseCountLine(w, CountLine(w, count, limit))
         == Some((count, if count >= limit then Some(limit) else None))
  {
    var digits := NatToDecimal(count);
    var notice := if count >= limit then LimitNotice(w, limit) else "";
    assert CountLine(w, count, limit) == w.resultsLabel + (digits + notice);
    PrefixThenRest(w.resultsLabel, digits + notice);
    NoticeRoundTrip(w, limit);
    LeadingDigitsOf(digits, notice);
    PrefixThenRest(digits, notice);
    DigitsValueOfDecimal(count);
  }

  /** The limit notice does not start with a digit and gives back the limit. */
  lemma NoticeRoundTrip(w: Wording, limit: int)
    requires w.limitLabel != [] && !IsDigit(w.limitLabel[0])
    ensures !IsDigit(LimitNotice(w, limit)[0])
    ensures match Between(w.limitLabel, LimitNotice(w, limit), ")")
      case Some(l) => ParseInt(l) == Some(limit)
      case None => false
  {
    BetweenOf(w.limitLabel, IntToDecimal(limit), ")");
    IntDecimalRoundTrip(limit);
  }

  lemma PrefixThenRest(prefix: string, rest: string)
    ensures (prefix + rest)[..|prefix|] == prefix && (prefix + rest)[|prefix|..] == rest
  {
  }


  /** The item line for the `n`-th path, without its line break. */
  function ItemTexts(results: seq<string>, n: nat): (r: seq<string>)
    requires n <= |results|
    ensures |r| == n
  {
    if n == 0 then [] else ItemTexts(results, n - 1) + [ItemText(n, results[n - 1])]
  }

  /**
   * Reads the numbered item lines: line `k` (from 1) must read "k. `e`", and
   * its path is `e` unescaped.
   */
  function ParseItems(lines: seq<string>): Option<seq<string>>
  {
    if lines == [] then Some([])
    else
      match ParseItems(lines[..|lines| - 1])
      case None => None
      case Some(paths) =>
        match Between(NatToDecimal(|lines|) + ". `", lines[|lines| - 1], "`")
        case None => None
        case Some(escaped) => Some(paths + [Unescape(escaped)])
  }

  lemma {:induction false} ItemsRoundTrip(results: seq<string>, n: nat)
    requires n <= |results|
    ensures ParseItems(ItemTexts(results, n)) == Some(results[..n])
  {
    if n > 0 {
      var lines := ItemTexts(results, n);
      assert lines[..n - 1] == ItemTexts(results, n - 1);
      ItemsRoundTrip(results, n - 1);
      ItemRoundTrip(n, results[n - 1]);
      assert results[..n - 1] + [results[n - 1]] == results[..n];
    }
  }

  lemma AllItemsRoundTrip(results: seq<string>)
    ensures ParseItems(ItemTexts(results, |results|)) == Some(results)
  {
    ItemsRoundTrip(results, |results|);
    assert results[..|results|] == results;
  }

  /** One item line gives back its path. */
  lemma ItemRoundTrip(number: nat, path: string)
    ensures match Between(NatToDecimal(number) + ". `", ItemText(number, path), "`")
      case Some(e) => Unescape(e) == path
      case None => false
  {
    BetweenOf(NatToDecimal(number) + ". `", Escape(path), "`");
    UnescapeEscape(path);
  }


  /** A numeral, as `str` writes one, holds no line break. */
  lemma NumeralOneLine(s: string)
    requires forall k :: 0 <= k < |s| ==> IsDigit(s[k]) || s[k] == '-'
    ensures '\n' !in s
  {
  }

  /** An item line has no line break when its path has none. */
  lemma ItemTextOneLine(number: nat, path: string)
    requires '\n' !in path
    ensures '\n' !in ItemText(number, path)
  {
    EscapeKeepsOthers(path, '\n');
    NumeralOneLine(NatToDecimal(number));
  }

  /** The item lines, each ending in a line break, split back into the item texts. */
  lemma {:induction false} SplitItems(results: seq<string>, n: nat, tail: string)
    requires n <= |results|
    requires forall i :: 0 <= i < n ==> '\n' !in results[i]
    requires '\n' !in tail
    ensures Split(Items(results, n) + tail, '\n') == ItemTexts(results, n) + [tail]
  {
    if n == 0 {
      assert Items(results, n) + tail == tail;
      SplitWithoutSeparator(tail, '\n');
    } else {
      var item := ItemText(n, results[n - 1]);
      ItemTextOneLine(n, results[n - 1]);
      SplitItems(results, n - 1, item);
      assert Items(results, n) + tail == (Items(results, n - 1) + item) + ['\n'] + tail;
      SplitConcat(Items(results, n - 1) + item, '\n', tail);
      SplitWithoutSeparator(tail, '\n');
    }
  }

  /** Two line breaks in a row leave an empty line between the text before and after them. */
  lemma SplitBlankLine(before: string, after: string)
    ensures Split(before + "\n\n" + after, '\n') == Split(before, '\n') + [[]] + Split(after, '\n')
  {
    assert before + "\n\n" + after == before + ['\n'] + ([] + ['\n'] + after);
    SplitConcat(before, '\n', [] + ['\n'] + after);
    SplitConcat([], '\n', after);
  }

  /**
   * Reads a report in a given wording: the three lines of the no-results
   * message, or the heading, query line, count line and blank separators
   * around the numbered items.
   */
  function Parse(w: Wording, markdown: string): Option<Report>
  {
    var lines := Split(markdown, '\n');
    if |lines| == 3 && lines[0] == w.noResultsHeading && lines[1] == [] then
      match Between(w.noMatchLabel, lines[2], "`")
      case None => None
      case Some(query) => Some(NoResults(query))
    else if |lines| >= 6 && lines[0] == w.resultsHeading && lines[1] == [] && lines[4] == []
            && lines[|lines| - 1] == [] then
      ParseListing(w, lines[2], lines[3], lines[5..|lines| - 1])
    else None
  }

  /** Reads the query line, the count line and the item lines of a non-empty report. */
  function ParseListing(w: Wording, queryLine: string, countLine: string, itemLines: seq<string>): Option<Report>
  {
    match (Between(w.queryLabel, queryLine, "`"), ParseCountLine(w, countLine), ParseItems(itemLines))
    case (Some(query), Some((count, notice)), Some(paths)) => Some(Listing(query, count, notice, paths))
    case _ => None
  }

  /** Reads a report written by `format_results_as_markdown`. */
  function ParseReport(markdown: string): Option<Report>
  {
    Parse(Texts, markdown)
  }

  /** The lines of a heading, a blank line and two more lines. */
  lemma HeaderLines(heading: string, queryLine: string, countLine: string)
    requires '\n' !in heading && '\n' !in queryLine && '\n' !in countLine
    ensures Split(heading + "\n\n" + queryLine + "\n" + countLine, '\n') == [heading, [], queryLine, countLine]
  {
    MessageLines(heading, queryLine);
    SplitConcat(heading + "\n\n" + queryLine, '\n', countLine);
    SplitWithoutSeparator(countLine, '\n');
  }

  /** The lines of a header, another blank line and the items. */
  lemma ListingLines(heading: string, queryLine: string, countLine: string, results: seq<string>)
    requires '\n' !in heading && '\n' !in queryLine && '\n' !in countLine
    requires forall i :: 0 <= i < |results| ==> '\n' !in results[i]
    ensures var lines := Split(heading + "\n\n" + queryLine + "\n" + countLine + "\n\n" + Items(results, |results|), '\n');
      && |lines| == |results| + 6
      && lines[0] == heading && lines[1] == [] && lines[2] == queryLine && lines[3] == countLine && lines[4] == []
      && lines[5..|lines| - 1] == ItemTexts(results, |results|) && lines[|lines| - 1] == []
  {
    var items := Items(results, |results|);
    HeaderLines(heading, queryLine, countLine);
    ItemLines(results);
    SplitBlankLine(heading + "\n\n" + queryLine + "\n" + countLine, items);
    var lines := Split(heading + "\n\n" + queryLine + "\n" + countLine + "\n\n" + items, '\n');
    assert lines[5..|lines| - 1] == ItemTexts(results, |results|);
  }

  /** All the item lines, each ending in a line break, split into the item texts and a last empty piece. */
  lemma ItemLines(results: seq<string>)
    requires forall i :: 0 <= i < |results| ==> '\n' !in results[i]
    ensures Split(Items(results, |results|), '\n') == ItemTexts(results, |results|) + [[]]
  {
    assert Items(results, |results|) + [] == Items(results, |results|);
    SplitItems(results, |results|, []);
  }

  /** The lines of a heading, a blank line and one more line. */
  lemma MessageLines(heading: string, line: string)
    requires '\n' !in heading && '\n' !in line
    ensures Split(heading + "\n\n" + line, '\n') == [heading, [], line]
  {
    SplitBlankLine(heading, line);
    SplitWithoutSeparator(heading, '\n');
    SplitWithoutSeparator(line, '\n');
  }

  /**
   * The report can be read back: the query, the count, the limit notice
   * exactly when the count reached the limit, and every path in order. This
   * holds whenever neither the query nor a path holds a line break.
   */
  lemma RenderRoundTrip(query: string, results: seq<string>, limit: int)
    requires '\n' !in query
    requires forall i :: 0 <= i < |results| ==> '\n' !in results[i]
    ensures ParseReport(Render(query, results, limit))
         == Some(if results == [] then NoResults(query)
                 else Listing(query, |results|, if |results| >= limit then Some(limit) else None, results))
  {
    TextsReadable();
    ReportRoundTrip(Texts, query, results, limit);
  }

  /** The round trip in any readable wording. */
  lemma ReportRoundTrip(w: Wording, query: string, results: seq<string>, limit: int)
    requires Readable(w)
    requires '\n' !in query
    requires forall i :: 0 <= i < |results| ==> '\n' !in results[i]
    ensures Parse(w, Markdown(w, query, results, limit))
         == Some(if results == [] then NoResults(query)
                 else Listing(query, |results|, if |results| >= limit then Some(limit) else None, results))
  {
    if results == [] {
      NoResultsRoundTrip(w, query);
    } else {
      ListingRoundTrip(w, query, results, limit);
    }
  }

  lemma NoResultsRoundTrip(w: Wording, query: string)
    requires Readable(w)
    requires '\n' !in query
    ensures Parse(w, NoResultsMessage(w, query)) == Some(NoResults(query))
  {
    MessageLines(w.noResultsHeading, w.noMatchLabel + query + "`");
    BetweenOf(w.noMatchLabel, query, "`");
  }

  lemma HeaderPiecesOneLine(w: Wording, query: string, count: nat, limit: int)
    requires Readable(w)
    requires '\n' !in query
    ensures '\n' !in QueryLine(w, query) && '\n' !in CountLine(w, count, limit)
  {
    NumeralOneLine(NatToDecimal(count));
    NumeralOneLine(IntToDecimal(limit));
  }

  lemma ListingRoundTrip(w: Wording, query: string, results: seq<string>, limit: int)
    requires Readable(w)
    requires results != []
    requires '\n' !in query
    requires forall i :: 0 <= i < |results| ==> '\n' !in results[i]
    ensures Parse(w, Header(w, query, |results|, limit) + "\n\n" + Items(results, |results|))
         == Some(Listing(query, |results|, if |results| >= limit then Some(limit) else None, results))
  {
    ReportReadsListing(w, query, results, limit);
    ListingPartsRoundTrip(w, query, results, limit);
  }

  /** A non-empty report is read through its query line, count line and item lines. */
  lemma ReportReadsListing(w: Wording, query: string, results: seq<string>, limit: int)
    requires Readable(w)
    requires results != []
    requires '\n' !in query
    requires forall i :: 0 <= i < |results| ==> '\n' !in results[i]
    ensures Parse(w, Header(w, query, |results|, limit) + "\n\n" + Items(results, |results|))
         == ParseListing(w, QueryLine(w, query), CountLine(w, |results|, limit), ItemTexts(results, |results|))
  {
    ReportLines(w, query, results, limit);
    ParseReportOfListing(w, Header(w, query, |results|, limit) + "\n\n" + Items(results, |results|));
  }

  /** The lines of a non-empty report. */
  lemma ReportLines(w: Wording, query: string, results: seq<string>, limit: int)
    requires Readable(w)
    requires '\n' !in query
    requires forall i :: 0 <= i < |results| ==> '\n' !in results[i]
    ensures var lines := Split(Header(w, query, |results|, limit) + "\n\n" + Items(results, |results|), '\n');
      && |lines| == |results| + 6
      && lines[0] == w.resultsHeading && lines[1] == [] && lines[2] == QueryLine(w, query)
      && lines[3] == CountLine(w, |results|, limit) && lines[4] == []
      && lines[5..|lines| - 1] == ItemTexts(results, |results|) && lines[|lines| - 1] == []
  {
    HeaderPiecesOneLine(w, query, |results|, limit);
    ListingLines(w.resultsHeading, QueryLine(w, query), CountLine(w, |results|, limit), results);
  }

  /** A text with the lines of a non-empty report is read by `ParseListing`. */
  lemma ParseReportOfListing(w: Wording, markdown: string)
    requires var lines := Split(markdown, '\n');
      && |lines| >= 7 && lines[0] == w.resultsHeading && lines[1] == [] && lines[4] == [] && lines[|lines| - 1] == []
    ensures var lines := Split(markdown, '\n');
      Parse(w, markdown) == ParseListing(w, lines[2], lines[3], lines[5..|lines| - 1])
  {
  }

  lemma ListingPartsRoundTrip(w: Wording, query: string, results: seq<string>, limit: int)
    requires Readable(w)
    ensures ParseListing(w, QueryLine(w, query), CountLine(w, |results|, limit), ItemTexts(results, |results|))
         == Some(Listing(query, |results|, if |results| >= limit then Some(limit) else None, results))
  {
    BetweenOf(w.queryLabel, query, "`");
    CountLineRoundTrip(w, |results|, limit);
    AllItemsRoundTrip(results);
  }
}
