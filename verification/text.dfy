/**
 * The string operations of Python that the search wrapper relies on:
 * `str.isspace`, `str.strip()`, `str.split(sep)` and its inverse `sep.join`.
 */
module Text {

  /**
   * The characters Python's `str.isspace()` (and so `str.strip()` with no
   * argument) treats as whitespace: tab, line feed, vertical tab, form feed
   * and carriage return (U+0009-U+000D), the information separators
   * U+001C-U+001F, space, NEL (U+0085), NO-BREAK SPACE (U+00A0), OGHAM SPACE
   * MARK (U+1680), the spaces U+2000-U+200A, the line and paragraph
   * separators U+2028 and U+2029, and U+202F, U+205F and U+3000.
   */
  predicate IsWhitespace(c: char)
  {
    var n := c as int;
    || 0x09 <= n <= 0x0D || 0x1C <= n <= 0x20 || n == 0x85 || n == 0xA0 || n == 0x1680
    || 0x2000 <= n <= 0x200A || n == 0x2028 || n == 0x2029 || n == 0x202F || n == 0x205F || n == 0x3000
  }

  /** The line break is whitespace. */
  lemma LineBreakIsWhitespace()
    ensures IsWhitespace('\n')
  {
  }

  predicate AllWhitespace(s: string)
  {
    forall k :: 0 <= k < |s| ==> IsWhitespace(s[k])
  }

  /** `s.lstrip()`: `s` without the whitespace at its start. */
  function TrimLeft(s: string): (r: string)
    ensures |r| <= |s|
  {
    if s != [] && IsWhitespace(s[0]) then TrimLeft(s[1..]) else s
  }

  /** `s.rstrip()`: `s` without the whitespace at its end. */
  function TrimRight(s: string): (r: string)
    ensures |r| <= |s|
  {
    if s != [] && IsWhitespace(s[|s| - 1]) then TrimRight(s[..|s| - 1]) else s
  }

  /** `TrimLeft(s)` is the longest suffix of `s` that does not start with whitespace. */
  lemma {:induction false} TrimLeftShape(s: string)
    ensures var r := TrimLeft(s);
      && r == s[|s| - |r|..]
      && AllWhitespace(s[..|s| - |r|])
      && (r != [] ==> !IsWhitespace(r[0]))
  {
    if s != [] && IsWhitespace(s[0]) {
      TrimLeftShape(s[1..]);
      var r := TrimLeft(s);
      var cut := |s| - |r|;
      assert s[1..][cut - 1..] == s[cut..];
      assert s[..cut] == [s[0]] + s[1..][..cut - 1];
      AllWhitespaceConcat([s[0]], s[1..][..cut - 1]);
    }
  }

  /** `TrimRight(s)` is the longest prefix of `s` that does not end with whitespace. */
  lemma {:induction false} TrimRightShape(s: string)
    ensures var r := TrimRight(s);
      && r == s[..|r|]
      && AllWhitespace(s[|r|..])
      && (r != [] ==> !IsWhitespace(r[|r| - 1]))
  {
    if s != [] && IsWhitespace(s[|s| - 1]) {
      var shorter := s[..|s| - 1];
      TrimRightShape(shorter);
      var r := TrimRight(s);
      assert shorter[..|r|] == s[..|r|];
      assert s[|r|..] == shorter[|r|..] + [s[|s| - 1]];
      AllWhitespaceConcat(shorter[|r|..], [s[|s| - 1]]);
    }
  }

  /**
   * `s.strip()`: `s` without its leading and trailing whitespace. The result
   * starts and ends with a non-whitespace character and is empty exactly when
   * `s` is all whitespace; `StripIsSlice` says where in `s` it lies.
   */
  function Strip(s: string): (r: string)
    ensures (r == []) == AllWhitespace(s)
    ensures r != [] ==> !IsWhitespace(r[0]) && !IsWhitespace(r[|r| - 1])
  {
    StripEmptyIff(s);
    StripEnds(s);
    TrimRight(TrimLeft(s))
  }

  lemma StripEnds(s: string)
    ensures var r := TrimRight(TrimLeft(s));
      r != [] ==> !IsWhitespace(r[0]) && !IsWhitespace(r[|r| - 1])
  {
    var t := TrimLeft(s);
    TrimLeftShape(s);
    TrimRightShape(t);
    var r := TrimRight(t);
    if r != [] {
      assert r[0] == t[0];
    }
  }

  /** The whitespace `Strip` cuts off at the start of `s`. */
  function LeadingWhitespace(s: string): string
  {
    s[..|s| - |TrimLeft(s)|]
  }

  /** The whitespace `Strip` cuts off at the end of `s`. */
  function TrailingWhitespace(s: string): string
  {
    var t := TrimLeft(s);
    t[|TrimRight(t)|..]
  }

  /**
   * `Strip(s)` is what remains of `s` after cutting off a run of whitespace at
   * each end.
   */
  lemma StripIsSlice(s: string)
    ensures s == LeadingWhitespace(s) + Strip(s) + TrailingWhitespace(s)
    ensures AllWhitespace(LeadingWhitespace(s)) && AllWhitespace(TrailingWhitespace(s))
  {
    var t := TrimLeft(s);
    TrimLeftShape(s);
    TrimRightShape(t);
    assert t == TrimRight(t) + TrailingWhitespace(s);
    assert s == LeadingWhitespace(s) + t;
  }

  lemma StripEmptyIff(s: string)
    ensures (TrimRight(TrimLeft(s)) == []) == AllWhitespace(s)
  {
    var t := TrimLeft(s);
    TrimLeftShape(s);
    var i := |s| - |t|;
    if TrimRight(t) == [] {
      TrimRightShape(t);
      assert t[0..] == t;
      assert s == s[..i] + t;
      AllWhitespaceConcat(s[..i], t);
    } else {
      assert !IsWhitespace(t[0]);
      assert s[i] == t[0];
    }
  }

  lemma AllWhitespaceConcat(a: string, b: string)
    requires AllWhitespace(a) && AllWhitespace(b)
    ensures AllWhitespace(a + b)
  {
    forall k | 0 <= k < |a + b| ensures IsWhitespace((a + b)[k]) {
      if k < |a| {
        assert (a + b)[k] == a[k];
      } else {
        assert (a + b)[k] == b[k - |a|];
      }
    }
  }

  /**
   * Whitespace after a text that starts and ends with non-whitespace is all
   * that stripping removes.
   */
  lemma StripTrailingWhitespace(x: string, tail: string)
    requires x != [] && !IsWhitespace(x[0]) && !IsWhitespace(x[|x| - 1])
    requires AllWhitespace(tail)
    ensures Strip(x + tail) == x
  {
    assert TrimLeft(x + tail) == x + tail;
    TrimRightWhitespace(x, tail);
  }

  /** Stripping a stripped, non-empty text with a line break after it gives back the text. */
  lemma StripTrailingBreak(x: string)
    requires x != [] && IsStripped(x)
    ensures Strip(x + "\n") == x
  {
    LineBreakIsWhitespace();
    assert AllWhitespace("\n");
    StripTrailingWhitespace(x, "\n");
  }

  lemma {:induction false} TrimRightWhitespace(x: string, tail: string)
    requires x != [] && !IsWhitespace(x[|x| - 1])
    requires AllWhitespace(tail)
    ensures TrimRight(x + tail) == x
  {
    if tail == [] {
      assert x + tail == x;
    } else {
      var shorter := tail[..|tail| - 1];
      assert (x + tail)[..|x + tail| - 1] == x + shorter;
      assert AllWhitespace(shorter) by {
        forall k | 0 <= k < |shorter| ensures IsWhitespace(shorter[k]) {
          assert shorter[k] == tail[k];
        }
      }
      TrimRightWhitespace(x, shorter);
    }
  }

  /** `p` has no whitespace to strip at either end. */
  predicate IsStripped(p: string)
  {
    p != [] ==> !IsWhitespace(p[0]) && !IsWhitespace(p[|p| - 1])
  }

  /** The texts that stripping leaves unchanged are exactly the stripped ones. */
  lemma StripFixesStripped(p: string)
    ensures (Strip(p) == p) == IsStripped(p)
  {
    if IsStripped(p) && p != [] {
      assert TrimLeft(p) == p;
      assert TrimRight(p) == p;
    }
  }

  /** Stripping twice is stripping once. */
  lemma StripIdempotent(s: string)
    ensures Strip(Strip(s)) == Strip(s)
  {
    var r := Strip(s);
    if r != [] {
      assert TrimLeft(r) == r;
      assert TrimRight(r) == r;
    }
  }

  /** A character absent from `s` is absent from `Strip(s)`. */
  lemma StripKeepsOut(s: string, c: char)
    ensures c !in s ==> c !in Strip(s)
  {
    var t := TrimLeft(s);
    var r := TrimRight(t);
    TrimLeftShape(s);
    TrimRightShape(t);
    SliceKeepsOut(s, |s| - |t|, |s|, c);
    SliceKeepsOut(t, 0, |r|, c);
  }

  lemma SliceKeepsOut(s: string, i: nat, j: nat, c: char)
    requires i <= j <= |s|
    ensures c !in s ==> c !in s[i..j]
  {
    forall k | 0 <= k < j - i
      ensures s[i..j][k] == s[i + k]
    {
    }
  }

  /**
   * `s.split(d)` for a one-character separator: the pieces of `s` between
   * occurrences of `d`. There is always at least one piece; `SplitShape` and
   * `JoinSplit` say what the pieces are.
   */
  function Split(s: string, d: char): (r: seq<string>)
    ensures |r| >= 1
  {
    if s == [] then [[]]
    else
      var rest := Split(s[1..], d);
      if s[0] == d then [[]] + rest
      else [[s[0]] + rest[0]] + rest[1..]
  }

  /** No piece contains the separator, and the first piece is the text up to the first separator. */
  lemma {:induction false} SplitShape(s: string, d: char)
    ensures var r := Split(s, d);
      && (forall i :: 0 <= i < |r| ==> d !in r[i])
      && |r[0]| <= |s| && r[0] == s[..|r[0]|]
      && (|r[0]| < |s| ==> s[|r[0]|] == d)
  {
    if s != [] {
      SplitShape(s[1..], d);
    }
  }

  /** The first line of a text that starts with a non-whitespace character. */
  lemma FirstLineShape(out: string)
    requires out != [] && !IsWhitespace(out[0])
    ensures var line := Split(out, '\n')[0];
      line != [] && '\n' !in line && line[0] == out[0] && |line| <= |out| && line == out[..|line|]
  {
    LineBreakIsWhitespace();
    SplitShape(out, '\n');
  }

  /** `d.join(pieces)`: the pieces with one `d` between each neighbouring pair. */
  function Join(pieces: seq<string>, d: char): (s: string)
    requires |pieces| >= 1
  {
    if |pieces| == 1 then pieces[0] else pieces[0] + [d] + Join(pieces[1..], d)
  }

  /** A join starts with its first piece and ends with its last one. */
  lemma {:induction false} JoinEnds(pieces: seq<string>, d: char)
    requires |pieces| >= 1
    ensures var s := Join(pieces, d);
      && |pieces[0]| <= |s| && s[..|pieces[0]|] == pieces[0]
      && var last := pieces[|pieces| - 1];
      && |last| <= |s| && s[|s| - |last|..] == last
  {
    if |pieces| > 1 {
      JoinEnds(pieces[1..], d);
      var s := Join(pieces, d);
      var tail := Join(pieces[1..], d);
      assert s == pieces[0] + [d] + tail;
      assert s[|s| - |tail|..] == tail;
    }
  }

  /** Splitting at one separator splits the text on each side of it independently. */
  lemma {:induction false} SplitConcat(a: string, d: char, b: string)
    ensures Split(a + [d] + b, d) == Split(a, d) + Split(b, d)
  {
    if a == [] {
      assert a + [d] + b == [d] + b;
      assert ([d] + b)[1..] == b;
    } else {
      assert (a + [d] + b)[1..] == a[1..] + [d] + b;
      SplitConcat(a[1..], d, b);
    }
  }

  /** Text without the separator splits into itself alone. */
  lemma {:induction false} SplitWithoutSeparator(a: string, d: char)
    requires d !in a
    ensures Split(a, d) == [a]
  {
    if a != [] {
      SplitWithoutSeparator(a[1..], d);
      assert [a[0]] + a[1..] == a;
    }
  }

  /** Joining the pieces of a split gives back the original text. */
  lemma {:induction false} JoinSplit(s: string, d: char)
    ensures Join(Split(s, d), d) == s
  {
    if s != [] {
      var rest := Split(s[1..], d);
      JoinSplit(s[1..], d);
      if s[0] == d {
        JoinAfterEmpty(rest, d);
      } else {
        JoinExtendFirst(s[0], rest, d);
      }
      assert [s[0]] + s[1..] == s;
    }
  }

  /** An empty first piece contributes only its separator. */
  lemma JoinAfterEmpty(pieces: seq<string>, d: char)
    requires |pieces| >= 1
    ensures Join([[]] + pieces, d) == [d] + Join(pieces, d)
  {
    var all := [[]] + pieces;
    assert all[0] == [] && all[1..] == pieces;
  }

  /** A character put in front of the first piece ends up in front of the join. */
  lemma JoinExtendFirst(c: char, pieces: seq<string>, d: char)
    requires |pieces| >= 1
    ensures Join([[c] + pieces[0]] + pieces[1..], d) == [c] + Join(pieces, d)
  {
    var all := [[c] + pieces[0]] + pieces[1..];
    assert all[0] == [c] + pieces[0] && all[1..] == pieces[1..];
    if |pieces| > 1 {
      assert Join(all, d) == ([c] + pieces[0]) + [d] + Join(pieces[1..], d);
    }
  }

  /** Splitting a join of separator-free pieces gives back the pieces. */
  lemma {:induction false} SplitJoin(pieces: seq<string>, d: char)
    requires |pieces| >= 1
    requires forall i :: 0 <= i < |pieces| ==> d !in pieces[i]
    ensures Split(Join(pieces, d), d) == pieces
  {
    if |pieces| == 1 {
      SplitWithoutSeparator(pieces[0], d);
    } else {
      SplitJoin(pieces[1..], d);
      SplitConcat(pieces[0], d, Join(pieces[1..], d));
      SplitWithoutSeparator(pieces[0], d);
      assert [pieces[0]] + pieces[1..] == pieces;
    }
  }
}
