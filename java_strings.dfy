/**
 * The parts of java.lang.String and java.io.BufferedReader that the manifest
 * codec relies on: contains, split on a literal delimiter, and reading a
 * character stream line by line.
 */
module JavaStrings {

  /** The delimiter d occurs in s starting at index i. */
  predicate MatchAt(s: string, d: string, i: nat)
  {
    i + |d| <= |s| && s[i..i + |d|] == d
  }

  /** String.contains. */
  predicate Contains(s: string, d: string)
  {
    exists i: nat :: i <= |s| && MatchAt(s, d, i)
  }

  /** The first occurrence of d in s is at index n. */
  predicate FirstMatch(s: string, d: string, n: nat)
  {
    MatchAt(s, d, n) && forall i: nat :: i < n ==> !MatchAt(s, d, i)
  }

  /**
   * The pieces of s between the occurrences of d, matched from left to right
   * without overlap. Every empty piece is kept, so there is one piece more
   * than there are occurrences.
   */
  function Pieces(s: string, d: string): (r: seq<string>)
    requires d != []
    ensures r != []
    decreases |s|
  {
    if MatchAt(s, d, 0) then [""] + Pieces(s[|d|..], d)
    else if s == [] then [""]
    else
      var p := Pieces(s[1..], d);
      [[s[0]] + p[0]] + p[1..]
  }

  /** The longest prefix of p that does not end in an empty string. */
  function DropTrailingEmpty(p: seq<string>): (r: seq<string>)
    ensures |r| <= |p| && r == p[..|r|]
    ensures r == [] || r[|r| - 1] != ""
    ensures forall i :: |r| <= i < |p| ==> p[i] == ""
  {
    if p != [] && p[|p| - 1] == "" then DropTrailingEmpty(p[..|p| - 1]) else p
  }

  /**
   * String.split(d) for a delimiter without regular-expression meta
   * characters (the limit is 0): when d does not occur the whole string is
   * the only field, even when it is empty; otherwise the pieces, with the
   * empty pieces at the end removed.
   */
  function Split(s: string, d: string): (r: seq<string>)
    requires d != []
    ensures !Contains(s, d) ==> r == [s]
    ensures Contains(s, d) ==> r == [] || r[|r| - 1] != ""
    ensures Contains(s, d) ==> |r| <= |Pieces(s, d)| && r == Pieces(s, d)[..|r|]
    ensures Contains(s, d) ==> forall i :: |r| <= i < |Pieces(s, d)| ==> Pieces(s, d)[i] == ""
  {
    if !Contains(s, d) then [s] else DropTrailingEmpty(Pieces(s, d))
  }

  /** Pieces of a string in which d never starts is that string alone. */
  lemma {:induction false} PiecesNoMatch(s: string, d: string)
    requires d != []
    requires !Contains(s, d)
    ensures Pieces(s, d) == [s]
    decreases |s|
  {
    assert !MatchAt(s, d, 0);
    if s != [] {
      forall i: nat | i <= |s[1..]|
        ensures !MatchAt(s[1..], d, i)
      {
        if i + |d| <= |s[1..]| {
          assert s[1..][i..i + |d|] == s[i + 1..i + 1 + |d|];
        }
        assert !MatchAt(s, d, i + 1);
      }
      PiecesNoMatch(s[1..], d);
      assert [s[0]] + s[1..] == s;
    }
  }

  /**
   * When the first occurrence of d in s is at index n, the first piece is
   * s[..n] and the remaining pieces are those of the text after that
   * occurrence.
   */
  lemma {:induction false} PiecesAtFirstMatch(s: string, d: string, n: nat)
    requires d != []
    requires FirstMatch(s, d, n)
    ensures Pieces(s, d) == [s[..n]] + Pieces(s[n + |d|..], d)
    decreases n
  {
    if n > 0 {
      assert !MatchAt(s, d, 0);
      forall i: nat | i < n - 1
        ensures !MatchAt(s[1..], d, i)
      {
        assert !MatchAt(s, d, i + 1);
        if i + |d| <= |s[1..]| {
          assert s[1..][i..i + |d|] == s[i + 1..i + 1 + |d|];
        }
      }
      assert s[1..][n - 1..n - 1 + |d|] == s[n..n + |d|];
      PiecesAtFirstMatch(s[1..], d, n - 1);
      assert s[1..][n - 1 + |d|..] == s[n + |d|..];
      assert [s[0]] + s[1..][..n - 1] == s[..n];
    }
  }

  /**
   * A line "k,w" whose two parts hold no comma splits into exactly those two
   * fields, provided the second is not empty (String.split would drop it).
   */
  lemma SplitTwoFields(k: string, w: string)
    requires ',' !in k && ',' !in w && w != ""
    ensures Split(k + "," + w, ",") == [k, w]
  {
    var s := k + "," + w;
    assert s[|k|..|k| + 1] == ",";
    assert MatchAt(s, ",", |k|);
    forall i: nat | i < |k|
      ensures !MatchAt(s, ",", i)
    {
      assert s[i] == k[i];
      assert s[i..i + 1][0] == s[i];
    }
    PiecesAtFirstMatch(s, ",", |k|);
    assert s[..|k|] == k && s[|k| + 1..] == w;
    forall i: nat | i <= |w|
      ensures !MatchAt(w, ",", i)
    {
      if i + 1 <= |w| {
        assert w[i..i + 1][0] == w[i];
      }
    }
    PiecesNoMatch(w, ",");
  }

  /** "id=" cannot overlap itself, so it cannot start in a text free of it and end in a following "id=". */
  lemma MarkerAfterFreeText(a: string, b: string)
    requires !Contains(a, "id=")
    ensures FirstMatch(a + "id=" + b, "id=", |a|)
  {
    var s := a + "id=" + b;
    assert s[|a|..|a| + 3] == "id=";
    forall i: nat | i < |a|
      ensures !MatchAt(s, "id=", i)
    {
      if i + 3 <= |a| {
        assert a[i..i + 3] == s[i..i + 3];
        assert !MatchAt(a, "id=", i);
      } else if i + 1 == |a| {
        assert s[i + 1] == 'i';
        assert s[i..i + 3][1] == 'i';
      } else {
        assert s[i + 2] == 'i';
        assert s[i..i + 3][2] == 'i';
      }
    }
  }

  predicate IsLineBreak(c: char)
  {
    c == '\n' || c == '\r'
  }

  predicate NoLineBreak(s: string)
  {
    forall i :: 0 <= i < |s| ==> !IsLineBreak(s[i])
  }

  /** The length of the first line of s: the index of its first line break, or |s| if there is none. */
  function LineLength(s: string): (n: nat)
    ensures n <= |s|
    ensures NoLineBreak(s[..n])
    ensures n < |s| ==> IsLineBreak(s[n])
  {
    if s == [] || IsLineBreak(s[0]) then 0
    else
      var m := LineLength(s[1..]);
      assert s[..m + 1] == [s[0]] + s[1..][..m];
      m + 1
  }

  /**
   * The lines BufferedReader.readLine returns one after another until the
   * stream is exhausted: a line ends at "\n", at "\r" or at "\r\n", the
   * terminator is not part of the line, and the last line needs none.
   */
  function ReadLines(s: string): (r: seq<string>)
    ensures forall i :: 0 <= i < |r| ==> NoLineBreak(r[i])
    decreases |s|
  {
    if s == [] then []
    else
      var n := LineLength(s);
      var next := if n == |s| then n
                  else if s[n] == '\r' && n + 1 < |s| && s[n + 1] == '\n' then n + 2
                  else n + 1;
      [s[..n]] + ReadLines(s[next..])
  }

  /** The lines glued together with sep between each two of them. */
  function Join(lines: seq<string>, sep: string): string
  {
    if |lines| == 0 then ""
    else if |lines| == 1 then lines[0]
    else lines[0] + sep + Join(lines[1..], sep)
  }

  /** The line separators readLine understands. */
  predicate IsNewline(nl: string)
  {
    nl == "\n" || nl == "\r" || nl == "\r\n"
  }

  lemma {:induction false} JoinSnoc(lines: seq<string>, x: string, sep: string)
    requires lines != []
    ensures Join(lines + [x], sep) == Join(lines, sep) + sep + x
    decreases |lines|
  {
    if |lines| > 1 {
      assert (lines + [x])[1..] == lines[1..] + [x];
      JoinSnoc(lines[1..], x, sep);
    }
  }

  lemma LineLengthOfLine(a: string, b: string)
    requires NoLineBreak(a)
    requires b == [] || IsLineBreak(b[0])
    ensures LineLength(a + b) == |a|
    decreases |a|
  {
    if a != [] {
      assert (a + b)[1..] == a[1..] + b;
      LineLengthOfLine(a[1..], b);
    }
  }

  /** The first character of a joined text whose last line is not empty. */
  lemma {:induction false} JoinStart(lines: seq<string>, nl: string)
    requires IsNewline(nl)
    requires lines != [] && lines[|lines| - 1] != ""
    requires forall i :: 0 <= i < |lines| ==> NoLineBreak(lines[i])
    ensures Join(lines, nl) != []
    ensures Join(lines, nl)[0] == '\n' ==> nl == "\n"
    decreases |lines|
  {
    if |lines| > 1 {
      JoinStart(lines[1..], nl);
      if lines[0] != [] {
        assert Join(lines, nl)[0] == lines[0][0];
      }
    }
  }

  /** readLine on a line followed by a newline gives that line and continues after the newline. */
  lemma ReadLinesStep(a: string, nl: string, rest: string)
    requires NoLineBreak(a) && IsNewline(nl)
    requires nl == "\r" && rest != [] ==> rest[0] != '\n'
    ensures ReadLines(a + nl + rest) == [a] + ReadLines(rest)
  {
    var s := a + nl + rest;
    assert s == a + (nl + rest);
    LineLengthOfLine(a, nl + rest);
    if nl == "\r\n" {
      assert s[|a| + 2..] == rest;
    } else {
      assert s[|a| + 1..] == rest;
    }
    assert s[..|a|] == a;
  }

  /**
   * Reading back lines joined with a newline gives the lines again, when no
   * line holds a line break and the last one is not empty (an empty last line
   * leaves no trace after the final separator).
   */
  lemma {:induction false} ReadLinesJoin(lines: seq<string>, nl: string)
    requires IsNewline(nl)
    requires lines != [] && lines[|lines| - 1] != ""
    requires forall i :: 0 <= i < |lines| ==> NoLineBreak(lines[i])
    ensures ReadLines(Join(lines, nl)) == lines
    decreases |lines|
  {
    if |lines| == 1 {
      LineLengthOfLine(lines[0], []);
      assert lines[0] + [] == lines[0];
    } else {
      JoinStart(lines[1..], nl);
      ReadLinesStep(lines[0], nl, Join(lines[1..], nl));
      ReadLinesJoin(lines[1..], nl);
    }
  }
}
