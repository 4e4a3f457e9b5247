/**
 * Quoting source lines in a shader compilation report: a range of 1-based
 * line numbers of a NUL-terminated source is appended to the report, each line
 * prefixed by its number and with tabs expanded.
 */
module ShaderListing {

  /** The C string held by `s`: its characters up to the first NUL, or all of them. */
  function CString(s: seq<char>): (t: seq<char>)
    ensures |t| <= |s| && t == s[..|t|]
    ensures forall k :: 0 <= k < |t| ==> t[k] != '\0'
    ensures |t| == |s| || s[|t|] == '\0'
  {
    if |s| == 0 || s[0] == '\0' then [] else [s[0]] + CString(s[1..])
  }

  /** A prefix of `s` free of NUL characters is a prefix of its C string. */
  lemma CStringPrefix(s: seq<char>, i: nat)
    requires i <= |s| && forall k :: 0 <= k < i ==> s[k] != '\0'
    ensures i <= |CString(s)| && CString(s)[..i] == s[..i]
    ensures i == |s| || s[i] == '\0' ==> CString(s) == s[..i]
  {
  }

  /**
   * `t` cut after every newline: each line keeps its terminating newline, and
   * a last line without one is kept as it is.
   */
  function Lines(t: seq<char>): (ls: seq<seq<char>>)
    ensures |t| > 0 <==> |ls| > 0
  {
    if |t| == 0 then []
    else
      var p := Lines(t[..|t| - 1]);
      var c := t[|t| - 1];
      if |t| == 1 || t[|t| - 2] == '\n' then p + [[c]]
      else p[..|p| - 1] + [p[|p| - 1] + [c]]
  }

  /** The lines of `t`, joined back together. */
  function Join(ls: seq<seq<char>>): seq<char>
  {
    if |ls| == 0 then [] else Join(ls[..|ls| - 1]) + ls[|ls| - 1]
  }

  /** A well-cut line list: no empty line, newlines only at the ends of lines, all but the last line ended. */
  ghost predicate LineCut(ls: seq<seq<char>>)
  {
    (forall k :: 0 <= k < |ls| ==> |ls[k]| > 0) &&
    (forall k, j :: 0 <= k < |ls| && 0 <= j < |ls[k]| - 1 ==> ls[k][j] != '\n') &&
    (forall k :: 0 <= k < |ls| - 1 ==> ls[k][|ls[k]| - 1] == '\n')
  }

  /** Appending one character to a text either starts a new line or extends the last one. */
  lemma LinesSnoc(t: seq<char>, c: char)
    ensures Lines(t + [c]) ==
      if |t| == 0 || t[|t| - 1] == '\n' then Lines(t) + [[c]]
      else Lines(t)[..|Lines(t)| - 1] + [Lines(t)[|Lines(t)| - 1] + [c]]
  {
    assert (t + [c])[..|t|] == t;
  }

  /** `Join` adds one line at the end. */
  lemma JoinSnoc(ls: seq<seq<char>>, l: seq<char>)
    ensures Join(ls + [l]) == Join(ls) + l
  {
    assert (ls + [l])[..|ls|] == ls;
  }

  /** Cutting a text into lines loses nothing: joining the lines gives the text back. */
  lemma {:induction false} LinesJoin(t: seq<char>)
    ensures Join(Lines(t)) == t
  {
    if |t| > 0 {
      var u, c := t[..|t| - 1], t[|t| - 1];
      assert t == u + [c];
      LinesJoin(u);
      LinesSnoc(u, c);
      var p := Lines(u);
      if |u| == 0 || u[|u| - 1] == '\n' {
        JoinSnoc(p, [c]);
      } else {
        var q, l := p[..|p| - 1], p[|p| - 1];
        assert p == q + [l];
        JoinSnoc(q, l);
        JoinSnoc(q, l + [c]);
      }
    }
  }

  /**
   * The cut is exactly at the newlines: no line is empty, a newline only ends
   * a line, and every line but the last is ended by one.
   */
  lemma {:induction false} LinesCut(t: seq<char>)
    ensures LineCut(Lines(t))
  {
    if |t| > 0 {
      var u, c := t[..|t| - 1], t[|t| - 1];
      assert t == u + [c];
      LinesCut(u);
      LinesSnoc(u, c);
      var p := Lines(u);
      if |u| > 0 {
        LinesLastChar(u);
      }
      if |u| == 0 || u[|u| - 1] == '\n' {
        NewLineCut(p, c);
      } else {
        ExtendLineCut(p, c);
      }
    }
  }

  /** The last line of a non-empty text ends with the text's last character. */
  lemma LinesLastChar(t: seq<char>)
    requires |t| > 0
    ensures Lines(t)[|Lines(t)| - 1][|Lines(t)[|Lines(t)| - 1]| - 1] == t[|t| - 1]
  {
    var u, c := t[..|t| - 1], t[|t| - 1];
    assert t == u + [c];
    LinesSnoc(u, c);
  }

  /** A line cut followed by a fresh one-character line, after an ended last line, is a line cut. */
  lemma NewLineCut(p: seq<seq<char>>, c: char)
    requires LineCut(p) && (|p| > 0 ==> p[|p| - 1][|p[|p| - 1]| - 1] == '\n')
    ensures LineCut(p + [[c]])
  {
    var ls := p + [[c]];
    forall k | 0 <= k < |ls| - 1 ensures ls[k][|ls[k]| - 1] == '\n' {
      assert ls[k] == p[k];
    }
    forall k, j | 0 <= k < |ls| && 0 <= j < |ls[k]| - 1 ensures ls[k][j] != '\n' {
      assert ls[k] == p[k];
    }
  }

  /** Extending an unended last line by one character keeps a line cut. */
  lemma ExtendLineCut(p: seq<seq<char>>, c: char)
    requires LineCut(p) && |p| > 0 && p[|p| - 1][|p[|p| - 1]| - 1] != '\n'
    ensures LineCut(p[..|p| - 1] + [p[|p| - 1] + [c]])
  {
    var q, l := p[..|p| - 1], p[|p| - 1];
    var ls := q + [l + [c]];
    forall k | 0 <= k < |ls| - 1 ensures ls[k][|ls[k]| - 1] == '\n' {
      assert ls[k] == p[k];
    }
    forall k, j | 0 <= k < |ls| && 0 <= j < |ls[k]| - 1 ensures ls[k][j] != '\n' {
      if k < |q| {
        assert ls[k] == p[k];
      } else {
        assert ls[k] == l + [c];
        assert ls[k][j] == l[j];
      }
    }
  }

  /** The character as it is written into the report: a tab becomes four spaces. */
  function ExpandChar(c: char): (s: seq<char>)
    ensures '\t' !in s
    ensures c != '\t' ==> s == [c]
  {
    if c == '\t' then "    " else [c]
  }

  /** A line as it is written into the report. */
  function Expand(s: seq<char>): (r: seq<char>)
    ensures '\t' !in r
  {
    if |s| == 0 then [] else Expand(s[..|s| - 1]) + ExpandChar(s[|s| - 1])
  }

  /** Expansion only touches tabs: a line without tabs is written unchanged. */
  lemma {:induction false} ExpandWithoutTabs(s: seq<char>)
    requires '\t' !in s
    ensures Expand(s) == s
  {
    if |s| > 0 {
      assert '\t' !in s[..|s| - 1] by {
        assert forall j :: 0 <= j < |s| - 1 ==> s[..|s| - 1][j] == s[j];
      }
      ExpandWithoutTabs(s[..|s| - 1]);
      assert s == s[..|s| - 1] + [s[|s| - 1]];
    }
  }

  /** Expansion works character by character. */
  lemma ExpandSnoc(s: seq<char>, c: char)
    ensures Expand(s + [c]) == Expand(s) + ExpandChar(c)
  {
    assert (s + [c])[..|s|] == s;
  }

  /** The decimal digit `d` as a character. */
  function Digit(d: int): (c: char)
    requires 0 <= d < 10
    ensures '0' <= c <= '9' && c as int - '0' as int == d
  {
    ('0' as int + d) as char
  }

  /** The prefix of line `n`: two spaces, `n` modulo 10000 in four digits, two spaces. */
  function Header(n: nat): (h: seq<char>)
    ensures |h| == 8 && '\t' !in h
  {
    "  " + [Digit((n / 1000) % 10), Digit((n / 100) % 10), Digit((n / 10) % 10), Digit(n % 10)] + "  "
  }

  /** Reading the four digits of a header back gives the line number modulo 10000. */
  lemma HeaderNumber(n: nat)
    ensures var h := Header(n);
      h[..2] == "  " && h[6..] == "  " && (forall k :: 2 <= k < 6 ==> '0' <= h[k] <= '9') &&
      1000 * (h[2] as int - '0' as int) + 100 * (h[3] as int - '0' as int) +
      10 * (h[4] as int - '0' as int) + (h[5] as int - '0' as int) == n % 10000
  {
    var q1 := n / 10;
    var q2 := q1 / 10;
    var q3 := q2 / 10;
    var q4 := q3 / 10;
    assert n == 10 * q1 + n % 10;
    assert q1 == 10 * q2 + q1 % 10;
    assert q2 == 10 * q3 + q2 % 10;
    assert q3 == 10 * q4 + q3 % 10;
    assert n == 10000 * q4 + (1000 * (q3 % 10) + 100 * (q2 % 10) + 10 * (q1 % 10) + n % 10);
    DivDigits(n);
    assert n / 100 == q2 && n / 1000 == q3;
    ModOfSum(n, q4, 1000 * (q3 % 10) + 100 * (q2 % 10) + 10 * (q1 % 10) + n % 10);
  }

  /** Dropping two and three decimal digits is dropping one digit after one and after two. */
  lemma DivDigits(n: nat)
    ensures n / 10 / 10 == n / 100 && n / 100 / 10 == n / 1000
  {
  }

  lemma ModOfSum(n: nat, q: nat, r: nat)
    requires r < 10000 && n == 10000 * q + r
    ensures n % 10000 == r
  {
  }

  /**
   * The report for the lines `ls` (numbered from 1): each line whose number
   * lies in `begin .. lineId` is written with its header and its tabs expanded.
   */
  function Block(ls: seq<seq<char>>, begin: int, lineId: int): seq<char>
  {
    if |ls| == 0 then []
    else
      Block(ls[..|ls| - 1], begin, lineId) +
      (if begin <= |ls| <= lineId then Header(|ls|) + Expand(ls[|ls| - 1]) else [])
  }

  /** What `print_line` appends for the source `source` and the range `begin .. lineId`. */
  function Listing(source: seq<char>, begin: int, lineId: int): seq<char>
  {
    Block(Lines(CString(source)), begin, lineId)
  }

  /** A new line adds its header and the line when it is in range. */
  lemma BlockSnoc(ls: seq<seq<char>>, l: seq<char>, begin: int, lineId: int)
    ensures Block(ls + [l], begin, lineId) == Block(ls, begin, lineId) +
      (if begin <= |ls| + 1 <= lineId then Header(|ls| + 1) + Expand(l) else [])
  {
    assert (ls + [l])[..|ls|] == ls;
  }

  /** A character added to the last line is added to the report when that line is in range. */
  lemma BlockExtendLast(ls: seq<seq<char>>, c: char, begin: int, lineId: int)
    requires |ls| > 0
    ensures Block(ls[..|ls| - 1] + [ls[|ls| - 1] + [c]], begin, lineId) == Block(ls, begin, lineId) +
      (if begin <= |ls| <= lineId then ExpandChar(c) else [])
  {
    var q, l := ls[..|ls| - 1], ls[|ls| - 1];
    assert q + [l] == ls;
    BlockSnoc(q, l + [c], begin, lineId);
    BlockSnoc(q, l, begin, lineId);
    if begin <= |ls| <= lineId {
      var b, h := Block(q, begin, lineId), Header(|ls|);
      ExpandSnoc(l, c);
      AppendAssoc(h, Expand(l), ExpandChar(c));
      AppendAssoc(b, h + Expand(l), ExpandChar(c));
    }
  }

  /** Lines past `lineId` add nothing: text after line `lineId` leaves the report as it is. */
  lemma {:induction false} BlockBeyond(u: seq<char>, i: nat, begin: int, lineId: int)
    requires i <= |u| && |Lines(u[..i])| > lineId
    ensures Block(Lines(u), begin, lineId) == Block(Lines(u[..i]), begin, lineId)
    decreases |u| - i
  {
    if i < |u| {
      var t, c := u[..i], u[i];
      assert u[..i + 1] == t + [c];
      BlockStep(t, c, begin, lineId);
      BlockBeyond(u, i + 1, begin, lineId);
    } else {
      assert u[..i] == u;
    }
  }

  /** An empty range writes nothing. */
  lemma {:induction false} BlockEmptyRange(ls: seq<seq<char>>, begin: int, lineId: int)
    requires begin > lineId
    ensures Block(ls, begin, lineId) == []
  {
    if |ls| > 0 {
      BlockEmptyRange(ls[..|ls| - 1], begin, lineId);
    }
  }

  /** A range of one existing line writes exactly that line with its header. */
  lemma {:induction false} BlockOneLine(ls: seq<seq<char>>, n: nat)
    requires 1 <= n <= |ls|
    ensures Block(ls, n, n) == Header(n) + Expand(ls[n - 1])
  {
    if n < |ls| {
      BlockOneLine(ls[..|ls| - 1], n);
    } else {
      BlockEmptyRange(ls[..|ls| - 1], n, n - 1);
      BlockBelow(ls[..|ls| - 1], n);
    }
  }

  /** Lines numbered below `begin` add nothing. */
  lemma {:induction false} BlockBelow(ls: seq<seq<char>>, begin: int)
    requires |ls| < begin
    ensures Block(ls, begin, begin) == []
  {
    if |ls| > 0 {
      BlockBelow(ls[..|ls| - 1], begin);
    }
  }

  /** The report never holds a tab. */
  lemma {:induction false} BlockNoTabs(ls: seq<seq<char>>, begin: int, lineId: int)
    ensures '\t' !in Block(ls, begin, lineId)
  {
    if |ls| > 0 {
      BlockNoTabs(ls[..|ls| - 1], begin, lineId);
    }
  }

  /** `begin > lineId` appends nothing, and a report never holds a tab. */
  lemma ListingFacts(source: seq<char>, begin: int, lineId: int)
    ensures begin > lineId ==> Listing(source, begin, lineId) == []
    ensures '\t' !in Listing(source, begin, lineId)
  {
    if begin > lineId {
      BlockEmptyRange(Lines(CString(source)), begin, lineId);
    }
    BlockNoTabs(Lines(CString(source)), begin, lineId);
  }

  /** Asking for the single line `n` of the source yields its header and its expanded text. */
  lemma ListingOneLine(source: seq<char>, n: nat)
    requires 1 <= n <= |Lines(CString(source))|
    ensures Listing(source, n, n) == Header(n) + Expand(Lines(CString(source))[n - 1])
  {
    BlockOneLine(Lines(CString(source)), n);
  }

  /**
   * `print_line`: walks the source up to its NUL, counting lines, and appends
   * the lines `beginId .. lineId` to `errors`; the walk stops as soon as the
   * line counter passes `lineId`.
   */
  method PrintLine(errors: seq<char>, source: seq<char>, beginId: int, lineId: int) returns (out: seq<char>)
    ensures out == errors + Listing(source, beginId, lineId)
  {
    out := errors;
    var line := 0;
    var last := '\n';
    var i := 0;
    ghost var t: seq<char> := [];
    while i < |source| && source[i] != '\0' && line <= lineId
      invariant 0 <= i <= |source| && t == source[..i] && '\0' !in t
      invariant line == |Lines(t)|
      invariant last == if i == 0 then '\n' else source[i - 1]
      invariant out == errors + Block(Lines(t), beginId, lineId)
    {
      var c := source[i];
      out, line := PrintChar(errors, t, out, line, last, c, beginId, lineId);
      PrefixSnoc(source, i);
      t := t + [c];
      last := c;
      i := i + 1;
    }
    WalkEnds(source, i, beginId, lineId);
  }

  /**
   * Where the walk stops (at the NUL, at the end of the buffer, or once past
   * line `lineId`) the report of the text walked over is the whole listing.
   */
  lemma WalkEnds(source: seq<char>, i: nat, begin: int, lineId: int)
    requires i <= |source| && '\0' !in source[..i]
    requires i == |source| || source[i] == '\0' || |Lines(source[..i])| > lineId
    ensures Block(Lines(source[..i]), begin, lineId) == Listing(source, begin, lineId)
  {
    forall k | 0 <= k < i ensures source[k] != '\0' {
      assert source[k] == source[..i][k];
    }
    CStringPrefix(source, i);
    if !(i == |source| || source[i] == '\0') {
      BlockBeyond(CString(source), i, begin, lineId);
    }
  }

  /**
   * What one character adds to the report: the header of the line it starts
   * (after a newline) when that line is in range, then the character itself,
   * tab expanded, when its line is in range.
   */
  function StepOutput(startsLine: bool, line: int, c: char, begin: int, lineId: int): seq<char>
    requires line >= 1
  {
    (if startsLine && begin <= line <= lineId then Header(line) else []) +
    (if begin <= line <= lineId then ExpandChar(c) else [])
  }

  /**
   * The report grows character by character: adding `c` to the text `t`
   * adds `StepOutput` for the line `c` belongs to.
   */
  lemma BlockStep(t: seq<char>, c: char, begin: int, lineId: int)
    ensures var startsLine := |t| == 0 || t[|t| - 1] == '\n';
      |Lines(t + [c])| == |Lines(t)| + (if startsLine then 1 else 0) &&
      Block(Lines(t + [c]), begin, lineId) ==
        Block(Lines(t), begin, lineId) + StepOutput(startsLine, |Lines(t + [c])|, c, begin, lineId)
  {
    LinesSnoc(t, c);
    var ls := Lines(t);
    var n := |Lines(t + [c])|;
    if |t| == 0 || t[|t| - 1] == '\n' {
      assert Lines(t + [c]) == ls + [[c]];
      BlockSnoc(ls, [c], begin, lineId);
      assert Expand([c]) == ExpandChar(c) by {
        assert [c][..0] == [];
      }
      assert StepOutput(true, n, c, begin, lineId) ==
        if begin <= n <= lineId then Header(n) + Expand([c]) else [];
    } else {
      assert Lines(t + [c]) == ls[..|ls| - 1] + [ls[|ls| - 1] + [c]];
      BlockExtendLast(ls, c, begin, lineId);
      assert StepOutput(false, n, c, begin, lineId) ==
        if begin <= n <= lineId then ExpandChar(c) else [];
    }
  }

  /**
   * One character of the walk over the text `t` so far: a character after a
   * newline starts the next line, whose header is written when the line is in
   * range; the character itself is written, tab expanded, when in range.
   */
  method PrintChar(errors: seq<char>, ghost t: seq<char>, out0: seq<char>, line0: int, last: char, c: char,
                   beginId: int, lineId: int)
    returns (out: seq<char>, line: int)
    requires line0 == |Lines(t)| && last == (if |t| == 0 then '\n' else t[|t| - 1])
    requires out0 == errors + Block(Lines(t), beginId, lineId)
    ensures line == |Lines(t + [c])| && out == errors + Block(Lines(t + [c]), beginId, lineId)
  {
    BlockStep(t, c, beginId, lineId);
    out, line := PrintStep(out0, line0, last, c, beginId, lineId);
    AppendAssoc(errors, Block(Lines(t), beginId, lineId), StepOutput(last == '\n', line, c, beginId, lineId));
  }

  /** Concatenation is associative. */
  lemma AppendAssoc(a: seq<char>, b: seq<char>, c: seq<char>)
    ensures (a + b) + c == a + (b + c)
  {
  }

  /** A prefix one longer is the prefix and the next character. */
  lemma PrefixSnoc(s: seq<char>, i: nat)
    requires i < |s|
    ensures s[..i + 1] == s[..i] + [s[i]]
  {
  }

  /** The body of the walk for one character, on the report and the line counter alone. */
  method PrintStep(out0: seq<char>, line0: int, last: char, c: char, beginId: int, lineId: int)
    returns (out: seq<char>, line: int)
    requires line0 >= 1 || last == '\n'
    requires line0 >= 0
    ensures line == line0 + (if last == '\n' then 1 else 0)
    ensures out == out0 + StepOutput(last == '\n', line, c, beginId, lineId)
  {
    out, line := out0, line0;
    if last == '\n' {
      line := line + 1;
      if beginId <= line <= lineId {
        out := AppendHeader(out, line);
      }
    }
    ghost var header := out[|out0|..];
    assert out == out0 + header;
    if beginId <= line <= lineId {
      if c == '\t' {
        out := out + "    ";
      } else {
        out := out + [c];
      }
    }
    assert out == out0 + (header + (if beginId <= line <= lineId then ExpandChar(c) else []));
  }

  /** Appends the header of line `line`: two spaces, four digits, two spaces. */
  method AppendHeader(out0: seq<char>, line: int) returns (out: seq<char>)
    requires line >= 1
    ensures out == out0 + Header(line)
  {
    out := out0 + "  ";
    out := out + [Digit((line / 1000) % 10)];
    out := out + [Digit((line / 100) % 10)];
    out := out + [Digit((line / 10) % 10)];
    out := out + [Digit(line % 10)];
    out := out + "  ";
  }
}
