/**
 * Header lines of a message held as Latin-1 text, one character per byte
 * (apps/smtp/src/mailbox-submission.ts:99-105).
 *
 * A line break is LF or CR LF, as in the original's pattern, so a CR that is not in front
 * of an LF belongs to its line. The header ends at the first two breaks in a row. A text is
 * split into lines and breaks and put together again here; the two are inverse as long as
 * no line holds an LF and none ends in a CR in front of a bare LF. The same holds of a whole
 * message, header and rest, as long as no line past the first is empty and the last does
 * not reach into the blank line behind it.
 */
module HeaderLines {
  import opened Common

  // ---- Line breaks --------------------------------------------------------

  /** The length of the line break a text starts with, or zero. */
  function Break(t: string): nat {
    if |t| >= 2 && t[0] == '\r' && t[1] == '\n' then 2
    else if t != [] && t[0] == '\n' then 1
    else 0
  }

  /** Two line breaks in a row. */
  predicate BlankLine(t: string) {
    Break(t) > 0 && Break(t[Break(t)..]) > 0
  }

  /** The four spellings of a blank line. */
  lemma {:induction false} BlankLineIsExact(t: string)
    ensures BlankLine(t) <==> "\n\n" <= t || "\r\n\n" <= t || "\n\r\n" <= t || "\r\n\r\n" <= t
  {
    if Break(t) > 0 {
      var u := t[Break(t)..];
      assert |u| > 0 ==> u[0] == t[Break(t)];
      assert |u| > 1 ==> u[1] == t[Break(t) + 1];
    }
  }

  /** Where the header section ends: the first blank line. */
  function Split(t: string): (i: Option<nat>)
    ensures i.Some? ==> i.value <= |t|
  {
    if BlankLine(t) then Some(0)
    else if t == [] then None
    else
      var later := Split(t[1..]);
      if later.Some? then Some(later.value + 1) else None
  }

  function Head(t: string): string {
    if Split(t).Some? then t[..Split(t).value] else t
  }

  function Rest(t: string): string {
    if Split(t).Some? then t[Split(t).value..] else ""
  }

  predicate NoBreak(l: string) {
    forall i :: 0 <= i < |l| ==> l[i] != '\n'
  }

  predicate EndsInCr(l: string) {
    l != [] && l[|l| - 1] == '\r'
  }

  /** Where the first line ends. */
  function LineEnd(t: string): (i: nat)
    ensures i <= |t|
  {
    if t == [] || Break(t) > 0 then 0 else 1 + LineEnd(t[1..])
  }

  /** The text split at its line breaks. */
  function Lines(t: string): (lines: seq<string>)
    ensures lines != []
    decreases |t|
  {
    var i := LineEnd(t);
    if i == |t| then [t]
    else
      LineEndIsBreak(t);
      [t[..i]] + Lines(t[i + Break(t[i..])..])
  }

  /** Which of the breaks are CR LF. */
  function Gaps(t: string): (gaps: seq<bool>)
    ensures |gaps| == |Lines(t)| - 1
    decreases |t|
  {
    var i := LineEnd(t);
    if i == |t| then []
    else
      LineEndIsBreak(t);
      [Break(t[i..]) == 2] + Gaps(t[i + Break(t[i..])..])
  }

  lemma {:induction false} LineEndIsBreak(t: string)
    ensures LineEnd(t) < |t| ==> Break(t[LineEnd(t)..]) > 0 && LineEnd(t) + Break(t[LineEnd(t)..]) <= |t|
  {
    if t != [] && Break(t) == 0 {
      LineEndIsBreak(t[1..]);
      assert t[1..][LineEnd(t[1..])..] == t[LineEnd(t)..];
    } else {
      assert t[0..] == t;
    }
  }

  function NewLine(crlf: bool): string {
    if crlf then "\r\n" else "\n"
  }

  /** Lines put together with a break of either kind in each gap. */
  function Glue(lines: seq<string>, gaps: seq<bool>): string
    requires |lines| == |gaps| + 1
  {
    if |lines| == 1 then lines[0] else lines[0] + NewLine(gaps[0]) + Glue(lines[1..], gaps[1..])
  }

  /** Lines and breaks that splitting gives back: no break inside a line, and no CR in
      front of a bare LF. */
  predicate Proper(lines: seq<string>, gaps: seq<bool>) {
    && |lines| == |gaps| + 1
    && (forall i :: 0 <= i < |lines| ==> NoBreak(lines[i]))
    && (forall i :: 0 <= i < |gaps| && !gaps[i] ==> !EndsInCr(lines[i]))
  }

  // ---- Reading a line off the front ---------------------------------------

  /** A line that `u` does not reach back into. */
  predicate Apart(l: string, u: string) {
    NoBreak(l) && !(EndsInCr(l) && u != [] && u[0] == '\n')
  }

  lemma {:induction false} LineEndOf(l: string, u: string)
    requires Apart(l, u) && (u == [] || Break(u) > 0)
    ensures LineEnd(l + u) == |l|
  {
    if l == [] {
      assert l + u == u;
    } else {
      assert (l + u)[1..] == l[1..] + u;
      LineEndOf(l[1..], u);
      assert Break(l + u) == 0;
    }
  }

  lemma {:induction false} LineEndIsLine(t: string)
    ensures Apart(t[..LineEnd(t)], t[LineEnd(t)..])
  {
    if t != [] && Break(t) == 0 {
      var i := LineEnd(t);
      LineEndIsLine(t[1..]);
      assert t[1..][..i - 1] == t[1..i] && t[1..][i - 1..] == t[i..];
      assert t[..i] == [t[0]] + t[1..i];
      forall k | 0 <= k < i ensures t[..i][k] != '\n' {
        if k > 0 { assert t[..i][k] == t[1..i][k - 1]; }
      }
      if EndsInCr(t[..i]) && i > 1 { assert t[1..i][i - 2] == t[..i][i - 1]; }
    }
  }

  lemma {:induction false} BreakIsNewLine(t: string)
    requires Break(t) > 0
    ensures t == NewLine(Break(t) == 2) + t[Break(t)..] && |NewLine(Break(t) == 2)| == Break(t)
  {}

  lemma {:induction false} TailAfterBreak(t: string, i: nat)
    requires i < |t| && Break(t[i..]) > 0
    ensures i + Break(t[i..]) <= |t|
    ensures t == t[..i] + NewLine(Break(t[i..]) == 2) + t[i + Break(t[i..])..]
  {
    var u := t[i..];
    BreakIsNewLine(u);
    assert u[Break(u)..] == t[i + Break(u)..];
    Associate(t[..i], NewLine(Break(u) == 2), u[Break(u)..]);
    assert t == t[..i] + u;
  }

  lemma {:induction false} Associate(a: string, b: string, c: string)
    ensures a + b + c == a + (b + c)
  {}

  /** The first line of a text, its break, and what follows. */
  lemma {:induction false} FirstLine(t: string) returns (l: string, gap: bool, more: string)
    requires LineEnd(t) < |t|
    ensures t == l + NewLine(gap) + more && |more| < |t|
    ensures Lines(t) == [l] + Lines(more) && Gaps(t) == [gap] + Gaps(more)
    ensures NoBreak(l) && (!gap ==> !EndsInCr(l))
  {
    var i := LineEnd(t);
    LineEndIsLine(t);
    LineEndIsBreak(t);
    TailAfterBreak(t, i);
    l, gap, more := t[..i], Break(t[i..]) == 2, t[i + Break(t[i..])..];
    assert t[i..][0] == (if gap then '\r' else '\n');
  }

  lemma {:induction false} LastLine(t: string)
    requires LineEnd(t) == |t|
    ensures Lines(t) == [t] && Gaps(t) == [] && NoBreak(t)
  {
    LineEndIsLine(t);
    assert t[..|t|] == t;
  }

  /** Splitting and gluing are inverse. */
  lemma {:induction false} GlueOfLines(t: string)
    ensures Glue(Lines(t), Gaps(t)) == t && Proper(Lines(t), Gaps(t))
    decreases |t|
  {
    if LineEnd(t) == |t| {
      LastLine(t);
    } else {
      var l, gap, more := FirstLine(t);
      GlueOfLines(more);
      GlueStep(l, gap, Lines(more), Gaps(more));
    }
  }

  lemma {:induction false} GlueStep(l: string, gap: bool, lines: seq<string>, gaps: seq<bool>)
    requires Proper(lines, gaps) && NoBreak(l) && (!gap ==> !EndsInCr(l))
    ensures Proper([l] + lines, [gap] + gaps)
    ensures Glue([l] + lines, [gap] + gaps) == l + NewLine(gap) + Glue(lines, gaps)
  {
    assert ([l] + lines)[1..] == lines && ([gap] + gaps)[1..] == gaps;
  }

  lemma {:induction false} LinesOfGlue(lines: seq<string>, gaps: seq<bool>)
    requires Proper(lines, gaps)
    ensures Lines(Glue(lines, gaps)) == lines && Gaps(Glue(lines, gaps)) == gaps
    decreases |lines|
  {
    if |lines| == 1 {
      OnlyLineOf(lines[0]);
      assert lines == [lines[0]];
    } else {
      LinesOfGlue(lines[1..], gaps[1..]);
      FirstLineOf(lines[0], gaps[0], Glue(lines[1..], gaps[1..]));
      FirstAndRest(lines);
      FirstAndRest(gaps);
    }
  }

  lemma {:induction false} FirstAndRest<T>(s: seq<T>)
    requires s != []
    ensures s == [s[0]] + s[1..]
  {}

  lemma {:induction false} OnlyLineOf(l: string)
    requires NoBreak(l)
    ensures Lines(l) == [l] && Gaps(l) == []
  {
    assert l == l + "";
    LineEndOf(l, "");
  }

  lemma {:induction false} FirstLineOf(l: string, gap: bool, more: string)
    requires NoBreak(l) && (!gap ==> !EndsInCr(l))
    ensures var t := l + NewLine(gap) + more;
      Lines(t) == [l] + Lines(more) && Gaps(t) == [gap] + Gaps(more)
  {
    var u := NewLine(gap) + more;
    var t := l + NewLine(gap) + more;
    assert t == l + u;
    LineEndOf(l, u);
    assert t[..|l|] == l && t[|l|..] == u;
    assert t[|l| + Break(u)..] == more;
  }

  // ---- Where the header ends ----------------------------------------------

  /** No blank line starts inside a line. */
  lemma {:induction false} SplitPastLine(l: string, u: string)
    requires Apart(l, u)
    ensures Split(l + u) == if Split(u).Some? then Some(|l| + Split(u).value) else None
  {
    if l == [] {
      assert l + u == u;
    } else {
      assert (l + u)[1..] == l[1..] + u;
      SplitPastLine(l[1..], u);
      assert Break(l + u) == 0;
    }
  }

  lemma {:induction false} SplitPastLf(v: string)
    requires Break(v) == 0
    ensures Split("\n" + v) == if Split(v).Some? then Some(1 + Split(v).value) else None
  {
    var t := "\n" + v;
    assert t[1..] == v;
    assert Break(t) == 1;
  }

  lemma {:induction false} SplitPastCrLf(v: string)
    requires Break(v) == 0
    ensures Split("\r\n" + v) == if Split(v).Some? then Some(2 + Split(v).value) else None
  {
    var t := "\r\n" + v;
    assert t[2..] == v;
    assert Break(t) == 2;
    assert t[1..] == "\n" + v;
    SplitPastLf(v);
  }

  /** A break that is not followed by another is passed over. */
  lemma {:induction false} SplitPastBreak(gap: bool, v: string)
    requires Break(v) == 0
    ensures Split(NewLine(gap) + v) == if Split(v).Some? then Some(|NewLine(gap)| + Split(v).value) else None
  {
    if gap { SplitPastCrLf(v); } else { SplitPastLf(v); }
  }

  /** Only the first line of a header section can be empty, and the last does not run into
      the break behind it. */
  predicate HeaderLike(lines: seq<string>, rest: string) {
    && lines != [] && (forall i :: 0 < i < |lines| ==> lines[i] != "")
    && BlankLine(rest) && Apart(lines[|lines| - 1], rest)
  }

  lemma {:induction false} StartsUnbroken(lines: seq<string>, gaps: seq<bool>, rest: string)
    requires Proper(lines, gaps) && HeaderLike(lines, rest) && lines[0] != ""
    ensures Break(Glue(lines, gaps) + rest) == 0
  {
    if |lines| > 1 {
      var more := Glue(lines[1..], gaps[1..]);
      assert Glue(lines, gaps) + rest == lines[0] + (NewLine(gaps[0]) + more + rest);
    }
  }

  /** One more line in front moves the end of the header by that line. */
  lemma {:induction false} SplitPastFirst(l: string, gap: bool, v: string)
    requires NoBreak(l) && (!gap ==> !EndsInCr(l)) && Break(v) == 0
    ensures Split(l + NewLine(gap) + v) ==
      if Split(v).Some? then Some(|l + NewLine(gap)| + Split(v).value) else None
  {
    SplitPastBreak(gap, v);
    SplitPastLine(l, NewLine(gap) + v);
    Associate(l, NewLine(gap), v);
  }

  /** The header section of glued lines ends where they end. */
  lemma {:induction false} SplitOfGlue(lines: seq<string>, gaps: seq<bool>, rest: string)
    requires Proper(lines, gaps) && HeaderLike(lines, rest)
    ensures Split(Glue(lines, gaps) + rest) == Some(|Glue(lines, gaps)|)
    decreases |lines|
  {
    if |lines| == 1 {
      SplitPastLine(lines[0], rest);
    } else {
      var more := Glue(lines[1..], gaps[1..]);
      TailIsHeaderLike(lines, gaps, rest);
      SplitOfGlue(lines[1..], gaps[1..], rest);
      StartsUnbroken(lines[1..], gaps[1..], rest);
      SplitPastFirst(lines[0], gaps[0], more + rest);
      assert Glue(lines, gaps) + rest == lines[0] + NewLine(gaps[0]) + (more + rest);
    }
  }

  lemma {:induction false} TailIsHeaderLike(lines: seq<string>, gaps: seq<bool>, rest: string)
    requires Proper(lines, gaps) && HeaderLike(lines, rest) && |lines| > 1
    ensures Proper(lines[1..], gaps[1..]) && HeaderLike(lines[1..], rest) && lines[1..][0] != ""
    ensures NoBreak(lines[0]) && (!gaps[0] ==> !EndsInCr(lines[0]))
  {}

  /** So reading glued lines in front of a blank line gives them back. */
  lemma {:induction false} ReadOfGlue(lines: seq<string>, gaps: seq<bool>, rest: string)
    requires Proper(lines, gaps) && HeaderLike(lines, rest)
    ensures var t := Glue(lines, gaps) + rest;
      && Split(t).Some? && Head(t) == Glue(lines, gaps) && Rest(t) == rest
      && Lines(Head(t)) == lines && Gaps(Head(t)) == gaps
  {
    SplitOfGlue(lines, gaps, rest);
    LinesOfGlue(lines, gaps);
    var t := Glue(lines, gaps) + rest;
    assert t[..|Glue(lines, gaps)|] == Glue(lines, gaps) && t[|Glue(lines, gaps)|..] == rest;
  }

  lemma {:induction false} SplitIsBlank(t: string)
    ensures Split(t).Some? ==> BlankLine(t[Split(t).value..])
  {
    if BlankLine(t) {
      assert t[0..] == t;
    } else if t != [] {
      SplitIsBlank(t[1..]);
      if Split(t[1..]).Some? { assert t[1..][Split(t[1..]).value..] == t[Split(t).value..]; }
    }
  }

  /** The header ends at the first place where a blank line begins, if there is one. */
  lemma {:induction false} SplitIsFirst(t: string)
    ensures Split(t).None? ==> forall i :: 0 <= i <= |t| ==> !BlankLine(t[i..])
    ensures Split(t).Some? ==>
      BlankLine(t[Split(t).value..]) && forall i :: 0 <= i < Split(t).value ==> !BlankLine(t[i..])
  {
    SplitIsBlank(t);
    assert t[0..] == t;
    if t != [] && !BlankLine(t) {
      SplitIsFirst(t[1..]);
      forall i | 0 < i <= |t| ensures t[i..] == t[1..][i - 1..] {}
    }
  }

  /** And any message with a blank line is such a glueing. */
  lemma {:induction false} HeadIsHeaderLike(head: string, rest: string)
    requires Split(head + rest) == Some(|head|)
    ensures HeaderLike(Lines(head), rest)
    decreases |head|
  {
    SplitIsBlank(head + rest);
    assert (head + rest)[|head|..] == rest;
    if LineEnd(head) == |head| {
      LastLine(head);
      NoEarlierSplit(head, rest);
    } else {
      var l, gap, more := FirstLine(head);
      HeadPastFirst(l, gap, more, rest);
      HeadIsHeaderLike(more, rest);
      LineIsSolid(l, more, rest);
    }
  }

  /** Past its first line a head is the head of what is left. */
  lemma {:induction false} HeadPastFirst(l: string, gap: bool, more: string, rest: string)
    requires NoBreak(l) && (!gap ==> !EndsInCr(l))
    requires Split(l + NewLine(gap) + more + rest) == Some(|l + NewLine(gap) + more|)
    ensures Break(more + rest) == 0 && Split(more + rest) == Some(|more|)
  {
    Associate(l + NewLine(gap), more, rest);
    NothingBlankBetween(l, gap, more, rest);
    SplitPastFirst(l, gap, more + rest);
  }

  /** Were what follows a break to start with a break, the header would have ended there. */
  lemma {:induction false} NothingBlankBetween(l: string, gap: bool, more: string, rest: string)
    requires NoBreak(l) && (!gap ==> !EndsInCr(l))
    requires Split(l + NewLine(gap) + (more + rest)) == Some(|l + NewLine(gap) + more|)
    ensures Break(more + rest) == 0
  {
    var v := more + rest;
    Associate(l, NewLine(gap), v);
    SplitPastLine(l, NewLine(gap) + v);
    SplitAtBlank(gap, v);
  }

  lemma {:induction false} SplitAtBlank(gap: bool, v: string)
    ensures Break(v) > 0 ==> Split(NewLine(gap) + v) == Some(0)
  {
    var u := NewLine(gap) + v;
    assert u[|NewLine(gap)|..] == v;
  }

  lemma {:induction false} LineIsSolid(l: string, more: string, rest: string)
    requires Break(more + rest) == 0 && HeaderLike(Lines(more), rest)
    ensures HeaderLike([l] + Lines(more), rest)
  {
    LineEndIsBreak(more);
    assert more[0..] == more;
    assert "" + rest == rest;
    if Break(more) > 0 {
      BreakStays(more, rest);
    }
    assert Lines(more)[0] != "";
  }

  lemma {:induction false} BreakStays(a: string, b: string)
    requires Break(a) > 0
    ensures Break(a + b) == Break(a)
  {}

  lemma {:induction false} NoEarlierSplit(head: string, rest: string)
    requires NoBreak(head) && BlankLine(rest) && Split(head + rest) == Some(|head|)
    ensures Apart(head, rest)
  {
    if EndsInCr(head) && rest[0] == '\n' {
      var l := head[..|head| - 1];
      assert head == l + "\r";
      SplitAtCr(l, rest);
    }
  }

  lemma {:induction false} SplitAtCr(l: string, rest: string)
    requires NoBreak(l) && BlankLine(rest) && rest[0] == '\n'
    ensures Split(l + "\r" + rest) == Some(|l|)
  {
    CrCompletes(rest);
    SplitPastLine(l, "\r" + rest);
    Associate(l, "\r", rest);
  }

  /** A stray CR in front of a blank line that starts with LF belongs to it. */
  lemma {:induction false} CrCompletes(rest: string)
    requires BlankLine(rest) && rest[0] == '\n'
    ensures Split("\r" + rest) == Some(0)
  {
    var u := "\r" + rest;
    assert Break(rest) == 1 && Break(u) == 2;
    assert u[2..] == rest[1..];
  }
}
