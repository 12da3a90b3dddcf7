/**
 * The Bcc rewrite applied to what it wrote (apps/smtp/src/mailbox-submission.ts:98-116).
 *
 * Joining the kept lines by LF can turn a CR at the end of one into half of a CR LF, and
 * the second rewrite may then take CR LF for the break of the whole head. A new field with
 * line breaks of its own leaves lines behind that the second rewrite need not recognise, or
 * ends the header early. Each of these is shown for every text with a blank line and every
 * list of addresses, together with the texts that the second rewrite leaves alone.
 */
module BccTwice {
  import opened Common
  import opened HeaderLines
  import opened Bcc

  // ---- Rewriting twice ----------------------------------------------------

  lemma {:induction false} GlueSnoc(lines: seq<string>, gaps: seq<bool>, gap: bool, l: string)
    requires |lines| == |gaps| + 1
    ensures Glue(lines + [l], gaps + [gap]) == Glue(lines, gaps) + NewLine(gap) + l
  {
    if |lines| == 1 {
      assert (lines + [l])[1..] == [l] && (gaps + [gap])[1..] == [];
      assert (gaps + [gap])[0] == gap;
    } else {
      GlueSnoc(lines[1..], gaps[1..], gap, l);
      assert (lines + [l])[1..] == lines[1..] + [l] && (gaps + [gap])[1..] == gaps[1..] + [gap];
      Associate3(lines[0] + NewLine(gaps[0]), Glue(lines[1..], gaps[1..]), NewLine(gap), l);
    }
  }

  lemma {:induction false} Associate3(a: string, b: string, c: string, d: string)
    ensures a + (b + c + d) == a + b + c + d
  {}

  lemma {:induction false} KeepOut(lines: seq<string>, bcc: seq<string>)
    ensures Out(Out(lines, bcc), bcc) == Out(lines, bcc)
  {
    KeepTwice(lines, false);
    assert Keep(lines, false) + [] == Keep(lines, false);
    if bcc != [] {
      BccLineIsBcc(bcc);
      KeepSnoc(Keep(lines, false), BccLine(bcc), false);
    }
  }

  lemma {:induction false} EvenHas(crlf: bool, n: nat)
    ensures true in Even(crlf, n) <==> crlf && n > 0
  {
    if crlf && n > 0 { assert Even(crlf, n)[0]; }
  }

  /** How a message that reads as `lines` is rewritten again. */
  lemma {:induction false} RewriteOfRead(t: string, lines: seq<string>, gaps: seq<bool>, rest: string, bcc: seq<string>)
    requires Proper(lines, gaps) && HeaderLike(lines, rest) && t == Glue(lines, gaps) + rest
    ensures Rewrite(t, bcc) == Joined(Out(lines, bcc), true in gaps) + rest
  {
    ReadOfGlue(lines, gaps, rest);
    CrLfIsAGap(Head(t));
  }

  lemma {:induction false} TwiceWithoutStrayCr(text: string, bcc: seq<string>)
    requires Split(text).Some? && FieldFits(bcc, Rest(text)) && !StrayCr(text, bcc)
    ensures Rewrite(Rewrite(text, bcc), bcc) == Rewrite(text, bcc)
  {
    var crlf, lines := HasCrLf(Head(text)), Out(Lines(Head(text)), bcc);
    var shown := Shown(lines);
    OutIsHeaderLike(text, bcc);
    JoinedIsGlue(lines, crlf);
    RewriteOfRead(Rewrite(text, bcc), shown, Even(crlf, |shown| - 1), Rest(text), bcc);
    EvenHas(crlf, |shown| - 1);
    KeepOut(Lines(Head(text)), bcc);
    ShownOut(lines, bcc, Lines(Head(text)));
    OneLineJoined(lines, crlf);
  }

  lemma {:induction false} ShownOut(lines: seq<string>, bcc: seq<string>, from: seq<string>)
    requires lines == Out(from, bcc) && Out(lines, bcc) == lines
    ensures Out(Shown(lines), bcc) == Shown(lines)
  {
    if lines == [] {
      assert bcc == [];
      assert Keep([""], false) == [""];
    }
  }

  /** A single line has no gap to care about. */
  lemma {:induction false} OneLineJoined(lines: seq<string>, crlf: bool)
    ensures Joined(Shown(lines), crlf && |Shown(lines)| > 1) == Joined(lines, crlf)
  {
    if |lines| <= 1 { assert Even(crlf, 0) == Even(false, 0) == []; }
  }

  lemma {:induction false} ColonStays(l: string, x: string)
    requires ColonNext(l)
    ensures ColonNext(l + x)
  {
    if l[0] != ':' {
      assert (l + x)[1..] == l[1..] + x;
      ColonStays(l[1..], x);
    }
  }

  lemma {:induction false} BccStays(l: string, x: string)
    requires IsBcc(l)
    ensures IsBcc(l + x)
  {
    ColonStays(l[3..], x);
    assert (l + x)[3..] == l[3..] + x;
  }

  /** A line without the CR at its end is kept where the line was kept. */
  lemma {:induction false} KeepTrimmed(k: seq<string>, l: string)
    requires Keep(k + [l + "\r"], false) == k + [l + "\r"]
    ensures Keep(k, false) == k && Keep(k + [l], false) == k + [l]
  {
    KeepSnoc(k, l + "\r", false);
    KeptAreLines(k, false);
    assert (k + [l + "\r"])[..|k|] == k;
    assert Keep(k, false) == k;
    KeepSnoc(k, l, false);
    if IsBcc(l) { BccStays(l, "\r"); }
  }

  lemma {:induction false} TrimCr(l: string) returns (short: string)
    requires EndsInCr(l) && NoBreak(l)
    ensures l == short + "\r" && NoBreak(short)
  {
    short := l[..|l| - 1];
  }

  lemma {:induction false} EvenSnoc(crlf: bool, n: nat)
    ensures Even(crlf, n) + [crlf] == Even(crlf, n + 1)
  {}

  /** The kept lines, the last without its CR. */
  lemma {:induction false} LastTrimmed(text: string) returns (k: seq<string>, l: string)
    requires Split(text).Some? && Kept(text) != [] && EndsInCr(Kept(text)[|Kept(text)| - 1])
    ensures Kept(text) == k + [l + "\r"] && NoBreak(l)
    ensures Inner(k + [l + "\r"], HasCrLf(Head(text))) && Keep(k + [l + "\r"], false) == k + [l + "\r"]
  {
    var all := Kept(text);
    KeptIsHeaderLike(text);
    KeepTwice(Lines(Head(text)), false);
    assert NoBreak(all[|all| - 1]);
    l := TrimCr(all[|all| - 1]);
    k := all[..|all| - 1];
    assert all == k + [l + "\r"];
  }

  /** Lines that are all kept, joined evenly in front of a blank line they do not run into,
      are left alone when there is no Bcc to add. */
  lemma {:induction false} KeptLinesStay(k: seq<string>, crlf: bool, rest: string)
    requires k != [] && Keep(k, false) == k && Inner(k, crlf) && BlankLine(rest) && Apart(k[|k| - 1], rest)
    ensures var t := Joined(k, crlf) + rest; Rewrite(t, []) == t
  {
    EvenIsProper(k, crlf, rest);
    RewriteOfRead(Joined(k, crlf) + rest, k, Even(crlf, |k| - 1), rest, []);
    EvenHas(crlf, |k| - 1);
    NothingAdded(k);
    OneLineJoined(k, crlf);
  }

  lemma {:induction false} EvenIsProper(k: seq<string>, crlf: bool, rest: string)
    requires k != [] && Inner(k, crlf) && BlankLine(rest) && Apart(k[|k| - 1], rest)
    ensures Proper(k, Even(crlf, |k| - 1)) && HeaderLike(k, rest)
  {}

  lemma {:induction false} JoinedSnoc(k: seq<string>, crlf: bool, l: string)
    requires k != []
    ensures Joined(k + [l], crlf) == Joined(k, crlf) + NewLine(crlf) + l
  {
    GlueSnoc(k, Even(crlf, |k| - 1), crlf, l);
    EvenSnoc(crlf, |k| - 1);
  }

  /** A CR of the blank line's own changes nothing about it being one. */
  lemma {:induction false} CrBlank(rest: string)
    requires BlankLine(rest) && rest[0] == '\n'
    ensures BlankLine("\r" + rest) && BlankLine("\r\n\r" + rest)
  {
    var u := "\r" + rest;
    assert u[2..] == rest[1..];
    assert Break(rest) == 1 && BlankLine(u);
    var v := "\r\n\r" + rest;
    assert v[2..] == u;
  }

  lemma {:induction false} TrimmedIsInner(k: seq<string>, l: string)
    requires Inner(k + [l + "\r"], true)
    ensures Inner(k, true) && NoBreak(l) && (k == [] || l != "" ==> Inner(k + [l], true))
  {
    var all := k + [l + "\r"];
    assert forall i :: 0 <= i < |k| ==> all[i] == k[i];
    assert NoBreak(all[|k|]);
    NoBreakPrefix(l);
  }

  lemma {:induction false} TrimmedText(k: seq<string>, l: string, rest: string)
    ensures Joined(k + [l + "\r"], true) + rest == Joined(k + [l], true) + ("\r" + rest)
    ensures k != [] && l == "" ==> Joined(k + [l + "\r"], true) + rest == Joined(k, true) + ("\r\n\r" + rest)
  {
    if k == [] {
      assert k + [l] == [l] && k + [l + "\r"] == [l + "\r"];
      assert l + "\r" + rest == l + ("\r" + rest);
    } else {
      JoinedSnoc(k, true, l + "\r");
      JoinedSnoc(k, true, l);
      CrLater(Joined(k, true), l, rest);
    }
  }

  lemma {:induction false} CrLater(j: string, l: string, rest: string)
    ensures j + "\r\n" + (l + "\r") + rest == j + "\r\n" + l + ("\r" + rest)
    ensures l == "" ==> j + "\r\n" + (l + "\r") + rest == j + ("\r\n\r" + rest)
  {}

  /** A last line without its CR, in front of the CR. */
  lemma {:induction false} TrimmedLineStays(k: seq<string>, l: string, rest: string)
    requires Inner(k + [l + "\r"], true) && Keep(k + [l + "\r"], false) == k + [l + "\r"]
    requires BlankLine(rest) && rest[0] == '\n'
    ensures var t := Joined(k + [l + "\r"], true) + rest; Rewrite(t, []) == t
  {
    KeepTrimmed(k, l);
    CrBlank(rest);
    TrimmedIsInner(k, l);
    TrimmedText(k, l, rest);
    if k != [] && l == "" {
      KeptLinesStay(k, true, "\r\n\r" + rest);
    } else {
      KeptLinesStay(k + [l], true, "\r" + rest);
    }
  }

  lemma {:induction false} NoBreakPrefix(l: string)
    requires NoBreak(l + "\r")
    ensures NoBreak(l)
  {
    forall i | 0 <= i < |l| ensures l[i] != '\n' { assert (l + "\r")[i] == l[i]; }
  }

  /** A kept line that ends in a stray CR in front of an LF was not the last line of the
      head, so a CR LF follows it there. */
  lemma {:induction false} StrayCrMeansCrLf(text: string)
    requires Split(text).Some? && StrayCr(text, [])
    ensures HasCrLf(Head(text))
  {
    var lines, gaps, k := Lines(Head(text)), Gaps(Head(text)), Kept(text);
    LinesAreHeaderLike(text);
    KeptAreLines(lines, false);
    var l := k[|k| - 1];
    var j :| 0 <= j < |lines| && lines[j] == l;
    assert j < |lines| - 1;
    assert gaps[j] && gaps[j] in gaps;
  }

  lemma {:induction false} TwiceInFrontOfRest(text: string)
    requires Split(text).Some? && StrayCr(text, [])
    ensures Rewrite(Rewrite(text, []), []) == Rewrite(text, [])
  {
    StrayCrMeansCrLf(text);
    var k, l := LastTrimmed(text);
    RestIsBlank(text);
    NothingAdded(Lines(Head(text)));
    TrimmedLineStays(k, l, Rest(text));
  }

  // ---- A new field of any shape -------------------------------------------

  /** Lines with the break behind each. */
  function Led(lines: seq<string>, gaps: seq<bool>): string
    requires |lines| == |gaps|
  {
    if lines == [] then "" else lines[0] + NewLine(gaps[0]) + Led(lines[1..], gaps[1..])
  }

  lemma {:induction false} GlueBehind(front: seq<string>, frontGaps: seq<bool>, lines: seq<string>, gaps: seq<bool>)
    requires |front| == |frontGaps| && |lines| == |gaps| + 1
    ensures Glue(front + lines, frontGaps + gaps) == Led(front, frontGaps) + Glue(lines, gaps)
  {
    if front == [] {
      assert front + lines == lines && frontGaps + gaps == gaps;
    } else {
      GlueBehind(front[1..], frontGaps[1..], lines, gaps);
      assert (front + lines)[1..] == front[1..] + lines && (frontGaps + gaps)[1..] == frontGaps[1..] + gaps;
      Associate(front[0] + NewLine(frontGaps[0]), Led(front[1..], frontGaps[1..]), Glue(lines, gaps));
    }
  }

  lemma {:induction false} JoinedBehind(front: seq<string>, crlf: bool, lines: seq<string>)
    requires lines != []
    ensures Joined(front + lines, crlf) == Led(front, Even(crlf, |front|)) + Joined(lines, crlf)
  {
    GlueBehind(front, Even(crlf, |front|), lines, Even(crlf, |lines| - 1));
    assert Even(crlf, |front|) + Even(crlf, |lines| - 1) == Even(crlf, |front + lines| - 1);
  }

  lemma {:induction false} LedLength(lines: seq<string>, a: seq<bool>, b: seq<bool>)
    requires |lines| == |a| == |b|
    ensures |Led(lines, a)| - Truths(a) == |Led(lines, b)| - Truths(b)
  {
    if lines != [] { LedLength(lines[1..], a[1..], b[1..]); }
  }

  lemma {:induction false} TruthsAtMost(gaps: seq<bool>)
    ensures Truths(gaps) <= |gaps|
    ensures Truths(gaps) == |gaps| <==> false !in gaps
  {
    if gaps != [] {
      TruthsAtMost(gaps[1..]);
      FirstAndRest(gaps);
    }
  }

  lemma {:induction false} KeepConcat(a: seq<string>, b: seq<string>, dropping: bool)
    requires b != [] && !IsFold(b[0])
    ensures Keep(a + b, dropping) == Keep(a, dropping) + Keep(b, false)
  {
    if a == [] {
      assert a + b == b;
    } else {
      assert (a + b)[1..] == a[1..] + b;
      KeepConcat(a[1..], b, if IsFold(a[0]) then dropping else IsBcc(a[0]));
    }
  }

  /** Lines all kept, with breaks that reading gives back. */
  ghost predicate Front(lines: seq<string>, gaps: seq<bool>) {
    && |lines| == |gaps| && Keep(lines, false) == lines
    && (forall i :: 0 <= i < |lines| ==> NoBreak(lines[i]) && (i > 0 ==> lines[i] != ""))
    && (forall i :: 0 <= i < |lines| && !gaps[i] ==> !EndsInCr(lines[i]))
  }

  /** In front of a blank line there is a blank line to find. */
  lemma {:induction false} SplitWithin(t: string, rest: string)
    requires BlankLine(rest)
    ensures Split(t + rest).Some? && Split(t + rest).value <= |t|
  {
    if t == "" {
      assert t + rest == rest;
    } else if !BlankLine(t + rest) {
      assert (t + rest)[1..] == t[1..] + rest;
      SplitWithin(t[1..], rest);
    }
  }

  lemma {:induction false} FirstLineStarts(t: string)
    requires t != "" && t[0] == 'B'
    ensures Lines(t)[0] != "" && !IsFold(Lines(t)[0])
  {}

  /** Where a field of any shape ends the header: its lines, and what is left behind it. */
  lemma {:induction false} ReadField(b: string, rest: string) returns (h: string, left: string)
    requires b != "" && b[0] == 'B' && BlankLine(rest)
    ensures b + rest == h + left && Split(b + rest) == Some(|h|) && |h| <= |b| && h == b[..|h|]
    ensures Proper(Lines(h), Gaps(h)) && Glue(Lines(h), Gaps(h)) == h && HeaderLike(Lines(h), left)
    ensures Lines(h)[0] != "" && !IsFold(Lines(h)[0])
  {
    SplitWithin(b, rest);
    var t := b + rest;
    h, left := t[..Split(t).value], t[Split(t).value..];
    assert h == b[..|h|] && t == h + left;
    assert !BlankLine(t);
    GlueOfLines(h);
    HeadIsHeaderLike(h, left);
    FirstLineStarts(h);
  }

  lemma {:induction false} FrontIsProper(front: seq<string>, frontGaps: seq<bool>, lines: seq<string>,
                                         gaps: seq<bool>, left: string)
    requires Front(front, frontGaps) && Proper(lines, gaps) && HeaderLike(lines, left) && lines[0] != ""
    ensures Proper(front + lines, frontGaps + gaps) && HeaderLike(front + lines, left)
  {
    var all, breaks := front + lines, frontGaps + gaps;
    assert all[|all| - 1] == lines[|lines| - 1];
    forall i | 0 <= i < |all| ensures NoBreak(all[i]) && (i > 0 ==> all[i] != "") {
      if i >= |front| { assert all[i] == lines[i - |front|]; }
    }
    forall i | 0 <= i < |breaks| && !breaks[i] ensures !EndsInCr(all[i]) {
      if i >= |front| { assert breaks[i] == gaps[i - |front|] && all[i] == lines[i - |front|]; }
    }
  }

  /** How a message with the field behind kept lines is rewritten. */
  lemma {:induction false} RewriteOfLed(front: seq<string>, gaps: seq<bool>, bcc: seq<string>, rest: string,
                                        h: string, left: string)
    requires Front(front, gaps) && bcc != [] && BccLine(bcc) + rest == h + left
    requires Proper(Lines(h), Gaps(h)) && Glue(Lines(h), Gaps(h)) == h && HeaderLike(Lines(h), left)
    requires Lines(h)[0] != "" && !IsFold(Lines(h)[0])
    ensures var crlf := true in gaps + Gaps(h);
      && Led(front, gaps) + BccLine(bcc) + rest == Led(front, gaps) + h + left
      && Rewrite(Led(front, gaps) + BccLine(bcc) + rest, bcc)
         == Led(front, Even(crlf, |front|)) + Joined(Keep(Lines(h), false) + [BccLine(bcc)], crlf) + left
  {
    var b, lines := BccLine(bcc), front + Lines(h);
    var crlf := true in gaps + Gaps(h);
    FrontIsProper(front, gaps, Lines(h), Gaps(h), left);
    GlueBehind(front, gaps, Lines(h), Gaps(h));
    Associate(Led(front, gaps), b, rest);
    Associate(Led(front, gaps), h, left);
    RewriteOfRead(Led(front, gaps) + h + left, lines, gaps + Gaps(h), left, bcc);
    KeepConcat(front, Lines(h), false);
    Associated(front, Keep(Lines(h), false), [b]);
    JoinedBehind(front, crlf, Keep(Lines(h), false) + [b]);
  }

  lemma {:induction false} Associated(a: seq<string>, b: seq<string>, c: seq<string>)
    ensures a + b + c == a + (b + c)
  {}

  /** No blank line comes with the new field, and the first rewrite's field is dropped whole. */
  predicate Settled(b: string, rest: string) {
    Split(b + rest) == Some(|b|) && Keep(Lines(b), false) == []
  }

  /** What is written for kept lines and the field has at least the field's length. */
  lemma {:induction false} JoinedIsLonger(kept: seq<string>, b: string, crlf: bool)
    ensures |Joined(kept + [b], crlf)| >= |b| && (|Joined(kept + [b], crlf)| == |b| <==> kept == [])
    ensures kept == [] ==> Joined(kept + [b], crlf) == b
  {
    JoinedBehind(kept, crlf, [b]);
    if kept == [] { assert kept + [b] == [b]; }
  }

  lemma {:induction false} EvenIsLonger(front: seq<string>, gaps: seq<bool>, crlf: bool)
    requires |front| == |gaps| && (true in gaps ==> crlf)
    ensures |Led(front, Even(crlf, |front|))| >= |Led(front, gaps)|
    ensures |Led(front, Even(crlf, |front|))| == |Led(front, gaps)| <==> (crlf ==> false !in gaps)
    ensures (crlf ==> false !in gaps) ==> gaps == Even(crlf, |front|)
  {
    LedLength(front, gaps, Even(crlf, |front|));
    AllTruths(crlf, |front|);
    TruthsAtMost(gaps);
    NoTruths(gaps);
    forall i | 0 <= i < |gaps| && (crlf ==> false !in gaps) ensures gaps[i] == crlf { assert gaps[i] in gaps; }
  }

  /** A message with the field behind kept lines is left alone exactly when the field settles
      and all breaks in front of it are of the kind the head then shows. */
  lemma {:induction false} SecondRewrite(front: seq<string>, gaps: seq<bool>, bcc: seq<string>, rest: string)
    requires Front(front, gaps) && bcc != [] && BlankLine(rest)
    ensures var t := Led(front, gaps) + BccLine(bcc) + rest;
      Rewrite(t, bcc) == t <==> Settled(BccLine(bcc), rest) && (true in gaps + Gaps(BccLine(bcc)) ==> false !in gaps)
  {
    var b := BccLine(bcc);
    var h, left := ReadField(b, rest);
    RewriteOfLed(front, gaps, bcc, rest, h, left);
    var crlf, kept := true in gaps + Gaps(h), Keep(Lines(h), false);
    EvenIsLonger(front, gaps, crlf);
    JoinedIsLonger(kept, b, crlf);
    assert |h| == |b| ==> h == b;
  }

  /** Where the stray CR is a line of its own, the new line falls behind a blank line and
      the second time another is added in front of it: the message grows. */
  lemma {:induction false} LoneCrGrows(k: seq<string>, rest: string, bcc: seq<string>)
    requires k != [] && Inner(k + ["\r"], false) && Keep(k + ["\r"], false) == k + ["\r"]
    requires BlankLine(rest) && bcc != []
    ensures var t := Joined(k + ["\r"] + [BccLine(bcc)], false) + rest; |Rewrite(t, bcc)| > |t|
  {
    var b := BccLine(bcc);
    var t := Joined(k + ["\r"] + [b], false) + rest;
    var behind := "\n\r\n" + b + rest;
    assert "" + "\r" == "\r";
    KeepTrimmed(k, "");
    LoneCrText(k, b, rest);
    assert behind[1..][0] == '\r' && behind[1..][1] == '\n';
    assert BlankLine(behind);
    assert forall i :: 0 <= i < |k| ==> (k + ["\r"])[i] == k[i];
    RewriteOfRead(t, k, Even(false, |k| - 1), behind, bcc);
    EvenHas(false, |k| - 1);
    JoinedSnoc(k, false, b);
  }

  lemma {:induction false} LoneCrText(k: seq<string>, b: string, rest: string)
    requires k != []
    ensures Joined(k + ["\r"] + [b], false) + rest == Joined(k, false) + ("\n\r\n" + b + rest)
  {
    JoinedSnoc(k + ["\r"], false, b);
    JoinedSnoc(k, false, "\r");
    var j := Joined(k, false);
    assert j + "\n" + "\r" + "\n" + b + rest == j + ("\n\r\n" + b + rest);
  }

  // ---- The two cases of a new field ---------------------------------------

  lemma {:induction false} KeptIsFront(text: string, bcc: seq<string>)
    requires Split(text).Some? && bcc != [] && !StrayCr(text, bcc)
    ensures Front(Kept(text), Even(HasCrLf(Head(text)), |Kept(text)|))
  {
    var kept, crlf := Kept(text), HasCrLf(Head(text));
    KeptIsHeaderLike(text);
    KeepTwice(Lines(Head(text)), false);
    forall i | 0 <= i < |kept| && !crlf ensures !EndsInCr(kept[i]) {}
  }

  /** Without a stray CR the second rewrite meets the breaks of the first. */
  lemma {:induction false} TwiceBehindKept(text: string, bcc: seq<string>)
    requires Split(text).Some? && bcc != [] && !StrayCr(text, bcc)
    ensures Rewrite(Rewrite(text, bcc), bcc) == Rewrite(text, bcc) <==>
      Settled(BccLine(bcc), Rest(text)) && (Kept(text) == [] || HasCrLf(Head(text)) || !HasCrLf(BccLine(bcc)))
  {
    var kept, crlf, b := Kept(text), HasCrLf(Head(text)), BccLine(bcc);
    KeptIsFront(text, bcc);
    JoinedBehind(kept, crlf, [b]);
    RestIsBlank(text);
    SecondRewrite(kept, Even(crlf, |kept|), bcc, Rest(text));
    CrLfIsAGap(b);
    EvenHas(crlf, |kept|);
    assert !crlf && kept != [] ==> !Even(crlf, |kept|)[0];
  }

  lemma {:induction false} TrimmedIsFront(k: seq<string>, l: string)
    requires Inner(k + [l + "\r"], false) && Keep(k + [l + "\r"], false) == k + [l + "\r"] && NoBreak(l)
    requires (k == [] || l != "")
    ensures Front(k + [l], Even(false, |k|) + [true])
  {
    var was, all := k + [l + "\r"], k + [l];
    KeepTrimmed(k, l);
    forall i | 0 <= i < |k| ensures all[i] == was[i] == k[i] && !EndsInCr(k[i]) { assert !EndsInCr(was[i]); }
  }

  /** The same text, read with the CR in the line or in the break. */
  lemma {:induction false} TrimmedLed(k: seq<string>, l: string, b: string)
    ensures Joined(k + [l + "\r"] + [b], false) == Led(k + [l], Even(false, |k|) + [true]) + b
  {
    JoinedBehind(k, false, [l + "\r", b]);
    Associated(k, [l + "\r"], [b]);
    assert [l + "\r"] + [b] == [l + "\r", b];
    GlueBehind([l + "\r"], [false], [b], []);
    assert [l + "\r"][1..] == [] && [l][1..] == [] && Even(false, 1) == [false];
    assert [l + "\r"] + [b] == [l + "\r", b] && [false] + [] == [false];
    assert Joined([l + "\r", b], false) == l + "\r\n" + b;
    GlueBehind(k + [l], Even(false, |k|) + [true], [b], []);
    GlueBehind(k, Even(false, |k|), [l, b], [true]);
    GlueBehind([l], [true], [b], []);
    assert k + [l] + [b] == k + [l, b] && Even(false, |k|) + [true] + [] == Even(false, |k|) + [true];
    assert [l] + [b] == [l, b] && [true] + [] == [true];
    assert Led([l], [true]) == l + "\r\n";
  }

  /** With one, the CR has become part of a CR LF in front of the field. */
  lemma {:induction false} TwiceBehindStrayCr(text: string, bcc: seq<string>)
    requires Split(text).Some? && bcc != [] && StrayCr(text, bcc)
    ensures Rewrite(Rewrite(text, bcc), bcc) == Rewrite(text, bcc) <==>
      Settled(BccLine(bcc), Rest(text)) && |Kept(text)| == 1
  {
    var k, l := LastTrimmed(text);
    RestIsBlank(text);
    if k != [] && l == "" {
      assert l + "\r" == "\r";
      LoneCrGrows(k, Rest(text), bcc);
    } else {
      var gaps := Even(false, |k|) + [true];
      TrimmedIsFront(k, l);
      TrimmedLed(k, l, BccLine(bcc));
      SecondRewrite(k + [l], gaps, bcc, Rest(text));
      assert gaps[|k|];
      assert k != [] ==> !gaps[0];
    }
  }

  /** The head gets breaks of both kinds: the new field holds a CR LF, or the kept lines end
      in a stray CR, with lines in front that are not joined by CR LF. */
  predicate MixesBreaks(text: string, b: string) {
    var kept := Kept(text);
    && kept != [] && !HasCrLf(Head(text))
    && if EndsInCr(kept[|kept| - 1]) then |kept| > 1 else HasCrLf(b)
  }

  predicate GrowsAgain(text: string, bcc: seq<string>) {
    bcc != [] && (!Settled(BccLine(bcc), Rest(text)) || MixesBreaks(text, BccLine(bcc)))
  }

  /** The rewrite is idempotent exactly unless a Bcc line is added that does not settle, or
      that leaves breaks of both kinds in the head. */
  lemma {:induction false} IdempotentExactly(text: string, bcc: seq<string>)
    requires Split(text).Some?
    ensures Rewrite(Rewrite(text, bcc), bcc) == Rewrite(text, bcc) <==> !GrowsAgain(text, bcc)
  {
    if bcc == [] {
      if StrayCr(text, []) { TwiceInFrontOfRest(text); } else { TwiceWithoutStrayCr(text, []); }
    } else if StrayCr(text, bcc) {
      TwiceBehindStrayCr(text, bcc);
    } else {
      TwiceBehindKept(text, bcc);
    }
  }

  // ---- Which fields settle ------------------------------------------------

  /** Behind a Bcc line all is dropped exactly when there are only folds and Bcc lines. */
  lemma {:induction false} AllDroppedExactly(lines: seq<string>)
    ensures Keep(lines, true) == [] <==> forall i :: 0 <= i < |lines| ==> IsFold(lines[i]) || IsBcc(lines[i])
  {
    if lines != [] {
      AllDroppedExactly(lines[1..]);
      FirstAndRest(lines);
      if IsFold(lines[0]) || IsBcc(lines[0]) {
        forall i | 0 <= i < |lines| - 1 ensures lines[1..][i] == lines[i + 1] {}
      }
    }
  }

  lemma {:induction false} FirstLineIsBcc(t: string)
    requires |t| >= 5 && t[..5] == "Bcc: "
    ensures IsBcc(Lines(t)[0])
  {
    assert t[0] == 'B' && t[1] == 'c' && t[2] == 'c' && t[3] == ':';
    var i := LineEnd(t);
    assert LineEnd(t[1..]) == 1 + LineEnd(t[1..][1..]) && LineEnd(t[1..][1..]) == 1 + LineEnd(t[1..][1..][1..]);
    assert LineEnd(t[1..][1..][1..]) >= 1;
    assert Lines(t)[0] == t[..i] && i >= 4;
    assert t[..i][3..][0] == ':';
  }

  /** A new field settles exactly when no blank line starts in it or ends with it, and each
      of its lines past the first is a fold or names Bcc itself. */
  lemma {:induction false} SettledExactly(bcc: seq<string>, rest: string)
    ensures var b := BccLine(bcc);
      Settled(b, rest) <==>
        (Split(b + rest) == Some(|b|) && forall i :: 0 < i < |Lines(b)| ==> IsFold(Lines(b)[i]) || IsBcc(Lines(b)[i]))
  {
    var b := BccLine(bcc);
    var lines := Lines(b);
    FirstLineIsBcc(b);
    FirstLineStarts(b);
    AllDroppedExactly(lines[1..]);
    forall i | 0 < i < |lines| ensures lines[1..][i - 1] == lines[i] {}
    assert Keep(lines, false) == Keep(lines[1..], true);
    if Keep(lines, false) == [] {
      forall i | 0 < i < |lines| ensures IsFold(lines[i]) || IsBcc(lines[i]) { assert lines[i] == lines[1..][i - 1]; }
    }
  }

  /** A field that fits settles, so with Latin-1 addresses only a stray CR behind several
      kept lines is left. */
  lemma {:induction false} FittingFieldSettles(text: string, bcc: seq<string>)
    requires Split(text).Some? && FieldFits(bcc, Rest(text)) && bcc != []
    ensures Settled(BccLine(bcc), Rest(text))
    ensures GrowsAgain(text, bcc) <==> StrayCr(text, bcc) && |Kept(text)| > 1
  {
    var b := BccLine(bcc);
    RestIsBlank(text);
    SplitPastLine(b, Rest(text));
    OnlyLineOf(b);
    BccLineIsBcc(bcc);
    NoCrLf(b);
  }

  lemma {:induction false} FoldedLines(b: string)
    requires b == "Bcc: a\nb"
    ensures Lines(b) == ["Bcc: a", "b"]
  {
    FirstLineOf("Bcc: a", false, "b");
    OnlyLineOf("b");
    assert "Bcc: a" + NewLine(false) + "b" == b;
  }

  lemma {:induction false} OwnLineUnsettles(bcc: seq<string>, rest: string)
    requires Lines(BccLine(bcc)) == ["Bcc: a", "b"]
    ensures !Settled(BccLine(bcc), rest)
  {
    SettledExactly(bcc, rest);
    assert Lines(BccLine(bcc))[1] == "b";
  }

  /** With an address whose folding has a line of its own behind a line feed, no message is
      left alone by the second rewrite. */
  lemma {:induction false} FoldedAddressIsRewrittenAgain(text: string)
    requires Split(text).Some?
    ensures Rewrite(Rewrite(text, LineFeedAddress()), LineFeedAddress()) != Rewrite(text, LineFeedAddress())
  {
    var bcc := LineFeedAddress();
    FoldedLineFeed();
    FoldedLines(BccLine(bcc));
    OwnLineUnsettles(bcc, Rest(text));
    IdempotentExactly(text, bcc);
  }
}
