/**
 * The Bcc rewrite of a submitted message
 * (apps/smtp/src/mailbox-submission.ts:98-116), over header fields as sections 2.2.3 and
 * 3.6.3 of RFC 5322 fold and name them. Text is one character per byte.
 *
 * The rewrite works on lines under a flag; what it means is stated on fields, a line with
 * the folds behind it: every other field is kept whole and in order, and the new one is
 * folded to Latin-1 and added last.
 */
module Bcc {
  import opened Common
  import opened HeaderLines

  // ---- Header fields ------------------------------------------------------

  /** White space as the original's pattern sees it, in Latin-1. */
  predicate IsSpace(c: char) {
    9 <= c as int <= 13 || c == ' ' || c as int == 0xa0
  }

  predicate IsFold(l: string) {
    l != [] && (l[0] == ' ' || l[0] == '\t')
  }

  /** Some white space and a colon. */
  predicate ColonNext(l: string) {
    l != [] && (l[0] == ':' || (IsSpace(l[0]) && ColonNext(l[1..])))
  }

  predicate IsBcc(l: string) {
    && |l| >= 3 && l[0] in "bB" && l[1] in "cC" && l[2] in "cC"
    && ColonNext(l[3..])
  }

  /** Exactly the lines that name the field: the three letters in any case, then a colon with
      nothing but white space in front of it. */
  lemma {:induction false} BccIsExact(l: string)
    ensures IsBcc(l) <==>
      && |l| > 3 && l[0] in {'b', 'B'} && l[1] in {'c', 'C'} && l[2] in {'c', 'C'}
      && exists n :: 3 <= n < |l| && l[n] == ':'
           && forall i :: 3 <= i < n ==> l[i] as int in {9, 10, 11, 12, 13, 32, 160}
  {
    if |l| >= 3 {
      ColonIsExact(l[3..]);
      assert forall n :: 0 <= n < |l| - 3 ==> l[3..][n] == l[3 + n];
      if n :| 0 <= n < |l| - 3 && ColonAt(l[3..], n) {
        assert l[3 + n] == ':';
        forall i | 3 <= i < 3 + n ensures l[i] as int in {9, 10, 11, 12, 13, 32, 160} { assert l[i] == l[3..][i - 3]; }
      }
      if n :| 3 <= n < |l| && l[n] == ':' && forall i :: 3 <= i < n ==> l[i] as int in {9, 10, 11, 12, 13, 32, 160} {
        assert ColonAt(l[3..], n - 3);
      }
    }
  }

  /** The first colon, behind white space only. */
  predicate ColonAt(t: string, n: nat) {
    n < |t| && t[n] == ':' && forall i :: 0 <= i < n ==> t[i] as int in {9, 10, 11, 12, 13, 32, 160}
  }

  lemma {:induction false} ColonIsExact(t: string)
    ensures ColonNext(t) <==> exists n: nat :: ColonAt(t, n)
  {
    if t != [] {
      ColonIsExact(t[1..]);
      if t[0] == ':' { assert ColonAt(t, 0); }
      if n: nat :| ColonAt(t[1..], n) && IsSpace(t[0]) {
        forall i | 0 <= i < n + 1 ensures t[i] as int in {9, 10, 11, 12, 13, 32, 160} {
          if i > 0 { assert t[i] == t[1..][i - 1]; }
        }
        assert ColonAt(t, n + 1);
      }
      if n: nat :| ColonAt(t, n) && n > 0 {
        assert t[0] as int in {9, 10, 11, 12, 13, 32, 160};
        forall i | 0 <= i < n - 1 ensures t[1..][i] as int in {9, 10, 11, 12, 13, 32, 160} {
          assert t[1..][i] == t[i + 1];
        }
        assert ColonAt(t[1..], n - 1);
      }
    }
  }

  /** The lines kept: a fold follows the line it continues. */
  function Keep(lines: seq<string>, dropping: bool): seq<string> {
    if lines == [] then []
    else if IsFold(lines[0]) then (if dropping then [] else [lines[0]]) + Keep(lines[1..], dropping)
    else (if IsBcc(lines[0]) then [] else [lines[0]]) + Keep(lines[1..], IsBcc(lines[0]))
  }

  /** Whether a fold after these lines would be dropped. */
  function Dropping(lines: seq<string>, dropping: bool): bool {
    if lines == [] then dropping
    else Dropping(lines[1..], if IsFold(lines[0]) then dropping else IsBcc(lines[0]))
  }

  function JoinWith(parts: seq<string>, sep: string): string {
    if parts == [] then "" else if |parts| == 1 then parts[0] else parts[0] + sep + JoinWith(parts[1..], sep)
  }

  /** A character as a Latin-1 buffer stores it: the low byte of each of its UTF-16 units. */
  function FoldedChar(c: char): string {
    var n := c as int;
    if n < 0x10000 then [(n % 256) as char]
    else [((n - 0x10000) / 0x400 % 256) as char, ((n - 0x10000) % 0x400 % 256) as char]
  }

  /** Every UTF-16 unit keeps its low byte: one for a character of the basic plane, and a high
      and a low surrogate for the others. */
  lemma FoldsUnitsExactly(c: char)
    ensures var n, f := c as int, FoldedChar(c);
      if n < 65_536 then |f| == 1 && f[0] as int < 256 && exists k :: n == 256 * k + f[0] as int
      else |f| == 2 && exists high, low ::
             && 0xD800 <= high < 0xDC00 && 0xDC00 <= low < 0xE000
             && n == 0x10000 + 0x400 * (high - 0xD800) + low - 0xDC00
             && f[0] as int == high % 256 && f[1] as int == low % 256
  {
    var n := c as int;
    if n < 65_536 {
      assert n == 256 * (n / 256) + n % 256;
    } else {
      var high, low := 0xD800 + (n - 0x10000) / 0x400, 0xDC00 + (n - 0x10000) % 0x400;
      assert n == 0x10000 + 0x400 * (high - 0xD800) + low - 0xDC00;
      assert high % 256 == (n - 0x10000) / 0x400 % 256 && low % 256 == (n - 0x10000) % 0x400 % 256;
    }
  }

  function Folded(s: string): string {
    if s == [] then "" else FoldedChar(s[0]) + Folded(s[1..])
  }

  /** The new field, folded as the buffer folds it. The client's own lines came out of such
      a buffer and stay as they are. */
  function BccLine(bcc: seq<string>): string {
    "Bcc: " + Folded(JoinWith(bcc, ", "))
  }

  function Out(lines: seq<string>, bcc: seq<string>): seq<string> {
    Keep(lines, false) + if bcc == [] then [] else [BccLine(bcc)]
  }

  /** The header lines a message keeps. */
  function Kept(text: string): seq<string> {
    Keep(Lines(Head(text)), false)
  }

  function Even(crlf: bool, n: nat): seq<bool> {
    seq(n, i => crlf)
  }

  function Joined(lines: seq<string>, crlf: bool): string {
    if lines == [] then "" else Glue(lines, Even(crlf, |lines| - 1))
  }

  predicate HasCrLf(t: string) {
    |t| >= 2 && ((t[0] == '\r' && t[1] == '\n') || HasCrLf(t[1..]))
  }

  lemma {:induction false} CrLfIsExact(t: string)
    ensures HasCrLf(t) <==> exists i :: 0 <= i < |t| - 1 && t[i] == '\r' && t[i + 1] == '\n'
  {
    if |t| >= 2 {
      CrLfIsExact(t[1..]);
      if i :| 0 <= i < |t| - 2 && t[1..][i] == '\r' && t[1..][i + 1] == '\n' {
        assert t[i + 1] == '\r' && t[i + 2] == '\n';
      }
      if i :| 0 <= i < |t| - 1 && t[i] == '\r' && t[i + 1] == '\n' && i > 0 {
        assert t[1..][i - 1] == '\r' && t[1..][i] == '\n';
      }
    }
  }

  /** The message with its Bcc fields replaced by one that names `bcc`. */
  function Rewrite(text: string, bcc: seq<string>): string {
    Joined(Out(Lines(Head(text)), bcc), HasCrLf(Head(text))) + Rest(text)
  }

  /** What the last line adds. */
  lemma {:induction false} KeepSnoc(lines: seq<string>, l: string, dropping: bool)
    ensures Keep(lines + [l], dropping) ==
      Keep(lines, dropping) + if (if IsFold(l) then Dropping(lines, dropping) else IsBcc(l)) then [] else [l]
    ensures Dropping(lines + [l], dropping) == if IsFold(l) then Dropping(lines, dropping) else IsBcc(l)
  {
    var all := lines + [l];
    if lines == [] {
      assert all == [l] && all[1..] == [];
    } else {
      assert all[0] == lines[0] && all[1..] == lines[1..] + [l];
      KeepSnoc(lines[1..], l, if IsFold(lines[0]) then dropping else IsBcc(lines[0]));
    }
  }

  method KeepLines(lines: seq<string>) returns (kept: seq<string>)
    ensures kept == Keep(lines, false)
  {
    kept := [];
    var dropping := false;
    for i := 0 to |lines|
      invariant kept == Keep(lines[..i], false) && dropping == Dropping(lines[..i], false)
    {
      var line := lines[i];
      TakeOneMore(lines, i);
      KeepSnoc(lines[..i], line, false);
      if IsFold(line) {
        if !dropping { kept := kept + [line]; }
      } else {
        dropping := IsBcc(line);
        if !dropping { kept := kept + [line]; }
      }
    }
    assert lines[..|lines|] == lines;
  }

  /** The rewrite as the line loop computes it. */
  method WithEnvelopeBcc(text: string, bcc: seq<string>) returns (message: string)
    ensures message == Rewrite(text, bcc)
  {
    var kept := KeepLines(Lines(Head(text)));
    if bcc != [] { kept := kept + [BccLine(bcc)]; }
    assert kept == Out(Lines(Head(text)), bcc);
    message := Joined(kept, HasCrLf(Head(text))) + Rest(text);
  }

  // ---- Fields: every other field stays, with its folds, in order ----------

  /** How many folds a text starts with. */
  function Folds(lines: seq<string>): (n: nat)
    ensures n <= |lines|
  {
    if lines == [] || !IsFold(lines[0]) then 0 else 1 + Folds(lines[1..])
  }

  /** The header fields: a line and the folds behind it. */
  function Fields(lines: seq<string>): seq<seq<string>>
    decreases |lines|
  {
    if lines == [] then []
    else
      var n := 1 + Folds(lines[1..]);
      [lines[..n]] + Fields(lines[n..])
  }

  function Others(fields: seq<seq<string>>): seq<seq<string>> {
    if fields == [] then []
    else (if fields[0] != [] && IsBcc(fields[0][0]) then [] else [fields[0]]) + Others(fields[1..])
  }

  function Flatten(fields: seq<seq<string>>): seq<string> {
    if fields == [] then [] else fields[0] + Flatten(fields[1..])
  }

  lemma {:induction false} KeepFolds(lines: seq<string>, dropping: bool)
    ensures Keep(lines, dropping) ==
      (if dropping then [] else lines[..Folds(lines)]) + Keep(lines[Folds(lines)..], dropping)
  {
    if lines != [] && IsFold(lines[0]) {
      KeepFolds(lines[1..], dropping);
      var n := Folds(lines);
      assert lines[1..][..n - 1] == lines[1..n] && lines[1..][n - 1..] == lines[n..];
      assert lines[..n] == [lines[0]] + lines[1..n];
    } else {
      assert lines[0..] == lines;
    }
  }

  lemma {:induction false} FoldsAreFolds(lines: seq<string>)
    ensures forall i :: 0 <= i < Folds(lines) ==> IsFold(lines[i])
    ensures Folds(lines) < |lines| ==> !IsFold(lines[Folds(lines)])
  {
    if lines != [] && IsFold(lines[0]) { FoldsAreFolds(lines[1..]); }
  }

  lemma {:induction false} FoldIsNoBcc(l: string)
    requires IsFold(l)
    ensures !IsBcc(l)
  {}

  /** Without a leading fold the state of the loop does not matter. */
  lemma {:induction false} KeepIgnoresState(lines: seq<string>, a: bool, b: bool)
    requires lines == [] || !IsFold(lines[0])
    ensures Keep(lines, a) == Keep(lines, b)
  {}

  lemma {:induction false} FirstLineKept(lines: seq<string>)
    requires lines != []
    ensures Keep(lines, false) == (if IsBcc(lines[0]) then [] else [lines[0]]) + Keep(lines[1..], IsBcc(lines[0]))
  {
    if IsFold(lines[0]) { FoldIsNoBcc(lines[0]); }
  }

  /** The first field is kept or dropped as a whole. */
  lemma {:induction false} FirstFieldIsWhole(lines: seq<string>)
    requires lines != []
    ensures var n := 1 + Folds(lines[1..]);
      Keep(lines, false) == (if IsBcc(lines[0]) then [] else lines[..n]) + Keep(lines[n..], false)
  {
    FirstLineKept(lines);
    FirstFoldsKept(lines, IsBcc(lines[0]));
  }

  lemma {:induction false} FirstFoldsKept(lines: seq<string>, dropped: bool)
    requires lines != []
    ensures var n := 1 + Folds(lines[1..]);
      (if dropped then [] else [lines[0]]) + Keep(lines[1..], dropped)
        == (if dropped then [] else lines[..n]) + Keep(lines[n..], false)
  {
    var tail := lines[1..];
    var n := 1 + Folds(tail);
    KeepFolds(tail, dropped);
    FoldsAreFolds(tail);
    assert tail[n - 1..] == lines[n..];
    KeepIgnoresState(lines[n..], dropped, false);
    assert lines[..n] == [lines[0]] + tail[..n - 1];
  }

  /** The kept lines are those of the other fields, whole and in order. */
  lemma {:induction false} KeepIsTheOtherFields(lines: seq<string>)
    ensures Keep(lines, false) == Flatten(Others(Fields(lines)))
    decreases |lines|
  {
    if lines != [] {
      var n := 1 + Folds(lines[1..]);
      KeepIsTheOtherFields(lines[n..]);
      FirstFieldIsWhole(lines);
      OthersFirst(lines);
    }
  }

  lemma {:induction false} OthersFirst(lines: seq<string>)
    requires lines != []
    ensures var n := 1 + Folds(lines[1..]);
      Flatten(Others(Fields(lines))) ==
        (if IsBcc(lines[0]) then [] else lines[..n]) + Flatten(Others(Fields(lines[n..])))
  {
    var n := 1 + Folds(lines[1..]);
    FieldsStep(lines);
    FlattenStep(lines[..n], Fields(lines[n..]));
  }

  lemma {:induction false} FieldsStep(lines: seq<string>)
    requires lines != []
    ensures var n := 1 + Folds(lines[1..]);
      Fields(lines) == [lines[..n]] + Fields(lines[n..]) && lines[..n][0] == lines[0]
  {}

  lemma {:induction false} FlattenStep(f: seq<string>, rest: seq<seq<string>>)
    requires f != []
    ensures Flatten(Others([f] + rest)) == (if IsBcc(f[0]) then [] else f) + Flatten(Others(rest))
  {
    OthersStep(f, rest);
    FlattenCons(f, Others(rest));
  }

  lemma {:induction false} OthersStep(f: seq<string>, rest: seq<seq<string>>)
    requires f != []
    ensures Others([f] + rest) == if IsBcc(f[0]) then Others(rest) else [f] + Others(rest)
  {
    assert ([f] + rest)[1..] == rest;
  }

  lemma {:induction false} FlattenCons(f: seq<string>, rest: seq<seq<string>>)
    ensures Flatten([f] + rest) == f + Flatten(rest)
  {
    assert ([f] + rest)[1..] == rest;
  }

  /** Fields as reading makes them: a line with its folds, and only the first may be one. */
  predicate WellFormed(fields: seq<seq<string>>) {
    && (forall f :: f in fields ==> f != [] && forall i :: 0 < i < |f| ==> IsFold(f[i]))
    && (forall k :: 0 < k < |fields| ==> fields[k] != [] && !IsFold(fields[k][0]))
  }

  lemma {:induction false} FoldsOfField(f: seq<string>, more: seq<string>)
    requires (forall i :: 0 <= i < |f| ==> IsFold(f[i])) && (more == [] || !IsFold(more[0]))
    ensures Folds(f + more) == |f|
  {
    if f == [] {
      assert f + more == more;
    } else {
      assert (f + more)[1..] == f[1..] + more;
      FoldsOfField(f[1..], more);
    }
  }

  /** Writing fields out and reading them again gives them back. */
  lemma {:induction false} FieldsOfFlatten(fields: seq<seq<string>>)
    requires WellFormed(fields)
    ensures Fields(Flatten(fields)) == fields
  {
    if fields != [] {
      var f, rest := fields[0], fields[1..];
      forall k | 0 <= k < |rest| ensures rest[k] != [] && !IsFold(rest[k][0]) { assert rest[k] == fields[k + 1]; }
      FieldsOfFlatten(rest);
      FirstFieldOf(f, Flatten(rest));
    }
  }

  lemma {:induction false} FirstFieldOf(f: seq<string>, more: seq<string>)
    requires f != [] && (forall i :: 0 < i < |f| ==> IsFold(f[i])) && (more == [] || !IsFold(more[0]))
    ensures Fields(f + more) == [f] + Fields(more)
  {
    var all := f + more;
    assert all[1..] == f[1..] + more;
    FoldsOfField(f[1..], more);
    assert all[..|f|] == f && all[|f|..] == more;
  }

  lemma {:induction false} FieldsAreWellFormed(lines: seq<string>)
    ensures WellFormed(Fields(lines))
    ensures lines != [] ==> Fields(lines)[0][0] == lines[0]
    decreases |lines|
  {
    if lines != [] {
      var n := 1 + Folds(lines[1..]);
      FoldsAreFolds(lines[1..]);
      FieldsAreWellFormed(lines[n..]);
      assert forall i :: 0 < i < n ==> lines[..n][i] == lines[1..][i - 1];
      if n < |lines| { assert lines[n..][0] == lines[1..][n - 1]; }
    }
  }

  lemma {:induction false} OthersAreFields(fields: seq<seq<string>>)
    requires forall f :: f in fields ==> f != []
    ensures forall f :: f in Others(fields) ==> f in fields && !IsBcc(f[0])
  {
    if fields != [] {
      assert fields[0] in fields && forall f :: f in fields[1..] ==> f in fields;
      OthersAreFields(fields[1..]);
      OthersOfFirst(fields);
    }
  }

  lemma {:induction false} OthersOfFirst(fields: seq<seq<string>>)
    requires fields != [] && fields[0] != []
    ensures Others(fields) == if IsBcc(fields[0][0]) then Others(fields[1..]) else [fields[0]] + Others(fields[1..])
  {}

  ghost predicate HeadsFrom(fields: seq<seq<string>>, from: nat) {
    forall k :: from <= k < |fields| ==> fields[k] != [] && !IsFold(fields[k][0])
  }

  /** A fold can only lead the fields kept if it led the fields read. */
  lemma {:induction false} OthersKeepHeads(fields: seq<seq<string>>, from: nat)
    requires HeadsFrom(fields, from) && from <= 1 && (fields != [] ==> fields[0] != [])
    ensures HeadsFrom(Others(fields), from)
  {
    if fields != [] {
      var rest := fields[1..];
      assert HeadsFrom(rest, 0) by {
        forall k | 0 <= k < |rest| ensures rest[k] != [] && !IsFold(rest[k][0]) { assert rest[k] == fields[k + 1]; }
      }
      OthersKeepHeads(rest, 0);
      OthersOfFirst(fields);
    }
  }

  lemma {:induction false} OthersAreWellFormed(fields: seq<seq<string>>)
    requires WellFormed(fields)
    ensures WellFormed(Others(fields))
    ensures forall f :: f in Others(fields) ==> f != [] && !IsBcc(f[0])
  {
    OthersAreFields(fields);
    assert HeadsFrom(fields, 1);
    OthersKeepHeads(fields, 1);
  }

  lemma {:induction false} FlattenSnoc(fields: seq<seq<string>>, f: seq<string>)
    ensures Flatten(fields + [f]) == Flatten(fields) + f
  {
    if fields == [] {
      assert [] + [f] == [f] && [f][1..] == [];
    } else {
      assert (fields + [f])[1..] == fields[1..] + [f];
      FlattenSnoc(fields[1..], f);
    }
  }

  lemma {:induction false} BccLineIsBcc(bcc: seq<string>)
    ensures IsBcc(BccLine(bcc)) && !IsFold(BccLine(bcc))
  {
    var l := BccLine(bcc);
    assert l[..5] == "Bcc: ";
    assert l[3..][0] == ':';
  }

  function NewField(bcc: seq<string>): seq<seq<string>> {
    if bcc == [] then [] else [[BccLine(bcc)]]
  }

  lemma {:induction false} OutIsFlat(lines: seq<string>, bcc: seq<string>)
    ensures Out(lines, bcc) == Flatten(Others(Fields(lines)) + NewField(bcc))
  {
    KeepIsTheOtherFields(lines);
    var others := Others(Fields(lines));
    if bcc == [] {
      assert others + [] == others;
    } else {
      FlattenSnoc(others, [BccLine(bcc)]);
    }
  }

  lemma {:induction false} NewFieldFits(others: seq<seq<string>>, bcc: seq<string>)
    requires WellFormed(others)
    ensures WellFormed(others + NewField(bcc))
  {
    if bcc != [] { BccLineIsBcc(bcc); }
  }

  /** The lines written out read as the other fields, unchanged and in order, and one new
      Bcc field. */
  lemma {:induction false} OutFields(lines: seq<string>, bcc: seq<string>)
    ensures Fields(Out(lines, bcc)) == Others(Fields(lines)) + NewField(bcc)
    ensures forall f :: f in Others(Fields(lines)) ==> f != [] && !IsBcc(f[0])
  {
    OutIsFlat(lines, bcc);
    FieldsAreWellFormed(lines);
    OthersAreWellFormed(Fields(lines));
    NewFieldFits(Others(Fields(lines)), bcc);
    FieldsOfFlatten(Others(Fields(lines)) + NewField(bcc));
  }

  // ---- What the kept lines inherit ----------------------------------------

  /** Only the first kept line can be the first line, and only the last the last. */
  lemma {:induction false} KeptAreLines(lines: seq<string>, dropping: bool)
    ensures var k := Keep(lines, dropping);
      && |k| <= |lines|
      && (forall i :: 0 <= i < |k| ==> k[i] in lines)
      && (forall i :: 0 < i < |k| ==> k[i] in lines[1..])
      && (forall i :: 0 <= i < |k| - 1 ==> k[i] in lines[..|lines| - 1])
  {
    if lines != [] {
      var rest := lines[1..];
      var state := if IsFold(lines[0]) then dropping else IsBcc(lines[0]);
      KeptAreLines(rest, state);
      KeptStep(lines, Keep(rest, state), Keep(lines, dropping));
    }
  }

  lemma {:induction false} KeptStep(lines: seq<string>, fewer: seq<string>, k: seq<string>)
    requires lines != [] && (k == fewer || k == [lines[0]] + fewer)
    requires |fewer| <= |lines| - 1
    requires forall i :: 0 <= i < |fewer| ==> fewer[i] in lines[1..]
    requires |lines| > 1 ==> forall i :: 0 <= i < |fewer| - 1 ==> fewer[i] in lines[1..][..|lines| - 2]
    ensures forall i :: 0 <= i < |k| ==> k[i] in lines
    ensures forall i :: 0 < i < |k| ==> k[i] in lines[1..]
    ensures forall i :: 0 <= i < |k| - 1 ==> k[i] in lines[..|lines| - 1]
  {
    assert lines == [lines[0]] + lines[1..];
    if |lines| > 1 {
      assert lines[..|lines| - 1] == [lines[0]] + lines[1..][..|lines| - 2];
    }
  }

  /** Keeping again drops nothing more. */
  lemma {:induction false} KeepTwice(lines: seq<string>, dropping: bool)
    ensures Keep(Keep(lines, dropping), false) == Keep(lines, dropping)
    ensures !Dropping(Keep(lines, dropping), false)
  {
    if lines != [] {
      var state := if IsFold(lines[0]) then dropping else IsBcc(lines[0]);
      var more := Keep(lines[1..], state);
      KeepTwice(lines[1..], state);
      KeepCons(lines[0], more);
      assert [] + more == more;
      if IsFold(lines[0]) {
        assert Keep(lines, dropping) == if dropping then more else [lines[0]] + more;
      } else {
        assert Keep(lines, dropping) == if IsBcc(lines[0]) then more else [lines[0]] + more;
      }
    }
  }

  lemma {:induction false} KeepCons(l: string, more: seq<string>)
    ensures IsFold(l) || !IsBcc(l) ==>
      Keep([l] + more, false) == [l] + Keep(more, false) && Dropping([l] + more, false) == Dropping(more, false)
  {
    assert ([l] + more)[1..] == more;
  }

  // ---- Reading the rewrite back -------------------------------------------

  /** The new field is one line, and the message behind it does not reach back into it. */
  predicate FieldFits(bcc: seq<string>, rest: string) {
    bcc == [] || Apart(BccLine(bcc), rest)
  }

  lemma {:induction false} FoldedConcat(a: string, b: string)
    ensures Folded(a + b) == Folded(a) + Folded(b)
  {
    if a == [] {
      assert a + b == b;
    } else {
      assert (a + b)[1..] == a[1..] + b;
      FoldedConcat(a[1..], b);
    }
  }

  predicate Latin1(t: string) {
    forall i :: 0 <= i < |t| ==> t[i] as int < 256
  }

  /** An address is stored as it is exactly when it is Latin-1. */
  lemma {:induction false} FoldedIsSameExactly(s: string)
    ensures Folded(s) == s <==> Latin1(s)
    ensures |Folded(s)| >= |s|
  {
    if s != [] {
      FoldedIsSameExactly(s[1..]);
      var n, first := s[0] as int, FoldedChar(s[0]);
      if Folded(s) == s {
        assert Folded(s)[|first|..] == Folded(s[1..]);
        assert |first| == 1 && Folded(s)[1..] == s[1..];
      }
      if Latin1(s) {
        assert s == [s[0]] + s[1..];
      }
    }
  }

  lemma {:induction false} BreakInConcat(a: string, b: string)
    ensures NoBreak(a + b) <==> NoBreak(a) && NoBreak(b)
  {
    if NoBreak(a + b) {
      forall i | 0 <= i < |a| ensures a[i] != '\n' { assert (a + b)[i] == a[i]; }
      forall i | 0 <= i < |b| ensures b[i] != '\n' { assert (a + b)[|a| + i] == b[i]; }
    }
  }

  lemma {:induction false} CommaBetween(a: string, b: string)
    ensures Folded(a + ", " + b) == Folded(a) + ", " + Folded(b)
    ensures NoBreak(Folded(a + ", " + b)) <==> NoBreak(Folded(a)) && NoBreak(Folded(b))
    ensures EndsInCr(Folded(a + ", " + b)) <==> EndsInCr(Folded(b))
  {
    FoldedConcat(a + ", ", b);
    FoldedConcat(a, ", ");
    FoldedIsSameExactly(", ");
    BreakInConcat(Folded(a), ", ");
    BreakInConcat(Folded(a) + ", ", Folded(b));
  }

  lemma {:induction false} JoinedAddresses(bcc: seq<string>)
    requires bcc != []
    ensures NoBreak(Folded(JoinWith(bcc, ", "))) <==> forall i :: 0 <= i < |bcc| ==> NoBreak(Folded(bcc[i]))
    ensures EndsInCr(Folded(JoinWith(bcc, ", "))) <==> EndsInCr(Folded(bcc[|bcc| - 1]))
  {
    if |bcc| > 1 {
      JoinedAddresses(bcc[1..]);
      CommaBetween(bcc[0], JoinWith(bcc[1..], ", "));
      assert bcc == [bcc[0]] + bcc[1..];
    }
  }

  /** The field fits exactly when no address folds to a text with a line feed, and the last
      does not fold to one that ends in a CR where an LF comes behind it. */
  lemma {:induction false} FieldFitsExactly(bcc: seq<string>, rest: string)
    ensures FieldFits(bcc, rest) <==>
      && (forall i :: 0 <= i < |bcc| ==> NoBreak(Folded(bcc[i])))
      && !(bcc != [] && EndsInCr(Folded(bcc[|bcc| - 1])) && rest != [] && rest[0] == '\n')
  {
    if bcc != [] {
      JoinedAddresses(bcc);
      BreakInConcat("Bcc: ", Folded(JoinWith(bcc, ", ")));
    }
  }

  /** An address whose second character has the low byte of a line feed. */
  function LineFeedAddress(): seq<string> {
    ["a\U{060A}b"]
  }

  lemma {:induction false} FoldedLineFeed()
    ensures BccLine(LineFeedAddress()) == "Bcc: a\nb"
  {
    var address := LineFeedAddress()[0];
    assert address[1..] == "\U{060A}b" && address[2..] == "b";
    assert address[1..][1..] == "b" && "b"[1..] == "";
    assert Folded("b") == "b";
    assert FoldedChar('\U{060A}') == "\n";
    assert Folded(address[1..]) == "\n" + "b";
    assert Folded(address) == "a" + ("\n" + "b") == "a\nb";
  }

  /** Such an address breaks the new field into two lines, and no message it is added to
      reads back as what was written. */
  lemma {:induction false} FoldedAddressBreaksTheField(text: string)
    requires Split(text).Some?
    ensures var out := Rewrite(text, LineFeedAddress());
      && BccLine(LineFeedAddress()) == "Bcc: a\nb"
      && !(Lines(Head(out)) == Shown(Out(Lines(Head(text)), LineFeedAddress())) && Rest(out) == Rest(text))
  {
    FoldedLineFeed();
    assert BccLine(LineFeedAddress())[6] == '\n';
    ReadsBackExactly(text, LineFeedAddress());
  }

  /** A head contains CR LF exactly when one of its breaks is one. */
  lemma {:induction false} CrLfIsAGap(t: string)
    ensures HasCrLf(t) <==> true in Gaps(t)
    decreases |t|
  {
    if LineEnd(t) == |t| {
      LastLine(t);
      NoCrLf(t);
    } else {
      var l, gap, more := FirstLine(t);
      CrLfIsAGap(more);
      CrLfPastLine(l, NewLine(gap) + more);
      Associate(l, NewLine(gap), more);
      CrLfAtBreak(gap, more);
    }
  }

  lemma {:induction false} NoCrLf(l: string)
    requires NoBreak(l)
    ensures !HasCrLf(l)
  {
    if l != [] { NoCrLf(l[1..]); }
  }

  lemma {:induction false} CrLfPastLine(l: string, u: string)
    requires Apart(l, u)
    ensures HasCrLf(l + u) <==> HasCrLf(u)
  {
    if l == [] {
      assert l + u == u;
    } else {
      assert (l + u)[1..] == l[1..] + u;
      CrLfPastLine(l[1..], u);
    }
  }

  lemma {:induction false} CrLfAtBreak(gap: bool, more: string)
    ensures HasCrLf(NewLine(gap) + more) <==> gap || HasCrLf(more)
  {
    var t := NewLine(gap) + more;
    if !gap { assert t[1..] == more; }
  }

  /** What is written for no lines at all reads as one empty line. */
  function Shown(lines: seq<string>): seq<string> {
    if lines == [] then [""] else lines
  }

  lemma {:induction false} JoinedIsGlue(lines: seq<string>, crlf: bool)
    ensures |Even(crlf, |Shown(lines)| - 1)| == |Shown(lines)| - 1
    ensures Joined(lines, crlf) == Glue(Shown(lines), Even(crlf, |Shown(lines)| - 1))
  {}

  /** The last kept line ends in a stray CR, with a bare LF coming behind it. */
  predicate StrayCr(text: string, bcc: seq<string>) {
    var kept := Kept(text);
    && kept != [] && EndsInCr(kept[|kept| - 1])
    && if bcc != [] then !HasCrLf(Head(text)) else Rest(text) != [] && Rest(text)[0] == '\n'
  }

  /** What is known of the lines of a message with a blank line. */
  lemma {:induction false} LinesAreHeaderLike(text: string)
    requires Split(text).Some?
    ensures Proper(Lines(Head(text)), Gaps(Head(text))) && HeaderLike(Lines(Head(text)), Rest(text))
    ensures HasCrLf(Head(text)) <==> true in Gaps(Head(text))
    ensures Rest(text) != []
  {
    GlueOfLines(Head(text));
    CrLfIsAGap(Head(text));
    HeadAndRest(text);
    HeadIsHeaderLike(Head(text), Rest(text));
  }

  lemma {:induction false} HeadAndRest(text: string)
    requires Split(text).Some?
    ensures text == Head(text) + Rest(text) && Split(text) == Some(|Head(text)|) && Rest(text) != []
  {
    SplitIsBlank(text);
  }

  lemma {:induction false} KeptAreSolid(lines: seq<string>)
    requires forall i :: 0 <= i < |lines| ==> NoBreak(lines[i])
    requires forall i :: 0 < i < |lines| ==> lines[i] != ""
    ensures var k := Keep(lines, false);
      forall i :: 0 <= i < |k| ==> NoBreak(k[i]) && (i > 0 ==> k[i] != "")
  {
    KeptAreLines(lines, false);
    var k := Keep(lines, false);
    forall i | 0 <= i < |k| ensures NoBreak(k[i]) && (i > 0 ==> k[i] != "") {
      assert k[i] in lines;
      if i > 0 {
        var j :| 0 <= j < |lines[1..]| && lines[1..][j] == k[i];
        assert lines[j + 1] == k[i];
      }
    }
  }

  lemma {:induction false} KeptInsideHaveNoCr(lines: seq<string>, gaps: seq<bool>)
    requires Proper(lines, gaps) && true !in gaps
    ensures var k := Keep(lines, false); forall i :: 0 <= i < |k| - 1 ==> !EndsInCr(k[i])
  {
    KeptAreLines(lines, false);
    var k := Keep(lines, false);
    forall i | 0 <= i < |k| - 1 ensures !EndsInCr(k[i]) {
      var j :| 0 <= j < |lines| - 1 && lines[..|lines| - 1][j] == k[i];
      assert lines[j] == k[i] && gaps[j] in gaps;
    }
  }

  /** The kept lines, with the new one, are lines of a header again. */
  lemma {:induction false} KeptIsHeaderLike(text: string)
    requires Split(text).Some?
    ensures Inner(Kept(text), HasCrLf(Head(text)))
  {
    LinesAreHeaderLike(text);
    KeepsInner(Lines(Head(text)), Gaps(Head(text)), HasCrLf(Head(text)));
  }

  lemma {:induction false} KeepsInner(lines: seq<string>, gaps: seq<bool>, crlf: bool)
    requires Proper(lines, gaps) && (crlf <==> true in gaps)
    requires forall i :: 0 < i < |lines| ==> lines[i] != ""
    ensures Inner(Keep(lines, false), crlf)
  {
    KeptAreSolid(lines);
    if !crlf { KeptInsideHaveNoCr(lines, gaps); }
  }

  /** The lines, joined by these breaks, are a header in front of `rest`. */
  ghost predicate IsHeader(shown: seq<string>, crlf: bool, rest: string)
    requires shown != []
  {
    Proper(shown, Even(crlf, |shown| - 1)) && HeaderLike(shown, rest)
  }

  lemma {:induction false} OutIsHeaderLike(text: string, bcc: seq<string>)
    requires Split(text).Some? && FieldFits(bcc, Rest(text)) && !StrayCr(text, bcc)
    ensures IsHeader(Shown(Out(Lines(Head(text)), bcc)), HasCrLf(Head(text)), Rest(text))
  {
    RestIsBlank(text);
    KeptIsHeaderLike(text);
    var lines, crlf, rest := Lines(Head(text)), HasCrLf(Head(text)), Rest(text);
    NoStrayCrMeans(text, bcc, Kept(text), crlf, rest);
    LinesOutAreHeaderLike(lines, Kept(text), bcc, crlf, rest);
  }

  lemma {:induction false} NoStrayCrMeans(text: string, bcc: seq<string>, kept: seq<string>, crlf: bool, rest: string)
    requires !StrayCr(text, bcc) && kept == Kept(text) && crlf == HasCrLf(Head(text)) && rest == Rest(text)
    requires rest != []
    ensures kept != [] && EndsInCr(kept[|kept| - 1]) ==> if bcc != [] then crlf else rest[0] != '\n'
  {}

  lemma {:induction false} LinesOutAreHeaderLike(lines: seq<string>, kept: seq<string>, bcc: seq<string>, crlf: bool,
                                                 rest: string)
    requires kept == Keep(lines, false) && FieldFits(bcc, rest) && Inner(kept, crlf) && BlankLine(rest)
    requires kept != [] && EndsInCr(kept[|kept| - 1]) ==> if bcc != [] then crlf else rest[0] != '\n'
    ensures IsHeader(Shown(Out(lines, bcc)), crlf, rest)
  {
    if bcc == [] {
      NothingAdded(lines);
      KeptAloneIsHeaderLike(kept, crlf, rest);
    } else {
      KeptAndNewIsHeaderLike(kept, BccLine(bcc), crlf, rest);
    }
  }

  lemma {:induction false} RestIsBlank(text: string)
    requires Split(text).Some?
    ensures BlankLine(Rest(text)) && Rest(text) != []
  {
    SplitIsBlank(text);
  }

  lemma {:induction false} NothingAdded(k: seq<string>)
    ensures Out(k, []) == Keep(k, false)
  {
    assert Keep(k, false) + [] == Keep(k, false);
  }

  /** Lines that may stand in a header section, but for what comes behind the last. */
  ghost predicate Inner(kept: seq<string>, crlf: bool) {
    && (forall i :: 0 <= i < |kept| ==> NoBreak(kept[i]))
    && (forall i :: 0 < i < |kept| ==> kept[i] != "")
    && (!crlf ==> forall i :: 0 <= i < |kept| - 1 ==> !EndsInCr(kept[i]))
  }

  lemma {:induction false} KeptAloneIsHeaderLike(kept: seq<string>, crlf: bool, rest: string)
    requires Inner(kept, crlf) && BlankLine(rest)
    requires kept != [] && EndsInCr(kept[|kept| - 1]) ==> rest[0] != '\n'
    ensures var shown := Shown(kept); Proper(shown, Even(crlf, |shown| - 1)) && HeaderLike(shown, rest)
  {}

  lemma {:induction false} KeptAndNewIsHeaderLike(kept: seq<string>, l: string, crlf: bool, rest: string)
    requires Inner(kept, crlf) && BlankLine(rest) && Apart(l, rest) && l != ""
    requires !crlf && kept != [] ==> !EndsInCr(kept[|kept| - 1])
    ensures var shown := kept + [l]; Proper(shown, Even(crlf, |shown| - 1)) && HeaderLike(shown, rest)
  {
    var shown := kept + [l];
    forall i | 0 <= i < |shown| ensures NoBreak(shown[i]) && (i > 0 ==> shown[i] != "") {}
    forall i | 0 <= i < |shown| - 1 && !crlf ensures !EndsInCr(shown[i]) {
      assert shown[i] == kept[i];
    }
  }

  /** Without a stray CR the rewrite reads back as exactly the lines written, in front of
      the unchanged rest of the message. */
  lemma {:induction false} ReadsBackWithoutStrayCr(text: string, bcc: seq<string>)
    requires Split(text).Some? && FieldFits(bcc, Rest(text)) && !StrayCr(text, bcc)
    ensures var out, shown := Rewrite(text, bcc), Shown(Out(Lines(Head(text)), bcc));
      && Split(out).Some? && Lines(Head(out)) == shown && Rest(out) == Rest(text)
      && Gaps(Head(out)) == Even(HasCrLf(Head(text)), |shown| - 1)
  {
    var lines := Out(Lines(Head(text)), bcc);
    OutIsHeaderLike(text, bcc);
    JoinedIsGlue(lines, HasCrLf(Head(text)));
    ReadOfGlue(Shown(lines), Even(HasCrLf(Head(text)), |Shown(lines)| - 1), Rest(text));
  }

  function Truths(gaps: seq<bool>): nat {
    if gaps == [] then 0 else (if gaps[0] then 1 else 0) + Truths(gaps[1..])
  }

  lemma {:induction false} GlueLength(lines: seq<string>, a: seq<bool>, b: seq<bool>)
    requires |lines| == |a| + 1 == |b| + 1
    ensures |Glue(lines, a)| - Truths(a) == |Glue(lines, b)| - Truths(b)
  {
    if |lines| > 1 { GlueLength(lines[1..], a[1..], b[1..]); }
  }

  lemma {:induction false} NoTruths(gaps: seq<bool>)
    ensures Truths(gaps) == 0 <==> true !in gaps
  {
    if gaps != [] {
      NoTruths(gaps[1..]);
      FirstAndRest(gaps);
    }
  }

  lemma {:induction false} AllTruths(crlf: bool, n: nat)
    ensures Truths(Even(crlf, n)) == if crlf then n else 0
  {
    if n > 0 {
      AllTruths(crlf, n - 1);
      assert Even(crlf, n)[1..] == Even(crlf, n - 1);
    }
  }

  /** With a stray CR it does not: where the new line was put behind the CR, it is read as
      part of a CR LF, and in front of the blank line it is read as part of that. Nor does
      it where the new field does not fit. */
  lemma {:induction false} ReadBackMeansNoStrayCr(text: string, bcc: seq<string>)
    requires Split(text).Some?
    requires var out, shown := Rewrite(text, bcc), Shown(Out(Lines(Head(text)), bcc));
      Lines(Head(out)) == shown && Rest(out) == Rest(text)
    ensures !StrayCr(text, bcc) && FieldFits(bcc, Rest(text))
  {
    HeadAndRest(text);
    assert Split(Rewrite(text, bcc)).Some?;
    if bcc == [] {
      ReadBackApart(text);
    } else {
      ReadBackInside(text, bcc);
      LastLineFits(Rewrite(text, bcc), Kept(text), BccLine(bcc));
    }
  }

  lemma {:induction false} LastLineFits(out: string, kept: seq<string>, l: string)
    requires Split(out).Some? && Lines(Head(out)) == kept + [l]
    ensures Apart(l, Rest(out))
  {
    LinesAreHeaderLike(out);
    assert (kept + [l])[|kept|] == l;
  }

  lemma {:induction false} ReadBackApart(text: string)
    requires Split(text).Some? && Split(Rewrite(text, [])).Some?
    requires Lines(Head(Rewrite(text, []))) == Shown(Out(Lines(Head(text)), []))
    requires Rest(Rewrite(text, [])) == Rest(text)
    ensures !StrayCr(text, [])
  {
    LinesAreHeaderLike(Rewrite(text, []));
    assert Out(Lines(Head(text)), []) == Kept(text);
  }

  lemma {:induction false} NoCrBeforeLf(kept: seq<string>, l: string, gaps: seq<bool>)
    requires kept != [] && Proper(kept + [l], gaps) && forall i :: 0 <= i < |gaps| ==> !gaps[i]
    ensures !EndsInCr(kept[|kept| - 1])
  {
    assert (kept + [l])[|kept| - 1] == kept[|kept| - 1];
    assert !gaps[|kept| - 1];
  }

  lemma {:induction false} ReadBackInside(text: string, bcc: seq<string>)
    requires Split(text).Some? && Split(Rewrite(text, bcc)).Some? && bcc != []
    requires Lines(Head(Rewrite(text, bcc))) == Out(Lines(Head(text)), bcc) && Rest(Rewrite(text, bcc)) == Rest(text)
    ensures !StrayCr(text, bcc)
  {
    var kept := Kept(text);
    if kept != [] && !HasCrLf(Head(text)) {
      NoGapsRead(text, bcc);
      GlueOfLines(Head(Rewrite(text, bcc)));
      NoCrBeforeLf(kept, BccLine(bcc), Gaps(Head(Rewrite(text, bcc))));
    }
  }

  lemma {:induction false} NoGapsRead(text: string, bcc: seq<string>)
    requires Split(text).Some? && !HasCrLf(Head(text)) && Out(Lines(Head(text)), bcc) != []
    requires var out := Rewrite(text, bcc);
      Split(out).Some? && Lines(Head(out)) == Out(Lines(Head(text)), bcc) && Rest(out) == Rest(text)
    ensures forall i :: 0 <= i < |Gaps(Head(Rewrite(text, bcc)))| ==> !Gaps(Head(Rewrite(text, bcc)))[i]
  {
    var out := Rewrite(text, bcc);
    HeadAndRest(out);
    GlueOfLines(Head(out));
    JoinedHasNoGaps(Out(Lines(Head(text)), bcc), Gaps(Head(out)), Rest(text));
  }

  lemma {:induction false} JoinedHasNoGaps(o: seq<string>, gaps: seq<bool>, rest: string)
    requires |o| == |gaps| + 1 && Glue(o, gaps) + rest == Joined(o, false) + rest
    ensures forall i :: 0 <= i < |gaps| ==> !gaps[i]
  {
    assert |Glue(o, gaps)| == |Joined(o, false)|;
    GlueLength(o, gaps, Even(false, |o| - 1));
    AllTruths(false, |o| - 1);
    NoTruths(gaps);
    forall i | 0 <= i < |gaps| ensures !gaps[i] { assert gaps[i] in gaps; }
  }

  /** The rewrite reads back as what it wrote exactly when no stray CR meets a bare LF and
      the new field fits. */
  lemma {:induction false} ReadsBackExactly(text: string, bcc: seq<string>)
    requires Split(text).Some?
    ensures var out, shown := Rewrite(text, bcc), Shown(Out(Lines(Head(text)), bcc));
      Lines(Head(out)) == shown && Rest(out) == Rest(text) <==> !StrayCr(text, bcc) && FieldFits(bcc, Rest(text))
  {
    var out, shown := Rewrite(text, bcc), Shown(Out(Lines(Head(text)), bcc));
    if Lines(Head(out)) == shown && Rest(out) == Rest(text) { ReadBackMeansNoStrayCr(text, bcc); }
    if !StrayCr(text, bcc) && FieldFits(bcc, Rest(text)) { ReadsBackWithoutStrayCr(text, bcc); }
  }

  lemma {:induction false} FlattenOfFields(lines: seq<string>)
    ensures Flatten(Fields(lines)) == lines
    decreases |lines|
  {
    if lines != [] {
      var n := 1 + Folds(lines[1..]);
      FlattenOfFields(lines[n..]);
      FlattenFirst(lines, n);
      assert lines[..n] + lines[n..] == lines;
    }
  }

  lemma {:induction false} FlattenFirst(lines: seq<string>, n: nat)
    requires lines != [] && n == 1 + Folds(lines[1..])
    ensures Flatten(Fields(lines)) == lines[..n] + Flatten(Fields(lines[n..]))
  {
    FieldsStep(lines);
    FlattenCons(lines[..n], Fields(lines[n..]));
  }

  /** Read back, the message has every other header field with its folds, in order, then
      the one new Bcc field, and the same body. */
  predicate SameMessage(text: string, bcc: seq<string>, out: string) {
    && Rest(out) == Rest(text)
    && var fields := Others(Fields(Lines(Head(text)))) + NewField(bcc);
    if fields == [] then Head(out) == "" else Fields(Lines(Head(out))) == fields
  }

  /** Both readings of a head are the same: by lines and by fields. */
  lemma {:induction false} SameFieldsSameLines(lines: seq<string>, bcc: seq<string>, head: string)
    ensures var fields := Others(Fields(lines)) + NewField(bcc);
      (if fields == [] then head == "" else Fields(Lines(head)) == fields) <==> Lines(head) == Shown(Out(lines, bcc))
  {
    var fields, out := Others(Fields(lines)) + NewField(bcc), Out(lines, bcc);
    OutFields(lines, bcc);
    OutIsFlat(lines, bcc);
    if fields == [] {
      GlueOfLines(head);
      OnlyLineOf("");
    } else {
      FlattenOfFields(Lines(head));
    }
  }

  /** The message keeps its other fields and its body exactly when it reads back. */
  lemma {:induction false} OtherFieldsAndBodyStay(text: string, bcc: seq<string>)
    requires Split(text).Some?
    ensures SameMessage(text, bcc, Rewrite(text, bcc)) <==> !StrayCr(text, bcc) && FieldFits(bcc, Rest(text))
    ensures forall f :: f in Others(Fields(Lines(Head(text)))) ==> f != [] && !IsBcc(f[0])
  {
    ReadsBackExactly(text, bcc);
    SameFieldsSameLines(Lines(Head(text)), bcc, Head(Rewrite(text, bcc)));
    OutFields(Lines(Head(text)), bcc);
  }

  // ---- What the new field names -------------------------------------------

  /** A text cut at its ", ". */
  function Parts(t: string): (parts: seq<string>)
    ensures parts != []
  {
    if t == "" then [""]
    else if |t| >= 2 && t[0] == ',' && t[1] == ' ' then [""] + Parts(t[2..])
    else
      var parts := Parts(t[1..]);
      [[t[0]] + parts[0]] + parts[1..]
  }

  predicate HasComma(t: string) {
    exists i :: 0 <= i < |t| - 1 && t[i] == ',' && t[i + 1] == ' '
  }

  lemma {:induction false} CommaInFirst(c: char, t: string)
    ensures HasComma([c] + t) <==> (c == ',' && t != [] && t[0] == ' ') || HasComma(t)
  {
    var all := [c] + t;
    if HasComma(t) {
      var i :| 0 <= i < |t| - 1 && t[i] == ',' && t[i + 1] == ' ';
      assert all[i + 1] == ',' && all[i + 2] == ' ';
    }
    if c == ',' && t != [] && t[0] == ' ' { assert all[0] == ',' && all[1] == ' '; }
    if HasComma(all) {
      var i :| 0 <= i < |all| - 1 && all[i] == ',' && all[i + 1] == ' ';
      if i > 0 { assert t[i - 1] == ',' && t[i] == ' '; }
    }
  }

  lemma {:induction false} PartsOfFirst(a: string, more: string)
    requires !HasComma(a)
    ensures Parts(a + ", " + more) == [a] + Parts(more)
    ensures Parts(a) == [a]
  {
    var t := a + ", " + more;
    if a == [] {
      assert t == ", " + more && t[2..] == more;
    } else {
      assert a == [a[0]] + a[1..];
      CommaInFirst(a[0], a[1..]);
      PartsOfFirst(a[1..], more);
      assert t[1..] == a[1..] + ", " + more;
      assert t[0] == a[0] && t[1] == (if |a| > 1 then a[1] else ',');
    }
  }

  lemma {:induction false} PartsOfJoin(parts: seq<string>)
    requires parts != [] && forall i :: 0 <= i < |parts| ==> !HasComma(parts[i])
    ensures Parts(JoinWith(parts, ", ")) == parts
  {
    PartsOfFirst(parts[0], JoinWith(parts[1..], ", "));
    if |parts| > 1 { PartsOfJoin(parts[1..]); }
    assert parts == [parts[0]] + parts[1..];
  }

  /** Cutting leaves no ", " in a part, and adds no character. */
  lemma {:induction false} PartsAreCut(t: string)
    ensures forall k :: 0 <= k < |Parts(t)| ==> !HasComma(Parts(t)[k]) && (Latin1(t) ==> Latin1(Parts(t)[k]))
    ensures Parts(t)[0] != [] ==> t != [] && Parts(t)[0][0] == t[0]
  {
    if t != [] {
      if |t| >= 2 && t[0] == ',' && t[1] == ' ' {
        PartsAreCut(t[2..]);
      } else {
        PartsAreCut(t[1..]);
        CommaInFirst(t[0], Parts(t[1..])[0]);
      }
    }
  }

  lemma {:induction false} FoldedIsLatin1(t: string)
    ensures Latin1(Folded(t))
  {
    if t != [] { FoldedIsLatin1(t[1..]); }
  }

  lemma {:induction false} FoldedJoinOfLatin1(bcc: seq<string>)
    requires forall i :: 0 <= i < |bcc| ==> Latin1(bcc[i])
    ensures Folded(JoinWith(bcc, ", ")) == JoinWith(bcc, ", ")
  {
    if bcc != [] {
      FoldedJoinOfLatin1(bcc[1..]);
      FoldedIsSameExactly(bcc[0]);
      if |bcc| > 1 { CommaBetween(bcc[0], JoinWith(bcc[1..], ", ")); }
    }
  }

  /** Cut at its commas the new field gives back the addresses exactly when there are any,
      they are Latin-1, and none holds a comma and a blank itself. */
  lemma {:induction false} FieldNamesTheAddressesExactly(bcc: seq<string>)
    ensures Parts(BccLine(bcc)[5..]) == bcc <==>
      bcc != [] && forall i :: 0 <= i < |bcc| ==> Latin1(bcc[i]) && !HasComma(bcc[i])
  {
    var field := Folded(JoinWith(bcc, ", "));
    assert BccLine(bcc)[5..] == field;
    FoldedIsLatin1(JoinWith(bcc, ", "));
    PartsAreCut(field);
    if bcc != [] && forall i :: 0 <= i < |bcc| ==> Latin1(bcc[i]) && !HasComma(bcc[i]) {
      FoldedJoinOfLatin1(bcc);
      PartsOfJoin(bcc);
    }
  }
}
