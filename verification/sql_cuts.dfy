/** Where the splitter cuts a script, seen from a reading of the script as a whole. */
module SqlCuts {
  import opened SqlTokens
  import opened SqlStatements

  // ------------------------------------------------------------ reading on after whole lines

  /** No quote is closed by a line end. */
  predicate Sane(mode: Mode) { mode.Quoted? ==> mode.close != '\n' }

  lemma {:induction false} WordEndShifts(b: string, t: string, j: nat)
    requires j <= |t|
    ensures WordEnd(b + t, |b| + j) == |b| + WordEnd(t, j)
    decreases |t| - j
  {
    if j < |t| && WordChar(t[j]) { WordEndShifts(b, t, j + 1); }
  }

  lemma StepShifts(b: string, t: string, j: nat, mode: Mode)
    requires j < |t|
    ensures var s := ReadStep(t, j, mode); ReadStep(b + t, |b| + j, mode) == Step(s.token, |b| + s.next, s.mode)
  {
    hide WordEnd, Upper;
    assert (b + t)[|b| + j] == t[j];
    if mode == Normal && Letter(t[j]) && Opens(t[j]) == Normal {
      WordEndShifts(b, t, j + 1);
      assert (b + t)[|b| + j..|b| + WordEnd(t, j + 1)] == t[j..WordEnd(t, j + 1)];
    }
  }

  lemma {:induction false} TokensShift(b: string, t: string, j: nat, mode: Mode)
    requires j <= |t|
    ensures Tokens(b + t, |b| + j, mode) == Tokens(t, j, mode)
    ensures ModeAfter(b + t, |b| + j, mode) == ModeAfter(t, j, mode)
    decreases |t| - j
  {
    hide ReadStep;
    if j < |t| {
      StepShifts(b, t, j, mode);
      var s := ReadStep(t, j, mode);
      TokensShift(b, t, s.next, s.mode);
    }
  }

  /** At a line end nothing is looked at beyond it. */
  lemma StepInLine(b: string, t: string, i: nat, mode: Mode)
    requires EndsLine(b) && i < |b| && Sane(mode)
    ensures ReadStep(b + t, i, mode) == ReadStep(b, i, mode) && Sane(ReadStep(b, i, mode).mode)
  {
    hide Upper;
    if ReadStep(b, i, mode).next < |b| {
      StepGrows(b, t, i, mode);
    } else {
      assert i == |b| - 1;
    }
  }

  /** After whole lines, reading goes on as it would from the start, in the mode reached. */
  lemma {:induction false} TokensCompose(b: string, t: string, i: nat, mode: Mode)
    requires EndsLine(b) && i <= |b| && Sane(mode)
    ensures Tokens(b + t, i, mode) == Tokens(b, i, mode) + Tokens(t, 0, ModeAfter(b, i, mode))
    ensures ModeAfter(b + t, i, mode) == ModeAfter(t, 0, ModeAfter(b, i, mode))
    decreases |b| - i
  {
    hide ReadStep;
    if i == |b| {
      TokensShift(b, t, 0, mode);
    } else {
      StepInLine(b, t, i, mode);
      var s := ReadStep(b, i, mode);
      TokensCompose(b, t, s.next, s.mode);
      assert s.token + (Tokens(b, s.next, s.mode) + Tokens(t, 0, ModeAfter(b, i, mode)))
          == s.token + Tokens(b, s.next, s.mode) + Tokens(t, 0, ModeAfter(b, i, mode));
    }
  }

  // ------------------------------------------------------------ the script's own statements

  /** The tokens read since the last statement ended: the reading of a whole script
      starts afresh at every semicolon that ends a statement. */
  ghost function Open(ts: seq<Token>): seq<Token> {
    if ts == [] then []
    else
      var o := Open(ts[..|ts| - 1]) + [ts[|ts| - 1]];
      if EndsAt(o, |o| - 1) then [] else o
  }

  /** Token k ends a statement of the script. */
  ghost predicate Ends(ts: seq<Token>, k: nat)
    requires k < |ts|
  {
    var o := Open(ts[..k]) + [ts[k]];
    EndsAt(o, |o| - 1)
  }

  /** The statement that begins with `o` and goes on in `rest`, up to its end. */
  ghost function Statement(o: seq<Token>, rest: seq<Token>): seq<Token>
    decreases |rest|
  {
    if rest == [] then o
    else
      var more := o + [rest[0]];
      if EndsAt(more, |o|) then more else Statement(more, rest[1..])
  }

  /** How many tokens of `rest` come before the one that ends the statement begun with `o`. */
  ghost function FirstEnd(o: seq<Token>, rest: seq<Token>): (n: nat)
    ensures n <= |rest|
    decreases |rest|
  {
    if rest == [] || EndsAt(o + [rest[0]], |o|) then 0 else 1 + FirstEnd(o + [rest[0]], rest[1..])
  }

  lemma {:induction false} FirstEndIsFirst(o: seq<Token>, rest: seq<Token>, i: nat)
    requires i < |rest| && i <= FirstEnd(o, rest)
    ensures EndsAt(o + rest, |o| + i) <==> i == FirstEnd(o, rest)
    decreases |rest|
  {
    hide EndsAt;
    var more := o + [rest[0]];
    assert more + rest[1..] == o + rest;
    if i == 0 {
      assert (o + rest)[..|o| + 1] == more == more[..|o| + 1];
      EndsAtIsLocal(o + rest, more, |o|);
    } else {
      FirstEndIsFirst(more, rest[1..], i - 1);
    }
  }

  /** A text is complete exactly when its tokens, read from the start of a statement,
      reach an end. */
  lemma CompleteHasFirstEnd(r: seq<Token>, rest: seq<Token>)
    ensures FirstEnd([], r + rest) < |r| <==> Terminated(r)
  {
    hide EndsAt;
    var f := FirstEnd([], r + rest);
    assert [] + (r + rest) == r + rest;
    if f < |r| {
      FirstEndIsFirst([], r + rest, f);
      assert (r + rest)[..f + 1] == r[..f + 1];
      EndsAtIsLocal(r + rest, r, f);
    }
    if k :| 0 <= k < |r| && EndsAt(r, k) && f >= |r| {
      assert (r + rest)[..k + 1] == r[..k + 1];
      EndsAtIsLocal(r + rest, r, k);
      FirstEndIsFirst([], r + rest, k);
    }
  }

  /** The script's reading goes on from its open statement to that statement's end. */
  lemma {:induction false} OpenGoesOn(ts: seq<Token>, rest: seq<Token>, i: nat)
    requires i < |rest| && i <= FirstEnd(Open(ts), rest)
    ensures Ends(ts + rest, |ts| + i) <==> i == FirstEnd(Open(ts), rest)
    decreases |rest|
  {
    hide EndsAt;
    var more := ts + [rest[0]];
    assert more[..|ts|] == ts;
    if i == 0 {
      assert (ts + rest)[..|ts|] == ts;
    } else {
      assert Open(more) == Open(ts) + [rest[0]];
      hide Open, Ends;
      OpenGoesOn(more, rest[1..], i - 1);
      assert more + rest[1..] == ts + rest;
    }
  }

  // ------------------------------------------------------------ statements that are no triggers

  lemma {:induction false} WordsAfter(a: seq<Token>, b: seq<Token>)
    ensures LastWord(b) != "" ==> LastWord(a + b) == LastWord(b)
    ensures BeforeLastWord(b) != "" ==> BeforeLastWord(a + b) == BeforeLastWord(b)
  {
    if b != [] {
      var n := |b| - 1;
      WordsAfter(a, b[..n]);
      assert (a + b)[..|a + b| - 1] == a + b[..n];
    }
  }

  /** What names a trigger still does when more stands before it. */
  lemma TriggerAfter(a: seq<Token>, b: seq<Token>, j: nat)
    requires j < |b| && NamesTrigger(b, j)
    ensures NamesTrigger(a + b, |a| + j)
  {
    hide LastWord, BeforeLastWord;
    WordsAfter(a, b[..j]);
    assert (a + b)[..|a| + j] == a + b[..j];
  }

  lemma {:induction false} StatementBegins(o: seq<Token>, rest: seq<Token>)
    ensures o <= Statement(o, rest)
    ensures rest != [] ==> o + [rest[0]] <= Statement(o, rest)
    decreases |rest|
  {
    hide EndsAt;
    if rest != [] { StatementBegins(o + [rest[0]], rest[1..]); }
  }

  lemma TriggerStays(ts: seq<Token>, more: seq<Token>)
    requires ts <= more && InTrigger(ts, |ts|)
    ensures InTrigger(more, |more|)
  {
    hide LastWord, BeforeLastWord;
    var j :| 0 <= j < |ts| && NamesTrigger(ts, j);
    assert more[..j] == ts[..j] && more[j] == ts[j];
    assert NamesTrigger(more, j);
  }

  /** Outside triggers any semicolon ends, so what a statement began with does not
      matter for where it ends. */
  lemma {:induction false} BeginningForgotten(a: seq<Token>, b: seq<Token>, rest: seq<Token>)
    requires var st := Statement(a + b, rest); !InTrigger(st, |st|)
    ensures FirstEnd(a + b, rest) == FirstEnd(b, rest)
    decreases |rest|
  {
    hide EndsAt, InTrigger, Statement;
    if rest != [] {
      var whole, alone := a + b + [rest[0]], b + [rest[0]];
      assert whole == a + alone;
      StatementIs(a + b, rest);
      StatementBegins(a + b, rest);
      EndsAlike(a, alone, Statement(a + b, rest));
      if !EndsAt(whole, |a + b|) { BeginningForgotten(a, alone, rest[1..]); }
    }
  }

  lemma StatementIs(o: seq<Token>, rest: seq<Token>)
    requires rest != []
    ensures !EndsAt(o + [rest[0]], |o|) ==> Statement(o, rest) == Statement(o + [rest[0]], rest[1..])
  {
    hide EndsAt;
  }

  lemma EndsAlike(a: seq<Token>, b: seq<Token>, st: seq<Token>)
    requires b != [] && a + b <= st && !InTrigger(st, |st|)
    ensures EndsAt(a + b, |a + b| - 1) <==> EndsAt(b, |b| - 1)
  {
    hide InTrigger;
    TriggerShifts(a, b, |b| - 1);
    TriggerGrows(a + b, |a + b| - 1, st);
  }

  lemma TriggerShifts(a: seq<Token>, b: seq<Token>, n: nat)
    requires n <= |b|
    ensures InTrigger(b, n) ==> InTrigger(a + b, |a| + n)
  {
    hide NamesTrigger;
    if j :| 0 <= j < n && NamesTrigger(b, j) { TriggerAfter(a, b, j); }
  }

  lemma TriggerGrows(ts: seq<Token>, k: nat, st: seq<Token>)
    requires k <= |ts| && ts <= st
    ensures InTrigger(ts, k) ==> InTrigger(st, |st|)
  {
    hide NamesTrigger;
    if j :| 0 <= j < k && NamesTrigger(ts, j) { TriggerStays(ts, st); }
  }

  // ------------------------------------------------------------ places of a script

  ghost predicate AtTop(b: string) { ModeAfter(b, 0, Normal) == Normal }

  ghost function Read(b: string): seq<Token> { Tokens(b, 0, Normal) }

  /** At place p the script is inside a statement that is, or will be, a CREATE TRIGGER:
      one has begun, has not ended, and is one by its end. */
  ghost predicate InsideTrigger(sql: string, p: nat)
    requires p <= |sql|
  {
    var o := Open(Read(sql[..p]));
    var st := Statement(o, Tokens(sql[p..], 0, ModeAfter(sql[..p], 0, Normal)));
    o != [] && InTrigger(st, |st|)
  }

  /** Place p is in no comment, string, quoted name or trigger. */
  ghost predicate Outside(sql: string, p: nat) {
    p <= |sql| && AtTop(sql[..p]) && !InsideTrigger(sql, p)
  }

  /** Place p is between two statements. */
  ghost predicate Between(sql: string, p: nat) {
    p <= |sql| && AtTop(sql[..p]) && Open(Read(sql[..p])) == []
  }

  /** The place before the first line, or after a line's end. */
  ghost predicate Boundary(sql: string, p: nat) {
    p <= |sql| && (p == 0 || sql[p - 1] == '\n')
  }

  /** The script's tokens come from the two sides of a boundary. */
  lemma ReadAcross(sql: string, p: nat)
    requires Boundary(sql, p)
    ensures Read(sql) == Read(sql[..p]) + Tokens(sql[p..], 0, ModeAfter(sql[..p], 0, Normal))
  {
    hide Tokens, ModeAfter;
    assert sql == sql[..p] + sql[p..];
    if p == 0 {
      NothingToRead();
      assert sql[0..] == sql;
    } else {
      TokensCompose(sql[..p], sql[p..], 0, Normal);
    }
  }

  lemma NothingToRead()
    ensures Read("") == [] && AtTop("")
  {
  }

  /** From a boundary at top level, a stretch of text is read as it would be alone. */
  lemma ReadStretch(sql: string, p: nat, q: nat)
    requires Boundary(sql, p) && p <= q <= |sql| && AtTop(sql[..p])
    ensures Read(sql[..q]) == Read(sql[..p]) + Read(sql[p..q])
  {
    hide Tokens, ModeAfter;
    assert sql[..q][..p] == sql[..p] && sql[..q][p..] == sql[p..q];
    ReadAcross(sql[..q], p);
  }

  lemma ReadGrows(sql: string, p: nat, q: nat)
    requires Boundary(sql, p) && p <= q <= |sql|
    ensures |Read(sql[..p])| <= |Read(sql[..q])|
  {
    hide Tokens, ModeAfter;
    assert sql[..q][..p] == sql[..p];
    ReadAcross(sql[..q], p);
  }

  /** Some statement of the script ends among the tokens between two places. */
  ghost predicate EndsWithin(sql: string, p: nat, q: nat)
    requires p <= |sql| && q <= |sql|
  {
    exists k :: |Read(sql[..p])| <= k < |Read(sql[..q])| && k < |Read(sql)| && Ends(Read(sql), k)
  }

  lemma EndsWithinParts(sql: string, p: nat, a: nat, e: nat)
    requires Boundary(sql, p) && Boundary(sql, a) && p <= a <= e <= |sql|
    ensures EndsWithin(sql, p, e) <==> EndsWithin(sql, p, a) || EndsWithin(sql, a, e)
  {
    hide Ends;
    ReadGrows(sql, p, a);
    ReadGrows(sql, a, e);
  }

  /** From an outside boundary, the script's open statement ends where a statement begun
      there would. */
  lemma OutsideAgrees(sql: string, p: nat)
    requires Boundary(sql, p) && Outside(sql, p)
    ensures Read(sql) == Read(sql[..p]) + Read(sql[p..])
    ensures FirstEnd(Open(Read(sql[..p])), Read(sql[p..])) == FirstEnd([], Read(sql[p..]))
  {
    hide Tokens, ModeAfter, EndsAt, InTrigger;
    ReadAcross(sql, p);
    var o := Open(Read(sql[..p]));
    if o != [] {
      assert o + [] == o;
      BeginningForgotten(o, [], Read(sql[p..]));
    }
  }

  /** While a stretch of whole lines from there is not complete, nothing ends in it;
      once it is, something does. */
  lemma StretchEnds(sql: string, p: nat, q: nat)
    requires Boundary(sql, p) && Boundary(sql, q) && p <= q && Outside(sql, p)
    ensures EndsWithin(sql, p, q) <==> Complete(sql[p..q])
    ensures !Complete(sql[p..q]) ==> |Read(sql[p..q])| <= FirstEnd([], Read(sql[p..]))
    ensures Complete(sql[p..q]) ==> FirstEnd([], Read(sql[p..])) < |Read(sql[p..q])|
  {
    hide Tokens, ModeAfter, EndsAt, Ends, Terminated;
    var ts, rest, r := Read(sql[..p]), Read(sql[p..]), Read(sql[p..q]);
    OutsideAgrees(sql, p);
    ReadStretch(sql, p, q);
    ReadAcross(sql[p..], q - p);
    assert sql[p..][..q - p] == sql[p..q];
    var more := Tokens(sql[p..][q - p..], 0, ModeAfter(sql[p..q], 0, Normal));
    CompleteHasFirstEnd(r, more);
    var f := FirstEnd([], rest);
    if f < |r| { OpenGoesOn(ts, rest, f); }
    if k :| |ts| <= k < |ts| + |r| && Ends(Read(sql), k) && f >= |r| { OpenGoesOn(ts, rest, k - |ts|); }
  }

  // ------------------------------------------------------------ the cuts

  /** A line, from a to its end p. */
  ghost predicate IsLine(sql: string, a: nat, p: nat) {
    a < p && Boundary(sql, a) && Boundary(sql, p) && forall i | a <= i < p - 1 :: sql[i] != '\n'
  }

  /** Wherever a statement of the script ends on a line, the line's end is a good place. */
  ghost predicate LinesAre(sql: string, good: nat -> bool) {
    forall a, p | IsLine(sql, a, p) && EndsWithin(sql, a, p) :: good(p)
  }

  /** Where the first n segments end. */
  ghost function Cut(segments: seq<string>, n: nat): nat
    requires n <= |segments|
  {
    |Concat(segments[..n])|
  }

  /** Every cut at a line end is at a good place. */
  ghost predicate CutsAre(segments: seq<string>, good: nat -> bool) {
    forall n | 1 <= n <= |segments| && EndsLine(segments[n - 1]) :: good(Cut(segments, n))
  }

  lemma {:induction false} ConcatParts(segments: seq<string>, n: nat)
    requires n <= |segments|
    ensures Concat(segments) == Concat(segments[..n]) + Concat(segments[n..])
  {
    if n == |segments| {
      assert segments[..n] == segments && segments[n..] == [];
      assert Concat(segments) == Concat(segments) + "";
    } else {
      var m := |segments| - 1;
      ConcatParts(segments[..m], n);
      assert segments[..m][..n] == segments[..n] && segments[..m][n..] == segments[n..][..m - n];
      assert (Concat(segments[..n]) + Concat(segments[..m][n..])) + segments[m]
          == Concat(segments[..n]) + (Concat(segments[..m][n..]) + segments[m]);
    }
  }

  lemma CutPlace(sql: string, segments: seq<string>, tail: string, n: nat)
    requires IsSplit(sql, segments, tail) && n <= |segments|
    ensures Cut(segments, n) <= |sql|
    ensures Boundary(sql, Cut(segments, n)) || Cut(segments, n) == |sql|
    ensures n == 0 ==> Cut(segments, n) == 0
    ensures n == |segments| ==> sql[Cut(segments, n)..] == tail
    ensures n < |segments| ==>
              && Boundary(sql, Cut(segments, n))
              && Cut(segments, n) < Cut(segments, n + 1) <= |sql|
              && sql[Cut(segments, n)..Cut(segments, n + 1)] == segments[n]
  {
    hide IsSegment, NoLineCompletes;
    ConcatParts(segments, n);
    var before := Concat(segments[..n]);
    assert sql == before + (Concat(segments[n..]) + tail);
    if n > 0 {
      assert segments[..n][..n - 1] == segments[..n - 1];
      assert before == Concat(segments[..n - 1]) + segments[n - 1];
      if EndsLine(segments[n - 1]) { assert sql[|before| - 1] == '\n'; }
    }
    if n < |segments| {
      ConcatFront(segments[n..]);
      assert segments[..n + 1][..n] == segments[..n];
      assert Concat(segments[..n + 1]) == before + segments[n];
      assert sql == before + segments[n] + (Concat(segments[n..][1..]) + tail);
      SegmentHasText(segments[n]);
    }
  }

  lemma SegmentHasText(s: string)
    requires IsSegment(s)
    ensures s != "" && Complete(s)
  {
    NothingIsIncomplete();
  }

  /** Where the last line of a text starts. */
  lemma {:induction false} LastLine(sql: string, p: nat, q: nat) returns (a: nat)
    requires Boundary(sql, p) && p < q <= |sql|
    ensures p <= a < q && Boundary(sql, a) && forall i | a <= i < q - 1 :: sql[i] != '\n'
    decreases q
  {
    if q - 1 == p || sql[q - 2] == '\n' {
      a := q - 1;
    } else {
      a := LastLine(sql, p, q - 1);
    }
  }

  /** The segment from an outside boundary p to q: a statement of the script ends on its
      last line, and none on a line before. */
  lemma SegmentLines(sql: string, p: nat, q: nat, a: nat, e: nat)
    requires Boundary(sql, p) && p < q <= |sql| && Outside(sql, p) && IsSegment(sql[p..q])
    requires p <= a && IsLine(sql, a, e) && e <= q
    ensures EndsWithin(sql, a, e) <==> e == q
  {
    hide EndsWithin, Outside, Complete;
    EndsWithinParts(sql, p, a, e);
    assert sql[p..q][..e - p] == sql[p..e] && sql[p..q][..a - p] == sql[p..a];
    StretchEnds(sql, p, e);
    StretchEnds(sql, p, a);
    if a == p {
      assert sql[p..a] == "";
      NothingIsIncomplete();
    }
  }

  /** Cuts at good places follow from lines, cut by cut. */
  lemma {:induction false} LinesGiveCuts(sql: string, segments: seq<string>, tail: string, good: nat -> bool, n: nat)
    requires IsSplit(sql, segments, tail) && LinesAre(sql, good) && n <= |segments|
    requires forall p: nat | good(p) :: Outside(sql, p)
    ensures n > 0 && EndsLine(segments[n - 1]) ==> good(Cut(segments, n))
    ensures n < |segments| ==> Outside(sql, Cut(segments, n))
  {
    hide Outside, IsSplit, LinesAre, Cut;
    CutPlace(sql, segments, tail, n);
    if n == 0 {
      StartIsOutside(sql);
    } else {
      LinesGiveCuts(sql, segments, tail, good, n - 1);
      if EndsLine(segments[n - 1]) { LastOfSegment(sql, segments, tail, good, n - 1); }
      OnlyLastIsOpen(sql, segments, tail, n - 1);
    }
  }

  lemma OnlyLastIsOpen(sql: string, segments: seq<string>, tail: string, n: nat)
    requires IsSplit(sql, segments, tail) && n < |segments|
    ensures EndsLine(segments[n]) || n == |segments| - 1
  {
    hide IsSegment, NoLineCompletes, EndsLine;
  }

  lemma LastOfSegment(sql: string, segments: seq<string>, tail: string, good: nat -> bool, n: nat)
    requires IsSplit(sql, segments, tail) && LinesAre(sql, good) && n < |segments|
    requires Outside(sql, Cut(segments, n)) && EndsLine(segments[n])
    ensures good(Cut(segments, n + 1))
  {
    hide Outside, IsSplit, NoLineCompletes, EndsWithin, Cut, IsSegment;
    CutPlace(sql, segments, tail, n);
    SplitHasSegment(sql, segments, tail, n);
    var p, q := Cut(segments, n), Cut(segments, n + 1);
    assert sql[q - 1] == sql[p..q][q - p - 1];
    var a := LastLine(sql, p, q);
    SegmentLines(sql, p, q, a, q);
  }

  lemma StartIsOutside(sql: string)
    ensures Outside(sql, 0)
  {
    NothingToRead();
    assert sql[..0] == "";
  }

  /** And lines from cuts: a line on which a statement ends is the last of its segment. */
  lemma {:induction false} CutsGiveLine(sql: string, segments: seq<string>, tail: string, good: nat -> bool, n: nat,
                                        a: nat, e: nat)
    requires IsSplit(sql, segments, tail) && CutsAre(segments, good) && n <= |segments|
    requires forall p: nat | good(p) :: Outside(sql, p)
    requires IsLine(sql, a, e) && EndsWithin(sql, a, e) && Cut(segments, n) <= a
    ensures good(e)
    decreases |segments| - n
  {
    hide Outside, IsSplit, NoLineCompletes, EndsWithin, IsLine, Cut;
    CutPlace(sql, segments, tail, n);
    CutIsOutside(sql, segments, tail, good, n);
    LineIsWithin(sql, a, e);
    if n == |segments| {
      LeftOver(sql, segments, tail);
      TailHasNoEnd(sql, Cut(segments, n), a, e);
    } else if a >= Cut(segments, n + 1) {
      CutsGiveLine(sql, segments, tail, good, n + 1, a, e);
    } else {
      LineInSegment(sql, segments, tail, n, a, e);
    }
  }

  lemma LineIsWithin(sql: string, a: nat, e: nat)
    requires IsLine(sql, a, e)
    ensures a < e <= |sql|
  {
  }

  lemma LeftOver(sql: string, segments: seq<string>, tail: string)
    requires IsSplit(sql, segments, tail)
    ensures NoLineCompletes(tail)
  {
  }

  lemma LineInSegment(sql: string, segments: seq<string>, tail: string, n: nat, a: nat, e: nat)
    requires IsSplit(sql, segments, tail) && n < |segments| && Outside(sql, Cut(segments, n))
    requires IsLine(sql, a, e) && EndsWithin(sql, a, e) && Cut(segments, n) <= a < Cut(segments, n + 1)
    ensures e == Cut(segments, n + 1) && EndsLine(segments[n])
  {
    hide Outside, IsSegment, NoLineCompletes, EndsWithin, Cut;
    CutPlace(sql, segments, tail, n);
    CutPlace(sql, segments, tail, n + 1);
    var p, q := Cut(segments, n), Cut(segments, n + 1);
    var s := segments[n];
    assert sql[q - 1] == sql[p..q][q - p - 1] == s[|s| - 1];
    assert e <= q;
    SegmentLines(sql, p, q, a, e);
  }

  lemma CutIsOutside(sql: string, segments: seq<string>, tail: string, good: nat -> bool, n: nat)
    requires IsSplit(sql, segments, tail) && CutsAre(segments, good) && n <= |segments|
    requires forall p: nat | good(p) :: Outside(sql, p)
    ensures Cut(segments, n) < |sql| ==> Outside(sql, Cut(segments, n))
  {
    hide Outside, IsSegment, NoLineCompletes;
    CutPlace(sql, segments, tail, n);
    if n == 0 { StartIsOutside(sql); }
    if n > 0 && !EndsLine(segments[n - 1]) { assert tail == "" && sql[Cut(segments, n)..] == ""; }
  }

  lemma TailHasNoEnd(sql: string, p: nat, a: nat, e: nat)
    requires Boundary(sql, p) && Outside(sql, p) && NoLineCompletes(sql[p..])
    requires p <= a && IsLine(sql, a, e)
    ensures !EndsWithin(sql, a, e)
  {
    hide EndsWithin, Outside, Complete;
    EndsWithinParts(sql, p, a, e);
    assert sql[p..][..e - p] == sql[p..e];
    StretchEnds(sql, p, e);
  }

  lemma CutsFollowLines(sql: string, segments: seq<string>, tail: string, good: nat -> bool)
    requires IsSplit(sql, segments, tail) && forall p: nat | good(p) :: Outside(sql, p)
    ensures CutsAre(segments, good) <==> LinesAre(sql, good)
  {
    hide Outside, IsSplit, EndsWithin;
    if LinesAre(sql, good) {
      forall n | 1 <= n <= |segments| && EndsLine(segments[n - 1]) ensures good(Cut(segments, n)) {
        LinesGiveCuts(sql, segments, tail, good, n);
      }
    }
    if CutsAre(segments, good) {
      forall a, e | IsLine(sql, a, e) && EndsWithin(sql, a, e) ensures good(e) {
        CutPlace(sql, segments, tail, 0);
        CutsGiveLine(sql, segments, tail, good, 0, a, e);
      }
    }
  }

  /** No cut falls inside a comment, a string, a quoted name or a trigger of the script
      exactly when no line on which a statement ends leaves one open. */
  lemma CutsAreOutside(sql: string, segments: seq<string>, tail: string)
    requires IsSplit(sql, segments, tail)
    ensures (forall n | 1 <= n <= |segments| && EndsLine(segments[n - 1]) :: Outside(sql, Cut(segments, n)))
        <==> (forall a, e | IsLine(sql, a, e) && EndsWithin(sql, a, e) :: Outside(sql, e))
  {
    hide Outside, IsSplit, EndsWithin, IsLine, EndsLine;
    CutsFollowLines(sql, segments, tail, (p: nat) => Outside(sql, p));
  }

  /** Every cut falls between two statements exactly when no line on which a statement
      ends begins another one that it leaves open. */
  lemma CutsAreBetween(sql: string, segments: seq<string>, tail: string)
    requires IsSplit(sql, segments, tail)
    ensures (forall n | 1 <= n <= |segments| && EndsLine(segments[n - 1]) :: Between(sql, Cut(segments, n)))
        <==> (forall a, e | IsLine(sql, a, e) && EndsWithin(sql, a, e) :: Between(sql, e))
  {
    hide Outside, IsSplit, EndsWithin, IsLine, EndsLine, Between;
    forall p: nat | Between(sql, p) ensures Outside(sql, p) { BetweenIsOutside(sql, p); }
    CutsFollowLines(sql, segments, tail, (p: nat) => Between(sql, p));
  }

  lemma BetweenIsOutside(sql: string, p: nat)
    requires Between(sql, p)
    ensures Outside(sql, p)
  {
    hide AtTop, Open;
  }

  // ------------------------------------------------------------ what clean cuts give

  ghost function AllTokens(segments: seq<string>): seq<Token> {
    if segments == [] then [] else AllTokens(segments[..|segments| - 1]) + Tokens(segments[|segments| - 1], 0, Normal)
  }

  /** With cuts outside, the segments read alone are the script read as a whole. */
  lemma {:induction false} TokensAreKept(sql: string, segments: seq<string>, tail: string, n: nat)
    requires IsSplit(sql, segments, tail) && n <= |segments|
    requires CutsAre(segments, (p: nat) => Outside(sql, p))
    ensures Cut(segments, n) <= |sql| && Read(sql[..Cut(segments, n)]) == AllTokens(segments[..n])
    ensures n == |segments| ==> Read(sql) == AllTokens(segments) + Read(tail)
  {
    hide Outside, IsSplit, Tokens, ModeAfter, InsideTrigger;
    CutPlace(sql, segments, tail, n);
    if n == 0 {
      NothingToRead();
      assert sql[..0] == "" && segments[..0] == [];
    } else {
      TokensAreKept(sql, segments, tail, n - 1);
      CutPlace(sql, segments, tail, n - 1);
      CutIsOutside(sql, segments, tail, (p: nat) => Outside(sql, p), n - 1);
      OutsideIsTop(sql, Cut(segments, n - 1));
      ReadStretch(sql, Cut(segments, n - 1), Cut(segments, n));
      assert segments[..n][..n - 1] == segments[..n - 1];
    }
    if n == |segments| {
      assert segments[..n] == segments;
      if Cut(segments, n) == |sql| {
        NothingToRead();
        assert sql[..|sql|] == sql && tail == "";
      } else {
        CutIsOutside(sql, segments, tail, (p: nat) => Outside(sql, p), n);
        OutsideIsTop(sql, Cut(segments, n));
        ReadAcross(sql, Cut(segments, n));
      }
    }
  }

  lemma OutsideIsTop(sql: string, p: nat)
    requires Outside(sql, p)
    ensures p <= |sql| && AtTop(sql[..p])
  {
    hide AtTop, InsideTrigger;
  }

  /** And the semicolon that completes a segment ends a statement of the script: none
      that the script holds in a comment, a string, a quoted name or a trigger does. */
  lemma SegmentEndsStatement(sql: string, segments: seq<string>, tail: string, n: nat)
    requires IsSplit(sql, segments, tail) && n < |segments|
    requires CutsAre(segments, (p: nat) => Outside(sql, p))
    ensures Cut(segments, n) <= |sql|
    ensures var alone := Read(segments[n]);
            var before := |Read(sql[..Cut(segments, n)])|;
            var f := FirstEnd([], alone);
            f < |alone| && before + f < |Read(sql)| && Ends(Read(sql), before + f)
  {
    hide Outside, IsSplit, Cut, Ends, Read, IsSegment, Boundary;
    CutPlace(sql, segments, tail, n);
    CutPlace(sql, segments, tail, n + 1);
    CutIsOutside(sql, segments, tail, (p: nat) => Outside(sql, p), n);
    SplitHasSegment(sql, segments, tail, n);
    StretchEndsStatement(sql, Cut(segments, n), Cut(segments, n + 1));
  }

  lemma StretchEndsStatement(sql: string, p: nat, q: nat)
    requires Boundary(sql, p) && p < q <= |sql| && (q == |sql| || Boundary(sql, q)) && Outside(sql, p)
             && IsSegment(sql[p..q])
    ensures var alone := Read(sql[p..q]);
            var f := FirstEnd([], alone);
            f < |alone| && |Read(sql[..p])| + f < |Read(sql)| && Ends(Read(sql), |Read(sql[..p])| + f)
  {
    hide Outside, Tokens, ModeAfter, EndsAt, Ends, IsSegment, Terminated;
    OutsideAgrees(sql, p);
    SegmentHasText(sql[p..q]);
    var alone, rest := Read(sql[p..q]), Read(sql[p..]);
    if q == |sql| {
      assert sql[p..] == sql[p..q];
      assert alone + [] == alone;
      CompleteHasFirstEnd(alone, []);
    } else {
      ReadAcross(sql[p..], q - p);
      assert sql[p..][..q - p] == sql[p..q];
      SameFirstEnd(alone, Tokens(sql[p..][q - p..], 0, ModeAfter(sql[p..q], 0, Normal)));
    }
    OpenGoesOn(Read(sql[..p]), rest, FirstEnd([], rest));
  }

  lemma SplitHasSegment(sql: string, segments: seq<string>, tail: string, n: nat)
    requires IsSplit(sql, segments, tail) && n < |segments|
    ensures IsSegment(segments[n])
  {
    hide IsSegment;
  }

  lemma SameFirstEnd(r: seq<Token>, more: seq<Token>)
    requires Terminated(r)
    ensures FirstEnd([], r + more) == FirstEnd([], r) < |r|
  {
    hide EndsAt;
    CompleteHasFirstEnd(r, more);
    CompleteHasFirstEnd(r, []);
    assert r + [] == r && [] + r == r && [] + (r + more) == r + more;
    var f, g := FirstEnd([], r + more), FirstEnd([], r);
    var k := if f < g then f else g;
    FirstEndIsFirst([], r + more, k);
    FirstEndIsFirst([], r, k);
    assert (r + more)[..k + 1] == r[..k + 1];
    EndsAtIsLocal(r + more, r, k);
  }

  /** Not every script has such lines. Here a string opens on the line of a statement's
      end, the cut falls inside it, and its semicolon then ends a second segment. */
  lemma CutInsideString()
    ensures var sql, first, second := "a;'\n;'\n", "a;'\n", ";'\n";
            && IsSplit(sql, [first, second], "") && !Outside(sql, |first|)
            && Tokens(sql, 0, Normal) == [Word("A"), Semicolon, Other]
            && AllTokens([first, second]) == [Word("A"), Semicolon, Other, Semicolon, Other]
  {
    var sql, first, second := "a;'\n;'\n", "a;'\n", ";'\n";
    hide Tokens, ModeAfter, IsSegment, IsSplit, AllTokens, InsideTrigger;
    FirstReads();
    SecondReads();
    TokensCompose(first, second, 0, Normal);
    assert first + second == sql;
    assert sql[..|first|] == first;
    CutLinesAreSegments();
    TwoSegments(first, second);
  }

  lemma CutLinesAreSegments()
    ensures IsSegment("a;'\n") && IsSegment(";'\n")
  {
    hide Tokens, IsSegment;
    FirstReads();
    SecondReads();
    WordThenSemicolon(Read("a;'\n"));
    CompleteLine("a;'\n", 1);
    CompleteLine(";'\n", 0);
  }

  lemma FirstReads()
    ensures Tokens("a;'\n", 0, Normal) == [Word("A"), Semicolon, Other]
    ensures ModeAfter("a;'\n", 0, Normal) == Quoted('\'', true)
  {
    var b := "a;'\n";
    assert Upper(b[0..1]) == "A";
    assert WordEnd(b, 1) == 1;
    assert ReadStep(b, 0, Normal) == Step([Word("A")], 1, Normal);
    assert ReadStep(b, 1, Normal) == Step([Semicolon], 2, Normal);
    assert ReadStep(b, 2, Normal) == Step([Other], 3, Quoted('\'', true));
    assert ReadStep(b, 3, Quoted('\'', true)) == Step([], 4, Quoted('\'', true));
    assert Tokens(b, 4, Quoted('\'', true)) == [];
    assert Tokens(b, 3, Quoted('\'', true)) == [];
    assert Tokens(b, 2, Normal) == [Other];
    assert Tokens(b, 1, Normal) == [Semicolon, Other];
    assert ModeAfter(b, 3, Quoted('\'', true)) == Quoted('\'', true);
    assert ModeAfter(b, 1, Normal) == ModeAfter(b, 2, Normal);
  }

  lemma SecondReads()
    ensures Tokens(";'\n", 0, Normal) == [Semicolon, Other]
    ensures Tokens(";'\n", 0, Quoted('\'', true)) == []
  {
    var b, quoted := ";'\n", Quoted('\'', true);
    assert ReadStep(b, 0, Normal) == Step([Semicolon], 1, Normal);
    assert ReadStep(b, 1, Normal) == Step([Other], 2, quoted);
    assert ReadStep(b, 2, quoted) == Step([], 3, quoted);
    assert Tokens(b, 3, quoted) == [] && Tokens(b, 3, Normal) == [];
    assert Tokens(b, 2, quoted) == [];
    assert Tokens(b, 1, Normal) == [Other];
    assert ReadStep(b, 0, quoted) == Step([], 1, quoted);
    assert ReadStep(b, 1, quoted) == Step([], 2, Normal);
    assert ReadStep(b, 2, Normal) == Step([], 3, Normal);
    assert Tokens(b, 2, Normal) == [];
    assert Tokens(b, 1, quoted) == [];
  }

  lemma TwoSegments(first: string, second: string)
    requires IsSegment(first) && IsSegment(second) && EndsLine(first) && EndsLine(second)
    ensures IsSplit(first + second, [first, second], "")
    ensures AllTokens([first, second]) == Tokens(first, 0, Normal) + Tokens(second, 0, Normal)
  {
    hide IsSegment, Tokens, NoLineCompletes;
    var one, two := [first], [first, second];
    assert one[..0] == [] && two[..1] == one;
    assert Concat(one) == Concat([]) + first == first;
    assert Concat(two) == Concat(one) + second;
    assert AllTokens(one) == AllTokens([]) + Tokens(first, 0, Normal) == Tokens(first, 0, Normal);
    assert AllTokens(two) == AllTokens(one) + Tokens(second, 0, Normal);
    assert Concat(two) + "" == first + second;
    NothingLeft();
  }

  // ------------------------------------------------------------ a cut inside a trigger

  lemma ReadSemicolon(rest: string)
    ensures Read(";" + rest) == [Semicolon] + Read(rest)
    ensures AtTop(";" + rest) <==> AtTop(rest)
  {
    var b := ";" + rest;
    assert ReadStep(b, 0, Normal) == Step([Semicolon], 1, Normal);
    TokensShift(";", rest, 0, Normal);
  }

  lemma ReadBlank(c: char, rest: string)
    requires c == ' ' || c == '\n'
    ensures Read([c] + rest) == Read(rest)
    ensures AtTop([c] + rest) <==> AtTop(rest)
  {
    var b := [c] + rest;
    assert ReadStep(b, 0, Normal) == Step([], 1, Normal);
    TokensShift([c], rest, 0, Normal);
  }

  lemma {:induction false} WordRuns(w: string, rest: string, i: nat)
    requires i <= |w| && (forall j | 0 <= j < |w| :: WordChar(w[j])) && (rest == "" || !WordChar(rest[0]))
    ensures WordEnd(w + rest, i) == |w|
    decreases |w| - i
  {
    if i < |w| { WordRuns(w, rest, i + 1); }
  }

  lemma ReadWord(w: string, rest: string)
    requires AWord(w) && (rest == "" || !WordChar(rest[0]))
    ensures Read(w + rest) == [Word(Upper(w))] + Read(rest)
    ensures AtTop(w + rest) <==> AtTop(rest)
  {
    hide WordEnd, Upper;
    var b := w + rest;
    WordRuns(w, rest, 1);
    assert b[0..|w|] == w;
    assert ReadStep(b, 0, Normal) == Step([Word(Upper(w))], |w|, Normal);
    TokensShift(w, rest, 0, Normal);
  }

  /** a;create trigger t x; and a line end. */
  ghost function TriggerLine(): string {
    "a" + (";" + ("create" + (" " + ("trigger" + (" " + ("t" + (" " + ("x" + (";" + ("\n" + ""))))))))))
  }

  /** y;end; and a line end. */
  ghost function BodyLine(): string {
    "y" + (";" + ("end" + (";" + ("\n" + ""))))
  }

  lemma TheLinesAre()
    ensures TriggerLine() == "a;create trigger t x;\n" && BodyLine() == "y;end;\n"
  {
  }

  lemma TriggerLineReads()
    ensures Read(TriggerLine())
         == [Word("A"), Semicolon, Word("CREATE"), Word("TRIGGER"), Word("T"), Word("X"), Semicolon]
    ensures AtTop(TriggerLine())
  {
    hide Read, AtTop, WordChar, Letter, Upper, AWord;
    UpperWords();
    NothingToRead();
    var x := "x" + (";" + ("\n" + ""));
    var t := "t" + (" " + x);
    var trigger := "trigger" + (" " + t);
    var create := "create" + (" " + trigger);
    ReadBlank('\n', "");
    ReadSemicolon("\n" + "");
    ReadWord("x", ";" + ("\n" + ""));
    ReadBlank(' ', x);
    ReadWord("t", " " + x);
    ReadBlank(' ', t);
    ReadWord("trigger", " " + t);
    ReadBlank(' ', trigger);
    ReadWord("create", " " + trigger);
    ReadSemicolon(create);
    ReadWord("a", ";" + create);
  }

  lemma BodyLineReads()
    ensures Read(BodyLine()) == [Word("Y"), Semicolon, Word("END"), Semicolon]
    ensures AtTop(BodyLine())
  {
    hide Read, AtTop, WordChar, Letter, Upper, AWord;
    UpperWords();
    NothingToRead();
    var end := "end" + (";" + ("\n" + ""));
    ReadBlank('\n', "");
    ReadSemicolon("\n" + "");
    ReadWord("end", ";" + ("\n" + ""));
    ReadSemicolon(end);
    ReadWord("y", ";" + end);
  }

  lemma UpperWords()
    ensures Upper("a") == "A" && Upper("create") == "CREATE" && Upper("trigger") == "TRIGGER" && Upper("t") == "T"
    ensures Upper("x") == "X" && Upper("y") == "Y" && Upper("end") == "END"
    ensures AWord("a") && AWord("create") && AWord("trigger") && AWord("t") && AWord("x") && AWord("y") && AWord("end")
    ensures !WordChar(';') && !WordChar(' ')
  {
  }

  ghost predicate AWord(w: string) {
    w != "" && Letter(w[0]) && forall j | 0 <= j < |w| :: WordChar(w[j])
  }

  /** The tokens of a trigger begun on the line of another statement's end. */
  lemma TriggerOpens()
    ensures var first := [Word("A"), Semicolon, Word("CREATE"), Word("TRIGGER"), Word("T"), Word("X"), Semicolon];
            Open(first) == first[2..]
  {
    TriggerOpensAs(Word("A"), Word("CREATE"), Word("TRIGGER"), Word("T"), Word("X"));
    var first := [Word("A"), Semicolon, Word("CREATE"), Word("TRIGGER"), Word("T"), Word("X"), Semicolon];
    assert first[2..] == [Word("CREATE"), Word("TRIGGER"), Word("T"), Word("X"), Semicolon];
  }

  ghost predicate IsOpen(ts: seq<Token>, o: seq<Token>) { Open(ts) == o }

  lemma TriggerOpensAs(a: Token, create: Token, trigger: Token, t: Token, x: Token)
    requires a.Word? && a != Word("TRIGGER") && create == Word("CREATE") && trigger == Word("TRIGGER")
    requires t.Word? && x.Word? && x != Word("END")
    ensures IsOpen([a, Semicolon, create, trigger, t, x, Semicolon], [create, trigger, t, x, Semicolon])
  {
    hide InTrigger, EndsAt, IsOpen;
    var b := Semicolon;
    NothingOpen();
    EndsOrNot([a], 0);
    OpenStep([], [], a, [a], [a]);
    WordThenSemicolon([a, b]);
    OpenStep([a], [a], b, [a, b], [a, b]);
    EndsOrNot([create], 0);
    OpenStep([a, b], [], create, [a, b, create], [create]);
    EndsOrNot([create, trigger], 1);
    OpenStep([a, b, create], [create], trigger, [a, b, create, trigger], [create, trigger]);
    EndsOrNot([create, trigger, t], 2);
    OpenStep([a, b, create, trigger], [create, trigger], t, [a, b, create, trigger, t], [create, trigger, t]);
    EndsOrNot([create, trigger, t, x], 3);
    OpenStep([a, b, create, trigger, t], [create, trigger, t], x, [a, b, create, trigger, t, x],
             [create, trigger, t, x]);
    TriggerIsNamed([create, trigger, t, x, b], 4);
    EndsOrNot([create, trigger, t, x, b], 4);
    OpenStep([a, b, create, trigger, t, x], [create, trigger, t, x], b,
             [a, b, create, trigger, t, x, b], [create, trigger, t, x, b]);
  }

  lemma NothingOpen()
    ensures IsOpen([], [])
  {
  }

  lemma EndsOrNot(ts: seq<Token>, k: nat)
    requires k < |ts|
    ensures ts[k] != Semicolon ==> !EndsAt(ts, k)
    ensures InTrigger(ts, k) && k > 0 && ts[k - 1] != Word("END") ==> !EndsAt(ts, k)
  {
    hide InTrigger;
  }

  lemma WordThenSemicolon(ts: seq<Token>)
    requires |ts| >= 2 && ts[0] != Word("TRIGGER") && ts[1] == Semicolon
    ensures EndsAt(ts, 1)
  {
  }

  lemma OpenStep(ts: seq<Token>, o: seq<Token>, t: Token, ts': seq<Token>, o': seq<Token>)
    requires IsOpen(ts, o) && ts' == ts + [t] && o' == o + [t]
    ensures IsOpen(ts', if EndsAt(o', |o|) then [] else o')
  {
    hide EndsAt;
    assert ts'[..|ts|] == ts;
  }

  lemma TriggerIsNamed(ts: seq<Token>, k: nat)
    requires 2 <= k <= |ts| && ts[0] == Word("CREATE") && ts[1] == Word("TRIGGER")
    ensures InTrigger(ts, k)
  {
    assert ts[..1] == [Word("CREATE")] && LastWord(ts[..1]) == "CREATE";
    assert NamesTrigger(ts, 1);
  }

  /** Here a trigger opens on the line of a statement's end. Both segments end at top
      level, but the cut is inside the trigger, and a semicolon of its body, which ends
      no statement of the script, completes the second segment. */
  lemma CutInsideTrigger()
    ensures var sql, first, second := TriggerLine() + BodyLine(), TriggerLine(), BodyLine();
            && IsSplit(sql, [first, second], "") && AtTop(first) && AtTop(second)
            && InsideTrigger(sql, |first|) && !Outside(sql, |first|)
            && BodyCompletes(Read(sql), |Read(first)|, Read(second))
  {
    hide Read, IsSegment, IsSplit, AllTokens, TriggerLine, BodyLine, InsideTrigger, BodyCompletes, EndsLine, AtTop;
    var first, second := TriggerLine(), BodyLine();
    LinesAreLines();
    LinesAreSegments();
    TriggerLineReads();
    BodyLineReads();
    TwoSegments(first, second);
    CutTrigger(first, second);
  }

  /** The token after the first of the second segment completes it, read alone, but ends
      no statement of the script; the trigger ends with the fourth. */
  ghost predicate BodyCompletes(ts: seq<Token>, before: nat, alone: seq<Token>) {
    && FirstEnd([], alone) == 1
    && |ts| == before + 4 && !Ends(ts, before + 1) && Ends(ts, before + 3)
  }

  lemma LinesAreSegments()
    ensures IsSegment(TriggerLine()) && IsSegment(BodyLine())
  {
    hide Read, IsSegment, TriggerLine, BodyLine, EndsLine, EndsAt, AtTop;
    TriggerLineReads();
    BodyLineReads();
    LinesAreLines();
    WordThenSemicolon(Read(TriggerLine()));
    WordThenSemicolon(Read(BodyLine()));
    CompleteLine(TriggerLine(), 1);
    CompleteLine(BodyLine(), 1);
  }

  /** A line that is complete is a segment. */
  lemma CompleteLine(b: string, k: nat)
    requires k < |Read(b)| && EndsAt(Read(b), k)
    requires EndsLine(b) && forall j | 0 <= j < |b| - 1 :: b[j] != '\n'
    ensures IsSegment(b)
  {
    hide Tokens, EndsAt;
  }

  lemma LinesAreLines()
    ensures EndsLine(TriggerLine()) && forall j | 0 <= j < |TriggerLine()| - 1 :: TriggerLine()[j] != '\n'
    ensures EndsLine(BodyLine()) && forall j | 0 <= j < |BodyLine()| - 1 :: BodyLine()[j] != '\n'
  {
    TheLinesAre();
  }

  lemma CutTrigger(first: string, second: string)
    requires EndsLine(first) && AtTop(first)
    requires Read(first) == [Word("A"), Semicolon, Word("CREATE"), Word("TRIGGER"), Word("T"), Word("X"), Semicolon]
    requires Read(second) == [Word("Y"), Semicolon, Word("END"), Semicolon]
    ensures InsideTrigger(first + second, |first|)
    ensures BodyCompletes(Read(first + second), |Read(first)|, Read(second))
  {
    hide Open, Statement, Ends, EndsAt, ModeAfter, Tokens;
    var sql := first + second;
    assert sql[..|first|] == first && sql[|first|..] == second;
    ReadAcross(sql, |first|);
    TriggerOpens();
    TriggerGoesOn(Read(first)[2..], Read(second));
    BodyEndsAlone();
    OpenGoesOn(Read(first), Read(second), 1);
    OpenGoesOn(Read(first), Read(second), 3);
  }

  lemma TriggerGoesOn(o: seq<Token>, rest: seq<Token>)
    requires o == [Word("CREATE"), Word("TRIGGER"), Word("T"), Word("X"), Semicolon]
    requires rest == [Word("Y"), Semicolon, Word("END"), Semicolon]
    ensures FirstEnd(o, rest) == 3
    ensures var st := Statement(o, rest); InTrigger(st, |st|)
  {
    var a, b, c, d := o + [rest[0]], o + [rest[0], rest[1]], o + [rest[0], rest[1], rest[2]], o + rest;
    TriggerIsNamed(o, 5);
    TriggerIsNamed(a, 5);
    TriggerIsNamed(b, 6);
    TriggerIsNamed(c, 7);
    TriggerIsNamed(d, 8);
    assert !EndsAt(a, 5) && !EndsAt(b, 6) && !EndsAt(c, 7) && EndsAt(d, 8);
    var r1, r2, r3 := rest[1..], rest[2..], rest[3..];
    assert r1[1..] == r2 && r2[1..] == r3;
    assert a + [r1[0]] == b && b + [r2[0]] == c && c + [r3[0]] == d;
    assert FirstEnd(c, r3) == 0 && FirstEnd(b, r2) == 1 && FirstEnd(a, r1) == 2;
    StatementBegins(o, rest);
    TriggerGrows(o, 5, Statement(o, rest));
  }

  lemma BodyEndsAlone()
    ensures FirstEnd([], [Word("Y"), Semicolon, Word("END"), Semicolon]) == 1
  {
    var rest := [Word("Y"), Semicolon, Word("END"), Semicolon];
    assert [] + [rest[0]] == [Word("Y")] && !EndsAt([Word("Y")], 0);
    assert rest[1..][0] == Semicolon && [Word("Y")] + [Semicolon] == [Word("Y"), Semicolon];
    assert EndsAt([Word("Y"), Semicolon], 1);
    assert FirstEnd([Word("Y")], rest[1..]) == 0;
  }
}
