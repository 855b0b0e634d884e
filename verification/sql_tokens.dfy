/** When an SQL text holds a whole statement: a scanner with flags, and the reading of
    the text as tokens that it stands for. */
module SqlTokens {

  datatype Mode = Normal | LineComment | BlockComment | Quoted(close: char, doubled: bool)

  datatype Token = Word(upper: string) | Semicolon | Other

  predicate Letter(c: char) { 'a' <= c <= 'z' || 'A' <= c <= 'Z' || c == '_' }

  predicate WordChar(c: char) { Letter(c) || '0' <= c <= '9' }

  predicate Blank(c: char) { c == ' ' || c == '\t' || c == '\r' || c == '\n' }

  function UpperChar(c: char): char {
    if 'a' <= c <= 'z' then (c as int - 'a' as int + 'A' as int) as char else c
  }

  function Upper(s: string): (r: string)
    ensures |r| == |s|
  {
    seq(|s|, i requires 0 <= i < |s| => UpperChar(s[i]))
  }

  /** The character at i, or one that means nothing past the end. */
  function At(b: string, i: nat): char { if i < |b| then b[i] else ' ' }

  function WordEnd(b: string, i: nat): (e: nat)
    requires i <= |b|
    ensures i <= e <= |b| && (e < |b| ==> !WordChar(b[e]))
    ensures forall j | i <= j < e :: WordChar(b[j])
    decreases |b| - i
  {
    if i < |b| && WordChar(b[i]) then WordEnd(b, i + 1) else i
  }

  /** A quote of some kind, and whether doubling it inside stands for itself. */
  function Opens(c: char): Mode {
    if c == '\'' then Quoted('\'', true)
    else if c == '"' then Quoted('"', true)
    else if c == '[' then Quoted(']', false)
    else if c == '`' then Quoted('`', false)
    else Normal
  }

  /** One step of reading: the token it yields, if any, where it ends, and the mode then. */
  datatype Step = Step(token: seq<Token>, next: nat, mode: Mode)

  function ReadStep(b: string, i: nat, mode: Mode): (r: Step)
    requires i < |b|
    ensures i < r.next <= |b| && |r.token| <= 1
  {
    var c := b[i];
    match mode
    case LineComment => Step([], i + 1, if c == '\n' then Normal else LineComment)
    case BlockComment =>
      if c == '*' && i + 1 < |b| && b[i + 1] == '/' then Step([], i + 2, Normal) else Step([], i + 1, BlockComment)
    case Quoted(close, doubled) =>
      if c != close then Step([], i + 1, mode)
      else if doubled && i + 1 < |b| && b[i + 1] == close then Step([], i + 2, mode)
      else Step([], i + 1, Normal)
    case Normal =>
      if c == '-' && i + 1 < |b| && b[i + 1] == '-' then Step([], i + 2, LineComment)
      else if c == '/' && i + 1 < |b| && b[i + 1] == '*' then Step([], i + 2, BlockComment)
      else if Opens(c) != Normal then Step([Other], i + 1, Opens(c))
      else if Letter(c) then Step([Word(Upper(b[i..WordEnd(b, i + 1)]))], WordEnd(b, i + 1), Normal)
      else if c == ';' then Step([Semicolon], i + 1, Normal)
      else if Blank(c) then Step([], i + 1, Normal)
      else Step([Other], i + 1, Normal)
  }

  /** The tokens from i on, comments and blanks left out, a quoted text as one token. */
  function Tokens(b: string, i: nat, mode: Mode): seq<Token>
    requires i <= |b|
    decreases |b| - i
  {
    if i == |b| then []
    else
      var s := ReadStep(b, i, mode);
      s.token + Tokens(b, s.next, s.mode)
  }

  function ModeAfter(b: string, i: nat, mode: Mode): Mode
    requires i <= |b|
    decreases |b| - i
  {
    if i == |b| then mode
    else
      var s := ReadStep(b, i, mode);
      ModeAfter(b, s.next, s.mode)
  }

  // ------------------------------------------------------------ what terminates a statement

  /** The last word of a token sequence, and the words before it. */
  ghost function LastWord(ts: seq<Token>): string {
    if ts == [] then ""
    else if ts[|ts| - 1].Word? then ts[|ts| - 1].upper else LastWord(ts[..|ts| - 1])
  }

  ghost function BeforeLastWord(ts: seq<Token>): string {
    if ts == [] then ""
    else if ts[|ts| - 1].Word? then LastWord(ts[..|ts| - 1]) else BeforeLastWord(ts[..|ts| - 1])
  }

  /** Token j makes the statement a trigger: CREATE [TEMP | TEMPORARY] TRIGGER. */
  ghost predicate NamesTrigger(ts: seq<Token>, j: nat)
    requires j < |ts|
  {
    && ts[j] == Word("TRIGGER")
    && var last := LastWord(ts[..j]);
       last == "CREATE" || ((last == "TEMP" || last == "TEMPORARY") && BeforeLastWord(ts[..j]) == "CREATE")
  }

  ghost predicate InTrigger(ts: seq<Token>, k: nat)
    requires k <= |ts|
  {
    exists j :: 0 <= j < k && NamesTrigger(ts, j)
  }

  /** Token k is a semicolon that ends the statement; a trigger ends at ; END ; only. */
  ghost predicate EndsAt(ts: seq<Token>, k: nat)
    requires k < |ts|
  {
    && ts[k] == Semicolon
    && (InTrigger(ts, k) ==> k >= 2 && ts[k - 1] == Word("END") && ts[k - 2] == Semicolon)
  }

  ghost predicate Terminated(ts: seq<Token>) {
    exists k :: 0 <= k < |ts| && EndsAt(ts, k)
  }

  /** A text is complete when a semicolon at top level ends a statement in it. */
  ghost predicate Complete(b: string) { Terminated(Tokens(b, 0, Normal)) }

  /** Whether token k ends the statement depends on the tokens up to it only. */
  lemma EndsAtIsLocal(a: seq<Token>, b: seq<Token>, k: nat)
    requires k < |a| && k < |b| && a[..k + 1] == b[..k + 1]
    ensures EndsAt(a, k) <==> EndsAt(b, k)
  {
    assert forall j | 0 <= j <= k :: a[j] == a[..k + 1][j] == b[..k + 1][j] == b[j];
    forall j | 0 <= j < k ensures NamesTrigger(a, j) <==> NamesTrigger(b, j) {
      assert a[..j] == b[..j];
    }
    if InTrigger(a, k) { var j :| 0 <= j < k && NamesTrigger(a, j); assert NamesTrigger(b, j); }
    if InTrigger(b, k) { var j :| 0 <= j < k && NamesTrigger(b, j); assert NamesTrigger(a, j); }
  }

  lemma TerminatedGrows(a: seq<Token>, more: seq<Token>)
    requires Terminated(a)
    ensures Terminated(a + more)
  {
    var k :| 0 <= k < |a| && EndsAt(a, k);
    assert (a + more)[..k + 1] == a[..k + 1];
    EndsAtIsLocal(a, a + more, k);
  }

  // ------------------------------------------------------------ the scanner

  /** What the scanner's flags say about the tokens read so far. */
  ghost predicate FlagsSay(ts: seq<Token>, previousWord: string, beforePreviousWord: string, trigger: bool,
                           afterSemicolon: bool, triggerEnd: bool) {
    var n := |ts|;
    && previousWord == LastWord(ts) && beforePreviousWord == BeforeLastWord(ts)
    && (trigger <==> InTrigger(ts, n))
    && (afterSemicolon <==> n >= 1 && ts[n - 1] == Semicolon)
    && (triggerEnd <==> n >= 2 && ts[n - 1] == Word("END") && ts[n - 2] == Semicolon)
    && !Terminated(ts)
  }

  lemma FirstFlags()
    ensures FlagsSay([], "", "", false, false, false)
  {
  }

  /** One more token, and whether a trigger or a whole statement has come with it. */
  lemma OneMoreToken(ts: seq<Token>, t: Token)
    requires !Terminated(ts)
    ensures var more := ts + [t];
            && (InTrigger(more, |more|) <==> InTrigger(ts, |ts|) || NamesTrigger(more, |ts|))
            && (Terminated(more) <==> EndsAt(more, |ts|))
            && (EndsAt(more, |ts|) <==>
                  (t == Semicolon && (InTrigger(ts, |ts|) ==>
                                      |ts| >= 2 && ts[|ts| - 1] == Word("END") && ts[|ts| - 2] == Semicolon)))
            && (NamesTrigger(more, |ts|) <==>
                  (t == Word("TRIGGER") && (LastWord(ts) == "CREATE"
                   || ((LastWord(ts) == "TEMP" || LastWord(ts) == "TEMPORARY") && BeforeLastWord(ts) == "CREATE"))))
  {
    hide LastWord, BeforeLastWord;
    var more := ts + [t];
    assert more[..|ts|] == ts;
    forall j | 0 <= j < |ts| ensures NamesTrigger(more, j) <==> NamesTrigger(ts, j) {
      assert more[..j] == ts[..j];
    }
    assert InTrigger(more, |ts|) <==> InTrigger(ts, |ts|) by { SameTriggers(ts, more); }
    forall k | 0 <= k < |ts| ensures !EndsAt(more, k) {
      assert more[..k + 1] == ts[..k + 1];
      EndsAtIsLocal(more, ts, k);
    }
    if InTrigger(more, |more|) {
      var j :| 0 <= j < |more| && NamesTrigger(more, j);
      if j < |ts| { assert NamesTrigger(ts, j); }
    }
    if InTrigger(ts, |ts|) {
      var j :| 0 <= j < |ts| && NamesTrigger(ts, j);
      assert NamesTrigger(more, j);
    }
  }

  lemma SameTriggers(ts: seq<Token>, more: seq<Token>)
    requires |ts| <= |more| && forall j | 0 <= j < |ts| :: NamesTrigger(more, j) <==> NamesTrigger(ts, j)
    ensures InTrigger(more, |ts|) <==> InTrigger(ts, |ts|)
  {
    hide NamesTrigger;
    if j :| 0 <= j < |ts| && NamesTrigger(ts, j) { assert NamesTrigger(more, j); }
  }

  lemma FlagsAfterWord(ts: seq<Token>, w: string, p: string, pp: string, trigger: bool, afterSemicolon: bool,
                       triggerEnd: bool)
    requires FlagsSay(ts, p, pp, trigger, afterSemicolon, triggerEnd)
    ensures FlagsSay(ts + [Word(w)], w, p,
                     trigger || (w == "TRIGGER"
                                 && (p == "CREATE" || (pp == "CREATE" && (p == "TEMP" || p == "TEMPORARY")))),
                     false, w == "END" && afterSemicolon)
  {
    OneMoreToken(ts, Word(w));
    assert (ts + [Word(w)])[..|ts|] == ts;
  }

  lemma FlagsAfterOther(ts: seq<Token>, p: string, pp: string, trigger: bool, afterSemicolon: bool, triggerEnd: bool)
    requires FlagsSay(ts, p, pp, trigger, afterSemicolon, triggerEnd)
    ensures FlagsSay(ts + [Other], p, pp, trigger, false, false)
  {
    OneMoreToken(ts, Other);
    assert (ts + [Other])[..|ts|] == ts;
  }

  lemma FlagsAfterSemicolon(ts: seq<Token>, p: string, pp: string, trigger: bool, afterSemicolon: bool,
                            triggerEnd: bool)
    requires FlagsSay(ts, p, pp, trigger, afterSemicolon, triggerEnd)
    ensures !trigger || triggerEnd ==> Terminated(ts + [Semicolon])
    ensures trigger && !triggerEnd ==> FlagsSay(ts + [Semicolon], p, pp, trigger, true, triggerEnd)
  {
    OneMoreToken(ts, Semicolon);
    assert (ts + [Semicolon])[..|ts|] == ts;
  }

  /** Reading one step moves its token from what is left to what is read. */
  lemma StepMoves(ts: seq<Token>, b: string, i: nat, mode: Mode, all: seq<Token>)
    requires i < |b| && ts + Tokens(b, i, mode) == all
    ensures var s := ReadStep(b, i, mode); ts + s.token + Tokens(b, s.next, s.mode) == all
  {
    hide ReadStep;
    var s := ReadStep(b, i, mode);
    assert ts + (s.token + Tokens(b, s.next, s.mode)) == ts + s.token + Tokens(b, s.next, s.mode);
  }

  /** completeStatement: one pass with a mode, two remembered words and three flags. */
  method CompleteStatement(b: string) returns (complete: bool)
    ensures complete <==> Complete(b)
  {
    hide FlagsSay, Tokens, WordEnd, Terminated, ReadStep;
    var mode := Normal;
    var previousWord, beforePreviousWord := "", "";
    var trigger, afterSemicolon, triggerEnd := false, false, false;
    var i := 0;
    ghost var all, ts := Tokens(b, 0, Normal), [];
    FirstFlags();
    while i < |b|
      invariant i <= |b| && ts + Tokens(b, i, mode) == all
      invariant FlagsSay(ts, previousWord, beforePreviousWord, trigger, afterSemicolon, triggerEnd)
      decreases |b| - i
    {
      StepMoves(ts, b, i, mode, all);
      ghost var step := ReadStep(b, i, mode);
      var c := b[i];
      if mode != Normal {
        i, mode := InsideStep(b, i, mode);
      } else if c == '-' && At(b, i + 1) == '-' {
        StepIs(b, i);
        mode := LineComment;
        i := i + 2;
      } else if c == '/' && At(b, i + 1) == '*' {
        StepIs(b, i);
        mode := BlockComment;
        i := i + 2;
      } else if Opens(c) != Normal {
        StepIs(b, i);
        FlagsAfterOther(ts, previousWord, beforePreviousWord, trigger, afterSemicolon, triggerEnd);
        ts := ts + [Other];
        afterSemicolon, triggerEnd := false, false;
        mode := Opens(c);
        i := i + 1;
      } else if Letter(c) {
        StepIs(b, i);
        var start := i;
        i := SkipWord(b, i + 1);
        var word := Upper(b[start..i]);
        FlagsAfterWord(ts, word, previousWord, beforePreviousWord, trigger, afterSemicolon, triggerEnd);
        ts := ts + [Word(word)];
        if word == "TRIGGER"
             && (previousWord == "CREATE"
                 || (beforePreviousWord == "CREATE" && (previousWord == "TEMP" || previousWord == "TEMPORARY"))) {
          trigger := true;
        }
        triggerEnd := word == "END" && afterSemicolon;
        afterSemicolon := false;
        beforePreviousWord, previousWord := previousWord, word;
      } else if c == ';' {
        StepIs(b, i);
        FlagsAfterSemicolon(ts, previousWord, beforePreviousWord, trigger, afterSemicolon, triggerEnd);
        if !trigger || triggerEnd {
          assert ts + [Semicolon] + Tokens(b, i + 1, Normal) == all;
          TerminatedGrows(ts + [Semicolon], Tokens(b, i + 1, Normal));
          return true;
        }
        ts := ts + [Semicolon];
        afterSemicolon := true;
        i := i + 1;
      } else {
        StepIs(b, i);
        if c != ' ' && c != '\t' && c != '\r' && c != '\n' {
          FlagsAfterOther(ts, previousWord, beforePreviousWord, trigger, afterSemicolon, triggerEnd);
          ts := ts + [Other];
          afterSemicolon, triggerEnd := false, false;
        }
        i := i + 1;
      }
    }
    NoTokensLeft(b, mode);
    NotYet(ts, previousWord, beforePreviousWord, trigger, afterSemicolon, triggerEnd);
    assert all == ts;
    complete := false;
  }

  lemma NoTokensLeft(b: string, mode: Mode)
    ensures Tokens(b, |b|, mode) == []
  {
  }

  lemma NotYet(ts: seq<Token>, p: string, pp: string, trigger: bool, afterSemicolon: bool, triggerEnd: bool)
    requires FlagsSay(ts, p, pp, trigger, afterSemicolon, triggerEnd)
    ensures !Terminated(ts)
  {
  }

  /** What a step at top level is. */
  lemma StepIs(b: string, i: nat)
    requires i < |b|
    ensures ReadStep(b, i, Normal) ==
              (var c := b[i];
               if c == '-' && At(b, i + 1) == '-' then Step([], i + 2, LineComment)
               else if c == '/' && At(b, i + 1) == '*' then Step([], i + 2, BlockComment)
               else if Opens(c) != Normal then Step([Other], i + 1, Opens(c))
               else if Letter(c) then Step([Word(Upper(b[i..WordEnd(b, i + 1)]))], WordEnd(b, i + 1), Normal)
               else if c == ';' then Step([Semicolon], i + 1, Normal)
               else if Blank(c) then Step([], i + 1, Normal)
               else Step([Other], i + 1, Normal))
  {
    hide WordEnd;
  }

  /** Inside a comment or a quoted text. */
  method InsideStep(b: string, i: nat, mode: Mode) returns (next: nat, mode': Mode)
    requires i < |b| && mode != Normal
    ensures Step([], next, mode') == ReadStep(b, i, mode)
  {
    var c := b[i];
    next, mode' := i + 1, mode;
    match mode
    case LineComment =>
      if c == '\n' { mode' := Normal; }
    case BlockComment =>
      if c == '*' && At(b, i + 1) == '/' { next, mode' := i + 2, Normal; }
    case Quoted(close, doubled) =>
      if c == close {
        if doubled && i + 1 < |b| && b[i + 1] == close { next := i + 2; } else { mode' := Normal; }
      }
  }

  method SkipWord(b: string, i: nat) returns (e: nat)
    requires i <= |b|
    ensures e == WordEnd(b, i)
  {
    e := i;
    while e < |b| && WordChar(b[e])
      invariant i <= e <= |b| && WordEnd(b, e) == WordEnd(b, i)
    {
      e := e + 1;
    }
  }
}
