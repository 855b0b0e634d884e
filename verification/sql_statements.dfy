/** Splitting an SQL script into statements, line by line. */
module SqlStatements {
  import opened SqlTokens

  // ------------------------------------------------------------ more text after a text

  lemma {:induction false} WordEndGrows(b: string, t: string, i: nat)
    requires i <= |b| && WordEnd(b, i) < |b|
    ensures WordEnd(b + t, i) == WordEnd(b, i)
    decreases |b| - i
  {
    if WordChar(b[i]) { WordEndGrows(b, t, i + 1); }
  }

  /** A step that ends before the end of the text does not see what follows the text. */
  lemma StepGrows(b: string, t: string, i: nat, mode: Mode)
    requires i < |b| && ReadStep(b, i, mode).next < |b|
    ensures ReadStep(b + t, i, mode) == ReadStep(b, i, mode)
  {
    hide WordEnd, Upper;
    if mode == Normal && Letter(b[i]) && Opens(b[i]) == Normal {
      WordEndGrows(b, t, i + 1);
      assert (b + t)[i..WordEnd(b, i + 1)] == b[i..WordEnd(b, i + 1)];
    }
  }

  /** The tokens up to a semicolon stay when text is appended. */
  lemma {:induction false} TokensGrow(b: string, t: string, i: nat, mode: Mode, k: nat)
    requires i <= |b| && k < |Tokens(b, i, mode)| && Tokens(b, i, mode)[k] == Semicolon
    ensures k < |Tokens(b + t, i, mode)| && Tokens(b + t, i, mode)[..k + 1] == Tokens(b, i, mode)[..k + 1]
    decreases |b| - i
  {
    hide ReadStep;
    var s := ReadStep(b, i, mode);
    if s.next < |b| {
      StepGrows(b, t, i, mode);
      if k >= |s.token| {
        TokensGrow(b, t, s.next, s.mode, k - |s.token|);
        var rest, rest' := Tokens(b, s.next, s.mode), Tokens(b + t, s.next, s.mode);
        var n := k - |s.token| + 1;
        assert (s.token + rest)[..k + 1] == s.token + rest[..n];
        assert (s.token + rest')[..k + 1] == s.token + rest'[..n];
      }
    } else {
      assert Tokens(b, i, mode) == s.token;
      SemicolonStep(b, t, i, mode);
    }
  }

  lemma SemicolonStep(b: string, t: string, i: nat, mode: Mode)
    requires i < |b| && ReadStep(b, i, mode).token == [Semicolon]
    ensures ReadStep(b + t, i, mode) == ReadStep(b, i, mode)
  {
    hide WordEnd, Upper;
  }

  /** A complete text stays complete when text is appended to it. */
  lemma CompleteGrows(b: string, t: string)
    requires Complete(b)
    ensures Complete(b + t)
  {
    hide EndsAt;
    var ts := Tokens(b, 0, Normal);
    var k :| 0 <= k < |ts| && EndsAt(ts, k);
    EndsWithSemicolon(ts, k);
    TokensGrow(b, t, 0, Normal, k);
    EndsAtIsLocal(ts, Tokens(b + t, 0, Normal), k);
  }

  lemma EndsWithSemicolon(ts: seq<Token>, k: nat)
    requires k < |ts| && EndsAt(ts, k)
    ensures ts[k] == Semicolon
  {
  }

  lemma {:induction false} SemicolonIsThere(b: string, i: nat, mode: Mode)
    requires i <= |b| && Semicolon in Tokens(b, i, mode)
    ensures exists j :: i <= j < |b| && b[j] == ';'
    decreases |b| - i
  {
    hide WordEnd, Upper;
    var s := ReadStep(b, i, mode);
    if Semicolon in s.token {
      assert b[i] == ';';
    } else {
      SemicolonIsThere(b, s.next, s.mode);
    }
  }

  lemma CompleteHasSemicolon(b: string)
    requires Complete(b)
    ensures exists j :: 0 <= j < |b| && b[j] == ';'
  {
    hide EndsAt, Tokens;
    var ts := Tokens(b, 0, Normal);
    var k :| 0 <= k < |ts| && EndsAt(ts, k);
    EndsWithSemicolon(ts, k);
    assert ts[k] in ts;
    SemicolonIsThere(b, 0, Normal);
  }

  lemma NothingIsIncomplete()
    ensures !Complete("")
  {
  }

  // ------------------------------------------------------------ splitting

  function Concat(segments: seq<string>): string {
    if segments == [] then "" else Concat(segments[..|segments| - 1]) + segments[|segments| - 1]
  }

  /** No text made of the first lines of `b`, nor all of it, is complete. */
  ghost predicate NoLineCompletes(b: string) {
    !Complete(b) && forall p | 0 < p <= |b| && b[p - 1] == '\n' :: !Complete(b[..p])
  }

  /** Complete, and with one line less not complete. */
  ghost predicate IsSegment(s: string) {
    Complete(s) && forall p | 0 < p < |s| && s[p - 1] == '\n' :: !Complete(s[..p])
  }

  ghost predicate EndsLine(s: string) { s != "" && s[|s| - 1] == '\n' }

  /** strings.TrimSpace */
  predicate Space(c: char) {
    var r := c as int;
    9 <= r <= 13 || r == 0x20 || r == 0x85 || r == 0xA0 || r == 0x1680 || 0x2000 <= r <= 0x200A
    || r == 0x2028 || r == 0x2029 || r == 0x202F || r == 0x205F || r == 0x3000
  }

  function TrimLeft(s: string): string { if s != "" && Space(s[0]) then TrimLeft(s[1..]) else s }

  function TrimRight(s: string): string { if s != "" && Space(s[|s| - 1]) then TrimRight(s[..|s| - 1]) else s }

  function TrimSpace(s: string): string { TrimRight(TrimLeft(s)) }

  lemma {:induction false} TrimKeeps(s: string, j: nat)
    requires j < |s| && !Space(s[j])
    ensures TrimSpace(s) != ""
  {
    TrimLeftKeeps(s, j);
    var t := TrimLeft(s);
    var k :| 0 <= k < |t| && !Space(t[k]);
    TrimRightKeeps(t, k);
  }

  lemma {:induction false} TrimLeftKeeps(s: string, j: nat)
    requires j < |s| && !Space(s[j])
    ensures exists k :: 0 <= k < |TrimLeft(s)| && !Space(TrimLeft(s)[k])
  {
    if Space(s[0]) {
      TrimLeftKeeps(s[1..], j - 1);
      assert TrimLeft(s) == TrimLeft(s[1..]);
    } else {
      assert TrimLeft(s) == s && !Space(TrimLeft(s)[j]);
    }
  }

  lemma {:induction false} TrimRightKeeps(s: string, j: nat)
    requires j < |s| && !Space(s[j])
    ensures TrimRight(s) != ""
  {
    if Space(s[|s| - 1]) { TrimRightKeeps(s[..|s| - 1], j); }
  }

  /** A script cut into segments and what is left over. */
  ghost predicate IsSplit(sql: string, segments: seq<string>, tail: string) {
    && Concat(segments) + tail == sql
    && (forall j | 0 <= j < |segments| :: IsSegment(segments[j]))
    && (forall j | 0 <= j < |segments| :: EndsLine(segments[j]) || (j == |segments| - 1 && tail == ""))
    && NoLineCompletes(tail)
  }

  datatype Result = Statements(statements: seq<string>) | Incomplete

  /** The segments trimmed, none of them empty; an error if more than blanks are left. */
  ghost predicate Answers(r: Result, segments: seq<string>, tail: string) {
    match r
    case Incomplete => TrimSpace(tail) != ""
    case Statements(statements) =>
      TrimSpace(tail) == "" && |statements| == |segments|
      && forall j | 0 <= j < |segments| :: statements[j] == TrimSpace(segments[j]) != ""
  }

  /** What has been read up to `done`: segments, their statements, and the buffer. */
  ghost predicate Gathered(done: string, statements: seq<string>, segments: seq<string>, buffer: string) {
    && Concat(segments) + buffer == done
    && (forall j | 0 <= j < |segments| :: IsSegment(segments[j]))
    && NoLineCompletes(buffer)
    && |statements| == |segments| && forall j | 0 <= j < |segments| :: statements[j] == TrimSpace(segments[j]) != ""
  }

  /** One line goes into the buffer, which is emitted once it is complete. */
  method TakeLine(statements: seq<string>, buffer: string, line: string, ghost done: string,
                  ghost segments: seq<string>)
    returns (statements': seq<string>, buffer': string, ghost segments': seq<string>)
    requires Gathered(done, statements, segments, buffer) && forall j | 0 <= j < |line| - 1 :: line[j] != '\n'
    ensures Gathered(done + line, statements', segments', buffer')
    ensures (segments' == segments && buffer' == buffer + line)
            || (segments' == segments + [buffer + line] && buffer' == "")
  {
    hide Complete, TrimSpace, Concat, IsSegment, NoLineCompletes;
    statements', segments', buffer' := statements, segments, buffer + line;
    LineAdded(buffer, line);
    assert Concat(segments) + buffer' == (Concat(segments) + buffer) + line;
    var complete := CompleteStatement(buffer');
    if complete {
      var statement := TrimSpace(buffer');
      SegmentIsNotBlank(buffer');
      if statement != "" { statements' := statements' + [statement]; }
      SegmentAdded(segments, buffer');
      segments' := segments' + [buffer'];
      buffer' := "";
      NothingLeft();
    }
  }

  /** splitStatements: lines pile up in a buffer until it is complete. */
  method SplitStatements(sql: string) returns (r: Result)
    ensures exists segments, tail :: IsSplit(sql, segments, tail) && Answers(r, segments, tail)
  {
    hide Complete, TrimSpace, Concat, IsSegment, NoLineCompletes, Gathered;
    var statements: seq<string>, buffer, start := [], "", 0;
    ghost var segments: seq<string> := [];
    NothingRead();
    assert sql[..0] == "";
    for i := 0 to |sql|
      invariant start <= i && Gathered(sql[..start], statements, segments, buffer)
      invariant forall j | start <= j < i :: sql[j] != '\n'
      invariant buffer != "" ==> EndsLine(buffer)
      invariant forall j | 0 <= j < |segments| :: EndsLine(segments[j])
    {
      if sql[i] == '\n' {
        var line := sql[start..i + 1];
        assert sql[..start] + line == sql[..i + 1];
        statements, buffer, segments := TakeLine(statements, buffer, line, sql[..start], segments);
        start := i + 1;
      }
    }
    var line := sql[start..];
    assert sql[..start] + line == sql;
    statements, buffer, segments := TakeLine(statements, buffer, line, sql[..start], segments);
    AllRead(sql, statements, segments, buffer);
    r := if TrimSpace(buffer) != "" then Incomplete else Statements(statements);
  }

  lemma NothingRead()
    ensures Gathered("", [], [], "")
  {
    NothingLeft();
  }

  lemma AllRead(sql: string, statements: seq<string>, segments: seq<string>, buffer: string)
    requires Gathered(sql, statements, segments, buffer)
    requires forall j | 0 <= j < |segments| :: EndsLine(segments[j]) || (j == |segments| - 1 && buffer == "")
    ensures IsSplit(sql, segments, buffer)
    ensures |statements| == |segments|
            && forall j | 0 <= j < |segments| :: statements[j] == TrimSpace(segments[j]) != ""
  {
    hide Concat, IsSegment, NoLineCompletes, TrimSpace;
  }

  /** A line more: either the buffer is a segment now, or still no line completes it. */
  lemma LineAdded(b: string, line: string)
    requires NoLineCompletes(b) && forall j | 0 <= j < |line| - 1 :: line[j] != '\n'
    ensures Complete(b + line) ==> IsSegment(b + line)
    ensures !Complete(b + line) ==> NoLineCompletes(b + line)
  {
    hide Complete;
    var more := b + line;
    forall p | 0 < p < |more| && more[p - 1] == '\n' ensures !Complete(more[..p]) {
      assert p <= |b|;
      assert more[..p] == b[..p];
    }
    assert more[..|more|] == more;
  }

  lemma SegmentIsNotBlank(s: string)
    requires Complete(s)
    ensures TrimSpace(s) != ""
  {
    hide Complete, TrimSpace;
    CompleteHasSemicolon(s);
    var j :| 0 <= j < |s| && s[j] == ';';
    TrimKeeps(s, j);
  }

  lemma SegmentAdded(segments: seq<string>, s: string)
    ensures Concat(segments + [s]) + "" == Concat(segments) + s
  {
    assert (segments + [s])[..|segments|] == segments;
  }

  lemma NothingLeft()
    ensures NoLineCompletes("")
  {
    NothingIsIncomplete();
  }

  // ------------------------------------------------------------ there is one split

  lemma {:induction false} ConcatFront(segments: seq<string>)
    requires segments != []
    ensures Concat(segments) == segments[0] + Concat(segments[1..])
  {
    var n := |segments| - 1;
    if n == 0 {
      assert segments[..0] == [] && segments[1..] == [];
      assert Concat(segments) == "" + segments[0];
    } else {
      ConcatFront(segments[..n]);
      var middle := segments[..n][1..];
      assert segments[1..][..n - 1] == middle;
      assert Concat(segments[1..]) == Concat(middle) + segments[n];
      assert Concat(segments) == Concat(segments[..n]) + segments[n];
      assert (segments[0] + Concat(middle)) + segments[n] == segments[0] + (Concat(middle) + segments[n]);
    }
  }

  /** A first segment is the shortest run of whole lines that is complete. */
  lemma FirstSegment(sql: string, a: seq<string>, ta: string, b: seq<string>, tb: string)
    requires IsSplit(sql, a, ta) && IsSplit(sql, b, tb) && a != []
    ensures b != [] && |b[0]| <= |a[0]| <= |sql| && a[0] == sql[..|a[0]|]
  {
    hide Complete, IsSegment, Concat, IsSplit, NoLineCompletes;
    Begins(sql, a, ta);
    Shortest(sql, a[0]);
    if b == [] {
      EmptySplit(sql, tb);
    } else {
      Begins(sql, b, tb);
      if |a[0]| <= |b[0]| {
        PrefixOfPrefix(sql, a[0], b[0]);
        Shortest(b[0], a[0]);
      }
    }
  }

  lemma EmptySplit(sql: string, tb: string)
    requires IsSplit(sql, [], tb)
    ensures NoLineCompletes(sql)
  {
    hide NoLineCompletes;
    assert Concat([]) + tb == tb;
  }

  lemma PrefixOfPrefix(sql: string, s: string, t: string)
    requires |s| <= |t| <= |sql| && s == sql[..|s|] && t == sql[..|t|]
    ensures s == t[..|s|]
  {
  }

  /** A text that a segment begins is not without a complete line, and is no segment
      unless it is that one. */
  lemma Shortest(t: string, s: string)
    requires IsSegment(s) && |s| <= |t| && s == t[..|s|] && (EndsLine(s) || s == t)
    ensures !NoLineCompletes(t)
    ensures IsSegment(t) ==> s == t
  {
    hide Complete;
    NothingIsIncomplete();
    assert t[..|t|] == t;
  }

  lemma NoSegments()
    ensures Concat([]) == ""
  {
  }

  /** A split begins with its first segment, which is whole lines or everything. */
  lemma Begins(sql: string, a: seq<string>, ta: string)
    requires IsSplit(sql, a, ta) && a != []
    ensures |a[0]| <= |sql| && a[0] == sql[..|a[0]|] && IsSegment(a[0])
    ensures EndsLine(a[0]) || a[0] == sql
  {
    hide IsSegment, NoLineCompletes;
    ConcatFront(a);
    assert sql == a[0] + (Concat(a[1..]) + ta);
    if !EndsLine(a[0]) {
      assert a[1..] == [];
      assert Concat(a[1..]) + ta == "";
    }
  }

  /** The split of a script is determined by it. */
  lemma {:induction false} SplitIsUnique(sql: string, a: seq<string>, ta: string, b: seq<string>, tb: string)
    requires IsSplit(sql, a, ta) && IsSplit(sql, b, tb)
    ensures a == b && ta == tb
    decreases |a|
  {
    hide IsSegment, NoLineCompletes;
    if a == [] {
      if b != [] { FirstSegment(sql, b, tb, a, ta); }
      NoSegments();
      assert "" + ta == ta && "" + tb == tb;
    } else {
      FirstSegment(sql, a, ta, b, tb);
      FirstSegment(sql, b, tb, a, ta);
      RestIsSplit(sql, a, ta);
      RestIsSplit(sql, b, tb);
      SplitIsUnique(sql[|a[0]|..], a[1..], ta, b[1..], tb);
      assert a == [a[0]] + a[1..] && b == [b[0]] + b[1..];
    }
  }

  lemma RestIsSplit(sql: string, a: seq<string>, ta: string)
    requires IsSplit(sql, a, ta) && a != []
    ensures |a[0]| <= |sql| && IsSplit(sql[|a[0]|..], a[1..], ta)
  {
    hide IsSegment, NoLineCompletes, EndsLine;
    ConcatFront(a);
    assert sql == a[0] + (Concat(a[1..]) + ta);
  }
}
