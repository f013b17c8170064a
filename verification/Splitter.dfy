/**
 * The line-at-a-time statement splitter, and that it computes the statements of the text.
 */
module Splitter {
  import opened CypherLexer

  /** What has been given out, plus what remains from position `i`, is the whole split. */
  ghost predicate OnText(text: string, out: seq<Stmt>, ks: seq<Kept>, i: nat, st: State) {
    i <= |text| && out + Emit(ks, Lex(text, i, st)) == Split(text)
  }

  /** `OnText` as a value: the steps below are about any such `on`, and never look inside it. */
  type Track = (seq<Stmt>, seq<Kept>, nat, State) -> bool

  ghost predicate Tracks(on: Track, text: string) {
    forall out, ks, i, st {:trigger OnText(text, out, ks, i, st)} ::
      on(out, ks, i, st) <==> OnText(text, out, ks, i, st)
  }

  lemma TrackOf(text: string) returns (on: Track)
    ensures Tracks(on, text)
  {
    on := (out: seq<Stmt>, ks: seq<Kept>, i: nat, st: State) => OnText(text, out, ks, i, st);
  }

  lemma OnKeep(on: Track, text: string, out: seq<Stmt>, ks: seq<Kept>, i: nat, st: State)
    requires Tracks(on, text) && on(out, ks, i, st) && i < |text| && Ordinary(text, i, st)
    ensures on(out, ks + [KeptAt(text, i)], i + 1, After(st, text[i]))
  {
    assert OnText(text, out, ks, i, st);
    EmitKeep(ks, KeptAt(text, i), Lex(text, i + 1, After(st, text[i])));
    assert OnText(text, out, ks + [KeptAt(text, i)], i + 1, After(st, text[i]));
  }

  lemma OnEscape(on: Track, text: string, out: seq<Stmt>, ks: seq<Kept>, i: nat, q: char)
    requires Tracks(on, text) && on(out, ks, i, Str(q)) && i + 1 < |text| && text[i] == '\\'
    ensures on(out, ks + [KeptAt(text, i)] + [KeptAt(text, i + 1)], i + 2, Str(q))
  {
    assert OnText(text, out, ks, i, Str(q));
    var a, b, rest := KeptAt(text, i), KeptAt(text, i + 1), Lex(text, i + 2, Str(q));
    assert [Keep(a), Keep(b)] + rest == [Keep(a)] + ([Keep(b)] + rest);
    EmitKeep(ks, a, [Keep(b)] + rest);
    EmitKeep(ks + [a], b, rest);
    assert OnText(text, out, ks + [a] + [b], i + 2, Str(q));
  }

  lemma OnLastEscape(on: Track, text: string, out: seq<Stmt>, ks: seq<Kept>, i: nat, q: char)
    requires Tracks(on, text) && on(out, ks, i, Str(q)) && i + 1 == |text| && text[i] == '\\'
    ensures on(out, ks + [KeptAt(text, i)], i + 1, Str(q))
  {
    assert OnText(text, out, ks, i, Str(q));
    EmitKeep(ks, KeptAt(text, i), Lex(text, i + 1, After(Str(q), text[i])));
    assert OnText(text, out, ks + [KeptAt(text, i)], i + 1, Str(q));
  }

  lemma CutText(text: string, out: seq<Stmt>, ks: seq<Kept>, i: nat)
    requires OnText(text, out, ks, i, Normal) && i < |text| && text[i] == ';'
    ensures OnText(text, out + Close(ks), [], i + 1, Normal)
  {
    var rest := Lex(text, i + 1, Normal);
    assert ([Cut] + rest)[1..] == rest;
    assert Emit(ks, [Cut] + rest) == Close(ks) + Emit([], rest);
    assert out + (Close(ks) + Emit([], rest)) == (out + Close(ks)) + Emit([], rest);
  }

  lemma OnCut(on: Track, text: string, out: seq<Stmt>, ks: seq<Kept>, i: nat)
    requires Tracks(on, text) && on(out, ks, i, Normal) && i < |text| && text[i] == ';'
    ensures on(out + Close(ks), [], i + 1, Normal)
  {
    assert OnText(text, out, ks, i, Normal);
    CutText(text, out, ks, i);
  }

  lemma OnLineComment(on: Track, text: string, out: seq<Stmt>, ks: seq<Kept>, i: nat, j: nat)
    requires Tracks(on, text) && on(out, ks, i, Normal) && Pair(text, i, '/', '/')
    requires i + 2 <= j <= |text| && (forall k | i + 2 <= k < j :: text[k] != '\n') && (j < |text| ==> text[j] == '\n')
    ensures on(out, ks + [Kept('\n', LineAt(text, i))], if j < |text| then j + 1 else j, Normal)
  {
    assert OnText(text, out, ks, i, Normal);
    LineCommentSkips(text, i + 2, j);
    EmitKeep(ks, Kept('\n', LineAt(text, i)), Lex(text, i + 2, LineComment));
    assert OnText(text, out, ks + [Kept('\n', LineAt(text, i))], if j < |text| then j + 1 else j, Normal);
  }

  lemma OnBlockOpen(on: Track, text: string, out: seq<Stmt>, ks: seq<Kept>, i: nat)
    requires Tracks(on, text) && on(out, ks, i, Normal) && Pair(text, i, '/', '*')
    ensures on(out, ks + [Kept(' ', LineAt(text, i))], i + 2, BlockComment)
  {
    assert OnText(text, out, ks, i, Normal);
    EmitKeep(ks, Kept(' ', LineAt(text, i)), Lex(text, i + 2, BlockComment));
    assert OnText(text, out, ks + [Kept(' ', LineAt(text, i))], i + 2, BlockComment);
  }

  lemma OnBlock(on: Track, text: string, out: seq<Stmt>, ks: seq<Kept>, i: nat)
    requires Tracks(on, text) && on(out, ks, i, BlockComment) && i < |text|
    ensures Pair(text, i, '*', '/') ==> on(out, ks, i + 2, Normal)
    ensures !Pair(text, i, '*', '/') ==> on(out, ks, i + 1, BlockComment)
  {
    assert OnText(text, out, ks, i, BlockComment);
    if Pair(text, i, '*', '/') {
      assert OnText(text, out, ks, i + 2, Normal);
    } else {
      assert OnText(text, out, ks, i + 1, BlockComment);
    }
  }

  /** `stmt` is what was kept since the last cut, up to leading blanks that were thrown away. */
  ghost predicate Holds(ks: seq<Kept>, lead: string, stmt: string) {
    Chars(ks) == lead + stmt && Blank(lead)
  }

  lemma HoldsMore(ks: seq<Kept>, lead: string, stmt: string, k: Kept)
    requires Holds(ks, lead, stmt)
    ensures Holds(ks + [k], lead, stmt + [k.c])
  {
    assert Chars(ks + [k]) == Chars(ks) + [k.c];
    assert lead + (stmt + [k.c]) == (lead + stmt) + [k.c];
  }

  /** `stmtLine` is the start line of a statement under way, and the current line before one. */
  ghost predicate Starts(ks: seq<Kept>, stmtLine: nat, lineNo: nat) {
    stmtLine == if Blank(Chars(ks)) then lineNo else StartLine(ks)
  }

  lemma StartsMore(ks: seq<Kept>, stmtLine: nat, lineNo: nat, k: Kept)
    requires Starts(ks, stmtLine, lineNo) && k.line == lineNo
    ensures Starts(ks + [k], stmtLine, lineNo)
  {
    assert Chars(ks + [k]) == Chars(ks) + [k.c];
    if Blank(Chars(ks)) {
      StartLineLead(ks, [k]);
    } else {
      assert !Blank(Chars(ks + [k])) by {
        var i :| 0 <= i < |Chars(ks)| && !IsSpace(Chars(ks)[i]);
        assert Chars(ks + [k])[i] == Chars(ks)[i];
      }
      StartLineMore(ks, [k]);
    }
  }

  lemma BlankLead(lead: string, stmt: string)
    requires Blank(lead)
    ensures Blank(lead + stmt) <==> Trim(stmt) == ""
  {
    TrimBlank(stmt);
    if Blank(lead + stmt) {
      forall i | 0 <= i < |stmt| ensures IsSpace(stmt[i]) { assert (lead + stmt)[|lead| + i] == stmt[i]; }
    }
  }

  lemma CloseIs(ks: seq<Kept>, lead: string, stmt: string, stmtLine: nat, lineNo: nat)
    requires Holds(ks, lead, stmt) && Starts(ks, stmtLine, lineNo)
    ensures Close(ks) == if Trim(stmt) == "" then [] else [Stmt(stmtLine, Trim(stmt))]
  {
    BlankLead(lead, stmt);
    TrimStartLead(lead, stmt);
  }

  /** A line of the text: newline only as its last character, and short of one only at the end. */
  ghost predicate IsLine(text: string, base: nat, line: string) {
    && base + |line| <= |text| && (forall k | 0 <= k < |line| :: line[k] == text[base + k])
    && (forall k | 0 <= k < |line| - 1 :: line[k] != '\n')
    && (base + |line| < |text| ==> line != "" && line[|line| - 1] == '\n')
  }

  method ReadLine(text: string, base: nat) returns (line: string)
    requires base <= |text|
    ensures base + |line| <= |text| && (line == "" <==> base == |text|)
    ensures AtLine(text, base, line, LineAt(text, base))
    ensures base + |line| < |text| ==> LineAt(text, base + |line|) == LineAt(text, base) + 1
  {
    var i := base;
    while i < |text| && text[i] != '\n'
      invariant base <= i <= |text|
      invariant forall k | base <= k < i :: text[k] != '\n'
    {
      i := i + 1;
    }
    line := if i < |text| then text[base..i + 1] else text[base..];
    LineIsLocal(text, base, line, LineAt(text, base));
    if base + |line| < |text| { LineAfter(text, base, line); }
  }

  lemma {:induction false} LineWithin(text: string, base: nat, line: string, i: nat)
    requires IsLine(text, base, line) && i < |line|
    ensures LineAt(text, base + i) == LineAt(text, base)
  {
    if i > 0 {
      LineWithin(text, base, line, i - 1);
      assert text[base + i - 1] == line[i - 1];
    }
  }

  lemma LineAfter(text: string, base: nat, line: string)
    requires IsLine(text, base, line) && base + |line| < |text|
    ensures LineAt(text, base + |line|) == LineAt(text, base) + 1
  {
    LineWithin(text, base, line, |line| - 1);
    assert text[base + |line| - 1] == line[|line| - 1];
  }

  /** A line comment ends with its line. */
  function AtLineEnd(st: State): State {
    if st.LineComment? then Normal else st
  }

  /** How far into the line reading has come; an escape at its end may step past it. */
  function Reached(line: string, i: nat): nat { if i < |line| then i else |line| }

  /** The part of the line read so far that has not been copied to the statement. */
  function Segment(line: string, segStart: nat, i: nat, st: State): string
    requires !st.BlockComment? ==> segStart <= Reached(line, i)
  {
    if st.BlockComment? then "" else line[segStart..Reached(line, i)]
  }

  predicate AreKept(ks: seq<Kept>, kept: seq<Kept>) {
    kept == ks
  }

  /** What is kept, and the line it starts on, are what `stmt` and `stmtLine` say. */
  ghost predicate Held(ks: seq<Kept>, lead: string, stmt: string, stmtLine: nat, lineNo: nat) {
    forall kept {:trigger AreKept(ks, kept)} ::
      AreKept(ks, kept) ==> Holds(kept, lead, stmt) && Starts(kept, stmtLine, lineNo)
  }

  lemma HeldIs(ks: seq<Kept>, lead: string, stmt: string, stmtLine: nat, lineNo: nat)
    ensures Held(ks, lead, stmt, stmtLine, lineNo) <==> Holds(ks, lead, stmt) && Starts(ks, stmtLine, lineNo)
  {
    assert AreKept(ks, ks);
  }

  lemma HeldMore(ks: seq<Kept>, lead: string, stmt: string, stmtLine: nat, lineNo: nat, c: char)
    requires Held(ks, lead, stmt, stmtLine, lineNo)
    ensures Held(ks + [Kept(c, lineNo)], lead, stmt + [c], stmtLine, lineNo)
  {
    HeldIs(ks, lead, stmt, stmtLine, lineNo);
    HoldsMore(ks, lead, stmt, Kept(c, lineNo));
    StartsMore(ks, stmtLine, lineNo, Kept(c, lineNo));
    HeldIs(ks + [Kept(c, lineNo)], lead, stmt + [c], stmtLine, lineNo);
  }

  /** What character `i` of the line says about the text. */
  ghost predicate Local(text: string, base: nat, line: string, lineNo: nat, i: nat)
    requires i < |line|
  {
    && base + i < |text| && text[base + i] == line[i] && LineAt(text, base + i) == lineNo
    && (i + 1 < |line| ==> line[i] != '\n')
    && (i + 1 == |line| && base + |line| < |text| ==> line[i] == '\n')
  }

  /** The line is the part of the text that starts at `base`, and has number `lineNo`. */
  ghost predicate AtLine(text: string, base: nat, line: string, lineNo: nat) {
    base + |line| <= |text| && forall i | 0 <= i < |line| :: Local(text, base, line, lineNo, i)
  }

  lemma LineIsLocal(text: string, base: nat, line: string, lineNo: nat)
    requires IsLine(text, base, line) && (line != "" ==> lineNo == LineAt(text, base))
    ensures AtLine(text, base, line, lineNo)
  {
    forall i | 0 <= i < |line| ensures Local(text, base, line, lineNo, i) { LineWithin(text, base, line, i); }
  }

  /** The character at `i`, and looking one ahead, in the line and in the text. */
  lemma CharInLine(text: string, base: nat, line: string, lineNo: nat, i: nat)
    requires AtLine(text, base, line, lineNo) && i < |line|
    ensures base + i < |text| && text[base + i] == line[i]
    ensures LineAt(text, base + i) == lineNo && KeptAt(text, base + i) == Kept(line[i], lineNo)
    ensures Pair(line, i, '/', '/') <==> Pair(text, base + i, '/', '/')
    ensures Pair(line, i, '/', '*') <==> Pair(text, base + i, '/', '*')
    ensures Pair(line, i, '*', '/') <==> Pair(text, base + i, '*', '/')
    ensures i + 1 < |line| ==> base + i + 1 < |text| && KeptAt(text, base + i + 1) == Kept(line[i + 1], lineNo)
    ensures i + 1 == |line| && line[i] != '\n' ==> base + i + 1 == |text|
  {
    assert Local(text, base, line, lineNo, i);
    if i + 1 < |line| { assert Local(text, base, line, lineNo, i + 1); }
  }

  /** The line from `//` on is a comment, up to its newline. */
  lemma CommentToEnd(text: string, base: nat, line: string, lineNo: nat, i: nat) returns (j: nat)
    requires AtLine(text, base, line, lineNo) && Pair(line, i, '/', '/')
    ensures base + i + 2 <= j <= |text|
    ensures (forall k | base + i + 2 <= k < j :: text[k] != '\n') && (j < |text| ==> text[j] == '\n')
    ensures base + |line| == if j < |text| then j + 1 else j
  {
    assert Local(text, base, line, lineNo, |line| - 1);
    j := if line[|line| - 1] == '\n' then base + |line| - 1 else |text|;
    forall k | base + i + 2 <= k < j ensures text[k] != '\n' { assert Local(text, base, line, lineNo, k - base); }
  }

  /** The splitter's variables inside a line. */
  datatype Cursor = Cursor(stmt: string, stmtLine: nat, state: State, out: seq<Stmt>, segStart: nat, i: nat)

  ghost predicate CursorOk(line: string, c: Cursor) {
    && c.i <= |line| + 1 && c.segStart <= |line|
    && (c.state.LineComment? ==> c.i == |line| == c.segStart)
    && (!c.state.BlockComment? ==> c.segStart <= Reached(line, c.i))
  }

  ghost predicate InStep(on: Track, text: string, base: nat, line: string, lineNo: nat, c: Cursor, ks: seq<Kept>,
                         lead: string) {
    && Tracks(on, text) && CursorOk(line, c)
    && on(c.out, ks, base + Reached(line, c.i), AtLineEnd(c.state))
    && Held(ks, lead, c.stmt + Segment(line, c.segStart, c.i, c.state), c.stmtLine, lineNo)
  }

  /** Inside a line, outside comments. */
  lemma Inside(on: Track, text: string, base: nat, line: string, lineNo: nat, c: Cursor, ks: seq<Kept>, lead: string)
    requires InStep(on, text, base, line, lineNo, c, ks, lead)
    requires c.i < |line| && !c.state.LineComment? && !c.state.BlockComment?
    ensures c.segStart <= c.i && on(c.out, ks, base + c.i, c.state)
    ensures Held(ks, lead, c.stmt + line[c.segStart..c.i], c.stmtLine, lineNo)
  {
  }

  /** Where the next round starts, given what was kept and how far the line is read. */
  lemma Onward(on: Track, text: string, base: nat, line: string, lineNo: nat, c: Cursor, ks: seq<Kept>, lead: string,
               at: nat, st: State, full: string)
    requires Tracks(on, text) && CursorOk(line, c) && at == base + Reached(line, c.i) && st == AtLineEnd(c.state)
    requires full == c.stmt + Segment(line, c.segStart, c.i, c.state)
    requires on(c.out, ks, at, st) && Held(ks, lead, full, c.stmtLine, lineNo)
    ensures InStep(on, text, base, line, lineNo, c, ks, lead)
  {
  }

  /** Moving on over a character that stays in the statement. */
  lemma StepKeep(on: Track, text: string, base: nat, line: string, lineNo: nat, c: Cursor, ks: seq<Kept>, lead: string)
    requires AtLine(text, base, line, lineNo) && InStep(on, text, base, line, lineNo, c, ks, lead)
    requires c.i < |line| && !c.state.LineComment? && Ordinary(text, base + c.i, c.state)
    ensures InStep(on, text, base, line, lineNo, c.(i := c.i + 1, state := After(c.state, line[c.i])),
                   ks + [Kept(line[c.i], lineNo)], lead)
  {
    CharInLine(text, base, line, lineNo, c.i);
    Inside(on, text, base, line, lineNo, c, ks, lead);
    OnKeep(on, text, c.out, ks, base + c.i, c.state);
    var full := c.stmt + line[c.segStart..c.i];
    HeldMore(ks, lead, full, c.stmtLine, lineNo, line[c.i]);
    SegmentMore(c.stmt, line, c.segStart, c.i);
    var st := After(c.state, line[c.i]);
    Onward(on, text, base, line, lineNo, c.(i := c.i + 1, state := st), ks + [Kept(line[c.i], lineNo)], lead,
           base + c.i + 1, st, full + [line[c.i]]);
  }

  lemma SegmentMore(stmt: string, line: string, segStart: nat, i: nat)
    requires segStart <= i < |line|
    ensures stmt + line[segStart..i] + [line[i]] == stmt + line[segStart..i + 1]
  {
  }

  lemma StepEscape(on: Track, text: string, base: nat, line: string, lineNo: nat, c: Cursor, ks: seq<Kept>,
                   lead: string)
    requires AtLine(text, base, line, lineNo) && InStep(on, text, base, line, lineNo, c, ks, lead)
    requires c.i + 1 < |line| && c.state.Str? && line[c.i] == '\\'
    ensures InStep(on, text, base, line, lineNo, c.(i := c.i + 2),
                   ks + [Kept(line[c.i], lineNo)] + [Kept(line[c.i + 1], lineNo)], lead)
  {
    CharInLine(text, base, line, lineNo, c.i);
    Inside(on, text, base, line, lineNo, c, ks, lead);
    OnEscape(on, text, c.out, ks, base + c.i, c.state.quote);
    var full := c.stmt + line[c.segStart..c.i];
    HeldTwo(ks, lead, full, c.stmtLine, lineNo, line[c.i], line[c.i + 1]);
    SegmentMore(c.stmt, line, c.segStart, c.i);
    SegmentMore(c.stmt, line, c.segStart, c.i + 1);
    Onward(on, text, base, line, lineNo, c.(i := c.i + 2), ks + [Kept(line[c.i], lineNo)] + [Kept(line[c.i + 1],
           lineNo)],
           lead, base + c.i + 2, c.state, full + [line[c.i]] + [line[c.i + 1]]);
  }

  lemma HeldTwo(ks: seq<Kept>, lead: string, stmt: string, stmtLine: nat, lineNo: nat, a: char, b: char)
    requires Held(ks, lead, stmt, stmtLine, lineNo)
    ensures Held(ks + [Kept(a, lineNo)] + [Kept(b, lineNo)], lead, stmt + [a] + [b], stmtLine, lineNo)
  {
    HeldMore(ks, lead, stmt, stmtLine, lineNo, a);
    HeldMore(ks + [Kept(a, lineNo)], lead, stmt + [a], stmtLine, lineNo, b);
  }

  lemma StepLastEscape(on: Track, text: string, base: nat, line: string, lineNo: nat, c: Cursor, ks: seq<Kept>,
                       lead: string)
    requires AtLine(text, base, line, lineNo) && InStep(on, text, base, line, lineNo, c, ks, lead)
    requires c.i + 1 == |line| && c.state.Str? && line[c.i] == '\\'
    ensures InStep(on, text, base, line, lineNo, c.(i := c.i + 2), ks + [Kept(line[c.i], lineNo)], lead)
  {
    CharInLine(text, base, line, lineNo, c.i);
    Inside(on, text, base, line, lineNo, c, ks, lead);
    OnLastEscape(on, text, c.out, ks, base + c.i, c.state.quote);
    var full := c.stmt + line[c.segStart..c.i];
    HeldMore(ks, lead, full, c.stmtLine, lineNo, line[c.i]);
    SegmentMore(c.stmt, line, c.segStart, c.i);
    Onward(on, text, base, line, lineNo, c.(i := c.i + 2), ks + [Kept(line[c.i], lineNo)], lead, base + c.i + 1,
           c.state,
           full + [line[c.i]]);
  }

  lemma StepCut(on: Track, text: string, base: nat, line: string, lineNo: nat, c: Cursor, ks: seq<Kept>, lead: string)
    requires AtLine(text, base, line, lineNo) && InStep(on, text, base, line, lineNo, c, ks, lead)
    requires c.i < |line| && c.state.Normal? && line[c.i] == ';'
    ensures var trimmed := Trim(c.stmt + line[c.segStart..c.i]);
      InStep(on, text, base, line, lineNo,
             Cursor("", lineNo, Normal, if trimmed == "" then c.out else c.out + [Stmt(c.stmtLine, trimmed)],
                    c.i + 1, c.i + 1),
             [], "")
  {
    CharInLine(text, base, line, lineNo, c.i);
    Inside(on, text, base, line, lineNo, c, ks, lead);
    CutHeld(on, text, base, line, lineNo, c.i, c.out, ks, lead, c.stmt + line[c.segStart..c.i], c.stmtLine);
  }

  lemma CutHeld(on: Track, text: string, base: nat, line: string, lineNo: nat, i: nat, out: seq<Stmt>, ks: seq<Kept>,
                lead: string, stmt: string, stmtLine: nat)
    requires Tracks(on, text) && on(out, ks, base + i, Normal) && Held(ks, lead, stmt, stmtLine, lineNo)
    requires i < |line| && base + i < |text| && text[base + i] == ';'
    ensures InStep(on, text, base, line, lineNo,
                   Cursor("", lineNo, Normal, if Trim(stmt) == "" then out else out + [Stmt(stmtLine, Trim(stmt))],
                          i + 1, i + 1),
                   [], "")
  {
    OnCut(on, text, out, ks, base + i);
    GivenOut(out, ks, lead, stmt, stmtLine, lineNo);
    AfterCut(on, text, base, line, lineNo, i + 1, out + Close(ks));
  }

  lemma AfterCut(on: Track, text: string, base: nat, line: string, lineNo: nat, i: nat, out: seq<Stmt>)
    requires Tracks(on, text) && i <= |line| && on(out, [], base + i, Normal)
    ensures InStep(on, text, base, line, lineNo, Cursor("", lineNo, Normal, out, i, i), [], "")
  {
    HeldNothing(lineNo, line[i..i]);
    Onward(on, text, base, line, lineNo, Cursor("", lineNo, Normal, out, i, i), [], "", base + i, Normal,
           "" + line[i..i]);
  }

  lemma HeldNothing(lineNo: nat, empty: string)
    requires empty == ""
    ensures Held([], "", "" + empty, lineNo, lineNo)
  {
  }

  lemma GivenOut(out: seq<Stmt>, ks: seq<Kept>, lead: string, stmt: string, stmtLine: nat, lineNo: nat)
    requires Held(ks, lead, stmt, stmtLine, lineNo)
    ensures out + Close(ks) == if Trim(stmt) == "" then out else out + [Stmt(stmtLine, Trim(stmt))]
  {
    HeldIs(ks, lead, stmt, stmtLine, lineNo);
    CloseIs(ks, lead, stmt, stmtLine, lineNo);
    assert out + [] == out;
  }

  lemma StepLineComment(on: Track, text: string, base: nat, line: string, lineNo: nat, c: Cursor, ks: seq<Kept>,
                        lead: string)
    requires AtLine(text, base, line, lineNo) && InStep(on, text, base, line, lineNo, c, ks, lead)
    requires c.state.Normal? && Pair(line, c.i, '/', '/')
    ensures InStep(on, text, base, line, lineNo,
                   Cursor(c.stmt + line[c.segStart..c.i] + ['\n'], c.stmtLine, LineComment, c.out, |line|, |line|),
                   ks + [Kept('\n', lineNo)], lead)
  {
    CharInLine(text, base, line, lineNo, c.i);
    Inside(on, text, base, line, lineNo, c, ks, lead);
    var j := CommentToEnd(text, base, line, lineNo, c.i);
    OnLineComment(on, text, c.out, ks, base + c.i, j);
    var full := c.stmt + line[c.segStart..c.i];
    HeldMore(ks, lead, full, c.stmtLine, lineNo, '\n');
    assert full + ['\n'] + line[|line|..|line|] == full + ['\n'];
    Onward(on, text, base, line, lineNo, Cursor(full + ['\n'], c.stmtLine, LineComment, c.out, |line|, |line|),
           ks + [Kept('\n', lineNo)], lead, base + |line|, Normal, full + ['\n']);
  }

  lemma StepBlockOpen(on: Track, text: string, base: nat, line: string, lineNo: nat, c: Cursor, ks: seq<Kept>,
                      lead: string)
    requires AtLine(text, base, line, lineNo) && InStep(on, text, base, line, lineNo, c, ks, lead)
    requires c.state.Normal? && Pair(line, c.i, '/', '*')
    ensures InStep(on, text, base, line, lineNo,
                   Cursor(c.stmt + line[c.segStart..c.i] + [' '], c.stmtLine, BlockComment, c.out, |line|, c.i + 2),
                   ks + [Kept(' ', lineNo)], lead)
  {
    CharInLine(text, base, line, lineNo, c.i);
    Inside(on, text, base, line, lineNo, c, ks, lead);
    OnBlockOpen(on, text, c.out, ks, base + c.i);
    var full := c.stmt + line[c.segStart..c.i];
    HeldMore(ks, lead, full, c.stmtLine, lineNo, ' ');
    assert full + [' '] + "" == full + [' '];
    Onward(on, text, base, line, lineNo, Cursor(full + [' '], c.stmtLine, BlockComment, c.out, |line|, c.i + 2),
           ks + [Kept(' ', lineNo)], lead, base + c.i + 2, BlockComment, full + [' ']);
  }

  lemma StepBlock(on: Track, text: string, base: nat, line: string, lineNo: nat, c: Cursor, ks: seq<Kept>, lead: string)
    requires AtLine(text, base, line, lineNo) && InStep(on, text, base, line, lineNo, c, ks, lead)
    requires c.i < |line| && c.state.BlockComment?
    ensures Pair(line, c.i, '*', '/') ==>
      InStep(on, text, base, line, lineNo, c.(state := Normal, i := c.i + 2, segStart := c.i + 2), ks, lead)
    ensures !Pair(line, c.i, '*', '/') ==> InStep(on, text, base, line, lineNo, c.(i := c.i + 1), ks, lead)
  {
    CharInLine(text, base, line, lineNo, c.i);
    OnBlock(on, text, c.out, ks, base + c.i);
    if Pair(line, c.i, '*', '/') { assert line[c.i + 2..c.i + 2] == ""; }
  }

  /** A semicolon gives out the statement, unless it is blank, and starts the next one. */
  method StepSemicolon(ghost on: Track, ghost text: string, ghost base: nat, line: string, lineNo: nat, c: Cursor,
                       ghost ks: seq<Kept>, ghost lead: string)
    returns (c': Cursor)
    requires AtLine(text, base, line, lineNo) && InStep(on, text, base, line, lineNo, c, ks, lead)
    requires c.i < |line| && c.state.Normal? && line[c.i] == ';'
    ensures InStep(on, text, base, line, lineNo, c', [], "") && c.i < c'.i
  {
    StepCut(on, text, base, line, lineNo, c, ks, lead);
    var trimmed := Trim(c.stmt + line[c.segStart..c.i]);
    var out := c.out;
    if trimmed != "" { out := out + [Stmt(c.stmtLine, trimmed)]; }
    c' := Cursor("", lineNo, Normal, out, c.i + 1, c.i + 1);
  }

  /** One character outside strings, names and comments. */
  method StepNormal(ghost on: Track, ghost text: string, ghost base: nat, line: string, lineNo: nat, c: Cursor,
                    ghost ks: seq<Kept>, ghost lead: string)
    returns (c': Cursor, ghost ks': seq<Kept>, ghost lead': string)
    requires AtLine(text, base, line, lineNo) && InStep(on, text, base, line, lineNo, c, ks, lead)
    requires c.i < |line| && c.state.Normal?
    ensures InStep(on, text, base, line, lineNo, c', ks', lead') && c.i < c'.i
  {
    var b, i := line[c.i], c.i;
    lead' := lead;
    if b == ';' {
      c' := StepSemicolon(on, text, base, line, lineNo, c, ks, lead);
      ks', lead' := [], "";
    } else if b == '/' && i + 1 < |line| && line[i + 1] == '/' {
      StepLineComment(on, text, base, line, lineNo, c, ks, lead);
      c' := Cursor(c.stmt + line[c.segStart..i] + ['\n'], c.stmtLine, LineComment, c.out, |line|, |line|);
      ks' := ks + [Kept('\n', lineNo)];
    } else if b == '/' && i + 1 < |line| && line[i + 1] == '*' {
      StepBlockOpen(on, text, base, line, lineNo, c, ks, lead);
      c' := Cursor(c.stmt + line[c.segStart..i] + [' '], c.stmtLine, BlockComment, c.out, |line|, i + 2);
      ks' := ks + [Kept(' ', lineNo)];
    } else {
      CharInLine(text, base, line, lineNo, i);
      StepKeep(on, text, base, line, lineNo, c, ks, lead);
      c' := c.(i := i + 1, state := if b == '\'' || b == '\"' then Str(b) else if b == '`' then Backtick else Normal);
      ks' := ks + [Kept(b, lineNo)];
    }
  }

  /** One character inside a string, or an escape and the character it protects. */
  method StepStr(ghost on: Track, ghost text: string, ghost base: nat, line: string, lineNo: nat, c: Cursor,
                 ghost ks: seq<Kept>, ghost lead: string)
    returns (c': Cursor, ghost ks': seq<Kept>)
    requires AtLine(text, base, line, lineNo) && InStep(on, text, base, line, lineNo, c, ks, lead)
    requires c.i < |line| && c.state.Str?
    ensures InStep(on, text, base, line, lineNo, c', ks', lead) && c.i < c'.i
  {
    var b := line[c.i];
    ks' := ks + [Kept(b, lineNo)];
    if b == '\\' {
      c' := c.(i := c.i + 2);
      if c.i + 1 < |line| {
        StepEscape(on, text, base, line, lineNo, c, ks, lead);
        ks' := ks' + [Kept(line[c.i + 1], lineNo)];
      } else {
        StepLastEscape(on, text, base, line, lineNo, c, ks, lead);
      }
    } else {
      CharInLine(text, base, line, lineNo, c.i);
      StepKeep(on, text, base, line, lineNo, c, ks, lead);
      c' := c.(i := c.i + 1, state := if b == c.state.quote then Normal else c.state);
    }
  }

  method StepBacktick(ghost on: Track, ghost text: string, ghost base: nat, line: string, lineNo: nat, c: Cursor,
                      ghost ks: seq<Kept>, ghost lead: string)
    returns (c': Cursor, ghost ks': seq<Kept>)
    requires AtLine(text, base, line, lineNo) && InStep(on, text, base, line, lineNo, c, ks, lead)
    requires c.i < |line| && c.state.Backtick?
    ensures InStep(on, text, base, line, lineNo, c', ks', lead) && c.i < c'.i
  {
    StepKeep(on, text, base, line, lineNo, c, ks, lead);
    c' := c.(i := c.i + 1, state := if line[c.i] == '`' then Normal else Backtick);
    ks' := ks + [Kept(line[c.i], lineNo)];
  }

  method StepComment(ghost on: Track, ghost text: string, ghost base: nat, line: string, lineNo: nat, c: Cursor,
                     ghost ks: seq<Kept>, ghost lead: string)
    returns (c': Cursor)
    requires AtLine(text, base, line, lineNo) && InStep(on, text, base, line, lineNo, c, ks, lead)
    requires c.i < |line| && c.state.BlockComment?
    ensures InStep(on, text, base, line, lineNo, c', ks, lead) && c.i < c'.i
  {
    StepBlock(on, text, base, line, lineNo, c, ks, lead);
    if line[c.i] == '*' && c.i + 1 < |line| && line[c.i + 1] == '/' {
      c' := c.(state := Normal, i := c.i + 2, segStart := c.i + 2);
    } else {
      c' := c.(i := c.i + 1);
    }
  }

  /** One round over the line, by lexer state. */
  method Step(ghost on: Track, ghost text: string, ghost base: nat, line: string, lineNo: nat, c: Cursor,
              ghost ks: seq<Kept>, ghost lead: string)
    returns (c': Cursor, ghost ks': seq<Kept>, ghost lead': string)
    requires AtLine(text, base, line, lineNo) && InStep(on, text, base, line, lineNo, c, ks, lead) && c.i < |line|
    ensures InStep(on, text, base, line, lineNo, c', ks', lead') && c.i < c'.i
  {
    ks', lead' := ks, lead;
    match c.state {
      case Normal => c', ks', lead' := StepNormal(on, text, base, line, lineNo, c, ks, lead);
      case Str(_) => c', ks' := StepStr(on, text, base, line, lineNo, c, ks, lead);
      case Backtick => c', ks' := StepBacktick(on, text, base, line, lineNo, c, ks, lead);
      case BlockComment => c' := StepComment(on, text, base, line, lineNo, c, ks, lead);
    }
  }

  /** One line of the splitter; `ks` and `lead` record what was kept since the last cut. */
  method ScanLine(ghost on: Track, ghost text: string, ghost base: nat, line: string, lineNo: nat, start: Cursor,
                  ghost ks0: seq<Kept>, ghost lead0: string)
    returns (c: Cursor, stmt: string, ghost ks: seq<Kept>, ghost lead: string)
    requires AtLine(text, base, line, lineNo) && InStep(on, text, base, line, lineNo, start, ks0, lead0)
    ensures on(c.out, ks, base + |line|, AtLineEnd(c.state)) && Held(ks, lead, stmt, c.stmtLine, lineNo)
  {
    c, ks, lead := start, ks0, lead0;
    while c.i < |line|
      invariant InStep(on, text, base, line, lineNo, c, ks, lead)
      decreases |line| + 1 - c.i
    {
      c, ks, lead := Step(on, text, base, line, lineNo, c, ks, lead);
    }
    InStepEnd(line, c);
    stmt := c.stmt;
    if c.state != BlockComment && c.segStart < |line| { stmt := stmt + line[c.segStart..]; }
  }

  /** At the start of a line nothing of it has been read. */
  lemma LineStart(on: Track, text: string, base: nat, line: string, lineNo: nat, c: Cursor, ks: seq<Kept>, lead: string)
    requires line != "" && c.i == c.segStart == 0 && !c.state.LineComment?
    requires Tracks(on, text) && on(c.out, ks, base, c.state) && Held(ks, lead, c.stmt, c.stmtLine, lineNo)
    ensures InStep(on, text, base, line, lineNo, c, ks, lead)
  {
    assert c.stmt + Segment(line, 0, 0, c.state) == c.stmt;
  }

  /** What is left of the line when it has been read. */
  lemma InStepEnd(line: string, c: Cursor)
    requires CursorOk(line, c) && c.i >= |line|
    ensures c.stmt + Segment(line, c.segStart, c.i, c.state)
      == if c.state != BlockComment && c.segStart < |line| then c.stmt + line[c.segStart..] else c.stmt
  {
    assert c.stmt + "" == c.stmt;
    if !c.state.BlockComment? { assert line[c.segStart..] == line[c.segStart..|line|]; }
  }

  /**
   * `for_each_statement`: the line-at-a-time splitter yields the statements of the text, with
   * their start lines.
   */
  method ForEachStatement(text: string) returns (out: seq<Stmt>)
    ensures out == Split(text)
  {
    var stmt, stmtLine, lineNo, state, base := "", 1, 0, Normal, 0;
    ghost var ks, lead := [], "";
    out := [];
    ghost var on := TextStart(text);
    while true
      invariant base <= |text| && (base < |text| ==> lineNo + 1 == LineAt(text, base))
      invariant on(out, ks, base, AtLineEnd(state)) && Held(ks, lead, stmt, stmtLine, lineNo + 1)
      decreases |text| - base
    {
      var line := ReadLine(text, base);
      if line == "" { break; }
      lineNo := lineNo + 1;
      if state == LineComment { state := Normal; }
      var c := Cursor(stmt, stmtLine, state, out, 0, 0);
      LineStart(on, text, base, line, lineNo, c, ks, lead);
      c, stmt, ks, lead := ScanLine(on, text, base, line, lineNo, c, ks, lead);
      stmtLine, state, out := c.stmtLine, c.state, c.out;
      base := base + |line|;
      HeldNextLine(ks, lead, stmt, stmtLine, lineNo);
      if Trim(stmt) == "" {
        lead := lead + stmt;
        stmt := "";
        stmtLine := lineNo + 1;
      }
    }
    var trimmed := Trim(stmt);
    TextEnd(on, text, out, ks, AtLineEnd(state), lead, stmt, stmtLine, lineNo + 1);
    if trimmed != "" { out := out + [Stmt(stmtLine, trimmed)]; }
  }

  lemma TextStart(text: string) returns (on: Track)
    ensures Tracks(on, text) && on([], [], 0, Normal) && Held([], "", "", 1, 1)
  {
    on := TrackOf(text);
    assert OnText(text, [], [], 0, Normal);
    HeldNothing(1, "");
    assert "" + "" == "";
  }

  /** After the last line, what is held is the last statement. */
  lemma TextEnd(on: Track, text: string, out: seq<Stmt>, ks: seq<Kept>, st: State, lead: string, stmt: string,
                stmtLine: nat, lineNo: nat)
    requires Tracks(on, text) && on(out, ks, |text|, st) && Held(ks, lead, stmt, stmtLine, lineNo)
    ensures Split(text) == if Trim(stmt) == "" then out else out + [Stmt(stmtLine, Trim(stmt))]
  {
    assert OnText(text, out, ks, |text|, st);
    GivenOut(out, ks, lead, stmt, stmtLine, lineNo);
  }

  /** At the end of a line, a statement under way goes on; otherwise the next line may start one. */
  lemma HeldNextLine(ks: seq<Kept>, lead: string, stmt: string, stmtLine: nat, lineNo: nat)
    requires Held(ks, lead, stmt, stmtLine, lineNo)
    ensures Trim(stmt) == "" ==> Held(ks, lead + stmt, "", lineNo + 1, lineNo + 1)
    ensures Trim(stmt) != "" ==> Held(ks, lead, stmt, stmtLine, lineNo + 1)
  {
    HeldIs(ks, lead, stmt, stmtLine, lineNo);
    BlankLead(lead, stmt);
    assert (lead + stmt) + "" == lead + stmt;
    if Trim(stmt) == "" {
      HeldIs(ks, lead + stmt, "", lineNo + 1, lineNo + 1);
    } else {
      HeldIs(ks, lead, stmt, stmtLine, lineNo + 1);
    }
  }
}
