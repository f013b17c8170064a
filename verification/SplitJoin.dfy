/**
 * Splitting undoes joining.
 */
module SplitJoin {
  import opened CypherLexer

  /** From `i` on, `s` has no bare semicolon and no comment, and ends outside quotes. */
  predicate PlainFrom(s: string, i: nat, st: State)
    requires i <= |s|
    decreases |s| - i
  {
    if i == |s| then st.Normal?
    else if st.Str? && s[i] == '\\' then i + 1 < |s| && PlainFrom(s, i + 2, st)
    else Ordinary(s, i, st) && PlainFrom(s, i + 1, After(st, s[i]))
  }

  /** A trimmed, non-empty statement without comments or bare semicolons. */
  predicate IsStatement(s: string) {
    s != "" && !IsSpace(s[0]) && !IsSpace(s[|s| - 1]) && PlainFrom(s, 0, Normal)
  }

  function Join(ss: seq<string>): string {
    if ss == [] then "" else if |ss| == 1 then ss[0] else ss[0] + ";\n" + Join(ss[1..])
  }

  function Texts(stmts: seq<Stmt>): (r: seq<string>)
    ensures |r| == |stmts|
  {
    seq(|stmts|, i requires 0 <= i < |stmts| => stmts[i].text)
  }

  /** Character `k` of `s` sits in the text at `p`. */
  ghost predicate SitsAt(text: string, p: nat, s: string, k: nat)
    requires k < |s|
  {
    p + k < |text| && text[p + k] == s[k]
  }

  /** `s` sits in the text at `p`, followed by a semicolon or by nothing. */
  ghost predicate Embedded(text: string, p: nat, s: string) {
    && p + |s| <= |text| && (p + |s| < |text| ==> text[p + |s|] == ';')
    && forall k | 0 <= k < |s| :: SitsAt(text, p, s, k)
  }

  lemma OrdinaryEmbedded(text: string, p: nat, s: string, i: nat, st: State)
    requires Embedded(text, p, s) && i < |s| && Ordinary(s, i, st)
    ensures text[p + i] == s[i] && Ordinary(text, p + i, st)
  {
    assert SitsAt(text, p, s, i);
    if i + 1 < |s| { assert SitsAt(text, p, s, i + 1); }
  }

  /** From `i` on, the embedded text is kept, and reading goes on after it. */
  ghost predicate KeptFrom(text: string, p: nat, s: string, i: nat, st: State) {
    p + i <= p + |s| <= |text| && Lex(text, p + i, st) == KeepRange(text, p + i, p + |s|) + Lex(text, p + |s|, Normal)
  }

  lemma EscapeIsKept(text: string, p: nat, s: string, i: nat, q: char)
    requires Embedded(text, p, s) && i + 2 <= |s| && s[i] == '\\' && KeptFrom(text, p, s, i + 2, Str(q))
    ensures KeptFrom(text, p, s, i, Str(q))
  {
    assert SitsAt(text, p, s, i);
    KeepEscape(text, p + i, p + |s|, q, Normal);
  }

  lemma OrdinaryIsKept(text: string, p: nat, s: string, i: nat, st: State)
    requires Embedded(text, p, s) && i < |s| && Ordinary(s, i, st) && KeptFrom(text, p, s, i + 1, After(st, s[i]))
    ensures KeptFrom(text, p, s, i, st)
  {
    OrdinaryEmbedded(text, p, s, i, st);
    KeepOne(text, p + i, p + |s|, st, Normal);
  }

  /** A plain statement is kept whole wherever it is embedded. */
  lemma {:induction false} PlainIsKept(text: string, p: nat, s: string, i: nat, st: State)
    requires Embedded(text, p, s) && i <= |s| && PlainFrom(s, i, st)
    ensures KeptFrom(text, p, s, i, st)
    decreases |s| - i
  {
    if i == |s| {
      KeepNone(text, p + i, Normal);
    } else if st.Str? && s[i] == '\\' {
      PlainIsKept(text, p, s, i + 2, st);
      EscapeIsKept(text, p, s, i, st.quote);
    } else {
      PlainIsKept(text, p, s, i + 1, After(st, s[i]));
      OrdinaryIsKept(text, p, s, i, st);
    }
  }

  function KeptRange(text: string, i: nat, j: nat): (ks: seq<Kept>)
    requires i <= j <= |text|
    ensures |ks| == j - i
    decreases j - i
  {
    if i == j then [] else [KeptAt(text, i)] + KeptRange(text, i + 1, j)
  }

  lemma {:induction false} EmitRange(ks: seq<Kept>, text: string, i: nat, j: nat, rest: seq<Item>)
    requires i <= j <= |text|
    ensures Emit(ks, KeepRange(text, i, j) + rest) == Emit(ks + KeptRange(text, i, j), rest)
    decreases j - i
  {
    if i == j {
      assert KeepRange(text, i, j) + rest == rest;
      assert ks + KeptRange(text, i, j) == ks;
    } else {
      var k := KeptAt(text, i);
      ConsAppend(Keep(k), KeepRange(text, i + 1, j), rest);
      EmitKeep(ks, k, KeepRange(text, i + 1, j) + rest);
      EmitRange(ks + [k], text, i + 1, j, rest);
      assert ks + [k] + KeptRange(text, i + 1, j) == ks + ([k] + KeptRange(text, i + 1, j));
    }
  }

  lemma EmitCut(ks: seq<Kept>, rest: seq<Item>)
    ensures Emit(ks, [Cut] + rest) == Close(ks) + Emit([], rest)
  {
    assert ([Cut] + rest)[1..] == rest;
  }

  lemma {:induction false} KeptChars(text: string, p: nat, s: string, i: nat)
    requires Embedded(text, p, s) && i <= |s|
    ensures Chars(KeptRange(text, p + i, p + |s|)) == s[i..]
    decreases |s| - i
  {
    if i < |s| {
      KeptChars(text, p, s, i + 1);
      assert SitsAt(text, p, s, i);
      var ks := KeptRange(text, p + i + 1, p + |s|);
      assert Chars([KeptAt(text, p + i)] + ks) == [s[i]] + Chars(ks);
      assert s[i..] == [s[i]] + s[i + 1..];
    }
  }

  lemma TrimmedIsFixed(s: string)
    requires s != "" && !IsSpace(s[0]) && !IsSpace(s[|s| - 1])
    ensures Trim(s) == s && !Blank(s)
  {
  }

  /** Blanks before a statement do not matter when it is closed. */
  lemma CloseStatement(ks: seq<Kept>, more: seq<Kept>, s: string)
    requires Blank(Chars(ks)) && Chars(more) == s && s != "" && !IsSpace(s[0]) && !IsSpace(s[|s| - 1])
    ensures Close(ks + more) == [Stmt(more[0].line, s)]
  {
    StartLineLead(ks, more);
    assert more[0].c == s[0];
    var all := Chars(ks + more);
    assert all == Chars(ks) + s;
    assert all[|ks|] == s[0];
    TrimStartLead(Chars(ks), s);
    TrimmedIsFixed(s);
  }

  /** The statements read from position `i` on, after `ks` has been kept. */
  function From(text: string, ks: seq<Kept>, i: nat): seq<Stmt>
    requires i <= |text|
  {
    Emit(ks, Lex(text, i, Normal))
  }

  /** `From` as a value: what follows is about any such `from`, and never looks inside it. */
  type Reader = (seq<Kept>, nat) -> seq<Stmt>

  ghost predicate Reads(from: Reader, text: string) {
    forall ks, i: nat {:trigger From(text, ks, i)} | i <= |text| :: from(ks, i) == From(text, ks, i)
  }

  lemma ReaderOf(text: string) returns (from: Reader)
    ensures Reads(from, text)
  {
    from := (ks: seq<Kept>, i: nat) => if i <= |text| then From(text, ks, i) else [];
  }

  lemma RangeEmits(ks: seq<Kept>, text: string, i: nat, j: nat, items: seq<Item>, rest: seq<Item>)
    requires i <= j <= |text| && items == KeepRange(text, i, j) + rest
    ensures Emit(ks, items) == Emit(ks + KeptRange(text, i, j), rest)
  {
    EmitRange(ks, text, i, j, rest);
  }

  lemma StatementIsKept(text: string, p: nat, s: string, ks: seq<Kept>)
    requires Embedded(text, p, s) && PlainFrom(s, 0, Normal)
    ensures From(text, ks, p) == From(text, ks + KeptRange(text, p, p + |s|), p + |s|)
  {
    PlainIsKept(text, p, s, 0, Normal);
    RangeEmits(ks, text, p, p + |s|, Lex(text, p + 0, Normal), Lex(text, p + |s|, Normal));
  }

  /** One statement at `p`, up to the semicolon or the end. */
  lemma StatementAt(from: Reader, text: string, p: nat, s: string, ks: seq<Kept>) returns (closed: seq<Kept>)
    requires Reads(from, text) && Embedded(text, p, s) && IsStatement(s) && Blank(Chars(ks))
    ensures from(ks, p) == from(closed, p + |s|) && Close(closed) == [Stmt(LineAt(text, p), s)]
  {
    closed := ks + KeptRange(text, p, p + |s|);
    StatementIsKept(text, p, s, ks);
    RangeCloses(text, p, s, ks);
  }

  lemma RangeCloses(text: string, p: nat, s: string, ks: seq<Kept>)
    requires Embedded(text, p, s) && Blank(Chars(ks)) && s != "" && !IsSpace(s[0]) && !IsSpace(s[|s| - 1])
    ensures Close(ks + KeptRange(text, p, p + |s|)) == [Stmt(LineAt(text, p), s)]
  {
    var more := RangeIs(text, p, s);
    CloseStatement(ks, more, s);
  }

  lemma RangeIs(text: string, p: nat, s: string) returns (more: seq<Kept>)
    requires Embedded(text, p, s) && s != ""
    ensures more == KeptRange(text, p, p + |s|) && Chars(more) == s && more[0].line == LineAt(text, p)
  {
    more := KeptRange(text, p, p + |s|);
    KeptChars(text, p, s, 0);
    assert s[0..] == s;
  }

  lemma TextsAppend(a: seq<Stmt>, b: seq<Stmt>)
    ensures Texts(a + b) == Texts(a) + Texts(b)
  {
  }

  lemma SeparatorIsCut(text: string, q: nat, ks: seq<Kept>)
    requires q + 1 < |text| && text[q] == ';' && text[q + 1] == '\n'
    ensures From(text, ks, q) == Close(ks) + From(text, [KeptAt(text, q + 1)], q + 2)
  {
    EmitCut(ks, Lex(text, q + 1, Normal));
    EmitKeep([], KeptAt(text, q + 1), Lex(text, q + 2, Normal));
    assert [] + [KeptAt(text, q + 1)] == [KeptAt(text, q + 1)];
  }

  /** After the statement comes `;` and a newline, which the next statement trims. */
  lemma SeparatorAt(from: Reader, text: string, q: nat, ks: seq<Kept>)
    requires Reads(from, text) && q + 1 < |text| && text[q] == ';' && text[q + 1] == '\n'
    ensures from(ks, q) == Close(ks) + from([KeptAt(text, q + 1)], q + 2)
    ensures Blank(Chars([KeptAt(text, q + 1)]))
  {
    SeparatorIsCut(text, q, ks);
  }

  lemma WholeAt(from: Reader, text: string)
    requires Reads(from, text)
    ensures from([], 0) == Split(text)
  {
    assert From(text, [], 0) == Split(text);
  }

  lemma EndAt(from: Reader, text: string, ks: seq<Kept>)
    requires Reads(from, text)
    ensures from(ks, |text|) == Close(ks)
  {
    assert From(text, ks, |text|) == Close(ks);
  }

  lemma JoinHead(text: string, p: nat, ss: seq<string>)
    requires p <= |text| && text[p..] == Join(ss) && ss != []
    ensures Embedded(text, p, ss[0])
    ensures |ss| == 1 ==> p + |ss[0]| == |text|
    ensures |ss| > 1 ==>
      var q := p + |ss[0]|;
      q + 2 <= |text| && text[q] == ';' && text[q + 1] == '\n' && text[q + 2..] == Join(ss[1..])
  {
    var s := ss[0];
    forall k | 0 <= k < |s| ensures SitsAt(text, p, s, k) { assert text[p..][k] == s[k]; }
    if |ss| > 1 {
      assert text[p..][|s|] == ';' && text[p..][|s| + 1] == '\n';
      assert text[p + |s| + 2..] == text[p..][|s| + 2..];
    }
  }

  lemma PlacedFirst(text: string, p: nat, ss: seq<string>)
    requires ss != [] && p <= |text|
    ensures Placed(text, p, ss) == [Stmt(LineAt(text, p), ss[0])] + Placed(text, p + |ss[0]| + 2, ss[1..])
    ensures |ss| == 1 ==> Placed(text, p, ss) == [Stmt(LineAt(text, p), ss[0])]
  {
  }

  lemma JoinedLast(from: Reader, text: string, p: nat, ss: seq<string>, ks: seq<Kept>)
    requires Reads(from, text) && Blank(Chars(ks))
    requires |ss| == 1 && Embedded(text, p, ss[0]) && IsStatement(ss[0]) && p + |ss[0]| == |text|
    ensures from(ks, p) == Placed(text, p, ss)
  {
    PlacedFirst(text, p, ss);
    var closed := StatementAt(from, text, p, ss[0], ks);
    EndAt(from, text, closed);
  }

  /** A statement followed by a separator comes first; the rest is read after the separator. */
  lemma FirstStatement(from: Reader, text: string, p: nat, s: string, ks: seq<Kept>)
    requires Reads(from, text) && Blank(Chars(ks)) && Embedded(text, p, s) && IsStatement(s)
    requires p + |s| + 1 < |text| && text[p + |s|] == ';' && text[p + |s| + 1] == '\n'
    ensures from(ks, p) == [Stmt(LineAt(text, p), s)] + from([KeptAt(text, p + |s| + 1)], p + |s| + 2)
  {
    var closed := StatementAt(from, text, p, s, ks);
    SeparatorAt(from, text, p + |s|, closed);
  }

  lemma JoinedMore(from: Reader, text: string, p: nat, ss: seq<string>, ks: seq<Kept>)
    requires Reads(from, text) && Blank(Chars(ks))
    requires |ss| > 1 && Embedded(text, p, ss[0]) && IsStatement(ss[0])
    requires p + |ss[0]| + 1 < |text| && text[p + |ss[0]|] == ';' && text[p + |ss[0]| + 1] == '\n'
    requires var q := p + |ss[0]|; from([KeptAt(text, q + 1)], q + 2) == Placed(text, q + 2, ss[1..])
    ensures from(ks, p) == Placed(text, p, ss)
  {
    PlacedFirst(text, p, ss);
    FirstStatement(from, text, p, ss[0], ks);
  }

  lemma {:induction false} JoinedFrom(from: Reader, text: string, p: nat, ss: seq<string>, ks: seq<Kept>)
    requires Reads(from, text) && p <= |text| && text[p..] == Join(ss) && Blank(Chars(ks))
    requires forall i | 0 <= i < |ss| :: IsStatement(ss[i])
    ensures from(ks, p) == Placed(text, p, ss)
    decreases |ss|
  {
    if ss == [] {
      EndAt(from, text, ks);
    } else {
      JoinHead(text, p, ss);
      if |ss| == 1 {
        JoinedLast(from, text, p, ss, ks);
      } else {
        var q := p + |ss[0]|;
        SeparatorAt(from, text, q, ks);
        JoinedFrom(from, text, q + 2, ss[1..], [KeptAt(text, q + 1)]);
        JoinedMore(from, text, p, ss, ks);
      }
    }
  }

  /** The statements, each with the line it starts on: one more than the newlines before it. */
  function Placed(text: string, p: nat, ss: seq<string>): (r: seq<Stmt>)
    ensures |r| == |ss| && forall i | 0 <= i < |ss| :: r[i].text == ss[i]
    decreases |ss|
  {
    if ss == [] then []
    else [Stmt(if p <= |text| then LineAt(text, p) else 0, ss[0])] + Placed(text, p + |ss[0]| + 2, ss[1..])
  }

  lemma SplitIsPlaced(text: string, ss: seq<string>)
    requires text == Join(ss) && forall i | 0 <= i < |ss| :: IsStatement(ss[i])
    ensures Split(text) == Placed(text, 0, ss)
  {
    var from := ReaderOf(text);
    assert text[0..] == text;
    JoinedFrom(from, text, 0, ss, []);
    WholeAt(from, text);
  }

  /**
   * Any list of plain statements, printed with `;` and newline between them, splits back into it,
   * with the lines the statements start on.
   */
  lemma SplitUndoesJoin(ss: seq<string>)
    requires forall i | 0 <= i < |ss| :: IsStatement(ss[i])
    ensures Split(Join(ss)) == Placed(Join(ss), 0, ss) && Texts(Split(Join(ss))) == ss
  {
    SplitIsPlaced(Join(ss), ss);
  }
}
