/**
 * What a `.cypher` script means: one pass over the whole text that keeps characters, drops
 * comments and cuts at bare semicolons. Statements are the trimmed, non-empty pieces.
 */
module CypherLexer {
  datatype State = Normal | Str(quote: char) | Backtick | LineComment | BlockComment

  /** A character of a statement and the line it comes from. */
  datatype Kept = Kept(c: char, line: nat)

  datatype Item = Keep(kept: Kept) | Cut

  datatype Stmt = Stmt(line: nat, text: string)

  predicate Pair(text: string, i: nat, a: char, b: char) {
    i + 1 < |text| && text[i] == a && text[i + 1] == b
  }

  /** One-based line number of a position. */
  function LineAt(text: string, i: nat): nat
    requires i <= |text|
  {
    if i == 0 then 1 else LineAt(text, i - 1) + if text[i - 1] == '\n' then 1 else 0
  }

  function KeptAt(text: string, i: nat): Kept
    requires i < |text|
  {
    Kept(text[i], LineAt(text, i))
  }

  /** State after a kept character outside escapes. */
  function After(st: State, c: char): State {
    match st
    case Normal => if c == '\'' || c == '\"' then Str(c) else if c == '`' then Backtick else Normal
    case Str(q) => if c == q then Normal else st
    case Backtick => if c == '`' then Normal else st
    case _ => st
  }

  /** The items of `text` from position `i` on. */
  function Lex(text: string, i: nat, st: State): seq<Item>
    requires i <= |text|
    decreases |text| - i
  {
    if i == |text| then []
    else if st.LineComment? then Lex(text, i + 1, if text[i] == '\n' then Normal else LineComment)
    else if st.BlockComment? then
      if Pair(text, i, '*', '/') then Lex(text, i + 2, Normal) else Lex(text, i + 1, BlockComment)
    else if st.Normal? && text[i] == ';' then [Cut] + Lex(text, i + 1, Normal)
    else if st.Normal? && Pair(text, i, '/', '/') then
      [Keep(Kept('\n', LineAt(text, i)))] + Lex(text, i + 2, LineComment)
    else if st.Normal? && Pair(text, i, '/', '*') then
      [Keep(Kept(' ', LineAt(text, i)))] + Lex(text, i + 2, BlockComment)
    else if st.Str? && text[i] == '\\' && i + 1 < |text| then
      [Keep(KeptAt(text, i)), Keep(KeptAt(text, i + 1))] + Lex(text, i + 2, st)
    else [Keep(KeptAt(text, i))] + Lex(text, i + 1, After(st, text[i]))
  }

  // ---------------------------------------------------------------------------
  // Blanks, lines, trimming
  // ---------------------------------------------------------------------------

  /** The Unicode White_Space property. */
  predicate IsSpace(c: char) {
    var n := c as int;
    || 0x9 <= n <= 0xD || n == 0x20 || n == 0x85 || n == 0xA0 || n == 0x1680
    || 0x2000 <= n <= 0x200A || n == 0x2028 || n == 0x2029 || n == 0x202F || n == 0x205F || n == 0x3000
  }

  predicate Blank(s: string) {
    forall i | 0 <= i < |s| :: IsSpace(s[i])
  }

  function TrimStart(s: string): string {
    if s != "" && IsSpace(s[0]) then TrimStart(s[1..]) else s
  }

  function TrimEnd(s: string): string {
    if s != "" && IsSpace(s[|s| - 1]) then TrimEnd(s[..|s| - 1]) else s
  }

  function Trim(s: string): string {
    TrimEnd(TrimStart(s))
  }

  /** Trimming takes off all the space around a text that is not blank, and nothing else. */
  lemma {:induction false} TrimStartIs(s: string)
    requires !Blank(s)
    ensures var r := TrimStart(s);
      && r != "" && |r| <= |s| && r == s[|s| - |r|..] && Blank(s[..|s| - |r|]) && !IsSpace(r[0])
  {
    if IsSpace(s[0]) {
      TrimStartIs(s[1..]);
      var n := |s| - |TrimStart(s)|;
      assert s[..n] == [s[0]] + s[1..][..n - 1];
    }
  }

  lemma {:induction false} TrimEndIs(s: string)
    requires !Blank(s)
    ensures var r := TrimEnd(s);
      r != "" && |r| <= |s| && r == s[..|r|] && Blank(s[|r|..]) && !IsSpace(r[|r| - 1])
  {
    var n := |s| - 1;
    if IsSpace(s[n]) {
      assert forall i | 0 <= i < n :: s[i] == s[..n][i];
      TrimEndIs(s[..n]);
      var k := |TrimEnd(s)|;
      assert s[k..] == s[..n][k..] + [s[n]];
    }
  }

  lemma TrimIs(s: string)
    requires !Blank(s)
    ensures var r := Trim(s);
      && r != "" && !IsSpace(r[0]) && !IsSpace(r[|r| - 1])
      && exists i :: 0 <= i <= i + |r| <= |s| && r == s[i..i + |r|] && Blank(s[..i]) && Blank(s[i + |r|..])
  {
    TrimStartIs(s);
    var m := TrimStart(s);
    TrimEndIs(m);
    var i, r := |s| - |m|, Trim(s);
    assert r == s[i..i + |r|];
    assert s[i + |r|..] == m[|r|..];
    assert Blank(s[..i]) && Blank(s[i + |r|..]);
  }

  function Chars(ks: seq<Kept>): (s: string)
    ensures |s| == |ks| && forall i | 0 <= i < |ks| :: s[i] == ks[i].c
  {
    seq(|ks|, i requires 0 <= i < |ks| => ks[i].c)
  }

  /** The line of the first character that is not blank. */
  function StartLine(ks: seq<Kept>): nat {
    if ks == [] then 0 else if IsSpace(ks[0].c) then StartLine(ks[1..]) else ks[0].line
  }

  // ---------------------------------------------------------------------------
  // Statements
  // ---------------------------------------------------------------------------

  /** The statement a run of kept characters makes, if it makes one. */
  function Close(ks: seq<Kept>): seq<Stmt> {
    if Blank(Chars(ks)) then [] else [Stmt(StartLine(ks), Trim(Chars(ks)))]
  }

  /** The statements of the items, after `ks` has been kept since the last cut. */
  function Emit(ks: seq<Kept>, items: seq<Item>): seq<Stmt>
    decreases |items|
  {
    if items == [] then Close(ks)
    else if items[0].Cut? then Close(ks) + Emit([], items[1..])
    else Emit(ks + [items[0].kept], items[1..])
  }

  function Split(text: string): seq<Stmt> {
    Emit([], Lex(text, 0, Normal))
  }

  lemma EmitKeep(ks: seq<Kept>, k: Kept, rest: seq<Item>)
    ensures Emit(ks, [Keep(k)] + rest) == Emit(ks + [k], rest)
  {
    assert ([Keep(k)] + rest)[1..] == rest;
  }

  // ---------------------------------------------------------------------------
  // Trimming facts
  // ---------------------------------------------------------------------------

  lemma {:induction false} TrimStartLead(lead: string, s: string)
    requires Blank(lead)
    ensures TrimStart(lead + s) == TrimStart(s)
  {
    if lead == "" {
      assert lead + s == s;
    } else {
      TrimStartLead(lead[1..], s);
      assert (lead + s)[1..] == lead[1..] + s;
    }
  }

  lemma {:induction false} TrimStartBlank(s: string)
    ensures Blank(s) <==> TrimStart(s) == ""
    ensures TrimStart(s) != "" ==> !IsSpace(TrimStart(s)[0])
  {
    if s != "" && IsSpace(s[0]) {
      TrimStartBlank(s[1..]);
      assert forall i | 0 < i < |s| :: s[i] == s[1..][i - 1];
    }
  }

  lemma {:induction false} TrimEndKeeps(s: string)
    requires s != "" && !IsSpace(s[0])
    ensures TrimEnd(s) != ""
  {
    if IsSpace(s[|s| - 1]) { TrimEndKeeps(s[..|s| - 1]); }
  }

  lemma TrimBlank(s: string)
    ensures Blank(s) <==> Trim(s) == ""
  {
    TrimStartBlank(s);
    if !Blank(s) { TrimEndKeeps(TrimStart(s)); }
  }

  lemma {:induction false} StartLineLead(lead: seq<Kept>, ks: seq<Kept>)
    requires Blank(Chars(lead))
    ensures StartLine(lead + ks) == StartLine(ks)
  {
    if lead == [] {
      assert lead + ks == ks;
    } else {
      assert Chars(lead)[0] == lead[0].c;
      assert (lead + ks)[1..] == lead[1..] + ks;
      assert forall i | 0 <= i < |lead[1..]| :: Chars(lead[1..])[i] == Chars(lead)[i + 1];
      StartLineLead(lead[1..], ks);
    }
  }

  lemma {:induction false} StartLineMore(ks: seq<Kept>, more: seq<Kept>)
    requires !Blank(Chars(ks))
    ensures StartLine(ks + more) == StartLine(ks)
  {
    assert Chars(ks)[0] == ks[0].c;
    if IsSpace(ks[0].c) {
      assert (ks + more)[1..] == ks[1..] + more;
      assert forall i | 0 < i < |ks| :: Chars(ks)[i] == Chars(ks[1..])[i - 1];
      StartLineMore(ks[1..], more);
    }
  }

  // ---------------------------------------------------------------------------
  // Quoted text and comments are one piece
  // ---------------------------------------------------------------------------

  /** The characters from `i` to `j`, all kept. */
  function KeepRange(text: string, i: nat, j: nat): seq<Item>
    requires i <= j <= |text|
    decreases j - i
  {
    if i == j then [] else [Keep(KeptAt(text, i))] + KeepRange(text, i + 1, j)
  }

  /** Nothing special happens at position `i`. */
  predicate Ordinary(text: string, i: nat, st: State)
    requires i < |text|
  {
    match st
    case Normal => text[i] != ';' && !Pair(text, i, '/', '/') && !Pair(text, i, '/', '*')
    case Str(_) => text[i] != '\\'
    case Backtick => true
    case _ => false
  }

  /** An ordinary character in front of a kept range extends it. */
  lemma KeepOne(text: string, i: nat, j: nat, st: State, end: State)
    requires i < j <= |text| && Ordinary(text, i, st)
    requires Lex(text, i + 1, After(st, text[i])) == KeepRange(text, i + 1, j) + Lex(text, j, end)
    ensures Lex(text, i, st) == KeepRange(text, i, j) + Lex(text, j, end)
  {
    ConsAppend(Keep(KeptAt(text, i)), KeepRange(text, i + 1, j), Lex(text, j, end));
  }

  /** So does an escape inside a string. */
  lemma KeepEscape(text: string, i: nat, j: nat, q: char, end: State)
    requires i + 2 <= j <= |text| && text[i] == '\\'
    requires Lex(text, i + 2, Str(q)) == KeepRange(text, i + 2, j) + Lex(text, j, end)
    ensures Lex(text, i, Str(q)) == KeepRange(text, i, j) + Lex(text, j, end)
  {
    var a, b, rest := Keep(KeptAt(text, i)), Keep(KeptAt(text, i + 1)), KeepRange(text, i + 2, j);
    ConsTwo(a, b, rest, Lex(text, j, end));
    assert KeepRange(text, i, j) == [a] + ([b] + rest);
  }

  lemma ConsTwo<T>(x: T, y: T, ys: seq<T>, zs: seq<T>)
    ensures [x, y] + (ys + zs) == ([x] + ([y] + ys)) + zs
  {
  }

  lemma ConsAppend<T>(x: T, ys: seq<T>, zs: seq<T>)
    ensures [x] + (ys + zs) == ([x] + ys) + zs
  {
  }

  lemma KeepNone(text: string, i: nat, st: State)
    requires i <= |text|
    ensures Lex(text, i, st) == KeepRange(text, i, i) + Lex(text, i, st)
  {
  }

  /** A string body between `i` and its closing quote at `j`: every backslash takes the next char. */
  predicate StrBody(text: string, i: nat, j: nat, q: char)
    requires i <= j < |text|
    decreases j - i
  {
    if i == j then text[j] == q
    else if text[i] == '\\' then i + 1 < j && StrBody(text, i + 2, j, q)
    else text[i] != q && StrBody(text, i + 1, j, q)
  }

  lemma {:induction false} StrBodyKept(text: string, i: nat, j: nat, q: char)
    requires i <= j < |text| && q != '\\' && StrBody(text, i, j, q)
    ensures Lex(text, i, Str(q)) == KeepRange(text, i, j + 1) + Lex(text, j + 1, Normal)
    decreases j - i
  {
    if i == j {
      KeepNone(text, j + 1, Normal);
      KeepOne(text, i, j + 1, Str(q), Normal);
    } else if text[i] == '\\' {
      StrBodyKept(text, i + 2, j, q);
      KeepEscape(text, i, j + 1, q, Normal);
    } else {
      StrBodyKept(text, i + 1, j, q);
      KeepOne(text, i, j + 1, Str(q), Normal);
    }
  }

  /** No character of a string literal cuts: it is kept whole, semicolons and comment marks included. */
  lemma StringIsKept(text: string, i: nat, j: nat)
    requires i < j < |text| && (text[i] == '\'' || text[i] == '\"') && StrBody(text, i + 1, j, text[i])
    ensures Lex(text, i, Normal) == KeepRange(text, i, j + 1) + Lex(text, j + 1, Normal)
  {
    StrBodyKept(text, i + 1, j, text[i]);
    KeepOne(text, i, j + 1, Normal, Normal);
  }

  /** A name between `i` and its closing backtick at `j`; there are no escapes. */
  predicate NameBody(text: string, i: nat, j: nat)
    requires i <= j < |text|
    decreases j - i
  {
    if i == j then text[j] == '`' else text[i] != '`' && NameBody(text, i + 1, j)
  }

  lemma {:induction false} BacktickBodyKept(text: string, i: nat, j: nat)
    requires i <= j < |text| && NameBody(text, i, j)
    ensures Lex(text, i, Backtick) == KeepRange(text, i, j + 1) + Lex(text, j + 1, Normal)
    decreases j - i
  {
    if i == j {
      KeepNone(text, j + 1, Normal);
      KeepOne(text, j, j + 1, Backtick, Normal);
    } else {
      BacktickBodyKept(text, i + 1, j);
      KeepOne(text, i, j + 1, Backtick, Normal);
    }
  }

  /** A backticked name is kept whole. */
  lemma BacktickIsKept(text: string, i: nat, j: nat)
    requires i < j < |text| && text[i] == '`' && NameBody(text, i + 1, j)
    ensures Lex(text, i, Normal) == KeepRange(text, i, j + 1) + Lex(text, j + 1, Normal)
  {
    BacktickBodyKept(text, i + 1, j);
    KeepOne(text, i, j + 1, Normal, Normal);
  }

  /** What follows a line comment's text up to and including the newline, or the end. */
  lemma {:induction false} LineCommentSkips(text: string, i: nat, j: nat)
    requires i <= j <= |text| && forall k | i <= k < j :: text[k] != '\n'
    ensures j < |text| && text[j] == '\n' ==> Lex(text, i, LineComment) == Lex(text, j + 1, Normal)
    ensures j == |text| ==> Lex(text, i, LineComment) == []
    decreases j - i
  {
    if i < j { LineCommentSkips(text, i + 1, j); }
  }

  /** A line comment counts as one newline, whatever it says. */
  lemma LineCommentIsNewline(text: string, i: nat, j: nat)
    requires i + 2 <= j < |text| && Pair(text, i, '/', '/')
    requires text[j] == '\n' && forall k | i + 2 <= k < j :: text[k] != '\n'
    ensures Lex(text, i, Normal) == [Keep(Kept('\n', LineAt(text, i)))] + Lex(text, j + 1, Normal)
  {
    LineCommentSkips(text, i + 2, j);
  }

  lemma {:induction false} BlockCommentSkips(text: string, i: nat, j: nat)
    requires i <= j && Pair(text, j, '*', '/') && forall k | i <= k < j :: !Pair(text, k, '*', '/')
    ensures Lex(text, i, BlockComment) == Lex(text, j + 2, Normal)
    decreases j - i
  {
    if i < j { BlockCommentSkips(text, i + 1, j); }
  }

  /** A block comment counts as one space; its opening star does not close it. */
  lemma BlockCommentIsSpace(text: string, i: nat, j: nat)
    requires i + 2 <= j && Pair(text, i, '/', '*')
    requires Pair(text, j, '*', '/') && forall k | i + 2 <= k < j :: !Pair(text, k, '*', '/')
    ensures Lex(text, i, Normal) == [Keep(Kept(' ', LineAt(text, i)))] + Lex(text, j + 2, Normal)
  {
    BlockCommentSkips(text, i + 2, j);
  }
}
