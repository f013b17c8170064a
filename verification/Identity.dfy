/**
 * Minted identities. Text is its UTF-8 bytes; percent-encoding is section 2.1 of RFC 3986 with
 * the reserved set of the importers.
 */
module Identity {
  import opened Ledger
  import opened Octets

  const SLASH: Byte := 0x2F
  const PERCENT: Byte := 0x25

  /** `IRI_SEGMENT` and every byte outside ASCII. */
  predicate Encoded(b: Byte) {
    || b < 0x20 || b >= 0x7F
    || b == 0x20 || b == 0x22 || b == 0x3C || b == 0x3E || b == 0x5C || b == 0x5E || b == 0x60
    || b == 0x7B || b == 0x7C || b == 0x7D || b == PERCENT || b == SLASH || b == 0x23 || b == 0x3F
    || b == 0x5B || b == 0x5D || b == 0x40
  }

  function Hex(d: nat): Byte
    requires d < 16
  {
    if d < 10 then 0x30 + d else 0x41 + (d - 10)
  }

  function UnHex(b: Byte): Option<nat> {
    if 0x30 <= b <= 0x39 then Some(b - 0x30) else if 0x41 <= b <= 0x46 then Some(b - 0x41 + 10) else None
  }

  function EncodeByte(b: Byte): Bytes {
    if Encoded(b) then [PERCENT, Hex(b / 16), Hex(b % 16)] else [b]
  }

  /** `iri_segment`. */
  function Segment(text: Bytes): Bytes {
    if text == [] then [] else EncodeByte(text[0]) + Segment(text[1..])
  }

  /** The left inverse. */
  function Decode(s: Bytes): Option<Bytes> {
    if s == [] then Some([])
    else if s[0] != PERCENT then
      var rest := Decode(s[1..]);
      if rest.None? then None else Some([s[0]] + rest.value)
    else if |s| < 3 || UnHex(s[1]).None? || UnHex(s[2]).None? then None
    else
      var rest := Decode(s[3..]);
      if rest.None? then None else Some([UnHex(s[1]).value * 16 + UnHex(s[2]).value] + rest.value)
  }

  lemma {:induction false} DecodeUndoesSegment(text: Bytes)
    ensures Decode(Segment(text)) == Some(text)
  {
    if text != [] {
      DecodeUndoesSegment(text[1..]);
      var b, rest := text[0], Segment(text[1..]);
      var s := EncodeByte(b) + rest;
      if Encoded(b) {
        assert s[3..] == rest && s[1] == Hex(b / 16) && s[2] == Hex(b % 16);
        assert (b / 16) * 16 + b % 16 == b;
      } else {
        assert s[1..] == rest;
      }
      assert [b] + text[1..] == text;
    }
  }

  lemma {:induction false} SegmentHasNoSlash(text: Bytes)
    ensures SLASH !in Segment(text)
  {
    if text != [] {
      SegmentHasNoSlash(text[1..]);
      assert SLASH !in EncodeByte(text[0]);
    }
  }

  /** Characters that must not stand in a segment as they are. */
  const RESERVED := " \"<>\\^`{|}%/#?[]@"

  /** A printable ASCII character that has no meaning of its own in an IRI. */
  predicate Plain(b: Byte) {
    0x20 < b < 0x7F && b as char !in RESERVED
  }

  predicate IsHexDigit(b: Byte) {
    0x30 <= b <= 0x39 || 0x41 <= b <= 0x46
  }

  /** Plain, or a percent sign with two hex digits after it. */
  predicate SafeAt(s: Bytes, i: nat)
    requires i < |s|
  {
    Plain(s[i]) || (s[i] == PERCENT && i + 2 < |s| && IsHexDigit(s[i + 1]) && IsHexDigit(s[i + 2]))
  }

  lemma EncodedIff(b: Byte)
    ensures Encoded(b) <==> !Plain(b)
  {
    assert RESERVED == [' ', '\"', '<', '>', '\\', '^', '`', '{', '|', '}', '%', '/', '#', '?', '[', ']', '@'];
  }

  lemma HexIsDigit(d: nat)
    requires d < 16
    ensures IsHexDigit(Hex(d)) && Plain(Hex(d))
  {
    assert RESERVED == [' ', '\"', '<', '>', '\\', '^', '`', '{', '|', '}', '%', '/', '#', '?', '[', ']', '@'];
  }

  /** Whatever the text, its segment has no reserved, control or non-ASCII byte outside an escape. */
  lemma {:induction false} SegmentIsSafe(text: Bytes)
    ensures forall i | 0 <= i < |Segment(text)| :: SafeAt(Segment(text), i)
  {
    if text != [] {
      var b, rest := text[0], Segment(text[1..]);
      SegmentIsSafe(text[1..]);
      EncodedIff(b);
      var head := EncodeByte(b);
      forall i | 0 <= i < |head + rest| ensures SafeAt(head + rest, i) {
        if i >= |head| {
          assert SafeAt(rest, i - |head|);
        } else if Encoded(b) {
          HexIsDigit(b / 16);
          HexIsDigit(b % 16);
        }
      }
    }
  }

  /** Text of plain characters only is its own segment. */
  lemma {:induction false} PlainIsUnchanged(text: Bytes)
    requires forall i | 0 <= i < |text| :: Plain(text[i])
    ensures Segment(text) == text
  {
    if text != [] {
      EncodedIff(text[0]);
      PlainIsUnchanged(text[1..]);
    }
  }

  // ---------------------------------------------------------------------------
  // CSV rows
  // ---------------------------------------------------------------------------

  /** `mint_iri`: the id space is not encoded, and an empty one counts as none. */
  function MintIri(base: Bytes, space: Option<Bytes>, value: Bytes): Bytes {
    if space.Some? && space.value != [] then base + space.value + [SLASH] + Segment(value)
    else base + Segment(value)
  }

  function Space(space: Option<Bytes>): Option<Bytes> {
    if space == Some([]) then None else space
  }

  lemma NoSlashAfter(x: Bytes, a: Bytes, i: nat)
    requires SLASH !in a && i < |x| + 1 + |a| && (x + [SLASH] + a)[i] == SLASH
    ensures i <= |x|
  {
  }

  /** The last slash separates the id space from the value. */
  lemma LastSlash(x: Bytes, a: Bytes, y: Bytes, b: Bytes)
    requires SLASH !in a && SLASH !in b && x + [SLASH] + a == y + [SLASH] + b
    ensures x == y && a == b
  {
    var whole := x + [SLASH] + a;
    assert |whole| == |y| + 1 + |b| && whole[|y|] == (y + [SLASH] + b)[|y|] && whole[|x|] == SLASH;
    NoSlashAfter(x, a, |y|);
    NoSlashAfter(y, b, |x|);
    assert x == whole[..|x|] && y == whole[..|y|];
    assert a == whole[|x| + 1..] && b == whole[|y| + 1..];
  }

  lemma CancelBase(base: Bytes, x: Bytes, y: Bytes)
    requires base + x == base + y
    ensures x == y
  {
    assert (base + x)[|base|..] == x && (base + y)[|base|..] == y;
  }

  /** What follows the base. */
  function Tail(space: Option<Bytes>, value: Bytes): Bytes {
    if space.Some? && space.value != [] then space.value + [SLASH] + Segment(value) else Segment(value)
  }

  lemma MintIsTail(base: Bytes, space: Option<Bytes>, value: Bytes)
    ensures MintIri(base, space, value) == base + Tail(space, value)
  {
    if space.Some? && space.value != [] {
      assert base + space.value + [SLASH] + Segment(value) == base + (space.value + [SLASH] + Segment(value));
    }
  }

  lemma TailSlash(space: Option<Bytes>, value: Bytes)
    ensures SLASH in Tail(space, value) <==> space.Some? && space.value != []
    ensures SLASH !in Segment(value)
  {
    SegmentHasNoSlash(value);
    if space.Some? && space.value != [] { assert Tail(space, value)[|space.value|] == SLASH; }
  }

  /** Distinct (id space, value) pairs get distinct IRIs. */
  lemma MintInjective(base: Bytes, s1: Option<Bytes>, v1: Bytes, s2: Option<Bytes>, v2: Bytes)
    requires MintIri(base, s1, v1) == MintIri(base, s2, v2)
    ensures Space(s1) == Space(s2) && v1 == v2
  {
    MintIsTail(base, s1, v1);
    MintIsTail(base, s2, v2);
    CancelBase(base, Tail(s1, v1), Tail(s2, v2));
    TailSlash(s1, v1);
    TailSlash(s2, v2);
    if SLASH in Tail(s1, v1) { LastSlash(s1.value, Segment(v1), s2.value, Segment(v2)); }
    DecodeUndoesSegment(v1);
    DecodeUndoesSegment(v2);
  }

  /** An IRI is the base, then the id space and a slash if there is one, then what decodes to the value. */
  lemma MintReads(base: Bytes, space: Option<Bytes>, value: Bytes)
    ensures var iri := MintIri(base, space, value);
      && base <= iri
      && (space.None? || space == Some([]) ==> Decode(iri[|base|..]) == Some(value))
      && (space.Some? && space != Some([]) ==>
            var n := |base| + |space.value|;
            && n < |iri| && iri[|base|..n] == space.value && iri[n] == SLASH
            && Decode(iri[n + 1..]) == Some(value))
  {
    var iri := MintIri(base, space, value);
    DecodeUndoesSegment(value);
    if space.Some? && space.value != [] {
      var n := |base| + |space.value|;
      assert iri[|base|..n] == space.value;
      assert iri[n + 1..] == Segment(value);
    } else {
      assert iri[|base|..] == Segment(value);
    }
  }

  // ---------------------------------------------------------------------------
  // Cypher nodes
  // ---------------------------------------------------------------------------

  /** `Label/v1/v2…`, every part percent-encoded. */
  function NodePath(kind: Bytes, values: seq<Bytes>): Bytes {
    if values == [] then Segment(kind)
    else NodePath(kind, values[..|values| - 1]) + [SLASH] + Segment(values[|values| - 1])
  }

  function Prefix(vocab: Option<Bytes>): Bytes {
    if vocab.Some? then vocab.value else []
  }

  /** The pieces of a path between slashes. */
  function Pieces(path: Bytes): (r: seq<Bytes>)
    ensures r != []
  {
    if path == [] then [[]]
    else
      var front := Pieces(path[..|path| - 1]);
      if path[|path| - 1] == SLASH then front + [[]]
      else front[..|front| - 1] + [front[|front| - 1] + [path[|path| - 1]]]
  }

  lemma {:induction false} PiecesOfOne(piece: Bytes)
    requires SLASH !in piece
    ensures Pieces(piece) == [piece]
  {
    if piece != [] {
      PiecesOfOne(piece[..|piece| - 1]);
      assert piece == piece[..|piece| - 1] + [piece[|piece| - 1]];
    }
  }

  lemma {:induction false} PiecesSnoc(path: Bytes, piece: Bytes)
    requires SLASH !in piece
    ensures Pieces(path + [SLASH] + piece) == Pieces(path) + [piece]
  {
    var whole := path + [SLASH] + piece;
    if piece == [] {
      assert whole == path + [SLASH] && whole[..|whole| - 1] == path;
    } else {
      var n := |piece| - 1;
      PiecesSnoc(path, piece[..n]);
      assert whole[..|whole| - 1] == path + [SLASH] + piece[..n];
      assert piece == piece[..n] + [piece[n]];
      var front := Pieces(path) + [piece[..n]];
      assert front[..|front| - 1] == Pieces(path);
    }
  }

  function Segments(kind: Bytes, values: seq<Bytes>): (r: seq<Bytes>)
    ensures |r| == 1 + |values|
  {
    if values == [] then [Segment(kind)]
    else Segments(kind, values[..|values| - 1]) + [Segment(values[|values| - 1])]
  }

  lemma {:induction false} NodePathPieces(kind: Bytes, values: seq<Bytes>)
    ensures Pieces(NodePath(kind, values)) == Segments(kind, values)
    decreases |values|
  {
    if values == [] {
      SegmentHasNoSlash(kind);
      PiecesOfOne(Segment(kind));
    } else {
      var front, last := values[..|values| - 1], values[|values| - 1];
      NodePathPieces(kind, front);
      SegmentHasNoSlash(last);
      PiecesSnoc(NodePath(kind, front), Segment(last));
    }
  }

  lemma {:induction false} SegmentsAt(kind: Bytes, values: seq<Bytes>, i: nat)
    requires i <= |values|
    ensures Segments(kind, values)[i] == if i == 0 then Segment(kind) else Segment(values[i - 1])
  {
    if values != [] && i < |values| { SegmentsAt(kind, values[..|values| - 1], i); }
  }

  ghost predicate ReadsAt(ps: seq<Bytes>, values: seq<Bytes>, i: nat)
    requires i < |values| && |ps| == 1 + |values|
  {
    Decode(ps[i + 1]) == Some(values[i])
  }

  /** The pieces decode to the label and the key values, in order. */
  ghost predicate ReadsBack(ps: seq<Bytes>, kind: Bytes, values: seq<Bytes>) {
    && |ps| == 1 + |values| && Decode(ps[0]) == Some(kind)
    && forall i | 0 <= i < |values| :: ReadsAt(ps, values, i)
  }

  lemma SegmentsRead(kind: Bytes, values: seq<Bytes>)
    ensures ReadsBack(Segments(kind, values), kind, values)
  {
    DecodeUndoesSegment(kind);
    SegmentsAt(kind, values, 0);
    forall i | 0 <= i < |values| ensures ReadsAt(Segments(kind, values), values, i) {
      SegmentsAt(kind, values, i + 1);
      DecodeUndoesSegment(values[i]);
    }
  }

  /** `node_id_from_props`, once the key values are known. */
  function NodeId(vocab: Option<Bytes>, kind: Bytes, values: seq<Bytes>): Bytes {
    Prefix(vocab) + NodePath(kind, values)
  }

  /** An id is the vocabulary followed by a path whose pieces read back to the label and the key values. */
  lemma NodeIdReads(vocab: Option<Bytes>, kind: Bytes, values: seq<Bytes>)
    ensures var id, n := NodeId(vocab, kind, values), if vocab.Some? then |vocab.value| else 0;
      && n <= |id| && (vocab.Some? ==> id[..n] == vocab.value)
      && ReadsBack(Pieces(id[n..]), kind, values)
  {
    NodePathPieces(kind, values);
    SegmentsRead(kind, values);
    var id, n := NodeId(vocab, kind, values), if vocab.Some? then |vocab.value| else 0;
    assert id[n..] == NodePath(kind, values);
  }

  lemma NodePathSlash(kind: Bytes, values: seq<Bytes>)
    requires values != []
    ensures SLASH in NodePath(kind, values)
  {
    var front := NodePath(kind, values[..|values| - 1]);
    assert NodePath(kind, values)[|front|] == SLASH;
  }

  lemma {:induction false} NodePathInjective(l1: Bytes, vs1: seq<Bytes>, l2: Bytes, vs2: seq<Bytes>)
    requires NodePath(l1, vs1) == NodePath(l2, vs2)
    ensures l1 == l2 && vs1 == vs2
    decreases |vs1|
  {
    SegmentHasNoSlash(l1);
    SegmentHasNoSlash(l2);
    DecodeUndoesSegment(l1);
    DecodeUndoesSegment(l2);
    if vs1 != [] { NodePathSlash(l1, vs1); }
    if vs2 != [] { NodePathSlash(l2, vs2); }
    if vs1 != [] && vs2 != [] {
      var v1, v2 := vs1[|vs1| - 1], vs2[|vs2| - 1];
      SegmentHasNoSlash(v1);
      SegmentHasNoSlash(v2);
      LastSlash(NodePath(l1, vs1[..|vs1| - 1]), Segment(v1), NodePath(l2, vs2[..|vs2| - 1]), Segment(v2));
      NodePathInjective(l1, vs1[..|vs1| - 1], l2, vs2[..|vs2| - 1]);
      DecodeUndoesSegment(v1);
      DecodeUndoesSegment(v2);
      assert vs1 == vs1[..|vs1| - 1] + [v1] && vs2 == vs2[..|vs2| - 1] + [v2];
    }
  }

  /** Distinct (label, key values) get distinct node ids, for any numbers of keys. */
  lemma NodeIdInjective(vocab: Option<Bytes>, l1: Bytes, vs1: seq<Bytes>, l2: Bytes, vs2: seq<Bytes>)
    requires NodeId(vocab, l1, vs1) == NodeId(vocab, l2, vs2)
    ensures l1 == l2 && vs1 == vs2
  {
    CancelBase(Prefix(vocab), NodePath(l1, vs1), NodePath(l2, vs2));
    NodePathInjective(l1, vs1, l2, vs2);
  }
}
