/** The whitespace-and-comment skipper of the configuration-file parser
    (git-config/src/parse.rs).

    A `BytesReader` is a byte sequence with a cursor that its methods advance
    in place. `SkipWhitespaceOrComment` repeatedly skips a `#` comment and a
    run of whitespace until one round consumes nothing; in `EndOfLine` mode
    the whitespace run stops before a line feed, which is consumed on its own
    once the loop has settled. The functions `LineEnd`, `RunEnd`,
    `CommentEnd`, `Round`, `Fixpoint` and `SkipEnd` say on plain sequences
    where each step leaves the cursor; the lemmas state what the skipper
    consumes in terms of the input alone. */
module ConfigParse {
  import opened Wrappers

  /** How far the skipper goes: over every line, or to the end of the current one. */
  datatype ConsumeTo = NextToken | EndOfLine

  const NL: byte := 0x0A
  const HASH: byte := 0x23

  /** Rust's `u8::is_ascii_whitespace`: space, tab, line feed, form feed and
      carriage return. Vertical tab (0x0B) is not included. */
  predicate IsAsciiWhitespace(c: byte) {
    c == 0x20 || c == 0x09 || c == 0x0A || c == 0x0C || c == 0x0D
  }

  /** The predicate the whitespace run is taken with: in `EndOfLine` mode a
      line feed ends the run. */
  predicate Skippable(c: byte, toWhere: ConsumeTo) {
    IsAsciiWhitespace(c) && (toWhere.NextToken? || c != NL)
  }

  /** The first line feed at or after `p`, or the end of the input. */
  function LineEnd(data: seq<byte>, p: nat): (e: nat)
    requires p <= |data|
    ensures p <= e <= |data|
    ensures forall i :: p <= i < e ==> data[i] != NL
    ensures e == |data| || data[e] == NL
    decreases |data| - p
  {
    if p == |data| || data[p] == NL then p else LineEnd(data, p + 1)
  }

  /** The first position at or after `p` that does not continue the whitespace run. */
  function RunEnd(data: seq<byte>, p: nat, toWhere: ConsumeTo): (e: nat)
    requires p <= |data|
    ensures p <= e <= |data|
    ensures forall i :: p <= i < e ==> Skippable(data[i], toWhere)
    ensures e == |data| || !Skippable(data[e], toWhere)
    decreases |data| - p
  {
    if p == |data| || !Skippable(data[p], toWhere) then p else RunEnd(data, p + 1, toWhere)
  }

  /** Where `SkipComment` leaves the cursor: a comment starts only at a `#`
      under the cursor and runs up to, not including, the next line feed. */
  function CommentEnd(data: seq<byte>, p: nat): (e: nat)
    requires p <= |data|
    ensures p <= e <= |data|
    ensures e != p <==> p < |data| && data[p] == HASH
    ensures forall i :: p <= i < e ==> data[i] != NL
    ensures e == p || e == |data| || data[e] == NL
  {
    if p < |data| && data[p] == HASH then LineEnd(data, p) else p
  }

  /** One round of the loop: a comment, then a whitespace run. */
  function Round(data: seq<byte>, p: nat, toWhere: ConsumeTo): nat
    requires p <= |data|
  {
    RunEnd(data, CommentEnd(data, p), toWhere)
  }

  /** Where the loop settles: the first position reached from `p` at which a
      round consumes nothing. */
  function Fixpoint(data: seq<byte>, p: nat, toWhere: ConsumeTo): (f: nat)
    requires p <= |data|
    ensures p <= f <= |data|
    ensures Round(data, f, toWhere) == f
    decreases |data| - p
  {
    var q := Round(data, p, toWhere);
    if q == p then p else Fixpoint(data, q, toWhere)
  }

  /** Where the skipper leaves the cursor: the settled position, and in
      `EndOfLine` mode one line feed more if one is there. */
  function SkipEnd(data: seq<byte>, p: nat, toWhere: ConsumeTo): nat
    requires p <= |data|
  {
    var f := Fixpoint(data, p, toWhere);
    if toWhere.EndOfLine? && f < |data| && data[f] == NL then f + 1 else f
  }

  /** Byte `i` lies inside a comment that starts at or after `lo`: going back
      from `i`, a `#` comes before any line feed. */
  predicate InComment(data: seq<byte>, lo: nat, i: nat)
    requires lo <= i < |data|
    decreases i - lo
  {
    data[i] != NL && (data[i] == HASH || (lo < i && InComment(data, lo, i - 1)))
  }

  // ---------------------------------------------------------------------
  // What the skipper consumes
  // ---------------------------------------------------------------------

  /** Every byte a comment takes, from its `#` to the end of the line, lies in that comment. */
  lemma {:induction false} CommentBytesInComment(data: seq<byte>, p: nat, i: nat)
    requires p < |data| && data[p] == HASH
    requires p <= i < LineEnd(data, p)
    ensures InComment(data, p, i)
    decreases i - p
  {
    if i > p {
      CommentBytesInComment(data, p, i - 1);
    }
  }

  /** A comment starting at or after `mid` also starts at or after any `lo <= mid`. */
  lemma {:induction false} InCommentWiden(data: seq<byte>, lo: nat, mid: nat, i: nat)
    requires lo <= mid <= i < |data|
    requires InComment(data, mid, i)
    ensures InComment(data, lo, i)
    decreases i - mid
  {
    if data[i] != HASH {
      InCommentWiden(data, lo, mid, i - 1);
    }
  }

  /** One round consumes only whitespace and comment bytes; in `EndOfLine`
      mode it consumes no line feed at all. */
  lemma {:induction false} RoundBlanks(data: seq<byte>, p: nat, toWhere: ConsumeTo)
    requires p <= |data|
    ensures forall i :: p <= i < Round(data, p, toWhere) ==>
      IsAsciiWhitespace(data[i]) || InComment(data, p, i)
    ensures toWhere.EndOfLine? ==> forall i :: p <= i < Round(data, p, toWhere) ==> data[i] != NL
  {
    var c := CommentEnd(data, p);
    forall i | p <= i < c
      ensures InComment(data, p, i)
    {
      CommentBytesInComment(data, p, i);
    }
  }

  /** The rounds up to the settled position consume only whitespace and
      comment bytes; in `EndOfLine` mode they consume no line feed. */
  lemma {:induction false} FixpointBlanks(data: seq<byte>, p: nat, toWhere: ConsumeTo)
    requires p <= |data|
    ensures forall i :: p <= i < Fixpoint(data, p, toWhere) ==>
      IsAsciiWhitespace(data[i]) || InComment(data, p, i)
    ensures toWhere.EndOfLine? ==> forall i :: p <= i < Fixpoint(data, p, toWhere) ==> data[i] != NL
    decreases |data| - p
  {
    var q := Round(data, p, toWhere);
    RoundBlanks(data, p, toWhere);
    if q != p {
      FixpointBlanks(data, q, toWhere);
      forall i | q <= i < Fixpoint(data, p, toWhere) && InComment(data, q, i)
        ensures InComment(data, p, i)
      {
        InCommentWiden(data, p, q, i);
      }
    }
  }

  /** No byte is consumed unless it is ASCII whitespace or lies in a comment. */
  lemma {:induction false} SkipConsumesOnlyBlanks(data: seq<byte>, p: nat, toWhere: ConsumeTo)
    requires p <= |data|
    ensures p <= SkipEnd(data, p, toWhere) <= |data|
    ensures forall i :: p <= i < SkipEnd(data, p, toWhere) ==>
      IsAsciiWhitespace(data[i]) || InComment(data, p, i)
  {
    FixpointBlanks(data, p, toWhere);
  }

  /** No comment that starts at or after `p` is still open right before
      `q`: `q` is `p`, the end of the input or a line feed, or the byte
      before it lies outside every such comment. */
  predicate Settled(data: seq<byte>, p: nat, q: nat)
    requires p <= q <= |data|
  {
    q == p || q == |data| || data[q] == NL || !InComment(data, p, q - 1)
  }

  /** Bytes that are not `#`, following a byte outside every comment, lie
      outside every comment too. */
  lemma {:induction false} NoHashOutsideComment(data: seq<byte>, p: nat, a: nat, b: nat)
    requires p <= a < b <= |data|
    requires !InComment(data, p, a)
    requires forall i :: a < i < b ==> data[i] != HASH
    ensures !InComment(data, p, b - 1)
    decreases b - a
  {
    if b - 1 > a {
      NoHashOutsideComment(data, p, a, b - 1);
    }
  }

  /** A round that consumes something stops where no comment is open. */
  lemma {:induction false} RoundSettled(data: seq<byte>, p: nat, q: nat, toWhere: ConsumeTo)
    requires p <= q <= |data| && Settled(data, p, q)
    requires Round(data, q, toWhere) != q
    ensures Settled(data, p, Round(data, q, toWhere))
  {
    var c, r := CommentEnd(data, q), Round(data, q, toWhere);
    if c > q {
      if r > c {
        assert data[c] == NL;
        NoHashOutsideComment(data, p, c, r);
      }
    } else {
      assert Skippable(data[q], toWhere);
      assert !InComment(data, p, q);
      NoHashOutsideComment(data, p, q, r);
    }
  }

  /** The loop never settles inside a comment: a comment that it meets is
      consumed to its end. */
  lemma {:induction false} FixpointOutsideComment(data: seq<byte>, p: nat, q: nat, toWhere: ConsumeTo)
    requires p <= q <= |data| && Settled(data, p, q)
    ensures var f := Fixpoint(data, q, toWhere);
      f == |data| || !InComment(data, p, f)
    decreases |data| - q
  {
    var r := Round(data, q, toWhere);
    if r == q {
      assert CommentEnd(data, q) == q;
    } else {
      RoundSettled(data, p, q, toWhere);
      FixpointOutsideComment(data, p, r, toWhere);
    }
  }

  /** In `NextToken` mode the skipper stops only at the end of the input or
      at a byte that is neither whitespace nor the start of a comment, and
      never inside a comment: a comment is consumed whole, like whitespace. */
  lemma {:induction false} NextTokenStopsAtToken(data: seq<byte>, p: nat)
    requires p <= |data|
    ensures var e := SkipEnd(data, p, NextToken);
      e == |data| || (!IsAsciiWhitespace(data[e]) && data[e] != HASH)
    ensures var e := SkipEnd(data, p, NextToken);
      e == |data| || !InComment(data, p, e)
  {
    FixpointOutsideComment(data, p, p, NextToken);
  }

  /** In `EndOfLine` mode at most one line feed is consumed, and only as the
      last byte; the skipper stops after that line feed, at the end of the
      input, or at a byte that is neither whitespace nor the start of a
      comment, and in the last two cases never inside a comment. */
  lemma {:induction false} EndOfLineStopsAfterLine(data: seq<byte>, p: nat)
    requires p <= |data|
    ensures var e := SkipEnd(data, p, EndOfLine);
      forall i :: p <= i < e && data[i] == NL ==> i == e - 1
    ensures var e := SkipEnd(data, p, EndOfLine);
      e == |data| || (p < e && data[e - 1] == NL) || (!IsAsciiWhitespace(data[e]) && data[e] != HASH)
    ensures var e := SkipEnd(data, p, EndOfLine);
      e < |data| && !(p < e && data[e - 1] == NL) ==> !InComment(data, p, e)
  {
    FixpointBlanks(data, p, EndOfLine);
    FixpointOutsideComment(data, p, p, EndOfLine);
  }

  /** Skipping in `NextToken` mode right after a skip in that mode consumes nothing. */
  lemma {:induction false} NextTokenIdempotent(data: seq<byte>, p: nat)
    requires p <= |data|
    ensures var e := SkipEnd(data, p, NextToken);
      e <= |data| && SkipEnd(data, e, NextToken) == e
  {
  }

  /** `EndOfLine` mode never consumes more than `NextToken` mode from the same position. */
  lemma {:induction false} EndOfLineWithinNextToken(data: seq<byte>, p: nat)
    requires p <= |data|
    ensures SkipEnd(data, p, EndOfLine) <= SkipEnd(data, p, NextToken)
    decreases |data| - p
  {
    var q1, q2 := Round(data, p, EndOfLine), Round(data, p, NextToken);
    var f1, f2 := Fixpoint(data, p, EndOfLine), Fixpoint(data, p, NextToken);
    assert q1 <= q2;
    assert f2 >= q2;
    assert SkipEnd(data, p, NextToken) == f2;
    if q1 == p {
      assert f1 == p;
      if p < |data| && data[p] == NL {
        assert Skippable(data[p], NextToken);
        assert q2 > p;
      }
      assert SkipEnd(data, p, EndOfLine) <= q2;
    } else if q1 < q2 {
      assert Skippable(data[q1], NextToken);
      assert data[q1] == NL;
      assert Round(data, q1, EndOfLine) == q1;
      assert f1 == Fixpoint(data, q1, EndOfLine) == q1;
      assert SkipEnd(data, p, EndOfLine) <= q2;
    } else {
      assert f1 == Fixpoint(data, q1, EndOfLine);
      assert f2 == Fixpoint(data, q1, NextToken);
      EndOfLineWithinNextToken(data, q1);
      assert SkipEnd(data, p, EndOfLine) == SkipEnd(data, q1, EndOfLine);
    }
  }

  // The spans that the unit tests of parse.rs expect (bytes written in decimal).

  /** `RunEnd` is the only position that ends the run: used to evaluate it on fixed inputs. */
  lemma {:induction false} RunEndIs(data: seq<byte>, p: nat, e: nat, toWhere: ConsumeTo)
    requires p <= e <= |data|
    requires forall i :: p <= i < e ==> Skippable(data[i], toWhere)
    requires e == |data| || !Skippable(data[e], toWhere)
    ensures RunEnd(data, p, toWhere) == e
  {
  }

  /** `LineEnd` is the only position that ends the line. */
  lemma {:induction false} LineEndIs(data: seq<byte>, p: nat, e: nat)
    requires p <= e <= |data|
    requires forall i :: p <= i < e ==> data[i] != NL
    requires e == |data| || data[e] == NL
    ensures LineEnd(data, p) == e
  {
  }

  /** Five spaces, a line feed, five spaces, a tab, a line feed: all 13 bytes are taken. */
  lemma SpanNoCommentTillNextToken()
    ensures SkipEnd([32, 32, 32, 32, 32, 10, 32, 32, 32, 32, 32, 9, 10], 0, NextToken) == 13
  {
    var d: seq<byte> := [32, 32, 32, 32, 32, 10, 32, 32, 32, 32, 32, 9, 10];
    RunEndIs(d, 0, 13, NextToken);
    assert Round(d, 0, NextToken) == 13;
    RunEndIs(d, 13, 13, NextToken);
    assert Round(d, 13, NextToken) == 13;
    assert Fixpoint(d, 13, NextToken) == 13;
  }

  /** The same spaces with the last line feed a space: only the first line, 6 bytes. */
  lemma SpanNoCommentToEndOfLine()
    ensures SkipEnd([32, 32, 32, 32, 32, 10, 32, 32, 32, 32, 32, 9, 32], 0, EndOfLine) == 6
  {
    var d: seq<byte> := [32, 32, 32, 32, 32, 10, 32, 32, 32, 32, 32, 9, 32];
    RunEndIs(d, 0, 5, EndOfLine);
    assert Round(d, 0, EndOfLine) == 5;
    RunEndIs(d, 5, 5, EndOfLine);
    assert Round(d, 5, EndOfLine) == 5;
    assert Fixpoint(d, 5, EndOfLine) == 5;
    assert Fixpoint(d, 0, EndOfLine) == 5;
  }

  /** A space, the comment `#ho `, a line feed and blanks: all 13 bytes. */
  lemma SpanCommentToNextToken()
    ensures SkipEnd([32, 35, 104, 111, 32, 10, 32, 32, 32, 32, 32, 9, 32], 0, NextToken) == 13
  {
    var d: seq<byte> := [32, 35, 104, 111, 32, 10, 32, 32, 32, 32, 32, 9, 32];
    RunEndIs(d, 0, 1, NextToken);
    assert Round(d, 0, NextToken) == 1;
    LineEndIs(d, 1, 5);
    RunEndIs(d, 5, 13, NextToken);
    assert Round(d, 1, NextToken) == 13;
    RunEndIs(d, 13, 13, NextToken);
    assert Round(d, 13, NextToken) == 13;
    assert Fixpoint(d, 13, NextToken) == 13;
    assert Fixpoint(d, 1, NextToken) == 13;
  }

  /** The comment `# hi `, a line feed and blanks: the first line, 6 bytes. */
  lemma SpanCommentToEndOfLine()
    ensures SkipEnd([35, 32, 104, 105, 32, 10, 32, 32, 32, 32, 32, 9, 32], 0, EndOfLine) == 6
  {
    var d: seq<byte> := [35, 32, 104, 105, 32, 10, 32, 32, 32, 32, 32, 9, 32];
    LineEndIs(d, 0, 5);
    RunEndIs(d, 5, 5, EndOfLine);
    assert Round(d, 0, EndOfLine) == 5;
    assert Round(d, 5, EndOfLine) == 5;
    assert Fixpoint(d, 5, EndOfLine) == 5;
    assert Fixpoint(d, 0, EndOfLine) == 5;
  }

  /** Three spaces before `a=2`: the token is not consumed, 3 bytes. */
  lemma SpanWhitespaceToToken()
    ensures SkipEnd([32, 32, 32, 97, 61, 50, 32, 32, 32, 10, 32, 32, 32, 32, 32, 9, 32], 0, NextToken) == 3
  {
    var d: seq<byte> := [32, 32, 32, 97, 61, 50, 32, 32, 32, 10, 32, 32, 32, 32, 32, 9, 32];
    RunEndIs(d, 0, 3, NextToken);
    assert Round(d, 0, NextToken) == 3;
    RunEndIs(d, 3, 3, NextToken);
    assert Round(d, 3, NextToken) == 3;
    assert Fixpoint(d, 3, NextToken) == 3;
  }

  /** Four spaces, a line feed, two spaces before `b=2`: 7 bytes. */
  lemma SpanWhitespaceToTokenOnNextLine()
    ensures SkipEnd([32, 32, 32, 32, 10, 32, 32, 98, 61, 50, 9, 32], 0, NextToken) == 7
  {
    var d: seq<byte> := [32, 32, 32, 32, 10, 32, 32, 98, 61, 50, 9, 32];
    RunEndIs(d, 0, 7, NextToken);
    assert Round(d, 0, NextToken) == 7;
    RunEndIs(d, 7, 7, NextToken);
    assert Round(d, 7, NextToken) == 7;
    assert Fixpoint(d, 7, NextToken) == 7;
  }

  // ---------------------------------------------------------------------
  // The reader and the skipper
  // ---------------------------------------------------------------------

  /** `dangerous::BytesReader`: the input and a cursor into it. */
  class BytesReader {
    const bytes: seq<byte>
    var pos: nat

    ghost predicate Valid()
      reads this
    {
      pos <= |bytes|
    }

    constructor (input: seq<byte>)
      ensures Valid() && bytes == input && pos == 0
    {
      bytes := input;
      pos := 0;
    }

    /** The next byte is `b`. */
    predicate PeekEq(b: byte)
      reads this
      requires Valid()
    {
      pos < |bytes| && bytes[pos] == b
    }

    /** Takes the longest run of bytes, from the cursor on, that satisfy `keep`. */
    method TakeWhile(keep: byte -> bool) returns (taken: seq<byte>)
      requires Valid()
      modifies this
      ensures Valid() && old(pos) <= pos
      ensures taken == bytes[old(pos)..pos]
      ensures forall i :: old(pos) <= i < pos ==> keep(bytes[i])
      ensures pos == |bytes| || !keep(bytes[pos])
    {
      var end := pos;
      while end < |bytes| && keep(bytes[end])
        invariant pos <= end <= |bytes|
        invariant forall i :: pos <= i < end ==> keep(bytes[i])
      {
        end := end + 1;
      }
      taken := bytes[pos..end];
      pos := end;
    }

    /** Takes the bytes up to, not including, the first `b`, or all the rest
        when there is no `b`. */
    method TakeUntilOpt(b: byte) returns (taken: seq<byte>)
      requires Valid()
      modifies this
      ensures Valid() && old(pos) <= pos
      ensures taken == bytes[old(pos)..pos]
      ensures forall i :: old(pos) <= i < pos ==> bytes[i] != b
      ensures pos == |bytes| || bytes[pos] == b
    {
      taken := TakeWhile((c: byte) => c != b);
    }

    /** Consumes the next byte when it is `b`. */
    method ConsumeOpt(b: byte) returns (consumed: bool)
      requires Valid()
      modifies this
      ensures Valid()
      ensures consumed <==> old(pos) < |bytes| && bytes[old(pos)] == b
      ensures pos == if consumed then old(pos) + 1 else old(pos)
    {
      consumed := PeekEq(b);
      if consumed {
        pos := pos + 1;
      }
    }
  }

  /** `skip_comment`: skips a comment when the cursor is on a `#` and says
      how many bytes it took. */
  method SkipComment(r: BytesReader) returns (n: nat)
    requires r.Valid()
    modifies r
    ensures r.Valid()
    ensures r.pos == CommentEnd(r.bytes, old(r.pos))
    ensures n == r.pos - old(r.pos)
  {
    if r.PeekEq(HASH) {
      var comment := r.TakeUntilOpt(NL);
      n := |comment|;
      assert r.pos == LineEnd(r.bytes, old(r.pos));
    } else {
      n := 0;
    }
  }

  /** The inner loop: rounds of comment and whitespace skipping until a round
      consumes nothing, then in `EndOfLine` mode one optional line feed. */
  method SkipBlanks(r: BytesReader, toWhere: ConsumeTo)
    requires r.Valid()
    modifies r
    ensures r.Valid()
    ensures r.pos == SkipEnd(r.bytes, old(r.pos), toWhere)
  {
    ghost var start := r.pos;
    var last, current := 0, 0;
    while true
      invariant r.Valid() && r.pos == start + current
      invariant last == current
      invariant Fixpoint(r.bytes, r.pos, toWhere) == Fixpoint(r.bytes, start, toWhere)
      decreases |r.bytes| - r.pos
    {
      ghost var before := r.pos;
      var comment := SkipComment(r);
      current := current + comment;
      var run := r.TakeWhile((c: byte) => Skippable(c, toWhere));
      current := current + |run|;
      assert r.pos == Round(r.bytes, before, toWhere);
      if last == current {
        if toWhere.EndOfLine? {
          var _ := r.ConsumeOpt(NL);
        }
        break;
      }
      last := current;
    }
  }

  /** `skip_whitespace_or_comment`: runs the inner loop and returns the bytes it
      consumed, or `None` when it consumed none. */
  method SkipWhitespaceOrComment(r: BytesReader, toWhere: ConsumeTo) returns (parsed: Option<seq<byte>>)
    requires r.Valid()
    modifies r
    ensures r.Valid()
    ensures r.pos == SkipEnd(r.bytes, old(r.pos), toWhere)
    ensures parsed.None? <==> r.pos == old(r.pos)
    ensures parsed.Some? ==> parsed.value == r.bytes[old(r.pos)..r.pos]
  {
    var start := r.pos;
    SkipBlanks(r, toWhere);
    var consumed := r.bytes[start..r.pos];
    if |consumed| == 0 {
      parsed := None;
    } else {
      parsed := Some(consumed);
    }
  }
}
