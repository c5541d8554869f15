/** The packet-line reader of the transport protocol
    (git-protocol/src/packet_line/read.rs).

    Git frames protocol messages as pkt-lines (section "pkt-line Format" of
    Git's Documentation/technical/protocol-common.txt): four hexadecimal
    digits give the length of the line including those four digits, `0000`
    is the flush-pkt, and a line is at most 65520 bytes long. The decoder
    is further assumed to read `0001` as the delimiter and `0002` as the
    response end (version 2 of the protocol), and to reject the lengths 3
    and 4.

    The reader's inner `io::Read` is a `ByteSource`: a byte sequence with a
    cursor. The functions `HexPrefix` and `ToDataLine` stand for the decode
    module, which is not part of this model; they are given that behaviour
    and the postconditions the reader relies on.
    `ReadLineInnerSpec` and `Consumed` say what one read yields and how many
    bytes it takes; `Encode` writes a line in the format and is the inverse
    the round-trip lemmas use. */
module PacketLineRead {
  import opened Wrappers

  const U16_HEX_BYTES: nat := 4
  /** The largest payload of a pkt-line. */
  const MAX_DATA_LEN: nat := 65516
  /** The largest pkt-line, prefix included. */
  const MAX_LINE_LEN: nat := MAX_DATA_LEN + U16_HEX_BYTES

  const FLUSH_LINE: seq<byte> := [0x30, 0x30, 0x30, 0x30]
  const DELIMITER_LINE: seq<byte> := [0x30, 0x30, 0x30, 0x31]
  const RESPONSE_END_LINE: seq<byte> := [0x30, 0x30, 0x30, 0x32]

  /** One decoded line (`packet_line::Borrowed`); a data line holds a copy of its payload. */
  datatype Borrowed = Data(bytes: seq<byte>) | Flush | Delimiter | ResponseEnd

  /** `decode::Error`. */
  datatype DecodeError = HexDecode | InvalidLineLength | DataIsEmpty | DataLengthLimitExceeded(length: nat)

  /** The one way `read_exact` fails here: the input ends too early. */
  datatype IoError = UnexpectedEof

  /** `decode::PacketLineOrWantedSize`: a complete line from the prefix alone,
      or the number of payload bytes still to read. */
  datatype PacketLineOrWantedSize = Line(line: Borrowed) | Wanted(size: nat)

  /** What `read_line_inner` returns: an io error, or a decode result. */
  type ReadResult = Result<Result<Borrowed, DecodeError>, IoError>

  // ---------------------------------------------------------------------
  // Hexadecimal length prefixes
  // ---------------------------------------------------------------------

  /** A hexadecimal digit, in either case. */
  predicate IsHexDigit(c: byte) {
    0x30 <= c <= 0x39 || 0x61 <= c <= 0x66 || 0x41 <= c <= 0x46
  }

  /** The value of a hexadecimal digit. */
  function HexDigitValue(c: byte): (v: nat)
    requires IsHexDigit(c)
    ensures v < 16
  {
    if c <= 0x39 then c - 0x30 else if c >= 0x61 then c - 0x61 + 10 else c - 0x41 + 10
  }

  /** The big-endian value of a string of hexadecimal digits; `None` when
      one of them is not a digit. */
  function HexValue(h: seq<byte>): Option<nat>
    decreases |h|
  {
    if h == [] then Some(0)
    else
      var init := HexValue(h[..|h| - 1]);
      var last := h[|h| - 1];
      if init.Some? && IsHexDigit(last) then Some(init.value * 16 + HexDigitValue(last)) else None
  }

  /** The lower-case digit for `d`. */
  function HexDigit(d: nat): (c: byte)
    requires d < 16
    ensures IsHexDigit(c) && HexDigitValue(c) == d
  {
    if d < 10 then 0x30 + d else 0x61 + (d - 10)
  }

  /** Sixteen to the power `n`. */
  function Pow16(n: nat): nat {
    if n == 0 then 1 else 16 * Pow16(n - 1)
  }

  /** The last `n` hexadecimal digits of `v`, most significant first, in lower case. */
  function HexDigits(v: nat, n: nat): (h: seq<byte>)
    ensures |h| == n
  {
    if n == 0 then [] else HexDigits(v / 16, n - 1) + [HexDigit(v % 16)]
  }

  /** Decoding the digits `HexDigits` writes gives back a value that fits in them. */
  lemma {:induction false} HexDigitsRoundTrip(v: nat, n: nat)
    requires v < Pow16(n)
    ensures HexValue(HexDigits(v, n)) == Some(v)
  {
    if n > 0 {
      HexDigitsRoundTrip(v / 16, n - 1);
      var h := HexDigits(v, n);
      assert h[..|h| - 1] == HexDigits(v / 16, n - 1);
    }
  }

  /** `v` as four lower-case hexadecimal digits. */
  function Hex4(v: nat): (h: seq<byte>)
    requires v < 0x1_0000
    ensures |h| == U16_HEX_BYTES
  {
    HexDigits(v, U16_HEX_BYTES)
  }

  /** Decoding the four digits `Hex4` writes gives back the value. */
  lemma {:induction false} Hex4RoundTrip(v: nat)
    requires v < 0x1_0000
    ensures HexValue(Hex4(v)) == Some(v)
  {
    assert Pow16(U16_HEX_BYTES) == 0x1_0000;
    HexDigitsRoundTrip(v, U16_HEX_BYTES);
  }

  /** The four bytes are `000` followed by `last`: the special lines. */
  predicate SpecialLine(four: seq<byte>, last: byte)
    requires |four| == 4
  {
    four[0] == 0x30 && four[1] == 0x30 && four[2] == 0x30 && four[3] == last
  }

  /** A special line's prefix `000x` has the value of its last digit. */
  lemma {:induction false} SpecialLineValue(four: seq<byte>, last: byte)
    requires |four| == 4
    ensures SpecialLine(four, last) && IsHexDigit(last) ==> HexValue(four) == Some(HexDigitValue(last))
  {
    if SpecialLine(four, last) && IsHexDigit(last) {
      assert four[..1][..0] == [];
      assert HexValue(four[..1]) == Some(0);
      assert four[..2][..1] == four[..1];
      assert HexValue(four[..2]) == Some(0);
      assert four[..3][..2] == four[..2];
      assert HexValue(four[..3]) == Some(0);
      assert four[..|four| - 1] == four[..3];
    }
  }

  /** `decode::hex_prefix`: decodes the four prefix bytes into a complete
      line or the number of payload bytes to read next. A length below 4
      other than the three special lines, a length of exactly 4 (an empty
      line), and a length over `MAX_LINE_LEN` are errors. */
  function HexPrefix(four: seq<byte>): (r: Result<PacketLineOrWantedSize, DecodeError>)
    requires |four| == 4
    ensures r == Ok(Line(Flush)) <==> four == FLUSH_LINE
    ensures r.Ok? && r.value.Line? ==> !r.value.line.Data?
    ensures r.Ok? && r.value.Wanted? ==> 0 < r.value.size <= MAX_DATA_LEN
    ensures r.Ok? && r.value.Wanted? ==> HexValue(four) == Some(r.value.size + U16_HEX_BYTES)
    ensures four == DELIMITER_LINE ==> r == Ok(Line(Delimiter))
    ensures four == RESPONSE_END_LINE ==> r == Ok(Line(ResponseEnd))
    ensures HexValue(four).Some? && U16_HEX_BYTES < HexValue(four).value <= MAX_LINE_LEN ==>
      r == Ok(Wanted(HexValue(four).value - U16_HEX_BYTES))
  {
    SpecialLineValue(four, 0x30);
    SpecialLineValue(four, 0x31);
    SpecialLineValue(four, 0x32);
    if SpecialLine(four, 0x30) then Ok(Line(Flush))
    else if SpecialLine(four, 0x31) then Ok(Line(Delimiter))
    else if SpecialLine(four, 0x32) then Ok(Line(ResponseEnd))
    else match HexValue(four)
      case None => Err(HexDecode)
      case Some(len) =>
        if len < U16_HEX_BYTES then Err(InvalidLineLength)
        else if len == U16_HEX_BYTES then Err(DataIsEmpty)
        else if len > MAX_LINE_LEN then Err(DataLengthLimitExceeded(len - U16_HEX_BYTES))
        else Ok(Wanted(len - U16_HEX_BYTES))
  }

  /** `decode::to_data_line`: a payload becomes a data line unless it is longer than a line may be. */
  function ToDataLine(data: seq<byte>): (r: Result<Borrowed, DecodeError>)
    ensures |data| <= MAX_LINE_LEN <==> r == Ok(Data(data))
    ensures r.Err? ==> r.error == DataLengthLimitExceeded(|data|)
  {
    if |data| > MAX_LINE_LEN then Err(DataLengthLimitExceeded(|data|)) else Ok(Data(data))
  }

  // ---------------------------------------------------------------------
  // What one read does, on the bytes the inner reader has left
  // ---------------------------------------------------------------------

  /** The outcome of `read_line_inner` when `rest` is what the inner reader
      holds: four prefix bytes, and when the prefix asks for them, exactly
      that many payload bytes; too few bytes is an io error. */
  function ReadLineInnerSpec(rest: seq<byte>): ReadResult
  {
    if |rest| < U16_HEX_BYTES then Err(UnexpectedEof)
    else match HexPrefix(rest[..U16_HEX_BYTES])
      case Err(e) => Ok(Err(e))
      case Ok(Line(line)) => Ok(Ok(line))
      case Ok(Wanted(n)) =>
        if |rest| < U16_HEX_BYTES + n then Err(UnexpectedEof)
        else Ok(ToDataLine(rest[U16_HEX_BYTES..U16_HEX_BYTES + n]))
  }

  /** How many bytes a read that does not fail with an io error takes from the inner reader. */
  function Consumed(rest: seq<byte>): (k: nat)
    requires ReadLineInnerSpec(rest).Ok?
    ensures U16_HEX_BYTES <= k <= |rest|
    ensures k <= MAX_LINE_LEN
  {
    match HexPrefix(rest[..U16_HEX_BYTES])
    case Ok(Wanted(n)) => U16_HEX_BYTES + n
    case _ => U16_HEX_BYTES
  }

  /** A line that has a pkt-line encoding: a data line's payload is not empty
      and fits in a line. */
  predicate Encodable(line: Borrowed) {
    line.Data? ==> 0 < |line.bytes| <= MAX_DATA_LEN
  }

  /** Every line of `lines` has an encoding. */
  predicate AllEncodable(lines: seq<Borrowed>)
    decreases |lines|
  {
    lines == [] || (Encodable(lines[0]) && AllEncodable(lines[1..]))
  }

  /** The pkt-line encoding of a line. */
  function Encode(line: Borrowed): (e: seq<byte>)
    requires Encodable(line)
    ensures U16_HEX_BYTES <= |e| <= MAX_LINE_LEN
  {
    match line
    case Flush => FLUSH_LINE
    case Delimiter => DELIMITER_LINE
    case ResponseEnd => RESPONSE_END_LINE
    case Data(bytes) => Hex4(|bytes| + U16_HEX_BYTES) + bytes
  }

  /** Reading an encoded data line yields that line and takes its prefix and payload. */
  lemma {:induction false} ReadEncodedData(bytes: seq<byte>, more: seq<byte>)
    requires 0 < |bytes| <= MAX_DATA_LEN
    ensures ReadLineInnerSpec(Encode(Data(bytes)) + more) == Ok(Ok(Data(bytes)))
    ensures Consumed(Encode(Data(bytes)) + more) == U16_HEX_BYTES + |bytes|
  {
    var len := |bytes| + U16_HEX_BYTES;
    var rest := Hex4(len) + bytes + more;
    assert Encode(Data(bytes)) + more == rest;
    Hex4RoundTrip(len);
    assert rest[..U16_HEX_BYTES] == Hex4(len);
    assert rest[U16_HEX_BYTES..U16_HEX_BYTES + |bytes|] == bytes;
    assert ToDataLine(bytes) == Ok(Data(bytes));
  }

  /** Reading an encoded line yields that line and takes exactly its encoding,
      whatever follows it. */
  lemma {:induction false} ReadEncodedLine(line: Borrowed, more: seq<byte>)
    requires Encodable(line)
    ensures ReadLineInnerSpec(Encode(line) + more) == Ok(Ok(line))
    ensures Consumed(Encode(line) + more) == |Encode(line)|
  {
    match line
    case Data(bytes) =>
      ReadEncodedData(bytes, more);
    case Flush =>
      assert (FLUSH_LINE + more)[..U16_HEX_BYTES] == FLUSH_LINE;
    case Delimiter =>
      assert (DELIMITER_LINE + more)[..U16_HEX_BYTES] == DELIMITER_LINE;
    case ResponseEnd =>
      assert (RESPONSE_END_LINE + more)[..U16_HEX_BYTES] == RESPONSE_END_LINE;
  }

  /** A read never looks past the line it returns: appending bytes does not
      change what it yields nor how much it takes. */
  lemma {:induction false} ReadsNoMoreThanNeeded(rest: seq<byte>, more: seq<byte>)
    requires ReadLineInnerSpec(rest).Ok?
    ensures ReadLineInnerSpec(rest + more) == ReadLineInnerSpec(rest)
    ensures Consumed(rest + more) == Consumed(rest)
  {
    assert (rest + more)[..U16_HEX_BYTES] == rest[..U16_HEX_BYTES];
    match HexPrefix(rest[..U16_HEX_BYTES])
    case Ok(Wanted(n)) =>
      assert (rest + more)[U16_HEX_BYTES..U16_HEX_BYTES + n] == rest[U16_HEX_BYTES..U16_HEX_BYTES + n];
    case _ =>
  }

  /** Cutting an encoded line short anywhere gives an io error. */
  lemma {:induction false} TruncatedLineIsIoError(line: Borrowed, k: nat)
    requires Encodable(line)
    requires k < |Encode(line)|
    ensures ReadLineInnerSpec(Encode(line)[..k]) == Err(UnexpectedEof)
  {
    if k >= U16_HEX_BYTES {
      ReadEncodedLine(line, []);
      assert Encode(line) + [] == Encode(line);
      assert Encode(line)[..k][..U16_HEX_BYTES] == Encode(line)[..U16_HEX_BYTES];
    }
  }

  /** The line a read yields and how many bytes it takes; `None` when it
      fails with an io error or a decode error. */
  function NextLine(rest: seq<byte>): Option<(Borrowed, nat)> {
    var read := ReadLineInnerSpec(rest);
    if read.Ok? && read.value.Ok? then Some((read.value.value, Consumed(rest))) else None
  }

  /** A read that yields a line is what `NextLine` reports, with the bytes it takes. */
  lemma {:induction false} NextLineIs(rest: seq<byte>, line: Borrowed)
    requires ReadLineInnerSpec(rest) == Ok(Ok(line))
    ensures NextLine(rest) == Some((line, Consumed(rest)))
  {
  }

  /** The lines a client gets from repeated reads up to and including a flush
      line, and how many bytes they take; `None` when a read fails first. */
  function LinesBeforeFlush(rest: seq<byte>): Option<(seq<Borrowed>, nat)>
    decreases |rest|, 1
  {
    match NextLine(rest)
    case None => None
    case Some((line, k)) => LinesAfterRead(rest, line, k)
  }

  /** The same, once the first read of `rest` has yielded `line` and taken `k` bytes. */
  function LinesAfterRead(rest: seq<byte>, line: Borrowed, k: nat): Option<(seq<Borrowed>, nat)>
    requires 0 < k <= |rest|
    decreases |rest|, 0
  {
    if line == Flush then Some(([], k))
    else
      var next := LinesBeforeFlush(rest[k..]);
      if next.None? then None else Some(([line] + next.value.0, k + next.value.1))
  }

  /** Encoded lines, a flush line, then `tail`. */
  function Section(lines: seq<Borrowed>, tail: seq<byte>): (s: seq<byte>)
    requires AllEncodable(lines)
    ensures |tail| + U16_HEX_BYTES <= |s|
    decreases |lines|
  {
    if lines == [] then FLUSH_LINE + tail else Encode(lines[0]) + Section(lines[1..], tail)
  }

  /** What the next read of a section finds: the first line, or the flush
      line when there are no lines left; it takes that line's frame and
      leaves the section of the remaining lines, or the tail. */
  lemma {:induction false} SectionRead(lines: seq<Borrowed>, tail: seq<byte>)
    requires AllEncodable(lines)
    ensures lines != [] ==> AllEncodable(lines[1..])
    ensures ReadLineInnerSpec(Section(lines, tail)) == Ok(Ok(if lines == [] then Flush else lines[0]))
    ensures Section(lines, tail)[Consumed(Section(lines, tail))..] ==
      if lines == [] then tail else Section(lines[1..], tail)
  {
    var line := if lines == [] then Flush else lines[0];
    var after := if lines == [] then tail else Section(lines[1..], tail);
    assert Section(lines, tail) == Encode(line) + after;
    ReadEncodedLine(line, after);
    assert (Encode(line) + after)[|Encode(line)|..] == after;
  }

  /** Encoded lines followed by a flush line read back as those lines, and
      the reads stop right after the flush line, so whatever follows it is
      left unread. */
  lemma {:induction false} ReadSectionRoundTrip(lines: seq<Borrowed>, tail: seq<byte>)
    requires AllEncodable(lines) && forall i :: 0 <= i < |lines| ==> lines[i] != Flush
    ensures LinesBeforeFlush(Section(lines, tail)) == Some((lines, |Section(lines, tail)| - |tail|))
  {
    if lines == [] {
      EmptySectionRead(tail);
    } else {
      ReadSectionRoundTrip(lines[1..], tail);
      SectionFirstRead(lines, tail);
      FrameThenLines(Section(lines, tail), lines, Section(lines[1..], tail), tail);
    }
  }

  /** A section with no lines is its flush line alone, and the reads stop
      right after it. */
  lemma {:induction false} EmptySectionRead(tail: seq<byte>)
    ensures LinesBeforeFlush(Section([], tail)) == Some(([], U16_HEX_BYTES))
  {
    assert Section([], tail) == FLUSH_LINE + tail;
    ReadEncodedLine(Flush, tail);
    assert NextLine(FLUSH_LINE + tail) == Some((Flush, U16_HEX_BYTES));
  }

  /** The first read of a non-empty section yields its first line and leaves
      the section of the remaining lines. */
  lemma {:induction false} SectionFirstRead(lines: seq<Borrowed>, tail: seq<byte>)
    requires AllEncodable(lines) && lines != []
    ensures AllEncodable(lines[1..])
    ensures ReadLineInnerSpec(Section(lines, tail)) == Ok(Ok(lines[0]))
    ensures Section(lines, tail)[Consumed(Section(lines, tail))..] == Section(lines[1..], tail)
    ensures |tail| <= |Section(lines[1..], tail)|
  {
    SectionRead(lines, tail);
  }

  /** A read that yields the first of `lines`, not a flush line, and leaves
      bytes that read as the rest of `lines` up to a flush line before
      `tail`, makes the whole of `rest` read as `lines`. */
  lemma {:induction false} FrameThenLines(rest: seq<byte>, lines: seq<Borrowed>, after: seq<byte>, tail: seq<byte>)
    requires lines != [] && ReadLineInnerSpec(rest) == Ok(Ok(lines[0])) && lines[0] != Flush
    requires rest[Consumed(rest)..] == after && |tail| <= |after|
    requires LinesBeforeFlush(after) == Some((lines[1..], |after| - |tail|))
    ensures LinesBeforeFlush(rest) == Some((lines, |rest| - |tail|))
  {
    NextLineIs(rest, lines[0]);
    assert [lines[0]] + lines[1..] == lines;
    assert LinesAfterRead(rest, lines[0], Consumed(rest)) == Some((lines, |rest| - |tail|));
  }

  // ---------------------------------------------------------------------
  // The inner reader and the packet-line reader
  // ---------------------------------------------------------------------

  /** The inner `io::Read`: the bytes it will deliver and how many it has delivered. */
  class ByteSource {
    const data: seq<byte>
    var pos: nat

    ghost predicate Valid()
      reads this
    {
      pos <= |data|
    }

    constructor (input: seq<byte>)
      ensures Valid() && data == input && pos == 0
    {
      data := input;
      pos := 0;
    }

    /** The bytes not yet delivered. */
    function Remaining(): seq<byte>
      reads this
      requires Valid()
    {
      data[pos..]
    }

    /** `read_exact` into `buf[lo..hi]`: fills the whole slice from the input,
        or fails when fewer bytes remain; after a failure the slice and the
        cursor are left unspecified. */
    method ReadExact(buf: array<byte>, lo: nat, hi: nat) returns (r: Result<(), IoError>)
      requires Valid() && lo <= hi <= buf.Length
      modifies this, buf
      ensures Valid() && old(pos) <= pos
      ensures r.Ok? <==> hi - lo <= |old(Remaining())|
      ensures r.Ok? ==> pos == old(pos) + (hi - lo)
      ensures r.Ok? ==> buf[lo..hi] == old(Remaining())[..hi - lo]
      ensures r.Ok? ==> forall i :: 0 <= i < buf.Length && !(lo <= i < hi) ==> buf[i] == old(buf[i])
    {
      if |data| - pos < hi - lo {
        pos := |data|;
        return Err(UnexpectedEof);
      }
      forall i | lo <= i < hi {
        buf[i] := data[pos + (i - lo)];
      }
      pos := pos + (hi - lo);
      r := Ok(());
    }
  }

  /** `packet_line::Reader`: reads lines one after another and, once a flush
      line is read, yields nothing more until `Reset`. */
  class Reader {
    const inner: ByteSource
    const buf: array<byte>
    var isDone: bool

    ghost predicate Valid()
      reads this, inner
    {
      inner.Valid() && buf.Length == MAX_LINE_LEN
    }

    /** `new`: not done, with a zeroed buffer of `MAX_LINE_LEN` bytes. */
    constructor (inner: ByteSource)
      requires inner.Valid()
      ensures Valid() && this.inner == inner && fresh(buf)
      ensures !isDone && forall i :: 0 <= i < buf.Length ==> buf[i] == 0
    {
      this.inner := inner;
      buf := new byte[MAX_LINE_LEN](_ => 0);
      isDone := false;
    }

    /** `reset`: only meaningful after a flush line; reading may start again. */
    method Reset()
      requires Valid() && isDone
      modifies this
      ensures Valid() && !isDone
    {
      isDone := false;
    }

    /** `read_line_inner`: reads the four prefix bytes, and then exactly the
        payload the prefix asks for, into `buf`. */
    static method ReadLineInner(reader: ByteSource, buf: array<byte>) returns (r: ReadResult)
      requires reader.Valid() && buf.Length == MAX_LINE_LEN
      modifies reader, buf
      ensures reader.Valid() && old(reader.pos) <= reader.pos
      ensures r == ReadLineInnerSpec(old(reader.Remaining()))
      ensures r.Ok? ==> reader.pos == old(reader.pos) + Consumed(old(reader.Remaining()))
    {
      ghost var rest := reader.Remaining();
      var io := reader.ReadExact(buf, 0, U16_HEX_BYTES);
      if io.Err? {
        assert |rest| < U16_HEX_BYTES;
        assert ReadLineInnerSpec(rest) == Err(UnexpectedEof);
        assert io.error == UnexpectedEof;
        return Err(io.error);
      }
      var prefix := HexPrefix(buf[..U16_HEX_BYTES]);
      assert buf[..U16_HEX_BYTES] == buf[0..U16_HEX_BYTES] == rest[..U16_HEX_BYTES];
      var numDataBytes;
      match prefix {
        case Ok(Line(line)) => return Ok(Ok(line));
        case Err(err) => return Ok(Err(err));
        case Ok(Wanted(n)) => numDataBytes := n;
      }
      ghost var mid := reader.Remaining();
      assert mid == rest[U16_HEX_BYTES..];
      io := reader.ReadExact(buf, U16_HEX_BYTES, U16_HEX_BYTES + numDataBytes);
      if io.Err? {
        assert HexPrefix(rest[..U16_HEX_BYTES]) == Ok(Wanted(numDataBytes));
        assert |rest| < U16_HEX_BYTES + numDataBytes;
        assert io.error == UnexpectedEof;
        return Err(io.error);
      }
      ghost var payload := rest[U16_HEX_BYTES..U16_HEX_BYTES + numDataBytes];
      assert payload == mid[..numDataBytes];
      assert buf[U16_HEX_BYTES..U16_HEX_BYTES + numDataBytes] == payload;
      assert HexPrefix(rest[..U16_HEX_BYTES]) == Ok(Wanted(numDataBytes));
      r := Ok(ToDataLine(buf[U16_HEX_BYTES..U16_HEX_BYTES + numDataBytes]));
    }

    /** `read_line`: nothing once done; a flush line makes the reader done and
        yields nothing; every other outcome, an error included, is returned
        and leaves the reader not done. */
    method ReadLine() returns (r: Option<ReadResult>)
      requires Valid()
      modifies this, inner, buf
      ensures Valid()
      ensures old(isDone) ==> r.None? && isDone && inner.pos == old(inner.pos)
      ensures !old(isDone) ==>
        var s := ReadLineInnerSpec(old(inner.Remaining()));
        && (s == Ok(Ok(Flush)) ==> r.None? && isDone)
        && (s != Ok(Ok(Flush)) ==> r == Some(s) && !isDone)
        && (s.Ok? ==> inner.pos == old(inner.pos) + Consumed(old(inner.Remaining())))
    {
      if isDone {
        return None;
      }
      var res := ReadLineInner(inner, buf);
      if res == Ok(Ok(Flush)) {
        isDone := true;
        r := None;
      } else {
        r := Some(res);
      }
    }
  }

  /** One `ReadLine` on a reader whose remaining input is a section: the
      first line, leaving the section of the remaining lines; or, when no
      lines are left, `None` after the flush line, leaving the tail and the
      reader done. */
  method ReadSectionLine(r: Reader, ghost rest: seq<Borrowed>, ghost tail: seq<byte>) returns (line: Option<Borrowed>)
    requires r.Valid() && !r.isDone
    requires AllEncodable(rest) && forall i :: 0 <= i < |rest| ==> rest[i] != Flush
    requires r.inner.Remaining() == Section(rest, tail)
    modifies r, r.inner, r.buf
    ensures r.Valid()
    ensures rest == [] ==> line.None? && r.isDone && r.inner.Remaining() == tail
    ensures rest != [] ==> line == Some(rest[0]) && !r.isDone
    ensures rest != [] ==> AllEncodable(rest[1..]) && r.inner.Remaining() == Section(rest[1..], tail)
  {
    ghost var before := r.inner.Remaining();
    SectionRead(rest, tail);
    var next := r.ReadLine();
    assert r.inner.Remaining() == before[Consumed(before)..];
    if next.None? {
      line := None;
    } else {
      line := Some(next.value.value.value);
    }
  }

  /** A client that calls `ReadLine` until it yields `None`. On a reader
      whose remaining input is encoded lines, a flush line and `tail`, it
      gets back exactly those lines, the reader is done, and `tail` is still
      unread. */
  method ReadLinesUntilFlush(r: Reader, ghost lines: seq<Borrowed>, ghost tail: seq<byte>) returns (got: seq<Borrowed>)
    requires r.Valid() && !r.isDone
    requires AllEncodable(lines) && forall i :: 0 <= i < |lines| ==> lines[i] != Flush
    requires r.inner.Remaining() == Section(lines, tail)
    modifies r, r.inner, r.buf
    ensures r.Valid() && r.isDone
    ensures got == lines
    ensures r.inner.Remaining() == tail
  {
    got := [];
    while true
      invariant r.Valid() && !r.isDone
      invariant |got| <= |lines| && got == lines[..|got|]
      invariant AllEncodable(lines[|got|..])
      invariant r.inner.Remaining() == Section(lines[|got|..], tail)
      decreases |lines| - |got|
    {
      ghost var rest := lines[|got|..];
      var line := ReadSectionLine(r, rest, tail);
      if line.None? {
        break;
      }
      got := got + [line.value];
      assert lines[|got|..] == rest[1..];
    }
  }

  /** Reading a section on the reader object gives what `LinesBeforeFlush`
      says of its input: the lines, and the bytes up to and including the
      flush line, after which `tail` is still unread. */
  method ReadSection(r: Reader, ghost lines: seq<Borrowed>, ghost tail: seq<byte>) returns (got: seq<Borrowed>)
    requires r.Valid() && !r.isDone
    requires AllEncodable(lines) && forall i :: 0 <= i < |lines| ==> lines[i] != Flush
    requires r.inner.Remaining() == Section(lines, tail)
    modifies r, r.inner, r.buf
    ensures r.Valid() && r.isDone
    ensures got == lines
    ensures r.inner.Remaining() == tail
    ensures LinesBeforeFlush(old(r.inner.Remaining())) == Some((got, |old(r.inner.Remaining())| - |tail|))
  {
    ReadSectionRoundTrip(lines, tail);
    got := ReadLinesUntilFlush(r, lines, tail);
  }
}
