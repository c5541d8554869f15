/** The entry point that writes a pack index (git-odb/src/pack/index/write.rs).

    Only the control skeleton exists in the source: the hashing writer is
    wrapped around the output, an unsupported index kind fails at once, and
    otherwise the entry iterator is drained before the code reaches
    `unimplemented!`. The entry iterator and the output are objects whose
    state the method changes or leaves alone; `Entry`, `Outcome` and `Error`
    are plain values. */
module IndexWrite {
  import opened Wrappers

  /** `pack::index::Kind`: the index file versions; version 2 is the default. */
  datatype Kind = V1 | V2

  function DefaultKind(): Kind {
    V2
  }

  /** The hash families; both index versions use SHA-1 (`Kind::hash`). */
  datatype HashKind = Sha1

  function KindHash(kind: Kind): HashKind {
    Sha1
  }

  /** `owned::Id`: a 20-byte object id. */
  type Id = s: seq<byte> | |s| == 20 witness seq(20, _ => 0)

  /** An `io::Error`, carried but never inspected. */
  datatype IoError = IoError

  /** `index::write::Error`. */
  datatype Error = Io(err: IoError) | Unsupported(kind: Kind)

  /** `index::write::Outcome`: the summary a completed write returns. */
  datatype Outcome = Outcome(indexKind: Kind, indexHash: Id, numObjects: u32)

  /** `index::write::Entry`: one pack entry as it comes from the pack iterator.
      The header type stays abstract (`H`). */
  datatype Entry<H> = Entry(header: H, headerSize: u16, packOffset: u64, bytes: seq<byte>, decompressed: seq<byte>)
  {
    /** `bytes` holds the `headerSize` header bytes followed by the compressed data. */
    predicate Valid() {
      headerSize <= |bytes|
    }

    /** The encoded header. */
    function HeaderBytes(): (h: seq<byte>)
      requires Valid()
      ensures |h| == headerSize && h <= bytes
    {
      bytes[..headerSize]
    }

    /** The compressed data after the header. */
    function CompressedBytes(): (c: seq<byte>)
      requires Valid()
      ensures |c| == |bytes| - headerSize
      ensures HeaderBytes() + c == bytes
    {
      bytes[headerSize..]
    }

    /** Where the compressed data begins in the pack. */
    function DataOffset(): nat {
      packOffset + headerSize
    }
  }

  /** When an entry's bytes sit in the pack at its offset, its header occupies
      the pack from `packOffset` and its compressed data from `DataOffset()`
      to the end of the entry. */
  lemma {:induction false} EntryInPack<H>(e: Entry<H>, pack: seq<byte>)
    requires e.Valid()
    requires e.packOffset + |e.bytes| <= |pack|
    requires pack[e.packOffset..e.packOffset + |e.bytes|] == e.bytes
    ensures pack[e.packOffset..e.DataOffset()] == e.HeaderBytes()
    ensures pack[e.DataOffset()..e.packOffset + |e.bytes|] == e.CompressedBytes()
  {
    var lo, hi := e.packOffset, e.packOffset + |e.bytes|;
    assert pack[lo..e.DataOffset()] == pack[lo..hi][..e.headerSize];
    assert pack[e.DataOffset()..hi] == pack[lo..hi][e.headerSize..];
  }

  /** The entry iterator: the items it yields, each an entry or an iteration
      error, and how many have been pulled. */
  class EntryIter<H, E> {
    const items: seq<Result<Entry<H>, E>>
    var pulled: nat

    ghost predicate Valid()
      reads this
    {
      pulled <= |items|
    }

    constructor (items: seq<Result<Entry<H>, E>>)
      ensures Valid() && this.items == items && pulled == 0
    {
      this.items := items;
      pulled := 0;
    }

    /** `Iterator::next`: the next item, or `None` once all are pulled. */
    method Next() returns (item: Option<Result<Entry<H>, E>>)
      requires Valid()
      modifies this
      ensures Valid()
      ensures old(pulled) < |items| ==> item == Some(items[old(pulled)]) && pulled == old(pulled) + 1
      ensures old(pulled) == |items| ==> item.None? && pulled == old(pulled)
    {
      if pulled == |items| {
        item := None;
      } else {
        item := Some(items[pulled]);
        pulled := pulled + 1;
      }
    }
  }

  /** The output (`impl io::Write`): the bytes written to it so far. */
  class Sink {
    var written: seq<byte>

    constructor ()
      ensures written == []
    {
      written := [];
    }
  }

  /** `hash::Write`: the output wrapped so that what is written is also hashed. */
  class HashWrite {
    const inner: Sink
    const hash: HashKind
    var hashed: seq<byte>

    /** `hash::Write::new`: nothing hashed, the output untouched. */
    constructor (inner: Sink, hash: HashKind)
      ensures this.inner == inner && this.hash == hash && hashed == []
    {
      this.inner := inner;
      this.hash := hash;
      hashed := [];
    }
  }

  /** `write_to_stream`, up to where the source stops. The result is `None`
      where the source reaches `unimplemented!` after draining the entries, so
      no `Outcome` is ever produced. An unsupported kind fails with that kind
      before any entry is pulled; otherwise every remaining item is pulled,
      error items included. Nothing is written to the output either way. */
  method WriteToStream<H, E>(entries: EntryIter<H, E>, out: Sink, kind: Kind) returns (r: Option<Result<Outcome, Error>>)
    requires entries.Valid()
    modifies entries
    ensures entries.Valid()
    ensures kind != DefaultKind() ==> r == Some(Err(Unsupported(kind))) && entries.pulled == old(entries.pulled)
    ensures kind == DefaultKind() ==> r.None? && entries.pulled == |entries.items|
    ensures unchanged(out)
  {
    var hashing := new HashWrite(out, KindHash(kind));
    if kind != DefaultKind() {
      return Some(Err(Unsupported(kind)));
    }
    var item := entries.Next();
    while item.Some?
      invariant entries.Valid()
      invariant item.None? ==> entries.pulled == |entries.items|
      decreases |entries.items| - entries.pulled, item.Some?
    {
      item := entries.Next();
    }
    r := None;
  }
}
