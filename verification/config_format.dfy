/** The binary configuration file: a 22-byte header (I and a as 8-byte
    doubles, xdim as a 4-byte int, then the boundary and algorithm
    characters) followed by records of xdim doubles, one per stored
    configuration. Byte order and the double format are those of the host,
    supplied here as a codec. */
module ConfigFormat {
  import opened Wrappers

  newtype Byte = x: int | 0 <= x < 256

  const DoubleSize: nat := 8
  const IntSize: nat := 4
  const HeaderSize: nat := 2 * DoubleSize + IntSize + 2

  predicate Int32(k: int)
  {
    -0x8000_0000 <= k < 0x8000_0000
  }

  /** The host's in-memory representation of double and int. */
  datatype HostCodec = HostCodec(
    isDouble: real -> bool,
    double: real -> seq<Byte>,
    readDouble: seq<Byte> -> real,
    int32: int -> seq<Byte>,
    readInt32: seq<Byte> -> int)

  /** Representations have the sizes of the C types and read back what was
      written, for values the types can hold. */
  ghost predicate Faithful(c: HostCodec)
  {
    && (forall x :: |c.double(x)| == DoubleSize)
    && (forall k :: |c.int32(k)| == IntSize)
    && (forall x :: c.isDouble(x) ==> c.readDouble(c.double(x)) == x)
    && (forall k :: Int32(k) ==> c.readInt32(c.int32(k)) == k)
  }

  /** A char as the single byte the stream writes (characters of the
      8-bit range only). */
  function CharByte(ch: char): (b: Byte)
    requires ch as int < 256
    ensures b as int == ch as int
  {
    ch as int as Byte
  }

  function ByteChar(b: Byte): (ch: char)
    ensures ch as int == b as int
  {
    b as int as char
  }

  lemma CharRoundTrip(ch: char)
    requires ch as int < 256
    ensures ByteChar(CharByte(ch)) == ch
  {}

  // ------------------------------------------------------------------ header

  datatype Header = Header(I: real, a: real, xdim: int, boundary: char, algorithm: char)

  predicate Storable(c: HostCodec, h: Header)
  {
    c.isDouble(h.I) && c.isDouble(h.a) && Int32(h.xdim)
      && h.boundary as int < 256 && h.algorithm as int < 256
  }

  /** dumpHeader: the fields in order I, a, xdim, boundary, algorithm. */
  function HeaderBytes(c: HostCodec, h: Header): (bs: seq<Byte>)
    requires Faithful(c) && h.boundary as int < 256 && h.algorithm as int < 256
    ensures |bs| == HeaderSize
    ensures bs[..8] == c.double(h.I) && bs[8..16] == c.double(h.a) && bs[16..20] == c.int32(h.xdim)
    ensures bs[20] as int == h.boundary as int && bs[21] as int == h.algorithm as int
  {
    c.double(h.I) + c.double(h.a) + c.int32(h.xdim) + [CharByte(h.boundary), CharByte(h.algorithm)]
  }

  /** readHeader on a stream holding at least a whole header: the decoded
      fields and the rest of the stream. */
  function ParseHeader(c: HostCodec, s: seq<Byte>): (r: (Header, seq<Byte>))
    requires |s| >= HeaderSize
    ensures r.1 == s[HeaderSize..]
    ensures r.0.boundary as int == s[20] as int && r.0.algorithm as int == s[21] as int
  {
    (Header(c.readDouble(s[..8]), c.readDouble(s[8..16]), c.readInt32(s[16..20]),
            ByteChar(s[20]), ByteChar(s[21])),
     s[HeaderSize..])
  }

  /** Reading back a written header gives the same header. */
  lemma HeaderRoundTrip(c: HostCodec, h: Header, rest: seq<Byte>)
    requires Faithful(c) && Storable(c, h)
    ensures ParseHeader(c, HeaderBytes(c, h) + rest) == (h, rest)
  {
    var bs := HeaderBytes(c, h) + rest;
    assert bs[..8] == c.double(h.I);
    assert bs[8..16] == c.double(h.a);
    assert bs[16..20] == c.int32(h.xdim);
  }

  // ----------------------------------------------------------------- records

  /** dumpConf: the angles as consecutive doubles. */
  function RecordBytes(c: HostCodec, phis: seq<real>): (bs: seq<Byte>)
    requires Faithful(c)
    ensures |bs| == DoubleSize * |phis|
  {
    if phis == [] then []
    else
      var x := phis[0];
      assert |c.double(x)| == DoubleSize;
      c.double(x) + RecordBytes(c, phis[1..])
  }

  /** The outcome of readConf on a stream: a whole record was read, the
      stream ended before the first double (the regular end of the file), or
      it ended inside the record after `count` whole doubles (the program
      stops). */
  datatype ConfRead =
    | Record(phis: seq<real>, rest: seq<Byte>)
    | CleanEnd
    | Truncated(count: nat)

  /** The first k doubles of the stream. */
  function Doubles(c: HostCodec, s: seq<Byte>, k: nat): (phis: seq<real>)
    requires DoubleSize * k <= |s|
    ensures |phis| == k
    ensures forall i :: 0 <= i < k ==> phis[i] == c.readDouble(s[DoubleSize * i..DoubleSize * i + DoubleSize])
  {
    if k == 0 then [] else Doubles(c, s, k - 1) + [c.readDouble(s[DoubleSize * (k - 1)..DoubleSize * k])]
  }

  /** readConf for a lattice of n sites: a read of a double is complete only
      when 8 bytes remain, and the first incomplete read ends the record. */
  function DecodeRecord(c: HostCodec, s: seq<Byte>, n: nat): (r: ConfRead)
    ensures r.Record? <==> DoubleSize * n <= |s|
    ensures r.CleanEnd? <==> n > 0 && |s| < DoubleSize
    ensures r.Truncated? ==> 0 < r.count < n && DoubleSize * r.count <= |s| < DoubleSize * (r.count + 1)
    ensures r.Record? ==> |r.phis| == n && r.rest == s[DoubleSize * n..]
  {
    if DoubleSize * n <= |s| then Record(Doubles(c, s, n), s[DoubleSize * n..])
    else if |s| < DoubleSize then CleanEnd
    else Truncated(|s| / DoubleSize)
  }

  lemma {:induction false} RecordBytesAt(c: HostCodec, phis: seq<real>, i: nat)
    requires Faithful(c) && i < |phis|
    ensures RecordBytes(c, phis)[DoubleSize * i..DoubleSize * i + DoubleSize] == c.double(phis[i])
  {
    var bs := RecordBytes(c, phis);
    assert bs == c.double(phis[0]) + RecordBytes(c, phis[1..]);
    if i > 0 {
      RecordBytesAt(c, phis[1..], i - 1);
      assert bs[DoubleSize * i..DoubleSize * i + DoubleSize]
          == RecordBytes(c, phis[1..])[DoubleSize * (i - 1)..DoubleSize * (i - 1) + DoubleSize];
    }
  }

  /** Reading back a written record gives the same angles, and the bytes
      after it are left unread. */
  lemma RecordRoundTrip(c: HostCodec, phis: seq<real>, rest: seq<Byte>)
    requires Faithful(c) && forall i :: 0 <= i < |phis| ==> c.isDouble(phis[i])
    ensures DecodeRecord(c, RecordBytes(c, phis) + rest, |phis|) == Record(phis, rest)
  {
    var bs := RecordBytes(c, phis);
    var s := bs + rest;
    var r := DecodeRecord(c, s, |phis|);
    assert s[DoubleSize * |phis|..] == rest;
    forall i | 0 <= i < |phis| ensures r.phis[i] == phis[i]
    {
      RecordBytesAt(c, phis, i);
      assert s[DoubleSize * i..DoubleSize * i + DoubleSize] == bs[DoubleSize * i..DoubleSize * i + DoubleSize];
    }
  }

  /** A file as createConfigs writes it: the header, then the records. */
  function FileBytes(c: HostCodec, h: Header, confs: seq<seq<real>>): (bs: seq<Byte>)
    requires Faithful(c) && h.boundary as int < 256 && h.algorithm as int < 256
  {
    HeaderBytes(c, h) + RecordsBytes(c, confs)
  }

  /** The records of confs, one after another. */
  function RecordsBytes(c: HostCodec, confs: seq<seq<real>>): seq<Byte>
    requires Faithful(c)
  {
    if confs == [] then [] else RecordBytes(c, confs[0]) + RecordsBytes(c, confs[1..])
  }

  /** Dumping more configurations appends their records to those already
      written. */
  lemma {:induction false} RecordsBytesAppend(c: HostCodec, xs: seq<seq<real>>, ys: seq<seq<real>>)
    requires Faithful(c)
    ensures RecordsBytes(c, xs + ys) == RecordsBytes(c, xs) + RecordsBytes(c, ys)
    decreases |xs|
  {
    if xs == [] {
      assert xs + ys == ys;
    } else {
      assert (xs + ys)[0] == xs[0] && (xs + ys)[1..] == xs[1..] + ys;
      RecordsBytesAppend(c, xs[1..], ys);
    }
  }

  /** How the readers consume records until readConf reports false: the
      records read before the regular end, or None when a record is cut off
      (the program stops). */
  function DecodeRecords(c: HostCodec, s: seq<Byte>, n: nat): (r: Option<seq<seq<real>>>)
    requires n > 0
    decreases |s|
  {
    match DecodeRecord(c, s, n)
    case Record(phis, rest) =>
      (match DecodeRecords(c, rest, n)
       case Some(more) => Some([phis] + more)
       case None => None)
    case CleanEnd => Some([])
    case Truncated(_) => None
  }

  /** A file written by the producer reads back, record for record, up to
      the regular end. */
  lemma {:induction false} FileRoundTrip(c: HostCodec, h: Header, confs: seq<seq<real>>)
    requires Faithful(c) && Storable(c, h) && h.xdim > 0
    requires forall k :: 0 <= k < |confs| ==> |confs[k]| == h.xdim
    requires forall k, i :: 0 <= k < |confs| && 0 <= i < |confs[k]| ==> c.isDouble(confs[k][i])
    ensures var (h', rest) := ParseHeader(c, FileBytes(c, h, confs));
            h' == h && DecodeRecords(c, rest, h.xdim) == Some(confs)
  {
    HeaderRoundTrip(c, h, RecordsBytes(c, confs));
    RecordsRoundTrip(c, confs, h.xdim);
  }

  lemma {:induction false} RecordsRoundTrip(c: HostCodec, confs: seq<seq<real>>, n: nat)
    requires Faithful(c) && n > 0
    requires forall k :: 0 <= k < |confs| ==> |confs[k]| == n
    requires forall k, i :: 0 <= k < |confs| && 0 <= i < |confs[k]| ==> c.isDouble(confs[k][i])
    ensures DecodeRecords(c, RecordsBytes(c, confs), n) == Some(confs)
  {
    if confs != [] {
      var tail := RecordsBytes(c, confs[1..]);
      RecordRoundTrip(c, confs[0], tail);
      RecordsRoundTrip(c, confs[1..], n);
      assert [confs[0]] + confs[1..] == confs;
    }
  }
}
