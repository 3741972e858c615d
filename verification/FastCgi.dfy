/**
 * FastCGI framing (src/FastCgiClient.cpp): the encoders of the client against a decoder
 * written from sections 3.3 and 3.4 of the FastCGI Specification 1.0, and the client's
 * own response loop against what a server may send.
 */
module FastCgiFormat {
  import opened Basics

  const VERSION_1: byte := 1
  const BEGIN_REQUEST: byte := 1
  const END_REQUEST: byte := 3
  const PARAMS: byte := 4
  const STDIN: byte := 5
  const STDOUT: byte := 6
  const STDERR: byte := 7
  const RESPONDER: nat := 1
  const REQUEST_ID: nat := 1
  const CHUNK: nat := 65535

  function Byte(n: nat): byte {
    n % 256
  }

  function WithTopBit(b: byte): byte {
    if b >= 128 then b else b + 128
  }

  /** Two bytes, high byte first. */
  function Word(high: byte, low: byte): nat {
    high as int * 256 + low as int
  }

  // ---------------------------------------------------------------- what the client writes

  /** `appendLength`: one byte below 128, else four bytes with the top bit set. */
  function LengthBytes(n: nat): seq<byte> {
    if n < 128 then [n]
    else [WithTopBit(Byte(n / 0x100_0000)), Byte(n / 0x1_0000), Byte(n / 0x100), Byte(n)]
  }

  function PairBytes(name: seq<byte>, value: seq<byte>): seq<byte> {
    LengthBytes(|name|) + LengthBytes(|value|) + name + value
  }

  function PaddingFor(n: nat): (p: nat)
    ensures p < 8 && (n + p) % 8 == 0
  {
    (8 - n % 8) % 8
  }

  /** `appendRecord`. */
  function RecordBytes(kind: byte, id: nat, content: seq<byte>): seq<byte> {
    var padding := PaddingFor(|content|);
    [VERSION_1, kind, Byte(id / 256), Byte(id), Byte(|content| / 256), Byte(|content|), padding, 0]
    + content + Zeros(padding)
  }

  /** A stream cut into records of at most 65535 bytes and closed by an empty one. */
  function StreamBytes(kind: byte, data: seq<byte>): seq<byte> {
    if data == [] then RecordBytes(kind, REQUEST_ID, [])
    else
      var n := Min(|data|, CHUNK);
      RecordBytes(kind, REQUEST_ID, data[..n]) + StreamBytes(kind, data[n..])
  }

  // ---------------------------------------------------------------- what the specification reads

  /** Section 3.4: one or four bytes; the top bit of the first says which. */
  function ReadLength(s: seq<byte>): Option<(nat, seq<byte>)> {
    if s == [] then None
    else if s[0] < 128 then Some((s[0], s[1..]))
    else if |s| < 4 then None
    else Some(((s[0] as int - 128) * 0x100_0000 + Word(s[1], s[2]) * 0x100 + s[3] as int, s[4..]))
  }

  datatype Pair = Pair(name: seq<byte>, value: seq<byte>)

  function ReadPair(s: seq<byte>): (r: Option<(Pair, seq<byte>)>)
    ensures r.Some? ==> |r.value.1| < |s|
  {
    var a := ReadLength(s);
    if a.None? then None else
      var b := ReadLength(a.value.1);
      if b.None? then None else
        var n, v, rest := a.value.0, b.value.0, b.value.1;
        if |rest| < n + v then None else Some((Pair(rest[..n], rest[n..n + v]), rest[n + v..]))
  }

  function ReadPairs(s: seq<byte>): Option<seq<Pair>>
    decreases |s|
  {
    if s == [] then Some([]) else
      var p := ReadPair(s);
      if p.None? then None else
        var more := ReadPairs(p.value.1);
        if more.None? then None else Some([p.value.0] + more.value)
  }

  datatype Record = Record(kind: byte, id: nat, content: seq<byte>, padding: nat)

  /** Section 3.3: an eight-byte header, the content, the padding. */
  function ReadRecord(s: seq<byte>): (r: Option<(Record, seq<byte>)>)
    ensures r.Some? ==> |r.value.1| < |s|
  {
    if |s| < 8 || s[0] != VERSION_1 then None else
      var n, padding := Word(s[4], s[5]), s[6] as int;
      if |s| < 8 + n + padding then None
      else Some((Record(s[1], Word(s[2], s[3]), s[8..8 + n], padding), s[8 + n + padding..]))
  }

  function ReadRecords(s: seq<byte>): Option<seq<Record>>
    decreases |s|
  {
    if s == [] then Some([]) else
      var x := ReadRecord(s);
      if x.None? then None else
        var more := ReadRecords(x.value.1);
        if more.None? then None else Some([x.value.0] + more.value)
  }

  function Contents(rs: seq<Record>): seq<byte> {
    if rs == [] then [] else rs[0].content + Contents(rs[1..])
  }

  // ---------------------------------------------------------------- lengths and pairs

  lemma LengthDigits(n: nat)
    requires n < 0x8000_0000
    ensures n / 0x100_0000 < 128
    ensures n == n / 0x100_0000 * 0x100_0000 + (n / 0x1_0000 % 256 * 256 + n / 0x100 % 256) * 0x100 + n % 256
  {
  }

  lemma LengthRoundTrip(n: nat, rest: seq<byte>)
    requires n < 0x8000_0000
    ensures ReadLength(LengthBytes(n) + rest) == Some((n, rest))
  {
    hide ReadLength;
    if n < 128 {
      ReadOne(n, rest);
    } else {
      LengthDigits(n);
      ReadFour(Byte(n / 0x100_0000), Byte(n / 0x1_0000), Byte(n / 0x100), Byte(n), rest);
    }
  }

  /** 2^31 is the exact limit: the four-byte form has no room for a longer length. */
  lemma LengthSurvivesIff(n: nat, rest: seq<byte>)
    ensures ReadLength(LengthBytes(n) + rest) == Some((n, rest)) <==> n < 0x8000_0000
  {
    hide ReadLength;
    if n < 0x8000_0000 {
      LengthRoundTrip(n, rest);
    } else {
      var a, b, c, d := WithTopBit(Byte(n / 0x100_0000)), Byte(n / 0x1_0000), Byte(n / 0x100), Byte(n);
      LongLengthIsShort(a, b, c, d, rest);
    }
  }

  lemma LongLengthIsShort(a: byte, b: byte, c: byte, d: byte, rest: seq<byte>)
    requires a >= 128
    ensures var r := ReadLength([a, b, c, d] + rest); r.Some? && r.value.0 < 0x8000_0000
  {
  }

  lemma ReadOne(a: byte, rest: seq<byte>)
    requires a < 128
    ensures ReadLength([a] + rest) == Some((a as nat, rest))
  {
    assert ([a] + rest)[1..] == rest;
  }

  lemma ReadFour(a: byte, b: byte, c: byte, d: byte, rest: seq<byte>)
    requires a < 128
    ensures ReadLength([WithTopBit(a), b, c, d] + rest)
            == Some((a as int * 0x100_0000 + (b as int * 256 + c as int) * 0x100 + d as int, rest))
  {
    assert ([WithTopBit(a), b, c, d] + rest)[4..] == rest;
  }

  /** Names and values that the four-byte form can express. */
  predicate Short(p: Pair) {
    |p.name| < 0x8000_0000 && |p.value| < 0x8000_0000
  }

  lemma PairRoundTrip(p: Pair, rest: seq<byte>)
    requires Short(p)
    ensures ReadPair(PairBytes(p.name, p.value) + rest) == Some((p, rest))
  {
    hide LengthBytes, ReadLength;
    var tail := p.name + p.value + rest;
    var s := PairBytes(p.name, p.value) + rest;
    assert s == LengthBytes(|p.name|) + (LengthBytes(|p.value|) + tail);
    LengthRoundTrip(|p.name|, LengthBytes(|p.value|) + tail);
    LengthRoundTrip(|p.value|, tail);
    assert tail[..|p.name|] == p.name;
    assert tail[|p.name|..|p.name| + |p.value|] == p.value;
    assert tail[|p.name| + |p.value|..] == rest;
  }

  function PairsBytes(ps: seq<Pair>): seq<byte> {
    if ps == [] then [] else PairBytes(ps[0].name, ps[0].value) + PairsBytes(ps[1..])
  }

  lemma {:induction false} PairsRoundTrip(ps: seq<Pair>)
    requires forall k :: 0 <= k < |ps| ==> Short(ps[k])
    ensures ReadPairs(PairsBytes(ps)) == Some(ps)
  {
    if ps != [] {
      hide PairBytes, ReadPair;
      PairsRoundTrip(ps[1..]);
      PairRoundTrip(ps[0], PairsBytes(ps[1..]));
      PairBytesNotEmpty(ps[0]);
      assert [ps[0]] + ps[1..] == ps;
    }
  }

  lemma PairBytesNotEmpty(p: Pair)
    ensures PairBytes(p.name, p.value) != []
  {
  }

  lemma {:induction false} PairsBytesAppend(ps: seq<Pair>, p: Pair)
    ensures PairsBytes(ps + [p]) == PairsBytes(ps) + PairBytes(p.name, p.value)
  {
    hide PairBytes;
    if ps == [] {
      assert [p][1..] == [];
    } else {
      assert (ps + [p])[1..] == ps[1..] + [p];
      PairsBytesAppend(ps[1..], p);
    }
  }

  // ---------------------------------------------------------------- records and streams

  lemma WordRoundTrip(n: nat)
    requires n < 0x1_0000
    ensures Word(Byte(n / 256), Byte(n)) == n
  {
  }

  lemma RecordRoundTrip(kind: byte, id: nat, content: seq<byte>, rest: seq<byte>)
    requires |content| <= CHUNK && id < 0x1_0000
    ensures ReadRecord(RecordBytes(kind, id, content) + rest)
            == Some((Record(kind, id, content, PaddingFor(|content|)), rest))
    ensures |RecordBytes(kind, id, content)| % 8 == 0 && RecordBytes(kind, id, content) != []
  {
    hide PaddingFor, Byte, Word, ReadRecord, Zeros;
    WordRoundTrip(|content|);
    WordRoundTrip(id);
    var padding := PaddingFor(|content|);
    ZerosLength(padding);
    ReadHeader(kind, Byte(id / 256), Byte(id), Byte(|content| / 256), Byte(|content|), padding, content,
               Zeros(padding), rest);
  }

  lemma ZerosLength(n: nat)
    ensures |Zeros(n)| == n
  {
  }

  lemma ReadHeader(kind: byte, i: byte, j: byte, m: byte, n: byte, padding: byte, content: seq<byte>, pad: seq<byte>,
                   rest: seq<byte>)
    requires |content| == Word(m, n) && |pad| == padding
    ensures ReadRecord([VERSION_1, kind, i, j, m, n, padding, 0] + content + pad + rest)
            == Some((Record(kind, Word(i, j), content, padding), rest))
  {
    hide Word;
    var head := [VERSION_1, kind, i, j, m, n, padding, 0];
    var s := head + content + pad + rest;
    assert s[..8] == head;
    assert forall k :: 0 <= k < 8 ==> s[k] == head[k];
    assert s[8..8 + |content|] == content;
    assert s[8 + |content| + padding as int..] == rest;
  }

  /** A record of a stream; only the last is empty, and all up to the last two are full. */
  predicate IsChunk(r: Record, kind: byte, after: nat) {
    && r.kind == kind && r.id == 1
    && r.padding < 8 && (|r.content| + r.padding) % 8 == 0
    && |r.content| <= 65535 && (r.content == [] <==> after == 0) && (after > 1 ==> |r.content| == 65535)
  }

  /** What every stream the client sends is made of. */
  ghost predicate GoodStream(rs: seq<Record>, kind: byte) {
    rs != [] && forall k :: 0 <= k < |rs| ==> IsChunk(rs[k], kind, |rs| - 1 - k)
  }

  /**
   * Decoding a stream gives records of whole multiples of eight bytes with as little padding as
   * possible, of 65535 bytes of content each up to the last two, only the last one empty, whose
   * contents joined are the data.
   */
  lemma {:induction false} StreamRoundTrip(kind: byte, data: seq<byte>)
    ensures var rs := ReadRecords(StreamBytes(kind, data));
            rs.Some? && GoodStream(rs.value, kind) && Contents(rs.value) == data
    ensures |StreamBytes(kind, data)| % 8 == 0
    decreases |data|
  {
    hide RecordBytes, ReadRecord, GoodStream, IsChunk;
    if data == [] {
      var x := Record(kind, REQUEST_ID, [], PaddingFor(0));
      RecordRoundTrip(kind, REQUEST_ID, [], []);
      assert RecordBytes(kind, REQUEST_ID, []) + [] == RecordBytes(kind, REQUEST_ID, []);
      assert ReadRecords([]) == Some([]);
      assert [x] + [] == [x];
      LastRecord(x);
    } else {
      var n := Min(|data|, CHUNK);
      var x := Record(kind, REQUEST_ID, data[..n], PaddingFor(n));
      StreamRoundTrip(kind, data[n..]);
      RecordRoundTrip(kind, REQUEST_ID, data[..n], StreamBytes(kind, data[n..]));
      var more := ReadRecords(StreamBytes(kind, data[n..])).value;
      FirstChunk(kind, data, more);
      MoreRecords(x, more);
      assert data[..n] + data[n..] == data;
    }
  }

  lemma FirstChunk(kind: byte, data: seq<byte>, more: seq<Record>)
    requires data != [] && GoodStream(more, kind) && Contents(more) == data[Min(|data|, CHUNK)..]
    ensures var n := Min(|data|, CHUNK);
            IsChunk(Record(kind, REQUEST_ID, data[..n], PaddingFor(n)), kind, |more|)
  {
    hide GoodStream;
    OnlyLast(more, kind);
    var n := Min(|data|, CHUNK);
    assert |data[..n]| == n > 0;
    assert n < CHUNK ==> data[n..] == [];
  }

  lemma LastRecord(x: Record)
    requires x == Record(x.kind, REQUEST_ID, [], PaddingFor(0))
    ensures GoodStream([x], x.kind) && Contents([x]) == []
  {
    assert Contents([x][1..]) == [];
  }

  lemma OnlyLast(rs: seq<Record>, kind: byte)
    requires GoodStream(rs, kind)
    ensures |rs| >= 1 && (Contents(rs) == [] ==> |rs| == 1)
  {
    assert Contents(rs) == [] ==> rs[0].content == [];
    assert IsChunk(rs[0], kind, |rs| - 1);
  }

  lemma MoreRecords(x: Record, rs: seq<Record>)
    requires GoodStream(rs, x.kind) && IsChunk(x, x.kind, |rs|)
    ensures GoodStream([x] + rs, x.kind) && Contents([x] + rs) == x.content + Contents(rs)
  {
    hide IsChunk;
    var all := [x] + rs;
    assert all[1..] == rs;
    assert forall k :: 1 <= k < |all| ==> all[k] == rs[k - 1];
  }

  // ---------------------------------------------------------------- the response loop

  datatype Response = Output(stdout: seq<byte>) | Failure(reason: string)

  /** What the loop in `execute` does with the bytes a server sends before it closes. */
  function ReadResponse(wire: seq<byte>, stdout: seq<byte>, stderr: seq<byte>): Response
    decreases |wire|
  {
    if |wire| < 8 then Finish(stdout, stderr) else
      var kind, id, n, padding := wire[1], Word(wire[2], wire[3]), Word(wire[4], wire[5]), wire[6] as int;
      if id != REQUEST_ID && kind != END_REQUEST then Failure("FastCGI request id mismatch")
      else if |wire| < 8 + n + padding then Failure("read failed")
      else
        var content := wire[8..8 + n];
        var rest := wire[8 + n + padding..];
        if kind == STDOUT then ReadResponse(rest, stdout + content, stderr)
        else if kind == STDERR then ReadResponse(rest, stdout, stderr + content)
        else if kind == END_REQUEST then Finish(stdout, stderr)
        else ReadResponse(rest, stdout, stderr)
  }

  function Finish(stdout: seq<byte>, stderr: seq<byte>): Response {
    if stderr != [] && stdout == [] then Failure("FastCGI stderr") else Output(stdout)
  }

  /** Any well-formed record of our request, with any amount of padding. */
  predicate WellFormedRecord(r: Record) {
    r.id == REQUEST_ID && |r.content| <= 65535 && r.padding < 256
  }

  function ServerBytes(r: Record): seq<byte>
    requires WellFormedRecord(r)
  {
    [VERSION_1, r.kind, 0, 1, |r.content| / 256, |r.content| % 256, r.padding, 0] + r.content + Zeros(r.padding)
  }

  function ServerStream(rs: seq<Record>): seq<byte>
    requires forall k :: 0 <= k < |rs| ==> WellFormedRecord(rs[k])
  {
    if rs == [] then [] else ServerBytes(rs[0]) + ServerStream(rs[1..])
  }

  /** The joined contents of the records of one kind. */
  function Select(rs: seq<Record>, kind: byte): seq<byte> {
    if rs == [] then [] else (if rs[0].kind == kind then rs[0].content else []) + Select(rs[1..], kind)
  }

  lemma ReadOneRecord(r: Record, rest: seq<byte>, stdout: seq<byte>, stderr: seq<byte>)
    requires WellFormedRecord(r)
    ensures ReadResponse(ServerBytes(r) + rest, stdout, stderr)
            == if r.kind == END_REQUEST then Finish(stdout, stderr)
               else ReadResponse(rest, stdout + (if r.kind == STDOUT then r.content else []),
                                 stderr + (if r.kind == STDERR then r.content else []))
  {
    var wire := ServerBytes(r) + rest;
    assert wire[8..8 + |r.content|] == r.content;
    assert wire[8 + |r.content| + r.padding..] == rest;
    assert Word(wire[4], wire[5]) == |r.content|;
    assert stdout + [] == stdout && stderr + [] == stderr;
  }

  lemma Join(a: seq<byte>, b: seq<byte>, c: seq<byte>)
    ensures (a + b) + c == a + (b + c)
  {
  }

  lemma {:induction false} ReadInterleaved(rs: seq<Record>, end: Record, trailing: seq<byte>, stdout: seq<byte>,
                                           stderr: seq<byte>)
    requires forall k :: 0 <= k < |rs| ==> WellFormedRecord(rs[k]) && rs[k].kind != END_REQUEST
    requires WellFormedRecord(end) && end.kind == END_REQUEST
    ensures ReadResponse(ServerStream(rs) + ServerBytes(end) + trailing, stdout, stderr)
            == Finish(stdout + Select(rs, STDOUT), stderr + Select(rs, STDERR))
    decreases |rs|
  {
    hide ReadResponse, ServerBytes;
    if rs == [] {
      ReadOneRecord(end, trailing, stdout, stderr);
      assert ServerStream(rs) + ServerBytes(end) + trailing == ServerBytes(end) + trailing;
      assert stdout + [] == stdout && stderr + [] == stderr;
    } else {
      var r := rs[0];
      var rest := ServerStream(rs[1..]) + ServerBytes(end) + trailing;
      assert ServerStream(rs) + ServerBytes(end) + trailing == ServerBytes(r) + rest;
      var o := if r.kind == STDOUT then r.content else [];
      var e := if r.kind == STDERR then r.content else [];
      ReadOneRecord(r, rest, stdout, stderr);
      ReadInterleaved(rs[1..], end, trailing, stdout + o, stderr + e);
      Join(stdout, o, Select(rs[1..], STDOUT));
      Join(stderr, e, Select(rs[1..], STDERR));
    }
  }

  /**
   * From any interleaving of well-formed records before the end record (type 3) the loop
   * recovers exactly the joined output (type 6), whatever the padding, other records and
   * bytes after the end; it fails only for a server that wrote errors (type 7) and no output.
   */
  lemma ResponseRecovered(rs: seq<Record>, end: Record, trailing: seq<byte>)
    requires forall k :: 0 <= k < |rs| ==> WellFormedRecord(rs[k]) && rs[k].kind != 3
    requires WellFormedRecord(end) && end.kind == 3
    ensures var r := ReadResponse(ServerStream(rs) + ServerBytes(end) + trailing, [], []);
            if Select(rs, 6) == [] && Select(rs, 7) != [] then r.Failure?
            else r == Output(Select(rs, 6))
  {
    ReadInterleaved(rs, end, trailing, [], []);
  }

  /** A record of another request, unless it is an end record, makes the loop fail. */
  lemma {:induction false} ForeignRecordFails(rs: seq<Record>, foreign: seq<byte>, stdout: seq<byte>, stderr: seq<byte>)
    requires forall k :: 0 <= k < |rs| ==> WellFormedRecord(rs[k]) && rs[k].kind != 3
    requires |foreign| >= 8 && foreign[1] != 3 && (foreign[2] != 0 || foreign[3] != 1)
    ensures ReadResponse(ServerStream(rs) + foreign, stdout, stderr).Failure?
    decreases |rs|
  {
    hide ServerBytes;
    if rs == [] {
      assert ServerStream(rs) + foreign == foreign;
    } else {
      hide ReadResponse;
      var r, rest := rs[0], ServerStream(rs[1..]) + foreign;
      assert ServerStream(rs) + foreign == ServerBytes(r) + rest;
      ReadOneRecord(r, rest, stdout, stderr);
      ForeignRecordFails(rs[1..], foreign, stdout + (if r.kind == STDOUT then r.content else []),
                         stderr + (if r.kind == STDERR then r.content else []));
    }
  }
}

/** The client's encoders and its response loop as they are in the source: bytes pushed onto a vector. */
module FastCgiClient {
  import opened Basics
  import opened FastCgiFormat

  /** `std::vector<unsigned char>` passed by reference. */
  class ByteVector {
    var data: seq<byte>

    constructor ()
      ensures data == []
    {
      data := [];
    }

    method PushBack(b: byte)
      modifies this
      ensures data == old(data) + [b]
    {
      data := data + [b];
    }

    method Append(s: seq<byte>)
      modifies this
      ensures data == old(data) + s
    {
      data := data + s;
    }
  }

  method AppendLength(out: ByteVector, len: nat)
    modifies out
    ensures out.data == old(out.data) + LengthBytes(len)
  {
    if len < 128 {
      out.PushBack(len);
    } else {
      out.PushBack(WithTopBit(Byte(len / 0x100_0000)));
      out.PushBack(Byte(len / 0x1_0000));
      out.PushBack(Byte(len / 0x100));
      out.PushBack(Byte(len));
    }
  }

  method AppendRecord(out: ByteVector, kind: byte, id: nat, content: seq<byte>)
    modifies out
    ensures out.data == old(out.data) + RecordBytes(kind, id, content)
  {
    var padding := (8 - |content| % 8) % 8;
    out.PushBack(VERSION_1);
    out.PushBack(kind);
    out.PushBack(Byte(id / 256));
    out.PushBack(Byte(id));
    out.PushBack(Byte(|content| / 256));
    out.PushBack(Byte(|content|));
    out.PushBack(padding);
    out.PushBack(0);
    out.Append(content);
    out.Append(Zeros(padding));
  }

  /** The pairs of a map, each once, in some order. */
  ghost predicate Lists(ps: seq<Pair>, params: map<seq<byte>, seq<byte>>) {
    && (forall k :: 0 <= k < |ps| ==> ps[k].name in params && params[ps[k].name] == ps[k].value)
    && (forall name :: name in params ==> Pair(name, params[name]) in ps)
    && (forall j, k :: 0 <= j < k < |ps| ==> ps[j].name != ps[k].name)
  }

  lemma ListsExtend(ps: seq<Pair>, done: map<seq<byte>, seq<byte>>, p: Pair)
    requires Lists(ps, done) && p.name !in done
    ensures Lists(ps + [p], done[p.name := p.value])
  {
    var all, done' := ps + [p], done[p.name := p.value];
    forall name | name in done' ensures Pair(name, done'[name]) in all {
      if name == p.name {
        assert all[|ps|] == Pair(name, done'[name]);
      } else {
        assert Pair(name, done[name]) in ps;
      }
    }
  }

  /** The hash map is walked in an order of its own; the bytes are those of all pairs in that order. */
  method EncodeNameValuePairs(params: map<seq<byte>, seq<byte>>) returns (out: ByteVector, ghost ps: seq<Pair>)
    ensures fresh(out) && Lists(ps, params) && out.data == PairsBytes(ps)
  {
    hide Lists, PairsBytes, LengthBytes;
    out := new ByteVector();
    ps := [];
    ghost var done: map<seq<byte>, seq<byte>> := map[];
    var rest := params.Keys;
    NothingListed();
    while rest != {}
      invariant fresh(out) && out.data == PairsBytes(ps) && Lists(ps, done)
      invariant rest <= params.Keys && done.Keys == params.Keys - rest
      invariant forall name :: name in done ==> done[name] == params[name]
      decreases |rest|
    {
      var name :| name in rest;
      var value := params[name];
      PairsBytesAppend(ps, Pair(name, value));
      ListsExtend(ps, done, Pair(name, value));
      AppendLength(out, |name|);
      AppendLength(out, |value|);
      out.Append(name);
      out.Append(value);
      assert out.data == PairsBytes(ps) + PairBytes(name, value);
      ps := ps + [Pair(name, value)];
      done := done[name := value];
      rest := rest - {name};
    }
    assert done == params;
  }

  lemma NothingListed()
    ensures Lists([], map[]) && PairsBytes([]) == []
  {
  }

  /** One turn of the chunk loop. */
  lemma NextChunk(kind: byte, data: seq<byte>, offset: nat)
    requires offset < |data|
    ensures var end := Min(|data|, offset + CHUNK);
            StreamBytes(kind, data[offset..])
                == RecordBytes(kind, REQUEST_ID, data[offset..end]) + StreamBytes(kind, data[end..])
  {
    var end := Min(|data|, offset + CHUNK);
    var rest := data[offset..];
    assert rest[..end - offset] == data[offset..end] && rest[end - offset..] == data[end..];
  }

  /** The chunk loop shared by `buildParams` and `buildStdin`. */
  method BuildStream(kind: byte, data: seq<byte>) returns (out: ByteVector)
    ensures fresh(out) && out.data == StreamBytes(kind, data)
  {
    hide StreamBytes, RecordBytes;
    out := new ByteVector();
    var offset := 0;
    assert data[0..] == data;
    while offset < |data|
      invariant fresh(out)
      invariant out.data + StreamBytes(kind, data[Min(offset, |data|)..]) == StreamBytes(kind, data)
    {
      var end := Min(|data|, offset + CHUNK);
      var chunk := data[offset..end];
      NextChunk(kind, data, offset);
      AppendRecord(out, kind, REQUEST_ID, chunk);
      offset := offset + CHUNK;
    }
    StreamEnds(kind);
    assert data[|data|..] == [];
    AppendRecord(out, kind, REQUEST_ID, []);
  }

  lemma StreamEnds(kind: byte)
    ensures StreamBytes(kind, []) == RecordBytes(kind, REQUEST_ID, [])
  {
  }

  /** What a decoder makes of the pairs: a map again. */
  function ToMap(ps: seq<Pair>): map<seq<byte>, seq<byte>> {
    if ps == [] then map[] else
      var p := ps[|ps| - 1];
      ToMap(ps[..|ps| - 1])[p.name := p.value]
  }

  lemma {:induction false} ListsGiveMap(ps: seq<Pair>, params: map<seq<byte>, seq<byte>>)
    requires Lists(ps, params)
    ensures ToMap(ps) == params && |ps| == |params|
    decreases |ps|
  {
    if ps == [] {
      assert params.Keys == {};
    } else {
      var p := ps[|ps| - 1];
      var rest := params - {p.name};
      assert rest.Keys == params.Keys - {p.name};
      ListsShrink(ps, params);
      ListsGiveMap(ps[..|ps| - 1], rest);
      assert params == rest[p.name := p.value];
    }
  }

  lemma ListsShrink(ps: seq<Pair>, params: map<seq<byte>, seq<byte>>)
    requires Lists(ps, params) && ps != []
    ensures Lists(ps[..|ps| - 1], params - {ps[|ps| - 1].name})
  {
    var p := ps[|ps| - 1];
    var rest := params - {p.name};
    forall name | name in rest ensures Pair(name, rest[name]) in ps[..|ps| - 1] {
      assert Pair(name, params[name]) in ps;
    }
  }

  /** `buildParams`: records of type 4; decoding the records and then the pairs returns the original map. */
  method BuildParams(params: map<seq<byte>, seq<byte>>) returns (out: ByteVector)
    requires forall name :: name in params ==> Short(Pair(name, params[name]))
    ensures fresh(out)
    ensures var rs := ReadRecords(out.data);
            && rs.Some? && GoodStream(rs.value, 4)
            && var ps := ReadPairs(Contents(rs.value));
               ps.Some? && ToMap(ps.value) == params && |ps.value| == |params|
  {
    var encoded, ps := EncodeNameValuePairs(params);
    out := BuildStream(PARAMS, encoded.data);
    StreamRoundTrip(PARAMS, encoded.data);
    assert forall k :: 0 <= k < |ps| ==> Short(ps[k]);
    PairsRoundTrip(ps);
    ListsGiveMap(ps, params);
  }

  /** `buildStdin`: records of type 5; decoding the records returns the body. */
  method BuildStdin(body: seq<byte>) returns (out: ByteVector)
    ensures fresh(out)
    ensures var rs := ReadRecords(out.data);
            rs.Some? && GoodStream(rs.value, 5) && Contents(rs.value) == body
  {
    out := BuildStream(STDIN, body);
    StreamRoundTrip(STDIN, body);
  }

  /** `buildBeginRequest`: one record of type 1 with the responder role and the close-connection flag. */
  method BuildBeginRequest() returns (out: ByteVector)
    ensures fresh(out)
    ensures ReadRecords(out.data) == Some([Record(1, 1, [0, 1, 0, 0, 0, 0, 0, 0], 0)])
  {
    hide RecordBytes, ReadRecord;
    out := new ByteVector();
    var payload: seq<byte> := [Byte(RESPONDER / 256), Byte(RESPONDER), 0] + Zeros(5);
    assert payload == [0, 1, 0, 0, 0, 0, 0, 0];
    AppendRecord(out, BEGIN_REQUEST, REQUEST_ID, payload);
    RecordRoundTrip(BEGIN_REQUEST, REQUEST_ID, payload, []);
    assert out.data == RecordBytes(BEGIN_REQUEST, REQUEST_ID, payload) + [];
    var x := Record(BEGIN_REQUEST, REQUEST_ID, payload, 0);
    assert ReadRecord(out.data) == Some((x, []));
    assert ReadRecords([]) == Some([]) && [x] + [] == [x];
  }

  /** The record loop of `execute` over what the server sends until it closes. */
  method Receive(wire: seq<byte>) returns (r: Response)
    ensures r == ReadResponse(wire, [], [])
  {
    var stdout: seq<byte>, stderr: seq<byte> := [], [];
    var pos := 0;
    while true
      invariant pos <= |wire|
      invariant ReadResponse(wire, [], []) == ReadResponse(wire[pos..], stdout, stderr)
      decreases |wire| - pos
    {
      if |wire| - pos < 8 { break; }
      var kind, id := wire[pos + 1], Word(wire[pos + 2], wire[pos + 3]);
      var n, padding := Word(wire[pos + 4], wire[pos + 5]), wire[pos + 6] as int;
      if id != REQUEST_ID && kind != END_REQUEST {
        return Failure("FastCGI request id mismatch");
      }
      if |wire| - pos < 8 + n + padding { return Failure("read failed"); }
      var content := wire[pos + 8..pos + 8 + n];
      ghost var here := wire[pos..];
      assert here[8..8 + n] == content;
      assert here[8 + n + padding..] == wire[pos + 8 + n + padding..];
      pos := pos + 8 + n + padding;
      if kind == STDOUT {
        stdout := stdout + content;
      } else if kind == STDERR {
        stderr := stderr + content;
      } else if kind == END_REQUEST {
        return if stderr != [] && stdout == [] then Failure("FastCGI stderr") else Output(stdout);
      }
    }
    r := if stderr != [] && stdout == [] then Failure("FastCGI stderr") else Output(stdout);
  }
}
