/** stream_set_decoder: the streams of a set, decoded one by one and interleaved block by block. */
module StreamSets {
  import opened BitWords
  import opened IntArith
  import opened NotationDecoders
  import opened StreamNotation

  // ------------------------------------------------------------------ decoding all the streams

  datatype Lengths = Common(len: int) | Uneven | Bad(error: Error)

  /** The common length of the first n streams, -1 when there are none. */
  function CommonLength(texts: seq<string>, base: Base, n: nat): (r: Lengths)
    requires n <= |texts|
    ensures r.Common? ==> r.len >= -1 && (r.len == -1 <==> n == 0)
  {
    if n == 0 then Common(-1)
    else
      var before := CommonLength(texts, base, n - 1);
      if !before.Common? then before
      else match DecodedText(texts[n - 1], base)
        case Undecodable(e) => Bad(e)
        case Decoded(_, len) => if before.len == -1 || before.len == len then Common(len) else Uneven
  }

  /** The streams have a common length exactly when each of them can be decoded and to that length. */
  lemma {:induction false} CommonLengthMeans(texts: seq<string>, base: Base, n: nat, len: nat)
    requires 0 < n <= |texts|
    ensures CommonLength(texts, base, n) == Common(len) <==>
      forall s :: 0 <= s < n ==> DecodedText(texts[s], base).Decoded? && DecodedText(texts[s], base).len == len
  {
    if n > 1 {
      CommonLengthMeans(texts, base, n - 1, len);
      var before := CommonLength(texts, base, n - 1);
      if before.Common? && before.len != len { CommonLengthMeans(texts, base, n - 1, before.len); }
    }
  }

  /** The first n streams decode to the length of the first one. */
  ghost predicate Agree(texts: seq<string>, base: Base, n: nat)
    requires n <= |texts| && (n > 0 ==> DecodedText(texts[0], base).Decoded?)
  {
    forall s :: 0 <= s < n ==>
      DecodedText(texts[s], base).Decoded? && DecodedText(texts[s], base).len == DecodedText(texts[0], base).len
  }

  lemma {:induction false} AgreeMeans(texts: seq<string>, base: Base, n: nat)
    requires 0 < n <= |texts| && DecodedText(texts[0], base).Decoded?
    ensures Agree(texts, base, n) <==> CommonLength(texts, base, n) == Common(DecodedText(texts[0], base).len)
    ensures Agree(texts, base, n) <==> CommonLength(texts, base, n).Common?
  {
    CommonLengthMeans(texts, base, n, DecodedText(texts[0], base).len);
    var common := CommonLength(texts, base, n);
    if common.Common? { CommonLengthMeans(texts, base, n, common.len); }
  }

  /** Stream s is the first one that does not decode, or not to the length of those before it. */
  ghost predicate FailsAt(texts: seq<string>, base: Base, s: nat) {
    && s < |texts| && (s > 0 ==> DecodedText(texts[0], base).Decoded?) && Agree(texts, base, s)
    && (DecodedText(texts[s], base).Undecodable?
        || (s > 0 && DecodedText(texts[s], base).len != DecodedText(texts[0], base).len))
  }

  /** It is the first such stream that decides what is reported: its own error, or that the lengths differ. */
  lemma {:induction false} FirstFailure(texts: seq<string>, base: Base, s: nat, n: nat)
    requires FailsAt(texts, base, s) && s < n <= |texts|
    ensures CommonLength(texts, base, n) ==
      match DecodedText(texts[s], base) { case Undecodable(e) => Bad(e) case Decoded(_, _) => Uneven }
  {
    if n > s + 1 {
      FirstFailure(texts, base, s, n - 1);
    } else if s > 0 {
      AgreeMeans(texts, base, s);
    }
  }

  // ------------------------------------------------------------------ interleaving

  function Ceiling(x: nat, d: nat): nat
    requires d > 0
  {
    (x + d - 1) / d
  }

  /** Byte idx of a stream, zero past its end. */
  function Padded(bytes: seq<Word>, idx: nat): Word {
    if idx < |bytes| then bytes[idx] else Zeros(8)
  }

  function ChunkIndex(pass: nat, chunk: nat, i: nat): nat {
    i + pass * chunk
  }

  /** The first k bytes that a pass takes from a stream. */
  function Chunk(bytes: seq<Word>, pass: nat, chunk: nat, k: nat): (r: seq<Word>)
    ensures |r| == k
  {
    seq(k, i requires 0 <= i => Padded(bytes, ChunkIndex(pass, chunk, i)))
  }

  function Pass(buffers: seq<seq<Word>>, pass: nat, chunk: nat, n: nat): seq<Word>
    requires n <= |buffers|
  {
    if n == 0 then [] else Pass(buffers, pass, chunk, n - 1) + Chunk(buffers[n - 1], pass, chunk, chunk)
  }

  function Interleaved(buffers: seq<seq<Word>>, chunk: nat, passes: nat): seq<Word> {
    if passes == 0 then [] else Interleaved(buffers, chunk, passes - 1) + Pass(buffers, passes - 1, chunk, |buffers|)
  }

  datatype SetResult = Set(bytes: seq<Word>, len: int, count: nat) | UnevenSet | BadSet(error: Error)

  function SetOf(texts: seq<string>, base: Base, blockWidth: nat): SetResult
    requires blockWidth > 0 && blockWidth % 8 == 0
  {
    match CommonLength(texts, base, |texts|)
    case Uneven => UnevenSet
    case Bad(e) => BadSet(e)
    case Common(len) =>
      var length := Ceiling(if len < 0 then 0 else len, 8);
      Set(Interleaved(Buffers(texts, base, |texts|), blockWidth / 8, Ceiling(length, blockWidth / 8)), len, |texts|)
  }

  function Buffers(texts: seq<string>, base: Base, n: nat): (r: seq<seq<Word>>)
    requires n <= |texts|
    ensures |r| == n
  {
    if n == 0 then [] else Buffers(texts, base, n - 1) + [BytesOf(texts[n - 1], base)]
  }

  lemma {:induction false} BuffersAt(texts: seq<string>, base: Base, n: nat, s: nat)
    requires s < n <= |texts|
    ensures Buffers(texts, base, n)[s] == BytesOf(texts[s], base)
  {
    if s < n - 1 { BuffersAt(texts, base, n - 1, s); }
  }

  function BytesOf(text: string, base: Base): (r: seq<Word>)
    ensures DecodedText(text, base).Decoded? ==> |r| == Ceiling(DecodedText(text, base).len, 8)
  {
    match DecodedText(text, base)
    case Decoded(bytes, _) => bytes
    case Undecodable(_) => []
  }

  /** stream_set_decoder::decode for bit streams; the length of an empty set is returned as -1 cast to size_t. */
  method DecodeSet(texts: seq<string>, base: Base, blockWidth: nat) returns (r: SetResult)
    requires blockWidth > 0 && blockWidth % 8 == 0
    ensures r == SetOf(texts, base, blockWidth)
  {
    var buffers: seq<seq<Word>> := [];
    var len: int := -1;
    for i := 0 to |texts|
      invariant CommonLength(texts, base, i) == Common(len) && buffers == Buffers(texts, base, i)
    {
      var result := Decode(texts[i], base);
      if result.Undecodable? {
        BadStays(texts, base, i + 1, |texts|);
        return BadSet(result.error);
      }
      buffers := buffers + [result.bytes];
      if len == -1 {
        len := result.len;
      } else if result.len != len {
        BadStays(texts, base, i + 1, |texts|);
        return UnevenSet;
      }
    }
    var chunk := blockWidth / 8;
    var length := Ceiling(if len < 0 then 0 else len, 8);
    EvenBuffers(texts, base, len);
    var bytes := InterleaveAll(buffers, length, chunk);
    r := Set(bytes, len, |texts|);
  }

  lemma {:induction false} BadStays(texts: seq<string>, base: Base, i: nat, n: nat)
    requires i <= n <= |texts| && !CommonLength(texts, base, i).Common?
    ensures CommonLength(texts, base, n) == CommonLength(texts, base, i)
  {
    if i < n { BadStays(texts, base, i, n - 1); }
  }

  lemma {:induction false} EvenBuffers(texts: seq<string>, base: Base, len: int)
    requires CommonLength(texts, base, |texts|) == Common(len)
    ensures forall s :: 0 <= s < |texts| ==> |Buffers(texts, base, |texts|)[s]| == Ceiling(len, 8)
  {
    forall s | 0 <= s < |texts|
      ensures |Buffers(texts, base, |texts|)[s]| == Ceiling(len, 8)
    {
      CommonLengthMeans(texts, base, |texts|, len);
      BuffersAt(texts, base, |texts|, s);
    }
  }

  method InterleaveAll(buffers: seq<seq<Word>>, length: nat, chunk: nat) returns (buffer: seq<Word>)
    requires chunk > 0 && forall s :: 0 <= s < |buffers| ==> |buffers[s]| == length
    ensures buffer == Interleaved(buffers, chunk, Ceiling(length, chunk))
  {
    buffer := [];
    var numPasses := Ceiling(length, chunk);
    for pass := 0 to numPasses
      invariant buffer == Interleaved(buffers, chunk, pass)
    {
      ghost var done := buffer;
      for s := 0 to |buffers|
        invariant buffer == done + Pass(buffers, pass, chunk, s)
      {
        buffer := PushChunk(buffer, buffers[s], length, pass, chunk);
      }
    }
  }

  method PushChunk(before: seq<Word>, buf: seq<Word>, length: nat, pass: nat, chunk: nat) returns (buffer: seq<Word>)
    requires |buf| == length
    ensures buffer == before + Chunk(buf, pass, chunk, chunk)
  {
    buffer := before;
    for i := 0 to chunk
      invariant buffer == before + Chunk(buf, pass, chunk, i)
    {
      var val := Zeros(8);
      var idx := i + pass * chunk;
      if idx < length { val := buf[idx]; }
      buffer := buffer + [val];
    }
  }

  // ------------------------------------------------------------------ where an item is

  lemma {:induction false} PassLength(buffers: seq<seq<Word>>, pass: nat, chunk: nat, n: nat)
    requires n <= |buffers|
    ensures |Pass(buffers, pass, chunk, n)| == n * chunk
  {
    if n > 0 { PassLength(buffers, pass, chunk, n - 1); }
  }

  lemma {:induction false} InterleavedLength(buffers: seq<seq<Word>>, chunk: nat, passes: nat, size: nat)
    requires size == |buffers| * chunk
    ensures |Interleaved(buffers, chunk, passes)| == passes * size
  {
    if passes > 0 {
      InterleavedLength(buffers, chunk, passes - 1, size);
      PassLength(buffers, passes - 1, chunk, |buffers|);
      OneMore(passes - 1, size);
    }
  }

  lemma OneMore(k: nat, size: nat)
    ensures k * size + size == (k + 1) * size
  {
  }

  lemma {:induction false} PassAt(buffers: seq<seq<Word>>, pass: nat, chunk: nat, n: nat, s: nat, i: nat)
    requires s < n <= |buffers| && i < chunk
    ensures s * chunk + i < |Pass(buffers, pass, chunk, n)|
    ensures Pass(buffers, pass, chunk, n)[s * chunk + i] == Padded(buffers[s], ChunkIndex(pass, chunk, i))
  {
    PassLength(buffers, pass, chunk, n - 1);
    if s < n - 1 {
      PassAt(buffers, pass, chunk, n - 1, s, i);
    } else {
      assert Pass(buffers, pass, chunk, n)[s * chunk + i] == Chunk(buffers[s], pass, chunk, chunk)[i];
    }
  }

  /** In pass k, a pass being size bytes, byte p of the pass. */
  lemma {:induction false} InterleavedAt(buffers: seq<seq<Word>>, chunk: nat, passes: nat, size: nat, k: nat, p: nat)
    requires k < passes && size == |buffers| * chunk && p < |Pass(buffers, k, chunk, |buffers|)|
    ensures k * size + p < |Interleaved(buffers, chunk, passes)|
    ensures Interleaved(buffers, chunk, passes)[k * size + p] == Pass(buffers, k, chunk, |buffers|)[p]
  {
    if k < passes - 1 {
      InterleavedAt(buffers, chunk, passes - 1, size, k, p);
    } else {
      InterleavedLength(buffers, chunk, k, size);
    }
  }

  /** Where byte idx of stream s goes in a set of count streams: in slot count * block + s, a slot being the chunk bytes
      of one block, at its place in the block. */
  function Place(idx: nat, s: nat, count: nat, chunk: nat): nat
    requires chunk > 0
  {
    (idx / chunk * count + s) * chunk + idx % chunk
  }

  lemma {:induction false} PlaceParts(idx: nat, s: nat, count: nat, chunk: nat)
    requires chunk > 0
    ensures Place(idx, s, count, chunk) == idx / chunk * (count * chunk) + (s * chunk + idx % chunk)
    ensures ChunkIndex(idx / chunk, chunk, idx % chunk) == idx
  {
    SlotPosition(idx / chunk, count, s, chunk);
    assert idx == idx / chunk * chunk + idx % chunk;
  }

  lemma SlotPosition(k: nat, n: nat, s: nat, chunk: nat)
    ensures (k * n + s) * chunk == k * (n * chunk) + s * chunk
  {
  }

  lemma {:induction false} BytePlace(buffers: seq<seq<Word>>, chunk: nat, passes: nat, s: nat, idx: nat)
    requires chunk > 0 && s < |buffers| && idx / chunk < passes
    ensures Place(idx, s, |buffers|, chunk) < |Interleaved(buffers, chunk, passes)|
    ensures Interleaved(buffers, chunk, passes)[Place(idx, s, |buffers|, chunk)] == Padded(buffers[s], idx)
  {
    PlaceParts(idx, s, |buffers|, chunk);
    PassAt(buffers, idx / chunk, chunk, |buffers|, s, idx % chunk);
    InterleavedAt(buffers, chunk, passes, |buffers| * chunk, idx / chunk, s * chunk + idx % chunk);
  }

  /** Item b of stream s lies in the block slot of its block and its stream, at its place in the block; what lies past
      the end of the stream is zero. */
  lemma {:induction false} ItemPlace(texts: seq<string>, base: Base, chunk: nat, len: nat, bytes: seq<Word>, node: Node,
                                     s: nat, b: nat)
    requires chunk > 0 && SetOf(texts, base, 8 * chunk) == Set(bytes, len, |texts|)
    requires s < |texts| && Parse(texts[s], base) == Ok(node) && b / 8 / chunk < Ceiling(Ceiling(len, 8), chunk)
    ensures var at := Place(b / 8, s, |texts|, chunk);
      at < |bytes| && |bytes[at]| == 8 && bytes[at][b % 8] == StreamBit(Expand(node), base, b)
  {
    assert (8 * chunk) / 8 == chunk;
    BuffersAt(texts, base, |texts|, s);
    BytePlace(Buffers(texts, base, |texts|), chunk, Ceiling(Ceiling(len, 8), chunk), s, b / 8);
    PaddedBit(Expand(node), base, b);
  }

  /** Decoding a set reports the error of the first stream that fails, or that the lengths differ if it is the first to
      differ. */
  lemma {:induction false} SetReports(texts: seq<string>, base: Base, chunk: nat, s: nat)
    requires chunk > 0 && FailsAt(texts, base, s)
    ensures SetOf(texts, base, 8 * chunk) ==
      match DecodedText(texts[s], base) { case Undecodable(e) => BadSet(e) case Decoded(_, _) => UnevenSet }
  {
    FirstFailure(texts, base, s, |texts|);
  }

  /** Nothing follows the last slot. */
  lemma {:induction false} SetSize(texts: seq<string>, base: Base, chunk: nat, len: nat, bytes: seq<Word>)
    requires chunk > 0 && SetOf(texts, base, 8 * chunk) == Set(bytes, len, |texts|)
    ensures |bytes| == Ceiling(Ceiling(len, 8), chunk) * (|texts| * chunk)
  {
    assert (8 * chunk) / 8 == chunk;
    InterleavedLength(Buffers(texts, base, |texts|), chunk, Ceiling(Ceiling(len, 8), chunk), |texts| * chunk);
  }

  /** Bit b of the padded bytes is bit b of the stream, zero past the end. */
  lemma {:induction false} PaddedBit(digits: seq<nat>, base: Base, b: nat)
    ensures var byte := Padded(Packed(digits, base).bytes, b / 8);
      |byte| == 8 && byte[b % 8] == StreamBit(digits, base, b)
  {
    if b / 8 < |Packed(digits, base).bytes| {
      assert Packed(digits, base).bytes[b / 8] == ByteOf(digits, base, b / 8);
      assert 8 * (b / 8) + b % 8 == b;
    } else {
      assert b / Width(base) >= |digits|;
    }
  }
}
