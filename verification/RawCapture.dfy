/** The bounded copies of a child's output: the head of its raw stdout, read in pages, and the tail of its stderr. */
module RawCapture {
  import opened Prelude

  type Bytes = seq<byte>

  // ----- capturing stdout

  class RawProtocolCapture {
    const limit: nat
    var bytes: Bytes
    var observed: nat
    var truncated: bool
    ghost var stream: Bytes

    /** The capture is the head of the stream, and `truncated` says whether anything is missing from it. */
    ghost predicate Valid()
      reads this
    {
      && limit <= U64_MAX
      && bytes == stream[..Min(limit, |stream|)]
      && observed == Min(|stream|, U64_MAX)
      && (truncated <==> |stream| > limit || |stream| >= U64_MAX)
    }

    constructor (limit: nat)
      requires limit <= U64_MAX
      ensures Valid() && this.limit == limit && stream == []
    {
      this.limit, bytes, observed, truncated, stream := limit, [], 0, false, [];
    }

    method Push(input: Bytes)
      requires Valid() && |input| <= U64_MAX
      modifies this
      ensures Valid() && stream == old(stream) + input
      ensures old(bytes) <= bytes && observed >= |bytes|
    {
      var next := SaturatingAdd(observed, |input|);
      if next == U64_MAX && |input| != 0 {
        truncated := true;
      }
      observed := next;
      HeadGrows(stream, input, limit);
      var remaining := SaturatingSub(limit, |bytes|);
      var retained := Min(remaining, |input|);
      bytes := bytes + input[..retained];
      truncated := truncated || retained < |input|;
      stream := stream + input;
    }
  }

  lemma HeadGrows(s: Bytes, input: Bytes, limit: nat)
    ensures var head := s[..Min(limit, |s|)];
      head + input[..Min(SaturatingSub(limit, |head|), |input|)] == (s + input)[..Min(limit, |s + input|)]
  {
    var whole := s + input;
    if |s| <= limit {
      assert s[..|s|] == s;
      assert whole[..Min(limit, |whole|)] == s + input[..Min(limit - |s|, |input|)];
    } else {
      assert whole[..limit] == s[..limit];
      assert input[..0] == [];
    }
  }

  /** Every way of cutting a stream into chunks captures the same head of it. */
  method CaptureAll(limit: nat, chunks: seq<Bytes>) returns (bytes: Bytes, observed: nat, truncated: bool)
    requires limit <= U64_MAX && forall i :: 0 <= i < |chunks| ==> |chunks[i]| <= U64_MAX
    ensures var stream := Concat(chunks);
      && bytes == stream[..Min(limit, |stream|)]
      && observed == Min(|stream|, U64_MAX) >= |bytes|
      && (|stream| < U64_MAX ==> (truncated <==> |stream| > limit))
  {
    var capture := new RawProtocolCapture(limit);
    for i := 0 to |chunks|
      invariant fresh(capture) && capture.Valid() && capture.limit == limit && capture.stream == Concat(chunks[..i])
    {
      TakeNext(chunks, i);
      ConcatAppend(chunks[..i], chunks[i]);
      capture.Push(chunks[i]);
    }
    assert chunks[..|chunks|] == chunks;
    return capture.bytes, capture.observed, capture.truncated;
  }

  // ----- reading the capture in pages

  datatype Page = Page(data: Bytes, nextOffset: nat, captured: nat)

  datatype PageError = CursorAhead

  function RawBatch(bytes: Bytes, after: nat, maximum: nat): Result<Page, PageError>
    requires |bytes| <= U64_MAX
  {
    if after > |bytes| then Err(CursorAhead)
    else
      var end := Min(SaturatingAdd(after, maximum), |bytes|);
      Ok(Page(bytes[after..end], end, |bytes|))
  }

  /**
   A page is what follows its cursor; it stops short of the capture's end only when it is full, so
   a reader that is behind always moves on.
   */
  lemma PageIsNext(bytes: Bytes, after: nat, maximum: nat)
    requires after <= |bytes| <= U64_MAX
    ensures RawBatch(bytes, after, maximum).Ok?
    ensures var page := RawBatch(bytes, after, maximum).value;
      && after <= page.nextOffset <= |bytes| && page.data == bytes[after..page.nextOffset] && page.captured == |bytes|
      && (page.nextOffset == |bytes| || |page.data| == maximum)
      && (maximum > 0 && after < |bytes| ==> page.nextOffset > after)
  {
  }

  /** A cursor behind the end of the capture is refused, and no other. */
  lemma OnlyAheadIsRefused(bytes: Bytes, after: nat, maximum: nat)
    requires |bytes| <= U64_MAX
    ensures RawBatch(bytes, after, maximum).Err? <==> after > |bytes|
  {
  }

  /** A read of the capture as it was at that moment. */
  datatype Read = Read(capture: Bytes, maximum: nat, page: Page)

  /** Reads chained by their offsets, while the capture grows towards `final`. */
  ghost predicate Chained(final: Bytes, after: nat, got: seq<Read>)
    decreases |got|
  {
    got != [] ==>
      && got[0].capture <= final && |final| <= U64_MAX
      && (|got| > 1 ==> got[0].capture <= got[1].capture)
      && RawBatch(got[0].capture, after, got[0].maximum) == Ok(got[0].page)
      && Chained(final, got[0].page.nextOffset, got[1..])
  }

  function LastOffset(after: nat, got: seq<Read>): nat {
    if got == [] then after else got[|got| - 1].page.nextOffset
  }

  function Data(got: seq<Read>): Bytes {
    if got == [] then [] else got[0].page.data + Data(got[1..])
  }

  /** Chained pages, put together, are the stretch of the capture from the first cursor to the last. */
  lemma {:induction false} PagesConcatenate(final: Bytes, after: nat, got: seq<Read>)
    requires Chained(final, after, got) && after <= |final| <= U64_MAX
    ensures after <= LastOffset(after, got) <= |final|
    ensures Data(got) == final[after..LastOffset(after, got)]
    decreases |got|
  {
    if got != [] {
      var next := got[0].page.nextOffset;
      PageIsNext(got[0].capture, after, got[0].maximum);
      PagesConcatenate(final, next, got[1..]);
      assert LastOffset(after, got) == LastOffset(next, got[1..]);
      assert got[0].page.data == final[after..next];
    }
  }

  /** With a positive page size, as many reads as there are bytes reach the end of a finished capture. */
  lemma {:induction false} PagesReachTheEnd(final: Bytes, after: nat, got: seq<Read>)
    requires Chained(final, after, got) && after <= |final| <= U64_MAX
    requires forall i :: 0 <= i < |got| ==> got[i].capture == final && got[i].maximum > 0
    requires |got| >= |final| - after
    ensures LastOffset(after, got) == |final|
    decreases |got|
  {
    if got != [] {
      var next := got[0].page.nextOffset;
      PageIsNext(final, after, got[0].maximum);
      PagesReachTheEnd(final, next, got[1..]);
      assert LastOffset(after, got) == LastOffset(next, got[1..]);
    }
  }

  // ----- the tail of stderr

  /** A chunk that fills the buffer by itself, or any byte when nothing may be kept. */
  predicate Fills(chunk: Bytes, limit: nat) {
    |chunk| >= limit && chunk != []
  }

  class BoundedBytes {
    const limit: nat
    var bytes: Bytes
    var truncated: bool
    ghost var stream: Bytes
    ghost var filled: bool

    /** The buffer is the tail of the stream; it reports truncation when bytes were lost or one chunk filled it. */
    ghost predicate Valid()
      reads this
    {
      bytes == Newest(stream, limit) && (truncated <==> |stream| > limit || filled)
    }

    constructor (limit: nat)
      ensures Valid() && this.limit == limit && stream == [] && !filled
    {
      this.limit, bytes, truncated, stream, filled := limit, [], false, [], false;
    }

    method Push(data: Bytes)
      requires Valid()
      modifies this
      ensures Valid() && stream == old(stream) + data && filled == (old(filled) || Fills(data, limit))
    {
      bytes, truncated := Extend(bytes, truncated, data, limit, stream);
      stream, filled := stream + data, filled || Fills(data, limit);
    }
  }

  /** The buffer and its flag after more data. */
  method Extend(bytes: Bytes, truncated: bool, data: Bytes, limit: nat, ghost stream: Bytes)
    returns (bytes': Bytes, truncated': bool)
    requires bytes == Newest(stream, limit)
    ensures bytes' == Newest(stream + data, limit)
    ensures truncated' == (truncated || Fills(data, limit) || |bytes + data| > limit)
  {
    if limit == 0 {
      return bytes, truncated || data != [];
    }
    if |data| >= limit {
      NewestOfLong(stream, data, limit);
      return data[SaturatingSub(|data|, limit)..], true;
    }
    NewestOfAppend(stream, data, limit);
    var lost;
    bytes', lost := TrimFront(bytes + data, limit);
    truncated' := truncated || lost;
  }

  lemma NewestOfLong(s: Bytes, data: Bytes, n: nat)
    requires |data| >= n
    ensures Newest(s + data, n) == data[|data| - n..]
  {
    var all := s + data;
    assert all[|all| - n..] == data[|data| - n..];
  }

  /** Pops bytes from the front until the rest fits. */
  method TrimFront(bytes: Bytes, limit: nat) returns (kept: Bytes, lost: bool)
    ensures kept == Newest(bytes, limit) && lost == (|bytes| > limit)
  {
    kept, lost := bytes, false;
    while |kept| > limit
      invariant |kept| <= |bytes| && kept == bytes[|bytes| - |kept|..]
      invariant kept == bytes || |kept| >= limit
      invariant lost == (|kept| < |bytes|)
    {
      kept, lost := kept[1..], true;
    }
  }

  /** The tail of a stream, however it was cut; the truncation flag is exact up to chunks that fill the buffer. */
  method TailAll(limit: nat, chunks: seq<Bytes>) returns (bytes: Bytes, truncated: bool)
    ensures bytes == Newest(Concat(chunks), limit)
    ensures truncated <==> |Concat(chunks)| > limit || exists i :: 0 <= i < |chunks| && Fills(chunks[i], limit)
  {
    var buffer := new BoundedBytes(limit);
    for i := 0 to |chunks|
      invariant fresh(buffer) && buffer.Valid() && buffer.limit == limit && buffer.stream == Concat(chunks[..i])
      invariant buffer.filled <==> exists j :: 0 <= j < i && Fills(chunks[j], limit)
    {
      TakeNext(chunks, i);
      ConcatAppend(chunks[..i], chunks[i]);
      buffer.Push(chunks[i]);
    }
    assert chunks[..|chunks|] == chunks;
    return buffer.bytes, buffer.truncated;
  }

  /** A chunk of exactly the limit is kept whole and still reported as truncated. */
  method FullChunkIsReported(limit: nat, chunk: Bytes) returns (bytes: Bytes, truncated: bool)
    requires |chunk| == limit > 0
    ensures bytes == chunk && truncated
  {
    var buffer := new BoundedBytes(limit);
    buffer.Push(chunk);
    assert [] + chunk == chunk;
    return buffer.bytes, buffer.truncated;
  }
}
