/**
 The two newline-delimited JSON decoders and the encoder. JSON itself is a parameter: `parse`
 and `serialize` stand for serde_json, and the facts about it that a proof needs are stated
 where they are needed. Both decoders are measured against one plain specification: split the
 bytes seen so far at newlines, drop one trailing CR from each line, and keep the longest
 prefix of lines that fit the limit and parse.
 */
module JsonLines {
  import opened Prelude

  const LF: byte := 10
  const CR: byte := 13
  const MAXIMUM_FRAME_BYTES: nat := 1024 * 1024
  const MAXIMUM_FRAMES_PER_PUSH: nat := 1024
  const MAXIMUM_BATCH_BYTES: nat := (MAXIMUM_FRAME_BYTES + 1) * 4

  type Parser<V> = seq<byte> -> Option<V>

  // ----- splitting at newlines

  /** Index of the first newline, or the length when there is none. */
  function LineEnd(s: seq<byte>): (e: nat)
    ensures e <= |s|
    ensures forall i :: 0 <= i < e ==> s[i] != LF
    ensures e < |s| ==> s[e] == LF
  {
    if LF in s then
      FirstNewline(s);
      var e :| 0 <= e < |s| && s[e] == LF && forall i :: 0 <= i < e ==> s[i] != LF;
      e
    else |s|
  }

  lemma {:induction false} FirstNewline(s: seq<byte>)
    requires LF in s
    ensures exists e :: 0 <= e < |s| && s[e] == LF && forall i :: 0 <= i < e ==> s[i] != LF
  {
    if s[0] != LF {
      FirstNewline(s[1..]);
      var e :| 0 <= e < |s| - 1 && s[1..][e] == LF && forall i :: 0 <= i < e ==> s[1..][i] != LF;
      assert s[e + 1] == LF;
      assert forall i :: 1 <= i < e + 1 ==> s[i] == s[1..][i - 1];
    }
  }

  function Lines(s: seq<byte>): seq<seq<byte>> {
    var e := LineEnd(s);
    if e == |s| then [] else [s[..e]] + Lines(s[e + 1..])
  }

  function Rest(s: seq<byte>): seq<byte> {
    var e := LineEnd(s);
    if e == |s| then s else Rest(s[e + 1..])
  }

  predicate NoNewline(s: seq<byte>) {
    LF !in s
  }

  lemma LineEndUnique(s: seq<byte>, e: nat)
    requires e <= |s|
    requires forall i :: 0 <= i < e ==> s[i] != LF
    requires e < |s| ==> s[e] == LF
    ensures LineEnd(s) == e
  {
  }

  /** The first complete line stays the first when more bytes follow. */
  lemma {:induction false} FirstLineStays(s: seq<byte>, t: seq<byte>)
    requires LineEnd(s) < |s|
    ensures var e := LineEnd(s);
      && Lines(s + t) == [s[..e]] + Lines(s[e + 1..] + t)
      && Rest(s + t) == Rest(s[e + 1..] + t)
  {
    var e := LineEnd(s);
    LineEndUnique(s + t, e);
    assert (s + t)[..e] == s[..e] && (s + t)[e + 1..] == s[e + 1..] + t;
  }

  lemma {:induction false} RestHasNoNewline(s: seq<byte>)
    ensures NoNewline(Rest(s))
    decreases |s|
  {
    var e := LineEnd(s);
    if e < |s| {
      RestHasNoNewline(s[e + 1..]);
    }
  }

  lemma {:induction false} RestAppend(s: seq<byte>, t: seq<byte>)
    ensures Rest(s + t) == Rest(Rest(s) + t)
    decreases |s|
  {
    var e := LineEnd(s);
    if e < |s| {
      FirstLineStays(s, t);
      RestAppend(s[e + 1..], t);
    }
  }

  lemma {:induction false} LinesAppend(s: seq<byte>, t: seq<byte>)
    ensures Lines(s + t) == Lines(s) + Lines(Rest(s) + t)
    decreases |s|
  {
    var e := LineEnd(s);
    if e < |s| {
      FirstLineStays(s, t);
      LinesAppend(s[e + 1..], t);
      Associate([s[..e]], Lines(s[e + 1..]), Lines(Rest(s[e + 1..]) + t));
    }
  }

  /** Splitting more bytes goes on from the unfinished line. */
  lemma {:induction false} SplitAppend(s: seq<byte>, t: seq<byte>)
    ensures Lines(s + t) == Lines(s) + Lines(Rest(s) + t)
    ensures Rest(s + t) == Rest(Rest(s) + t)
    ensures NoNewline(Rest(s))
  {
    LinesAppend(s, t);
    RestAppend(s, t);
    RestHasNoNewline(s);
  }

  lemma NoNewlineIsRest(s: seq<byte>)
    requires NoNewline(s)
    ensures Lines(s) == [] && Rest(s) == s
  {
    LineEndUnique(s, |s|);
  }

  lemma OneLine(s: seq<byte>, t: seq<byte>)
    requires NoNewline(s)
    ensures Lines(s + [LF] + t) == [s] + Lines(t)
    ensures Rest(s + [LF] + t) == Rest(t)
  {
    var whole := s + [LF] + t;
    LineEndUnique(whole, |s|);
    assert whole[..|s|] == s && whole[|s| + 1..] == t;
  }

  // ----- the specification of decoding

  function StripCr(line: seq<byte>): seq<byte> {
    if line != [] && line[|line| - 1] == CR then line[..|line| - 1] else line
  }

  predicate GoodLine<V>(limit: nat, parse: Parser<V>, line: seq<byte>) {
    |line| <= limit && parse(StripCr(line)).Some?
  }

  /** The frames of the longest prefix of good lines. */
  function Accepted<V>(limit: nat, parse: Parser<V>, lines: seq<seq<byte>>): (r: seq<V>)
    ensures |r| <= |lines|
  {
    if lines == [] || !GoodLine(limit, parse, lines[0]) then []
    else [parse(StripCr(lines[0])).value] + Accepted(limit, parse, lines[1..])
  }

  datatype Fault = Oversized | Malformed

  datatype Decoded<V> = Decoded(frames: seq<V>, fault: Option<Fault>)

  function LineFault(limit: nat, line: seq<byte>): Fault {
    if |line| > limit then Oversized else Malformed
  }

  /** What a decoder that has seen exactly the bytes `s` must have produced. */
  function Decode<V>(limit: nat, parse: Parser<V>, s: seq<byte>): Decoded<V> {
    var lines := Lines(s);
    var frames := Accepted(limit, parse, lines);
    Decoded(frames,
            if |frames| < |lines| then Some(LineFault(limit, lines[|frames|]))
            else if |Rest(s)| > limit then Some(Oversized)
            else None)
  }

  lemma {:induction false} AcceptedAppend<V>(limit: nat, parse: Parser<V>, a: seq<seq<byte>>, b: seq<seq<byte>>)
    ensures Accepted(limit, parse, a + b) ==
      if |Accepted(limit, parse, a)| == |a| then Accepted(limit, parse, a) + Accepted(limit, parse, b)
      else Accepted(limit, parse, a)
  {
    if a == [] {
      assert a + b == b;
    } else if GoodLine(limit, parse, a[0]) {
      AcceptedAppend(limit, parse, a[1..], b);
      assert (a + b)[0] == a[0] && (a + b)[1..] == a[1..] + b;
      Associate([parse(StripCr(a[0])).value], Accepted(limit, parse, a[1..]), Accepted(limit, parse, b));
    } else {
      assert (a + b)[0] == a[0];
    }
  }

  /** An unfaulted decoder may forget everything but the unfinished line. */
  lemma DecodeContinues<V>(limit: nat, parse: Parser<V>, s: seq<byte>, t: seq<byte>)
    requires Decode(limit, parse, s).fault.None?
    ensures var next := Decode(limit, parse, Rest(s) + t);
      Decode(limit, parse, s + t) == Decoded(Decode(limit, parse, s).frames + next.frames, next.fault)
  {
    SplitAppend(s, t);
    AcceptedAppend(limit, parse, Lines(s), Lines(Rest(s) + t));
  }

  lemma FirstLineStartsWithRest(rest: seq<byte>, t: seq<byte>)
    requires NoNewline(rest)
    ensures if Lines(rest + t) == [] then rest <= Rest(rest + t) else rest <= Lines(rest + t)[0]
  {
    var e := LineEnd(rest + t);
    assert forall i :: 0 <= i < |rest| ==> (rest + t)[i] == rest[i] && rest[i] in rest;
    assert e >= |rest|;
  }

  /** Once faulted, no further bytes change the frames or the fault. */
  lemma FaultIsFinal<V>(limit: nat, parse: Parser<V>, s: seq<byte>, t: seq<byte>)
    requires Decode(limit, parse, s).fault.Some?
    ensures Decode(limit, parse, s + t) == Decode(limit, parse, s)
  {
    SplitAppend(s, t);
    AcceptedAppend(limit, parse, Lines(s), Lines(Rest(s) + t));
    if |Accepted(limit, parse, Lines(s))| == |Lines(s)| {
      FirstLineStartsWithRest(Rest(s), t);
      var more := Lines(Rest(s) + t);
      assert more != [] ==> !GoodLine(limit, parse, more[0]);
      assert Accepted(limit, parse, more) == [];
    }
  }

  // ----- what the specification says

  function Terminated(lines: seq<seq<byte>>): seq<byte> {
    if lines == [] then [] else lines[0] + [LF] + Terminated(lines[1..])
  }

  ghost predicate Rejoins(lines: seq<seq<byte>>, rest: seq<byte>, s: seq<byte>) {
    Terminated(lines) + rest == s
  }

  lemma RejoinsFirst(line: seq<byte>, lines: seq<seq<byte>>, rest: seq<byte>, tail: seq<byte>)
    requires Rejoins(lines, rest, tail)
    ensures Rejoins([line] + lines, rest, line + [LF] + tail)
  {
    assert ([line] + lines)[1..] == lines;
    Associate(line + [LF], Terminated(lines), rest);
  }

  lemma RejoinsAll(s: seq<byte>)
    ensures Rejoins([], s, s)
  {
  }

  /** The lines and the unfinished rest are the bytes, cut at newlines. */
  lemma {:induction false} LinesRejoin(s: seq<byte>)
    ensures Rejoins(Lines(s), Rest(s), s)
    decreases |s|
  {
    var e := LineEnd(s);
    if e < |s| {
      var line, tail := s[..e], s[e + 1..];
      LinesRejoin(tail);
      RejoinsFirst(line, Lines(tail), Rest(tail), tail);
      CutAtNewline(s, e);
    } else {
      RejoinsAll(s);
    }
  }

  lemma CutAtNewline(s: seq<byte>, e: nat)
    requires e < |s| && s[e] == LF
    ensures s == s[..e] + [LF] + s[e + 1..]
  {
  }

  /** No line holds a newline. */
  lemma {:induction false} LinesHoldNoNewline(s: seq<byte>, i: nat)
    requires i < |Lines(s)|
    ensures NoNewline(Lines(s)[i])
    decreases |s|
  {
    var e := LineEnd(s);
    if i > 0 {
      LinesHoldNoNewline(s[e + 1..], i - 1);
    }
  }

  /** The frames are the parsed lines, in order, up to the first line that is too long or does not parse. */
  lemma {:induction false} AcceptedMeans<V>(limit: nat, parse: Parser<V>, lines: seq<seq<byte>>)
    ensures var frames := Accepted(limit, parse, lines);
      && (forall i :: 0 <= i < |frames| ==> |lines[i]| <= limit && parse(StripCr(lines[i])) == Some(frames[i]))
      && (|frames| < |lines| ==> |lines[|frames|]| > limit || parse(StripCr(lines[|frames|])).None?)
  {
    if lines != [] && GoodLine(limit, parse, lines[0]) {
      AcceptedMeans(limit, parse, lines[1..]);
    }
  }

  /** A fault is the first bad line, too long or not JSON, or an unfinished line that is already too long. */
  lemma FaultMeans<V>(limit: nat, parse: Parser<V>, s: seq<byte>)
    ensures var d, lines := Decode(limit, parse, s), Lines(s);
      var n := |d.frames|;
      && (d.fault == Some(Malformed) <==> n < |lines| && |lines[n]| <= limit)
      && (d.fault == Some(Oversized) <==> (n < |lines| && |lines[n]| > limit) || (n == |lines| && |Rest(s)| > limit))
  {
  }

  /** One carriage return before the newline is dropped, and only one. */
  lemma OneReturnIsDropped<V>(limit: nat, parse: Parser<V>, line: seq<byte>)
    requires NoNewline(line) && |line| < limit && parse(line).Some?
    ensures Decode(limit, parse, line + [CR] + [LF]) == Decoded([parse(line).value], None)
  {
    assert StripCr(line + [CR]) == line;
    OneLine(line + [CR], []);
    NoNewlineIsRest([]);
    assert line + [CR] + [LF] == line + [CR] + [LF] + [];
    AcceptedOne(limit, parse, line + [CR]);
  }

  // ----- chunked input

  /** What each push of a chunk returns, and the unfinished line that is carried over. */
  datatype Output<V> = Output(frames: seq<V>, failed: bool)

  function Outputs<V>(limit: nat, parse: Parser<V>, rest: seq<byte>, failed: bool, chunks: seq<seq<byte>>)
    : (r: seq<Output<V>>)
    ensures |r| == |chunks|
    decreases |chunks|
  {
    if chunks == [] then []
    else if failed then [Output([], true)] + Outputs(limit, parse, [], true, chunks[1..])
    else
      var d := Decode(limit, parse, rest + chunks[0]);
      [Output(d.frames, d.fault.Some?)]
      + Outputs(limit, parse, Rest(rest + chunks[0]), d.fault.Some?, chunks[1..])
  }

  function AllFrames<V>(outputs: seq<Output<V>>): seq<V> {
    if outputs == [] then [] else outputs[0].frames + AllFrames(outputs[1..])
  }

  predicate AnyFailed<V>(outputs: seq<Output<V>>) {
    exists i :: 0 <= i < |outputs| && outputs[i].failed
  }

  lemma OutputsCons<V>(output: Output<V>, tail: seq<Output<V>>)
    ensures AllFrames([output] + tail) == output.frames + AllFrames(tail)
    ensures AnyFailed([output] + tail) <==> output.failed || AnyFailed(tail)
  {
    var all := [output] + tail;
    assert all[0] == output && all[1..] == tail;
    assert forall i :: 0 <= i < |tail| ==> all[i + 1] == tail[i];
  }

  lemma {:induction false} FailedOutputsNothing<V>(limit: nat, parse: Parser<V>, rest: seq<byte>, chunks: seq<seq<byte>>)
    ensures AllFrames(Outputs(limit, parse, rest, true, chunks)) == []
    ensures forall i :: 0 <= i < |chunks| ==> Outputs(limit, parse, rest, true, chunks)[i].failed
    decreases |chunks|
  {
    if chunks != [] {
      FailedOutputsNothing(limit, parse, [], chunks[1..]);
    }
  }

  /** The first push of a chunk list, and what is left to show about the others. */
  lemma FirstPush<V>(limit: nat, parse: Parser<V>, rest: seq<byte>, chunks: seq<seq<byte>>)
    requires chunks != []
    ensures var outputs := Outputs(limit, parse, rest, false, chunks);
      var d := Decode(limit, parse, rest + chunks[0]);
      var tail := Outputs(limit, parse, Rest(rest + chunks[0]), d.fault.Some?, chunks[1..]);
      && AllFrames(outputs) == d.frames + AllFrames(tail)
      && (AnyFailed(outputs) <==> d.fault.Some? || AnyFailed(tail))
      && (d.fault.Some? ==> AllFrames(tail) == [])
  {
    var d := Decode(limit, parse, rest + chunks[0]);
    var tail := Outputs(limit, parse, Rest(rest + chunks[0]), d.fault.Some?, chunks[1..]);
    OutputsCons(Output(d.frames, d.fault.Some?), tail);
    if d.fault.Some? {
      FailedOutputsNothing(limit, parse, Rest(rest + chunks[0]), chunks[1..]);
    }
  }

  /** Decoding `seen`, one more chunk and then `t`, in terms of the push of that chunk. */
  lemma DecodeAfterPush<V>(limit: nat, parse: Parser<V>, seen: seq<byte>, chunk: seq<byte>, t: seq<byte>)
    requires Decode(limit, parse, seen).fault.None?
    ensures Rest(Rest(seen) + chunk) == Rest(seen + chunk)
    ensures var d := Decode(limit, parse, Rest(seen) + chunk);
      && Decode(limit, parse, seen + chunk).frames == Decode(limit, parse, seen).frames + d.frames
      && Decode(limit, parse, seen + chunk).fault == d.fault
      && (d.fault.Some? ==> Decode(limit, parse, seen + chunk + t) == Decode(limit, parse, seen + chunk))
  {
    SplitAppend(seen, chunk);
    DecodeContinues(limit, parse, seen, chunk);
    if Decode(limit, parse, seen + chunk).fault.Some? {
      FaultIsFinal(limit, parse, seen + chunk, t);
    }
  }

  ghost predicate ChunksAgree<V>(limit: nat, parse: Parser<V>, seen: seq<byte>, chunks: seq<seq<byte>>, whole: Decoded<V>) {
    var outputs := Outputs(limit, parse, Rest(seen), false, chunks);
    && Decode(limit, parse, seen).frames + AllFrames(outputs) == whole.frames
    && (AnyFailed(outputs) <==> whole.fault.Some?)
  }

  /**
   The frames accepted over a whole stream, and whether it fails, do not depend on how the stream
   was cut into chunks: they are those of the plain specification on the concatenated bytes.
   */
  lemma {:induction false} ChunkingIsIrrelevant<V>(limit: nat, parse: Parser<V>, seen: seq<byte>, chunks: seq<seq<byte>>)
    requires Decode(limit, parse, seen).fault.None?
    ensures ChunksAgree(limit, parse, seen, chunks, Decode(limit, parse, seen + Concat(chunks)))
    decreases |chunks|
  {
    if chunks == [] {
      assert seen + Concat(chunks) == seen;
    } else {
      var tail := Concat(chunks[1..]);
      assert seen + Concat(chunks) == seen + chunks[0] + tail;
      if Decode(limit, parse, seen + chunks[0]).fault.None? {
        ChunkingIsIrrelevant(limit, parse, seen + chunks[0], chunks[1..]);
      }
      PushThenRest(limit, parse, seen, chunks);
    }
  }

  lemma {:induction false} PushThenRest<V>(limit: nat, parse: Parser<V>, seen: seq<byte>, chunks: seq<seq<byte>>)
    requires chunks != [] && Decode(limit, parse, seen).fault.None?
    requires var more := seen + chunks[0];
      Decode(limit, parse, more).fault.None? ==>
        ChunksAgree(limit, parse, more, chunks[1..], Decode(limit, parse, more + Concat(chunks[1..])))
    ensures ChunksAgree(limit, parse, seen, chunks, Decode(limit, parse, seen + chunks[0] + Concat(chunks[1..])))
  {
    FirstPush(limit, parse, Rest(seen), chunks);
    DecodeAfterPush(limit, parse, seen, chunks[0], Concat(chunks[1..]));
    var d := Decode(limit, parse, Rest(seen) + chunks[0]);
    var tail := Outputs(limit, parse, Rest(Rest(seen) + chunks[0]), d.fault.Some?, chunks[1..]);
    Associate(Decode(limit, parse, seen).frames, d.frames, AllFrames(tail));
  }

  lemma ChunkingsAgree<V>(limit: nat, parse: Parser<V>, a: seq<seq<byte>>, b: seq<seq<byte>>)
    requires Concat(a) == Concat(b)
    ensures AllFrames(Outputs(limit, parse, [], false, a)) == AllFrames(Outputs(limit, parse, [], false, b))
    ensures AnyFailed(Outputs(limit, parse, [], false, a)) <==> AnyFailed(Outputs(limit, parse, [], false, b))
  {
    NoNewlineIsRest([]);
    ChunkingIsIrrelevant(limit, parse, [], a);
    ChunkingIsIrrelevant(limit, parse, [], b);
    assert forall outputs: seq<Output<V>> :: [] + AllFrames(outputs) == AllFrames(outputs);
  }

  // ----- the bounded decoder of the adapters

  datatype JsonLineError =
    | InvalidFrameLimit(requested: nat, maximum: nat)
    | FrameTooLarge(limit: nat)
    | BatchTooLarge(limit: nat)
    | TooManyFrames(limit: nat)
    | InvalidJson
    | IncompleteFrame
    | Poisoned

  predicate LegalLimit(limit: nat) {
    1 <= limit <= MAXIMUM_FRAME_BYTES
  }

  function BatchLimit(limit: nat): nat {
    Min(SaturatingMul(SaturatingAdd(limit, 1), 4), MAXIMUM_BATCH_BYTES)
  }

  /** The saturating arithmetic behind the batch limit never saturates or clips a legal limit. */
  lemma BatchLimitIsExact(limit: nat)
    ensures LegalLimit(limit) ==> BatchLimit(limit) == (limit + 1) * 4
    ensures BatchLimit(limit) == (limit + 1) * 4 <==> limit <= MAXIMUM_FRAME_BYTES
  {
  }

  function FaultError(fault: Fault, limit: nat): JsonLineError {
    match fault
    case Oversized => FrameTooLarge(limit)
    case Malformed => InvalidJson
  }

  /** The terminal error of one push, in the order in which the code detects the violations. */
  function PushError<V>(limit: nat, parse: Parser<V>, rest: seq<byte>, chunk: seq<byte>): Option<JsonLineError> {
    var batch := BatchLimit(limit);
    var window := rest + chunk[..Min(|chunk|, batch)];
    var lines := Lines(window);
    var accepted := |Accepted(limit, parse, lines)|;
    if MAXIMUM_FRAMES_PER_PUSH <= accepted && MAXIMUM_FRAMES_PER_PUSH < |lines| then
      Some(TooManyFrames(MAXIMUM_FRAMES_PER_PUSH))
    else if accepted < |lines| then Some(FaultError(LineFault(limit, lines[accepted]), limit))
    else if |chunk| > batch then Some(BatchTooLarge(batch))
    else if |Rest(window)| > limit then Some(FrameTooLarge(limit))
    else None
  }

  predicate WithinLimits(limit: nat, rest: seq<byte>, chunk: seq<byte>) {
    |chunk| <= BatchLimit(limit) && |Lines(rest + chunk)| <= MAXIMUM_FRAMES_PER_PUSH
  }

  /** A push is refused for its fan-out exactly when it brings more lines than that and all up to there are good. */
  lemma FanOutIsExact<V>(limit: nat, parse: Parser<V>, rest: seq<byte>, chunk: seq<byte>)
    ensures var lines := Lines(rest + chunk[..Min(|chunk|, BatchLimit(limit))]);
      PushError(limit, parse, rest, chunk) == Some(TooManyFrames(MAXIMUM_FRAMES_PER_PUSH)) <==>
        |lines| > MAXIMUM_FRAMES_PER_PUSH && forall i :: 0 <= i < MAXIMUM_FRAMES_PER_PUSH ==> GoodLine(limit, parse, lines[i])
  {
    AcceptedMeans(limit, parse, Lines(rest + chunk[..Min(|chunk|, BatchLimit(limit))]));
  }

  /** A push of more bytes than the batch limit is refused for that when the bytes within it are good lines. */
  lemma BatchIsExact<V>(limit: nat, parse: Parser<V>, rest: seq<byte>, chunk: seq<byte>)
    ensures var window := rest + chunk[..Min(|chunk|, BatchLimit(limit))];
      PushError(limit, parse, rest, chunk) == Some(BatchTooLarge(BatchLimit(limit))) <==>
        && |chunk| > BatchLimit(limit) && |Accepted(limit, parse, Lines(window))| == |Lines(window)|
        && |Lines(window)| <= MAXIMUM_FRAMES_PER_PUSH
  {
  }

  /** Within the batch and fan-out limits the only errors are those of the plain specification. */
  lemma PushErrorIsFault<V>(limit: nat, parse: Parser<V>, rest: seq<byte>, chunk: seq<byte>)
    requires WithinLimits(limit, rest, chunk)
    ensures var fault := Decode(limit, parse, rest + chunk).fault;
      PushError(limit, parse, rest, chunk) == if fault.None? then None else Some(FaultError(fault.value, limit))
  {
    assert chunk[..Min(|chunk|, BatchLimit(limit))] == chunk;
  }

  lemma NextLine<V>(limit: nat, parse: Parser<V>, lines: seq<seq<byte>>, k: nat)
    requires k < |lines| && |Accepted(limit, parse, lines[..k])| == k
    ensures if GoodLine(limit, parse, lines[k])
      then Accepted(limit, parse, lines[..k + 1])
        == Accepted(limit, parse, lines[..k]) + [parse(StripCr(lines[k])).value]
      else Accepted(limit, parse, lines) == Accepted(limit, parse, lines[..k])
    ensures Accepted(limit, parse, lines[..k]) <= Accepted(limit, parse, lines)
  {
    assert lines[..k + 1] == lines[..k] + [lines[k]];
    assert lines == lines[..k] + lines[k..];
    AcceptedAppend(limit, parse, lines[..k], [lines[k]]);
    AcceptedAppend(limit, parse, lines[..k], lines[k..]);
    assert [lines[k]][1..] == [];
  }

  /** Decoding `window` has produced `frames`, all its lines so far were good, and `pending` is left. */
  ghost predicate Progressed<V>(limit: nat, parse: Parser<V>, window: seq<byte>, frames: seq<V>, pending: seq<byte>) {
    var lines := Lines(window);
    && |frames| <= |lines|
    && frames == Accepted(limit, parse, lines[..|frames|])
    && Lines(pending) == lines[|frames|..]
    && Rest(pending) == Rest(window)
  }

  lemma ProgressStarts<V>(limit: nat, parse: Parser<V>, window: seq<byte>)
    ensures Progressed<V>(limit, parse, window, [], window)
  {
    assert Lines(window)[..0] == [];
  }

  lemma ProgressByLine<V>(limit: nat, parse: Parser<V>, window: seq<byte>, frames: seq<V>, line: seq<byte>, tail: seq<byte>)
    requires Progressed(limit, parse, window, frames, line + [LF] + tail) && NoNewline(line)
    ensures |frames| < |Lines(window)| && Lines(window)[|frames|] == line
    ensures frames <= Accepted(limit, parse, Lines(window))
    ensures if GoodLine(limit, parse, line)
      then Progressed(limit, parse, window, frames + [parse(StripCr(line)).value], tail)
      else Accepted(limit, parse, Lines(window)) == frames
  {
    var lines, k := Lines(window), |frames|;
    OneLine(line, tail);
    assert lines[k..][0] == line && lines[k..][1..] == lines[k + 1..];
    NextLine(limit, parse, lines, k);
  }

  lemma ProgressEnds<V>(limit: nat, parse: Parser<V>, window: seq<byte>, frames: seq<V>, pending: seq<byte>)
    requires Progressed(limit, parse, window, frames, pending) && NoNewline(pending)
    ensures Accepted(limit, parse, Lines(window)) == frames && |frames| == |Lines(window)|
    ensures Rest(window) == pending
  {
    NoNewlineIsRest(pending);
    assert Lines(window)[..|frames|] == Lines(window);
  }

  class BoundedJsonLineDecoder<V> {
    const parse: Parser<V>
    const maximumFrameBytes: nat
    const maximumBatchBytes: nat
    const maximumFramesPerPush: nat
    var buffer: seq<byte>
    var poisoned: bool

    ghost predicate Valid()
      reads this
    {
      && LegalLimit(maximumFrameBytes)
      && maximumBatchBytes == BatchLimit(maximumFrameBytes)
      && maximumFramesPerPush == MAXIMUM_FRAMES_PER_PUSH
      && NoNewline(buffer) && |buffer| <= maximumFrameBytes
      && (poisoned ==> buffer == [])
    }

    constructor (parse: Parser<V>, maximumFrameBytes: nat)
      requires LegalLimit(maximumFrameBytes)
      ensures Valid() && !poisoned && buffer == []
      ensures this.parse == parse && this.maximumFrameBytes == maximumFrameBytes
    {
      this.parse := parse;
      this.maximumFrameBytes := maximumFrameBytes;
      maximumBatchBytes := Min(SaturatingMul(SaturatingAdd(maximumFrameBytes, 1), 4), MAXIMUM_BATCH_BYTES);
      maximumFramesPerPush := MAXIMUM_FRAMES_PER_PUSH;
      buffer := [];
      poisoned := false;
    }

    static method New(parse: Parser<V>, maximumFrameBytes: nat)
      returns (r: Result<BoundedJsonLineDecoder<V>, JsonLineError>)
      ensures r.Ok? <==> LegalLimit(maximumFrameBytes)
      ensures r.Ok? ==> fresh(r.value) && r.value.Valid() && !r.value.poisoned && r.value.buffer == []
      ensures r.Ok? ==> r.value.parse == parse && r.value.maximumFrameBytes == maximumFrameBytes
      ensures r.Err? ==> r.error == InvalidFrameLimit(maximumFrameBytes, MAXIMUM_FRAME_BYTES)
    {
      if maximumFrameBytes == 0 || maximumFrameBytes > MAXIMUM_FRAME_BYTES {
        return Err(InvalidFrameLimit(maximumFrameBytes, MAXIMUM_FRAME_BYTES));
      }
      var decoder := new BoundedJsonLineDecoder(parse, maximumFrameBytes);
      return Ok(decoder);
    }

    method Poison()
      modifies this
      ensures poisoned && buffer == []
    {
      poisoned := true;
      buffer := [];
    }

    method ExtendChecked(bytes: seq<byte>) returns (error: Option<JsonLineError>)
      modifies this
      ensures |old(buffer)| + |bytes| <= maximumFrameBytes ==>
        error.None? && buffer == old(buffer) + bytes && poisoned == old(poisoned)
      ensures |old(buffer)| + |bytes| > maximumFrameBytes && |old(buffer)| <= maximumFrameBytes ==>
        error == Some(FrameTooLarge(maximumFrameBytes)) && poisoned && buffer == []
    {
      if |bytes| > SaturatingSub(maximumFrameBytes, |buffer|) {
        Poison();
        return Some(FrameTooLarge(maximumFrameBytes));
      }
      buffer := buffer + bytes;
      return None;
    }

    /** Completes the buffered line with `segment` and parses it, inside `Push`. */
    method TakeLine(segment: seq<byte>) returns (r: Result<V, JsonLineError>)
      requires Valid() && !poisoned && NoNewline(segment)
      modifies this
      ensures Valid() && buffer == [] && poisoned == r.Err?
      ensures var line := old(buffer) + segment;
        r == if GoodLine(maximumFrameBytes, parse, line) then Ok(parse(StripCr(line)).value)
             else Err(FaultError(LineFault(maximumFrameBytes, line), maximumFrameBytes))
    {
      var error := ExtendChecked(segment);
      if error.Some? {
        return Err(error.value);
      }
      if buffer != [] && buffer[|buffer| - 1] == CR {
        buffer := buffer[..|buffer| - 1];
      }
      var parsed := parse(buffer);
      if parsed.None? {
        Poison();
        return Err(InvalidJson);
      }
      buffer := [];
      return Ok(parsed.value);
    }

    /**
     One push against the plain specification: the accepted frames, cut off at the fan-out limit;
     the first violation in the code's own order; and the unfinished line carried to the next push.
     */
    method Push(chunk: seq<byte>) returns (frames: seq<V>, error: Option<JsonLineError>)
      requires Valid()
      modifies this
      ensures Valid()
      ensures old(poisoned) ==> frames == [] && error == Some(Poisoned) && poisoned
      ensures !old(poisoned) ==>
        var window := old(buffer) + chunk[..Min(|chunk|, maximumBatchBytes)];
        var accepted := Accepted(maximumFrameBytes, parse, Lines(window));
        && frames == accepted[..Min(|accepted|, maximumFramesPerPush)]
        && error == PushError(maximumFrameBytes, parse, old(buffer), chunk)
        && poisoned == error.Some?
        && buffer == (if poisoned then [] else Rest(window))
    {
      if poisoned {
        return [], Some(Poisoned);
      }
      frames := [];
      var remaining := chunk[..Min(|chunk|, maximumBatchBytes)];
      ghost var window := buffer + remaining;
      ProgressStarts(maximumFrameBytes, parse, window);
      while LineEnd(remaining) < |remaining|
        invariant Valid() && !poisoned && |frames| <= maximumFramesPerPush
        invariant Progressed(maximumFrameBytes, parse, window, frames, buffer + remaining)
        decreases |remaining|
      {
        var newline := LineEnd(remaining);
        ghost var line := buffer + remaining[..newline];
        assert buffer + remaining == line + [LF] + remaining[newline + 1..];
        ProgressByLine(maximumFrameBytes, parse, window, frames, line, remaining[newline + 1..]);
        if |frames| >= maximumFramesPerPush {
          Poison();
          return frames, Some(TooManyFrames(maximumFramesPerPush));
        }
        var taken := TakeLine(remaining[..newline]);
        if taken.Err? {
          return frames, Some(taken.error);
        }
        frames := frames + [taken.value];
        remaining := remaining[newline + 1..];
        assert buffer + remaining == remaining;
      }
      ProgressEnds(maximumFrameBytes, parse, window, frames, buffer + remaining);
      if |chunk| > maximumBatchBytes {
        Poison();
        return frames, Some(BatchTooLarge(maximumBatchBytes));
      }
      error := ExtendChecked(remaining);
    }

    method Finish() returns (error: Option<JsonLineError>)
      requires Valid()
      modifies this
      ensures Valid()
      ensures error == if old(poisoned) then Some(Poisoned) else if old(buffer) == [] then None else Some(IncompleteFrame)
      ensures poisoned == error.Some? && buffer == []
    {
      if poisoned {
        return Some(Poisoned);
      }
      if buffer == [] {
        return None;
      }
      Poison();
      return Some(IncompleteFrame);
    }
  }

  // ----- the byte-wise decoder of the session supervisor

  datatype Failure = AlreadyFailed | EmptyFrame | MalformedJson | OversizedFrame | TruncatedFrame

  function FailureFault(failure: Failure): Fault {
    if failure.OversizedFrame? then Oversized else Malformed
  }

  lemma DecodeByte<V>(limit: nat, parse: Parser<V>, s: seq<byte>, b: byte)
    requires Decode(limit, parse, s).fault.None?
    ensures var rest, frames := Rest(s), Decode(limit, parse, s).frames;
      if b == LF then
        && Rest(s + [b]) == []
        && Decode(limit, parse, s + [b]) ==
           if GoodLine(limit, parse, rest) then Decoded(frames + [parse(StripCr(rest)).value], None)
           else Decoded(frames, Some(LineFault(limit, rest)))
      else
        && Rest(s + [b]) == rest + [b]
        && Decode(limit, parse, s + [b]) == Decoded(frames, if |rest| < limit then None else Some(Oversized))
  {
    SplitAppend(s, [b]);
    DecodeContinues(limit, parse, s, [b]);
    DecodeRestByte(limit, parse, Rest(s), b);
  }

  lemma {:induction false} DecodeOneLine<V>(limit: nat, parse: Parser<V>, line: seq<byte>)
    requires NoNewline(line)
    ensures Rest(line + [LF]) == []
    ensures Decode(limit, parse, line + [LF]) ==
      if GoodLine(limit, parse, line) then Decoded([parse(StripCr(line)).value], None)
      else Decoded([], Some(LineFault(limit, line)))
  {
    OneLine(line, []);
    NoNewlineIsRest([]);
    assert line + [LF] == line + [LF] + [];
    AcceptedOne(limit, parse, line);
  }

  lemma {:induction false} AcceptedOne<V>(limit: nat, parse: Parser<V>, line: seq<byte>)
    ensures Accepted(limit, parse, [line]) == if GoodLine(limit, parse, line) then [parse(StripCr(line)).value] else []
  {
    assert [line][1..] == [];
  }

  lemma {:induction false} DecodeRestByte<V>(limit: nat, parse: Parser<V>, rest: seq<byte>, b: byte)
    requires NoNewline(rest)
    ensures Rest(rest + [b]) == if b == LF then [] else rest + [b]
    ensures Decode(limit, parse, rest + [b]) ==
      if b != LF then Decoded([], if |rest| < limit then None else Some(Oversized))
      else if GoodLine(limit, parse, rest) then Decoded([parse(StripCr(rest)).value], None)
      else Decoded([], Some(LineFault(limit, rest)))
  {
    if b == LF {
      DecodeOneLine(limit, parse, rest);
    } else {
      NoNewlineIsRest(rest + [b]);
    }
  }

  /** One more byte of `bytes` after `start`: the decoding goes on, or it has ended for good. */
  lemma DecodeNext<V>(limit: nat, parse: Parser<V>, start: seq<byte>, bytes: seq<byte>, i: nat, d: Decoded<V>)
    requires i < |bytes| && d == Decode(limit, parse, start + bytes[..i]) && d.fault.None?
    ensures var rest := Rest(start + bytes[..i]);
      var next := start + bytes[..i + 1];
      if bytes[i] == LF then
        if GoodLine(limit, parse, rest)
        then Decode(limit, parse, next) == Decoded(d.frames + [parse(StripCr(rest)).value], None) && Rest(next) == []
        else Decode(limit, parse, start + bytes) == Decoded(d.frames, Some(LineFault(limit, rest)))
      else
        if |rest| < limit
        then Decode(limit, parse, next) == d && Rest(next) == rest + [bytes[i]]
        else Decode(limit, parse, start + bytes) == Decoded(d.frames, Some(Oversized))
  {
    var seen, b := start + bytes[..i], bytes[i];
    assert start + bytes[..i + 1] == seen + [b];
    assert start + bytes == (seen + [b]) + bytes[i + 1..];
    DecodeByte(limit, parse, seen, b);
    if Decode(limit, parse, seen + [b]).fault.Some? {
      FaultIsFinal(limit, parse, seen + [b], bytes[i + 1..]);
    }
  }

  class JsonLineDecoder<V> {
    const parse: Parser<V>
    const maximumFrameBytes: nat
    var frame: seq<byte>
    var failed: bool

    ghost predicate Valid()
      reads this
    {
      && parse([]).None?
      && NoNewline(frame) && |frame| <= maximumFrameBytes
      && (failed ==> frame == [])
    }

    constructor (parse: Parser<V>, maximumFrameBytes: nat)
      requires parse([]).None?
      ensures Valid() && !failed && frame == []
      ensures this.parse == parse && this.maximumFrameBytes == maximumFrameBytes
    {
      this.parse := parse;
      this.maximumFrameBytes := maximumFrameBytes;
      frame := [];
      failed := false;
    }

    method Fail(failure: Failure) returns (r: Option<Failure>)
      modifies this
      ensures failed && frame == [] && r == Some(failure)
    {
      failed := true;
      frame := [];
      return Some(failure);
    }

    /** The body of the loop over the bytes of a push. */
    method TakeByte(byte: byte) returns (value: Option<V>, failure: Option<Failure>)
      requires Valid() && !failed
      modifies this
      ensures Valid() && failed == failure.Some?
      ensures byte == LF ==>
        if GoodLine(maximumFrameBytes, parse, old(frame))
        then value == parse(StripCr(old(frame))) && !failed && frame == []
        else value.None? && failed && FailureFault(failure.value) == Malformed
      ensures byte != LF ==> value.None?
      ensures byte != LF ==>
        if |old(frame)| < maximumFrameBytes then !failed && frame == old(frame) + [byte]
        else failed && FailureFault(failure.value) == Oversized
    {
      value, failure := None, None;
      if byte == LF {
        if frame != [] && frame[|frame| - 1] == CR {
          frame := frame[..|frame| - 1];
        }
        if frame == [] {
          failure := Fail(EmptyFrame);
          return;
        }
        value := parse(frame);
        if value.None? {
          failure := Fail(MalformedJson);
          return;
        }
        frame := [];
      } else if |frame| >= maximumFrameBytes {
        failure := Fail(OversizedFrame);
      } else {
        frame := frame + [byte];
      }
    }

    method Push(bytes: seq<byte>) returns (frames: seq<V>, failure: Option<Failure>)
      requires Valid()
      modifies this
      ensures Valid()
      ensures old(failed) ==> frames == [] && failure == Some(AlreadyFailed) && failed
      ensures !old(failed) ==>
        var d := Decode(maximumFrameBytes, parse, old(frame) + bytes);
        && frames == d.frames
        && failed == failure.Some? == d.fault.Some?
        && (failed ==> FailureFault(failure.value) == d.fault.value)
        && frame == (if failed then [] else Rest(old(frame) + bytes))
    {
      frames := [];
      if failed {
        return frames, Some(AlreadyFailed);
      }
      ghost var start := frame;
      NoNewlineIsRest(start);
      assert start + bytes[..0] == start;
      for i := 0 to |bytes|
        invariant Valid() && !failed
        invariant Decode(maximumFrameBytes, parse, start + bytes[..i]) == Decoded(frames, None)
        invariant Rest(start + bytes[..i]) == frame
      {
        DecodeNext(maximumFrameBytes, parse, start, bytes, i, Decoded(frames, None));
        var value;
        value, failure := TakeByte(bytes[i]);
        if failure.Some? {
          return;
        }
        if value.Some? {
          frames := frames + [value.value];
        }
      }
      assert start + bytes[..|bytes|] == start + bytes;
      failure := None;
    }

    method Finish() returns (failure: Option<Failure>)
      requires Valid()
      ensures failure == if failed then Some(AlreadyFailed) else if frame == [] then None else Some(TruncatedFrame)
    {
      if failed {
        return Some(AlreadyFailed);
      } else if frame == [] {
        return None;
      } else {
        return Some(TruncatedFrame);
      }
    }
  }

  // ----- both decoders on the same chunks

  lemma {:induction false} NewlinesOfChunk(rest: seq<byte>, chunk: seq<byte>)
    requires NoNewline(rest)
    ensures |Lines(rest + chunk)| == |Lines(chunk)|
  {
    var e := LineEnd(chunk);
    if e == |chunk| {
      NoNewlineIsRest(rest + chunk);
    } else {
      assert rest + chunk == (rest + chunk[..e]) + [LF] + chunk[e + 1..];
      OneLine(rest + chunk[..e], chunk[e + 1..]);
    }
  }

  /** Chunks that respect the adapters' batch and fan-out limits. */
  predicate ChunkInLimits(limit: nat, chunk: seq<byte>) {
    |chunk| <= (limit + 1) * 4 && |Lines(chunk)| <= MAXIMUM_FRAMES_PER_PUSH
  }

  /** Within the limits, one push of either decoder is one step of the specification's `Outputs`. */
  lemma PushWithinLimits<V>(limit: nat, parse: Parser<V>, rest: seq<byte>, chunk: seq<byte>)
    requires LegalLimit(limit) && NoNewline(rest) && ChunkInLimits(limit, chunk)
    ensures chunk[..Min(|chunk|, BatchLimit(limit))] == chunk
    ensures var d := Decode(limit, parse, rest + chunk);
      && d.frames[..Min(|d.frames|, MAXIMUM_FRAMES_PER_PUSH)] == d.frames
      && PushError(limit, parse, rest, chunk) == if d.fault.None? then None else Some(FaultError(d.fault.value, limit))
  {
    NewlinesOfChunk(rest, chunk);
    BatchLimitIsExact(limit);
    PushErrorIsFault(limit, parse, rest, chunk);
  }

  lemma {:induction false} OutputsAppend<V>(limit: nat, parse: Parser<V>, rest: seq<byte>, failed: bool, chunks: seq<seq<byte>>, chunk: seq<byte>)
    ensures Outputs(limit, parse, rest, failed, chunks + [chunk]) ==
      Outputs(limit, parse, rest, failed, chunks)
      + Outputs(limit, parse, Carried(limit, parse, rest, failed, chunks).0, Carried(limit, parse, rest, failed, chunks).1, [chunk])
    decreases |chunks|
  {
    var all := chunks + [chunk];
    if chunks == [] {
      assert all == [chunk];
    } else {
      assert all[0] == chunks[0] && all[1..] == chunks[1..] + [chunk];
      var (next, stop) := Carry(limit, parse, rest, failed, chunks[0]);
      OutputsAppend(limit, parse, next, stop, chunks[1..], chunk);
    }
  }

  /** The decoder state after one chunk: the unfinished line, and whether decoding has failed. */
  function Carry<V>(limit: nat, parse: Parser<V>, rest: seq<byte>, failed: bool, chunk: seq<byte>): (seq<byte>, bool) {
    if failed then ([], true) else (Rest(rest + chunk), Decode(limit, parse, rest + chunk).fault.Some?)
  }

  function Carried<V>(limit: nat, parse: Parser<V>, rest: seq<byte>, failed: bool, chunks: seq<seq<byte>>): (seq<byte>, bool)
    decreases |chunks|
  {
    if chunks == [] then (rest, failed)
    else
      var (next, stop) := Carry(limit, parse, rest, failed, chunks[0]);
      Carried(limit, parse, next, stop, chunks[1..])
  }

  lemma {:induction false} CarriedAppend<V>(limit: nat, parse: Parser<V>, rest: seq<byte>, failed: bool, chunks: seq<seq<byte>>, chunk: seq<byte>)
    ensures var (next, stop) := Carried(limit, parse, rest, failed, chunks);
      Carried(limit, parse, rest, failed, chunks + [chunk]) == Carry(limit, parse, next, stop, chunk)
    decreases |chunks|
  {
    var all := chunks + [chunk];
    if chunks == [] {
      assert all == [chunk] && all[1..] == [];
    } else {
      assert all[0] == chunks[0] && all[1..] == chunks[1..] + [chunk];
      var (next, stop) := Carry(limit, parse, rest, failed, chunks[0]);
      CarriedAppend(limit, parse, next, stop, chunks[1..], chunk);
    }
  }

  /**
   Fed the same chunks, both decoders return the same frames push by push and first fail in the
   same push, as the specification does.
   */
  method PushBoth<V>(parse: Parser<V>, limit: nat, chunks: seq<seq<byte>>)
    returns (bounded: seq<Output<V>>, byteWise: seq<Output<V>>)
    requires parse([]).None? && LegalLimit(limit)
    requires forall chunk :: chunk in chunks ==> ChunkInLimits(limit, chunk)
    ensures bounded == byteWise == Outputs(limit, parse, [], false, chunks)
  {
    var left := new BoundedJsonLineDecoder(parse, limit);
    var right := new JsonLineDecoder(parse, limit);
    bounded, byteWise := [], [];
    for i := 0 to |chunks|
      invariant left.Valid() && right.Valid() && fresh(left) && fresh(right)
      invariant bounded == byteWise == Outputs(limit, parse, [], false, chunks[..i])
      invariant left.poisoned == right.failed == Carried(limit, parse, [], false, chunks[..i]).1
      invariant !left.poisoned ==> left.buffer == right.frame == Carried(limit, parse, [], false, chunks[..i]).0
    {
      TakeNext(chunks, i);
      OutputsAppend(limit, parse, [], false, chunks[..i], chunks[i]);
      CarriedAppend(limit, parse, [], false, chunks[..i], chunks[i]);
      if !left.poisoned {
        PushWithinLimits(limit, parse, left.buffer, chunks[i]);
      }
      var frames, error := left.Push(chunks[i]);
      var frames', failure := right.Push(chunks[i]);
      bounded := bounded + [Output(frames, error.Some?)];
      byteWise := byteWise + [Output(frames', failure.Some?)];
    }
    assert chunks[..|chunks|] == chunks;
  }

  // ----- whole streams

  lemma ConcatTake<T>(chunks: seq<seq<T>>, i: nat)
    requires i < |chunks|
    ensures Concat(chunks[..i + 1]) == Concat(chunks[..i]) + chunks[i]
    ensures Concat(chunks) == Concat(chunks[..i + 1]) + Concat(chunks[i + 1..])
  {
    TakeNext(chunks, i);
    ConcatAppend(chunks[..i], chunks[i]);
    ConcatSplit(chunks, i + 1);
  }

  lemma {:induction false} ConcatSplit<T>(chunks: seq<seq<T>>, i: nat)
    requires i <= |chunks|
    ensures Concat(chunks) == Concat(chunks[..i]) + Concat(chunks[i..])
  {
    if i == 0 {
      assert chunks[i..] == chunks;
    } else {
      ConcatSplit(chunks[1..], i - 1);
      assert chunks[1..][..i - 1] == chunks[..i][1..] && chunks[1..][i - 1..] == chunks[i..];
    }
  }

  lemma FramesGrow<V>(limit: nat, parse: Parser<V>, s: seq<byte>, t: seq<byte>)
    ensures Decode(limit, parse, s).frames <= Decode(limit, parse, s + t).frames
  {
    if Decode(limit, parse, s).fault.None? {
      DecodeContinues(limit, parse, s, t);
    } else {
      FaultIsFinal(limit, parse, s, t);
    }
  }

  /** Why the read loop ends early: the pipe, the handler of a frame, or the decoder. */
  datatype ReadFailure = PipeFailed | FrameRefused | Undecodable(failure: Failure)

  /** `handed` is every frame up to the first that its handler refuses, or all of them. */
  ghost predicate HandedOn<V>(frames: seq<V>, accepts: nat -> bool, handed: seq<V>, refused: bool) {
    && handed <= frames
    && (refused ==> handed != [] && !accepts(|handed| - 1))
    && (!refused ==> handed == frames)
    && (forall i :: 0 <= i < |handed| && !(refused && i == |handed| - 1) ==> accepts(i))
  }

  /** Handles the frames of one push in turn, after those already handed on. */
  method HandleFrames<V>(before: seq<V>, batch: seq<V>, accepts: nat -> bool) returns (handed: seq<V>, refused: bool)
    requires HandedOn(before, accepts, before, false)
    ensures HandedOn(before + batch, accepts, handed, refused)
  {
    handed := before;
    for i := 0 to |batch|
      invariant handed == before + batch[..i] && HandedOn(handed, accepts, handed, false)
    {
      TakeNext(batch, i);
      handed := handed + [batch[i]];
      assert handed == (before + batch)[..|before| + i + 1];
      if !accepts(|handed| - 1) {
        return handed, true;
      }
    }
    assert batch[..|batch|] == batch;
    refused := false;
  }

  /**
   The supervisor's read loop over a child's stdout, up to the end of the pipe or to an error of it
   (`breaks`). It hands on the frames of the plain specification in order, up to the first one that
   its handler refuses; if none is refused it ends without a failure iff the pipe ended cleanly and
   the stream is a list of good lines.
   */
  method ReadStdout<V>(parse: Parser<V>, limit: nat, chunks: seq<seq<byte>>, breaks: bool, accepts: nat -> bool)
    returns (handed: seq<V>, failure: Option<ReadFailure>)
    requires parse([]).None?
    ensures var d := Decode(limit, parse, Concat(chunks));
      && HandedOn(d.frames, accepts, handed, failure == Some(FrameRefused))
      && (failure.None? <==>
            d.fault.None? && !breaks && Rest(Concat(chunks)) == [] && forall i :: 0 <= i < |d.frames| ==> accepts(i))
      && (failure == Some(PipeFailed) ==> breaks && d.fault.None?)
      && (failure.Some? && failure.value.Undecodable? ==>
            if d.fault.Some? then FailureFault(failure.value.failure) == d.fault.value
            else failure.value.failure == TruncatedFrame && !breaks)
  {
    var decoder := new JsonLineDecoder(parse, limit);
    handed := [];
    NoNewlineIsRest([]);
    assert chunks[..0] == [];
    for i := 0 to |chunks|
      invariant decoder.Valid() && !decoder.failed && fresh(decoder)
      invariant Decode(limit, parse, Concat(chunks[..i])) == Decoded(handed, None)
      invariant HandedOn(handed, accepts, handed, false)
      invariant decoder.frame == Rest(Concat(chunks[..i]))
    {
      ConcatTake(chunks, i);
      DecodeContinues(limit, parse, Concat(chunks[..i]), chunks[i]);
      SplitAppend(Concat(chunks[..i]), chunks[i]);
      FramesGrow(limit, parse, Concat(chunks[..i + 1]), Concat(chunks[i + 1..]));
      var batch, undecodable := decoder.Push(chunks[i]);
      var refused;
      handed, refused := HandleFrames(handed, batch, accepts);
      if refused {
        return handed, Some(FrameRefused);
      }
      if undecodable.Some? {
        FaultIsFinal(limit, parse, Concat(chunks[..i + 1]), Concat(chunks[i + 1..]));
        return handed, Some(Undecodable(undecodable.value));
      }
    }
    assert chunks[..|chunks|] == chunks;
    if breaks {
      return handed, Some(PipeFailed);
    }
    var unfinished := decoder.Finish();
    failure := if unfinished.None? then None else Some(Undecodable(unfinished.value));
  }

  /** Feeding a whole stream to the bounded decoder, chunk by chunk, and closing it. */
  method DecodeStream<V>(parse: Parser<V>, limit: nat, chunks: seq<seq<byte>>)
    returns (frames: seq<V>, error: Option<JsonLineError>)
    requires LegalLimit(limit)
    requires forall chunk :: chunk in chunks ==> ChunkInLimits(limit, chunk)
    ensures var d := Decode(limit, parse, Concat(chunks));
      && frames == d.frames
      && error == if d.fault.Some? then Some(FaultError(d.fault.value, limit))
                  else if Rest(Concat(chunks)) == [] then None else Some(IncompleteFrame)
  {
    var decoder := new BoundedJsonLineDecoder(parse, limit);
    frames := [];
    NoNewlineIsRest([]);
    assert chunks[..0] == [];
    for i := 0 to |chunks|
      invariant decoder.Valid() && !decoder.poisoned && fresh(decoder)
      invariant Decode(limit, parse, Concat(chunks[..i])) == Decoded(frames, None)
      invariant decoder.buffer == Rest(Concat(chunks[..i]))
    {
      ConcatTake(chunks, i);
      PushWithinLimits(limit, parse, decoder.buffer, chunks[i]);
      DecodeContinues(limit, parse, Concat(chunks[..i]), chunks[i]);
      SplitAppend(Concat(chunks[..i]), chunks[i]);
      var batch;
      batch, error := decoder.Push(chunks[i]);
      frames := frames + batch;
      if error.Some? {
        FaultIsFinal(limit, parse, Concat(chunks[..i + 1]), Concat(chunks[i + 1..]));
        return;
      }
    }
    assert chunks[..|chunks|] == chunks;
    error := decoder.Finish();
  }

  // ----- the encoder and the round trip

  type Serializer<!V> = V -> Option<seq<byte>>

  function EncodeJsonLine<V>(serialize: Serializer<V>, value: V, limit: nat): Result<seq<byte>, JsonLineError> {
    if !LegalLimit(limit) then Err(InvalidFrameLimit(limit, MAXIMUM_FRAME_BYTES))
    else match serialize(value)
      case None => Err(InvalidJson)
      case Some(bytes) => if |bytes| > limit then Err(FrameTooLarge(limit)) else Ok(bytes + [LF])
  }

  /** What the line format needs of the JSON library: serialized output holds no raw CR or LF. */
  ghost predicate OneLiners<V(!new)>(serialize: Serializer<V>) {
    forall v :: serialize(v).Some? ==> LF !in serialize(v).value && CR !in serialize(v).value
  }

  /** The value comes back from its own serialization. */
  predicate ParsesBack<V(==)>(serialize: Serializer<V>, parse: Parser<V>, value: V) {
    serialize(value).Some? && parse(serialize(value).value) == Some(value)
  }

  ghost predicate AllEncode<V>(serialize: Serializer<V>, limit: nat, values: seq<V>, frames: seq<seq<byte>>) {
    |frames| == |values| && forall i :: 0 <= i < |values| ==> EncodeJsonLine(serialize, values[i], limit) == Ok(frames[i])
  }

  /** The lines behind encoded values. */
  function Serialized<V>(serialize: Serializer<V>, values: seq<V>): seq<seq<byte>> {
    if values == [] then []
    else [if serialize(values[0]).Some? then serialize(values[0]).value else []] + Serialized(serialize, values[1..])
  }

  lemma {:induction false} EncodedLines<V(!new)>(serialize: Serializer<V>, limit: nat, values: seq<V>, frames: seq<seq<byte>>)
    requires OneLiners(serialize) && AllEncode(serialize, limit, values, frames)
    ensures Lines(Concat(frames)) == Serialized(serialize, values) && Rest(Concat(frames)) == []
  {
    if values == [] {
      NoNewlineIsRest([]);
    } else {
      assert EncodeJsonLine(serialize, values[0], limit) == Ok(frames[0]);
      EncodedLines(serialize, limit, values[1..], frames[1..]);
      OneLine(serialize(values[0]).value, Concat(frames[1..]));
    }
  }

  /** A list of serialized lines is accepted as the values it came from iff each of them parses back. */
  lemma {:induction false} AcceptedBack<V(!new)>(
    serialize: Serializer<V>, parse: Parser<V>, limit: nat, values: seq<V>, frames: seq<seq<byte>>)
    requires OneLiners(serialize) && AllEncode(serialize, limit, values, frames)
    ensures Accepted(limit, parse, Serialized(serialize, values)) == values <==>
      forall i :: 0 <= i < |values| ==> ParsesBack(serialize, parse, values[i])
    ensures |Serialized(serialize, values)| == |values|
  {
    if values != [] {
      var line, rest := serialize(values[0]).value, Serialized(serialize, values[1..]);
      assert EncodeJsonLine(serialize, values[0], limit) == Ok(frames[0]);
      AcceptedBack(serialize, parse, limit, values[1..], frames[1..]);
      KeptWhole(line);
      FirstAccepted(limit, parse, line, rest, values);
      assert forall i :: 1 <= i < |values| ==> values[i] == values[1..][i - 1];
    }
  }

  lemma KeptWhole(line: seq<byte>)
    requires CR !in line
    ensures StripCr(line) == line
  {
    assert line != [] ==> line[|line| - 1] in line;
  }

  lemma {:induction false} FirstAccepted<V>(limit: nat, parse: Parser<V>, line: seq<byte>, rest: seq<seq<byte>>, values: seq<V>)
    requires values != [] && |line| <= limit && StripCr(line) == line
    ensures Accepted(limit, parse, [line] + rest) == values <==>
      parse(line) == Some(values[0]) && Accepted(limit, parse, rest) == values[1..]
  {
    var all := [line] + rest;
    assert all[0] == line && all[1..] == rest;
    assert values == [values[0]] + values[1..];
  }

  /**
   Concatenated encoder output is split into the serialized lines with nothing left over, and it
   decodes to the encoded values exactly when each of them parses back.
   */
  lemma EncodedDecodes<V(!new)>(serialize: Serializer<V>, parse: Parser<V>, limit: nat, values: seq<V>, frames: seq<seq<byte>>)
    requires OneLiners(serialize) && AllEncode(serialize, limit, values, frames)
    ensures Rest(Concat(frames)) == []
    ensures Decode(limit, parse, Concat(frames)) == Decoded(values, None) <==>
      forall i :: 0 <= i < |values| ==> ParsesBack(serialize, parse, values[i])
  {
    EncodedLines(serialize, limit, values, frames);
    AcceptedBack(serialize, parse, limit, values, frames);
  }

  /**
   Values accepted by the encoder, concatenated and cut again into any chunks within the decoder's
   limits, decode to the same values and the decoder then closes cleanly, exactly when each of them
   parses back.
   */
  method RoundTrip<V(!new, ==)>(
    serialize: Serializer<V>, parse: Parser<V>, limit: nat, values: seq<V>, ghost frames: seq<seq<byte>>, chunks: seq<seq<byte>>)
    returns (decoded: seq<V>, error: Option<JsonLineError>)
    requires LegalLimit(limit) && OneLiners(serialize) && AllEncode(serialize, limit, values, frames)
    requires Concat(chunks) == Concat(frames)
    requires forall chunk :: chunk in chunks ==> ChunkInLimits(limit, chunk)
    ensures decoded == values && error.None? <==>
      forall i :: 0 <= i < |values| ==> ParsesBack(serialize, parse, values[i])
  {
    EncodedDecodes(serialize, parse, limit, values, frames);
    decoded, error := DecodeStream(parse, limit, chunks);
  }
}
