/** Reading one newline-terminated request frame from the control socket. */
module Frames {
  import opened Basics

  const MAX_REQUEST_BYTES: nat := 4 * 1024 * 1024
  const CHUNK_BYTES: nat := 8192
  const NEWLINE: byte := 10

  datatype FrameError = OverLimit | ClosedEarly | Unreadable

  type Answer = Result<seq<byte>, FrameError>

  /** Index of the first newline, or the length. */
  function FirstNewline(s: seq<byte>): (r: nat)
    ensures r <= |s| && (r < |s| ==> s[r] == NEWLINE)
    ensures forall i :: 0 <= i < r ==> s[i] != NEWLINE
  {
    if s == [] || s[0] == NEWLINE then 0 else 1 + FirstNewline(s[1..])
  }

  /** What a whole stream answers, however it arrives: `broken` tells a failing socket from a closed one. */
  function FrameOf(stream: seq<byte>, broken: bool): Answer {
    var end := FirstNewline(stream);
    if end > MAX_REQUEST_BYTES then Err(OverLimit)
    else if end < |stream| then Ok(stream[..end])
    else Err(if broken then Unreadable else ClosedEarly)
  }

  function Flatten(chunks: seq<seq<byte>>): seq<byte> {
    if chunks == [] then [] else chunks[0] + Flatten(chunks[1..])
  }

  lemma NewlineAt(s: seq<byte>, at: nat)
    requires at <= |s| && (forall i :: 0 <= i < at ==> s[i] != NEWLINE) && (at < |s| ==> s[at] == NEWLINE)
    ensures FirstNewline(s) == at
  {
    var r := FirstNewline(s);
    assert r < |s| ==> s[r] == NEWLINE;
  }

  /** What one read does to the buffered frame: it goes on growing, or the answer is known. */
  datatype Fed = More(frame: seq<byte>) | Done(answer: Answer)

  function Feed(frame: seq<byte>, chunk: seq<byte>): Fed {
    var newline := FirstNewline(chunk);
    if newline < |chunk| then
      Done(if |frame| + newline > MAX_REQUEST_BYTES then Err(OverLimit) else Ok(frame + chunk[..newline]))
    else if |frame| + |chunk| > MAX_REQUEST_BYTES then Done(Err(OverLimit))
    else More(frame + chunk)
  }

  /** The buffer after some reads, starting empty; reading stops at an answer. */
  function Fill(chunks: seq<seq<byte>>): Fed {
    if chunks == [] then More([])
    else
      var before := Fill(chunks[..|chunks| - 1]);
      if before.Done? then before else Feed(before.frame, chunks[|chunks| - 1])
  }

  /**
   However the stream is cut, after every read what is buffered is exactly the bytes read so far and
   within the limit, without a newline among them.
   */
  lemma {:induction false} BufferStaysWithinLimit(chunks: seq<seq<byte>>)
    ensures Fill(chunks).More? ==>
              var frame := Fill(chunks).frame;
              frame == Flatten(chunks) && |frame| <= MAX_REQUEST_BYTES && NoNewline(frame)
    ensures Fill(chunks).Done? && Fill(chunks).answer.Ok? ==> |Fill(chunks).answer.value| <= MAX_REQUEST_BYTES
  {
    if chunks != [] {
      var n := |chunks| - 1;
      BufferStaysWithinLimit(chunks[..n]);
      FlattenLast(chunks);
    }
  }

  lemma {:induction false} FlattenLast(chunks: seq<seq<byte>>)
    requires chunks != []
    ensures Flatten(chunks) == Flatten(chunks[..|chunks| - 1]) + chunks[|chunks| - 1]
  {
    if |chunks| == 1 {
      assert chunks[1..] == [] && chunks[..0] == [];
    } else {
      FlattenLast(chunks[1..]);
      assert chunks[1..][..|chunks| - 2] == chunks[..|chunks| - 1][1..];
    }
  }

  /** Once the answer is known, it is that of every stream that goes on from there. */
  lemma FedAnswer(frame: seq<byte>, chunk: seq<byte>, rest: seq<byte>, broken: bool)
    requires NoNewline(frame) && Feed(frame, chunk).Done?
    ensures FrameOf(frame + chunk + rest, broken) == Feed(frame, chunk).answer
  {
    FoundInChunk(frame + chunk + rest, frame, chunk);
  }

  /** The buffer of one connection. */
  class FrameBuffer {
    var frame: seq<byte>

    predicate Valid()
      reads this
    {
      |frame| <= MAX_REQUEST_BYTES
    }

    constructor ()
      ensures Valid() && frame == []
    {
      frame := [];
    }

    /** One turn of the loop: nothing over the limit is ever appended. */
    method Take(chunk: seq<byte>) returns (answer: Option<Answer>)
      requires Valid()
      modifies this
      ensures Valid()
      ensures match Feed(old(frame), chunk)
              case More(grown) => answer == None && frame == grown
              case Done(known) =>
                answer == Some(known) && frame == if known.Ok? then known.value else old(frame)
    {
      var newline := FirstNewline(chunk);
      if newline < |chunk| {
        if |frame| + newline > MAX_REQUEST_BYTES {
          return Some(Err(OverLimit));
        }
        frame := frame + chunk[..newline];
        return Some(Ok(frame));
      }
      if |frame| + |chunk| > MAX_REQUEST_BYTES {
        return Some(Err(OverLimit));
      }
      frame := frame + chunk;
      return None;
    }
  }

  /**
   `read_frame`: whatever the sizes of the reads, the answer is that of the stream they make up, and
   the buffer, which starts empty, ends within the limit.
   */
  method ReadFrame(buffer: FrameBuffer, chunks: seq<seq<byte>>, broken: bool) returns (answer: Answer)
    requires buffer.Valid() && buffer.frame == []
    requires forall chunk :: chunk in chunks ==> 0 < |chunk| <= CHUNK_BYTES
    modifies buffer
    ensures buffer.Valid()
    ensures answer == FrameOf(Flatten(chunks), broken)
    ensures answer.Ok? ==> buffer.frame == answer.value
  {
    hide NoNewline, FrameOf, Feed;
    ghost var stream := Flatten(chunks);
    NoNewlineYet();
    assert chunks[0..] == chunks && chunks[..0] == [];
    for i := 0 to |chunks|
      invariant buffer.Valid() && NoNewline(buffer.frame)
      invariant Fill(chunks[..i]) == More(buffer.frame)
      invariant buffer.frame + Flatten(chunks[i..]) == stream
    {
      ghost var before := buffer.frame;
      FlattenAt(chunks, i, before);
      assert chunks[..i + 1][..i] == chunks[..i];
      var known := buffer.Take(chunks[i]);
      if known.Some? {
        FedAnswer(before, chunks[i], Flatten(chunks[i + 1..]), broken);
        return known.value;
      }
      FedMore(before, chunks[i]);
    }
    assert buffer.frame == stream;
    NothingFound(stream, broken);
    return Err(if broken then Unreadable else ClosedEarly);
  }

  lemma FedMore(frame: seq<byte>, chunk: seq<byte>)
    requires NoNewline(frame) && Feed(frame, chunk).More?
    ensures Feed(frame, chunk).frame == frame + chunk && NoNewline(frame + chunk)
  {
  }

  lemma NothingFound(stream: seq<byte>, broken: bool)
    requires NoNewline(stream) && |stream| <= MAX_REQUEST_BYTES
    ensures FrameOf(stream, broken) == Err(if broken then Unreadable else ClosedEarly)
  {
    NoneInAll(stream);
  }

  lemma FlattenAt(chunks: seq<seq<byte>>, i: nat, frame: seq<byte>)
    requires i < |chunks|
    ensures frame + Flatten(chunks[i..]) == frame + chunks[i] + Flatten(chunks[i + 1..])
  {
    assert chunks[i..][1..] == chunks[i + 1..];
    assert Flatten(chunks[i..]) == chunks[i] + Flatten(chunks[i + 1..]);
  }

  ghost predicate NoNewline(s: seq<byte>) {
    forall k :: 0 <= k < |s| ==> s[k] != NEWLINE
  }

  lemma NoNewlineYet()
    ensures NoNewline([])
  {
  }

  lemma NoneInAll(s: seq<byte>)
    requires NoNewline(s)
    ensures FirstNewline(s) == |s|
  {
  }

  /** The first newline of the stream, from the first one of the chunk being looked at. */
  lemma FoundInChunk(stream: seq<byte>, frame: seq<byte>, chunk: seq<byte>)
    requires NoNewline(frame) && frame + chunk <= stream
    ensures var newline := FirstNewline(chunk);
      && |frame| + newline <= |stream|
      && (newline < |chunk| ==>
            && FirstNewline(stream) == |frame| + newline
            && stream[..|frame| + newline] == frame + chunk[..newline])
      && (newline == |chunk| ==> NoNewline(frame + chunk) && FirstNewline(stream) >= |frame| + |chunk|)
  {
    var newline := FirstNewline(chunk);
    var front := frame + chunk[..newline];
    assert front == stream[..|front|];
    assert forall k :: 0 <= k < |front| ==> front[k] != NEWLINE;
    if newline < |chunk| {
      assert stream[|frame| + newline] == (frame + chunk)[|frame| + newline] == chunk[newline];
      NewlineAt(stream, |frame| + newline);
    } else {
      assert front == frame + chunk;
      LongPrefix(stream, front);
    }
  }

  lemma LongPrefix(stream: seq<byte>, front: seq<byte>)
    requires front <= stream && forall k :: 0 <= k < |front| ==> front[k] != NEWLINE
    ensures FirstNewline(stream) >= |front|
  {
    var r := FirstNewline(stream);
    assert forall k :: 0 <= k < |front| ==> stream[k] == front[k];
  }

  /** A frame within the limit is answered whole, and a second request behind it changes nothing. */
  lemma FrameReadsBack(body: seq<byte>, more: seq<byte>, broken: bool)
    requires forall i :: 0 <= i < |body| ==> body[i] != NEWLINE
    ensures FrameOf(body + [NEWLINE] + more, broken) == if |body| <= MAX_REQUEST_BYTES then Ok(body) else Err(OverLimit)
  {
    var stream := body + [NEWLINE] + more;
    assert forall i :: 0 <= i < |body| ==> stream[i] == body[i];
    NewlineAt(stream, |body|);
    assert stream[..|body|] == body;
  }

  /** What is answered decides nothing that was not in the stream before the limit and its next byte. */
  lemma OnlyTheStartMatters(a: seq<byte>, b: seq<byte>, broken: bool)
    requires |a| > MAX_REQUEST_BYTES && |b| > MAX_REQUEST_BYTES
    requires a[..MAX_REQUEST_BYTES + 1] == b[..MAX_REQUEST_BYTES + 1]
    ensures FrameOf(a, broken) == FrameOf(b, broken)
  {
    var shared := a[..MAX_REQUEST_BYTES + 1];
    var end := FirstNewline(shared);
    assert forall k :: 0 <= k < |shared| ==> shared[k] == a[k] == b[k];
    if end < |shared| {
      NewlineAt(a, end);
      NewlineAt(b, end);
      assert a[..end] == shared[..end] == b[..end];
    } else {
      LongPrefix(a, shared);
      LongPrefix(b, shared);
    }
  }
}
