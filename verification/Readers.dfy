/** The blocking reader over queued chunks, and the meter that stops an oversized stream. */
module Readers {
  import opened Basics

  /** What the channel hands over; it is closed behind the last message. */
  datatype Message = Chunk(bytes: seq<byte>) | Failure(message: string)

  /** The bytes before the first failure. */
  function Data(queue: seq<Message>): seq<byte> {
    if queue == [] || queue[0].Failure? then [] else queue[0].bytes + Data(queue[1..])
  }

  /** The first failure, if there is one. */
  function FirstFailure(queue: seq<Message>): Option<string> {
    if queue == [] then None
    else if queue[0].Failure? then Some(queue[0].message)
    else FirstFailure(queue[1..])
  }

  function AfterFailure(queue: seq<Message>): seq<Message> {
    if queue == [] then []
    else if queue[0].Failure? then queue[1..]
    else AfterFailure(queue[1..])
  }

  /** All bytes, over failures. */
  function AllData(queue: seq<Message>): seq<byte> {
    if queue == [] then [] else (if queue[0].Chunk? then queue[0].bytes else []) + AllData(queue[1..])
  }

  lemma {:induction false} DataThenTheRest(queue: seq<Message>)
    ensures AllData(queue) == Data(queue) + AllData(AfterFailure(queue))
  {
    if queue != [] && queue[0].Chunk? {
      DataThenTheRest(queue[1..]);
      assert queue[0].bytes + (Data(queue[1..]) + AllData(AfterFailure(queue[1..])))
          == queue[0].bytes + Data(queue[1..]) + AllData(AfterFailure(queue[1..]));
    }
  }

  lemma Taken(current: seq<byte>, offset: nat, take: nat, more: seq<byte>)
    requires offset + take <= |current|
    ensures current[offset..][..take] + (current[offset + take..] + more) == current[offset..] + more
    ensures (current[offset..] + more)[take..] == current[offset + take..] + more
  {
  }

  lemma Unfold(queue: seq<Message>)
    ensures queue == [] ==> Data(queue) == AllData(queue) == [] && FirstFailure(queue).None?
    ensures queue != [] && queue[0].Failure? ==>
              && Data(queue) == [] && AllData(queue) == AllData(queue[1..])
              && FirstFailure(queue) == Some(queue[0].message) && AfterFailure(queue) == queue[1..]
    ensures queue != [] && queue[0].Chunk? ==>
              && Data(queue) == queue[0].bytes + Data(queue[1..])
              && AllData(queue) == queue[0].bytes + AllData(queue[1..])
              && FirstFailure(queue) == FirstFailure(queue[1..]) && AfterFailure(queue) == AfterFailure(queue[1..])
  {
  }

  class ChannelReader {
    var queue: seq<Message>
    var current: seq<byte>
    var offset: nat

    predicate Valid()
      reads this
    {
      offset <= |current|
    }

    /** The bytes still to come before a failure or the end. */
    function Rest(): seq<byte>
      reads this
      requires Valid()
    {
      current[offset..] + Data(queue)
    }

    /** The bytes still to come in all. */
    function AllRest(): seq<byte>
      reads this
      requires Valid()
    {
      current[offset..] + AllData(queue)
    }

    constructor (queue: seq<Message>)
      ensures Valid() && this.queue == queue && Rest() == Data(queue) && AllRest() == AllData(queue)
    {
      this.queue, this.current, this.offset := queue, [], 0;
    }

    /**
     `ChannelReader::read`. It fails exactly when the next thing is a failure, answers 0 to a
     non-empty buffer only at the end, and otherwise moves the next bytes over.
     */
    method Read(buf: array<byte>) returns (r: Result<nat, string>)
      requires Valid()
      modifies this, buf
      ensures Valid()
      ensures r.Err? <==> old(Rest()) == [] && old(FirstFailure(queue)).Some?
      ensures r.Err? ==> r == Err(old(FirstFailure(queue)).value)
      ensures r.Err? ==> queue == old(AfterFailure(queue)) && Rest() == Data(queue)
      ensures r.Err? ==> buf[..] == old(buf[..])
      ensures r.Ok? ==> r.value <= buf.Length && buf[..r.value] + Rest() == old(Rest())
      ensures r.Ok? ==> buf[r.value..] == old(buf[..])[r.value..]
      ensures r.Ok? ==> FirstFailure(queue) == old(FirstFailure(queue))
      ensures r.Ok? ==> AfterFailure(queue) == old(AfterFailure(queue))
      ensures r.Ok? ==> (r.value > 0 <==> buf.Length > 0 && old(Rest()) != [])
      ensures r.Ok? ==> r.value <= |old(AllRest())| && AllRest() == old(AllRest())[r.value..]
      ensures r.Err? ==> AllRest() == old(AllRest())
    {
      hide Data, AllData, FirstFailure, AfterFailure;
      ghost var before, all, failure, beyond := Rest(), AllRest(), FirstFailure(queue), AfterFailure(queue);
      while true
        invariant Valid() && Rest() == before && AllRest() == all
        invariant FirstFailure(queue) == failure && AfterFailure(queue) == beyond
        invariant buf[..] == old(buf[..])
        decreases |queue|
      {
        if offset < |current| {
          var take := Min(buf.Length, |current| - offset);
          if take == 0 {
            return Ok(0);
          }
          forall i | 0 <= i < take {
            buf[i] := current[offset + i];
          }
          assert buf[..take] == current[offset..][..take];
          Taken(current, offset, take, Data(queue));
          Taken(current, offset, take, AllData(queue));
          offset := offset + take;
          return Ok(take);
        }
        assert before == Data(queue) && all == AllData(queue);
        Unfold(queue);
        if queue == [] {
          return Ok(0);
        }
        var message := queue[0];
        queue := queue[1..];
        if message.Failure? {
          return Err(message.message);
        }
        current, offset := message.bytes, 0;
        assert current[offset..] == message.bytes;
      }
    }
  }

  /** Reading with buffers of any positive sizes until the end yields every byte before the failure, in order. */
  method ReadToEnd(reader: ChannelReader, sizes: nat -> nat) returns (data: seq<byte>, failure: Option<string>)
    requires reader.Valid() && forall i :: sizes(i) > 0
    modifies reader
    ensures reader.Valid() && data == old(reader.Rest()) && failure == old(FirstFailure(reader.queue))
  {
    hide Data, AllData, AfterFailure, FirstFailure;
    data, failure := [], None;
    var turn := 0;
    while true
      invariant reader.Valid() && data + reader.Rest() == old(reader.Rest())
      invariant FirstFailure(reader.queue) == old(FirstFailure(reader.queue))
      decreases |reader.Rest()|
    {
      var buf := new byte[sizes(turn)];
      ghost var rest := reader.Rest();
      var r := reader.Read(buf);
      if r.Err? {
        return data, Some(r.error);
      }
      if r.value == 0 {
        return data, None;
      }
      assert data + (buf[..r.value] + reader.Rest()) == data + buf[..r.value] + reader.Rest();
      data := data + buf[..r.value];
      turn := turn + 1;
    }
  }

  // -- the meter -------------------------------------------------------------------------------------

  datatype ReadError = Channel(message: string) | LimitExceeded

  /** `AtomicU64::fetch_add` wraps around. */
  function Counted(bytes: nat, read: nat): nat {
    (bytes + read) % (U64_MAX + 1)
  }

  function Passes(bytes: nat, read: nat, limit: nat): bool {
    SaturatingAdd(bytes, read) <= limit
  }

  /**
   After a read over the limit the next one passes exactly when the counter wrapped around and what
   it then holds, with the read, is within the limit. The limit is below the counter's maximum,
   since no read is over that one, and a read is no longer than the counter can count.
   */
  lemma TrippedUntilItWraps(bytes: nat, read: nat, later: nat, limit: nat)
    requires bytes <= U64_MAX && read <= U64_MAX && limit <= U64_MAX && !Passes(bytes, read, limit)
    ensures limit < U64_MAX
    ensures Passes(Counted(bytes, read), later, limit) <==>
              bytes + read > U64_MAX && bytes + read - (U64_MAX + 1) + later <= limit
  {
  }

  class MeteredReader {
    const inner: ChannelReader
    const limit: nat
    var bytes: nat
    var tripped: bool

    constructor (inner: ChannelReader, limit: nat)
      requires limit <= U64_MAX
      ensures this.inner == inner && this.limit == limit && bytes == 0 && !tripped
    {
      this.inner, this.limit, bytes, tripped := inner, limit, 0, false;
    }

    /** `MeteredReader::read`: the inner read, counted, and refused when the count is over the limit. */
    method Read(buf: array<byte>) returns (r: Result<nat, ReadError>, ghost taken: nat)
      requires inner.Valid()
      modifies this`bytes, this`tripped, inner, buf
      ensures inner.Valid() && taken <= buf.Length
      ensures old(inner.Rest()) == [] && old(FirstFailure(inner.queue)).Some? <==> r.Err? && r.error.Channel?
      ensures r.Err? && r.error.Channel? ==>
                && r == Err(Channel(old(FirstFailure(inner.queue)).value))
                && inner.queue == old(AfterFailure(inner.queue)) && inner.Rest() == Data(inner.queue)
                && taken == 0 && bytes == old(bytes) && tripped == old(tripped)
      ensures !(r.Err? && r.error.Channel?) ==>
                && FirstFailure(inner.queue) == old(FirstFailure(inner.queue))
                && AfterFailure(inner.queue) == old(AfterFailure(inner.queue))
                && bytes == Counted(old(bytes), taken)
                && r == (if Passes(old(bytes), taken, limit) then Ok(taken) else Err(LimitExceeded))
                && tripped == (old(tripped) || r.Err?)
                && buf[..taken] + inner.Rest() == old(inner.Rest())
                && (taken > 0 <==> buf.Length > 0 && old(inner.Rest()) != [])
      ensures taken <= |old(inner.AllRest())| && inner.AllRest() == old(inner.AllRest())[taken..]
      ensures buf[..taken] == old(inner.AllRest())[..taken]
    {
      ghost var all := inner.AllRest();
      DataThenTheRest(inner.queue);
      ghost var rest := inner.Rest();
      assert all == rest + AllData(AfterFailure(inner.queue));
      var read := inner.Read(buf);
      if read.Err? {
        return Err(Channel(read.error)), 0;
      }
      assert buf[..read.value] == rest[..read.value] == all[..read.value];
      var total := SaturatingAdd(bytes, read.value);
      bytes := Counted(bytes, read.value);
      if total > limit {
        tripped := true;
        return Err(LimitExceeded), read.value;
      }
      return Ok(read.value), read.value;
    }
  }

  /** After the limit was exceeded, no read succeeds. */
  ghost predicate NeverRecovers(answers: seq<Result<nat, ReadError>>) {
    forall i, j :: 0 <= i < j < |answers| && answers[i] == Err(LimitExceeded) ==> answers[j].Err?
  }

  ghost predicate AllOk(answers: seq<Result<nat, ReadError>>) {
    forall answer :: answer in answers ==> answer.Ok?
  }

  lemma NoAnswersYet()
    ensures NeverRecovers([])
  {
  }

  lemma AnswersGrow(answers: seq<Result<nat, ReadError>>, r: Result<nat, ReadError>)
    requires NeverRecovers(answers) && (Err(LimitExceeded) in answers ==> r.Err?)
    ensures NeverRecovers(answers + [r])
    ensures Err(LimitExceeded) in answers + [r] <==> Err(LimitExceeded) in answers || r == Err(LimitExceeded)
    ensures AllOk(answers + [r]) <==> AllOk(answers) && r.Ok?
  {
  }

  /** Below the counter's width, counting is adding. */
  lemma CountedWithin(all: seq<byte>, before: nat, taken: nat, limit: nat)
    requires before + taken <= |all| <= U64_MAX
    ensures Counted(before, taken) == before + taken
    ensures Passes(before, taken, limit) <==> before + taken <= limit
    ensures all[before..][taken..] == all[before + taken..]
    ensures all[..before] + all[before..][..taken] == all[..before + taken]
  {
  }

  /**
   Reads of any sizes, going on after errors: what is delivered is a prefix of the stream no
   longer than the limit, a stream within the limit is never refused, and a tripped meter never
   recovers. Reads that succeed into non-empty buffers deliver at least a byte each until the stream
   runs out. The stream is shorter than the counter can count.
   */
  method ReadThroughMeter(reader: MeteredReader, sizes: seq<nat>)
    returns (data: seq<byte>, answers: seq<Result<nat, ReadError>>)
    requires reader.inner.Valid() && reader.limit <= U64_MAX
    requires reader.bytes == 0 && !reader.tripped && |reader.inner.AllRest()| <= U64_MAX
    modifies reader, reader.inner
    ensures data <= old(reader.inner.AllRest()) && |data| <= reader.limit
    ensures |answers| == |sizes| && NeverRecovers(answers)
    ensures reader.tripped <==> Err(LimitExceeded) in answers
    ensures |old(reader.inner.AllRest())| <= reader.limit ==>
              && Err(LimitExceeded) !in answers && reader.inner.Valid()
              && data + reader.inner.AllRest() == old(reader.inner.AllRest())
    ensures (forall size :: size in sizes ==> size > 0) && AllOk(answers) ==>
              |data| >= Min(|sizes|, |old(reader.inner.Rest())|)
  {
    hide Counted, Passes, NeverRecovers, Data, AllData, FirstFailure, AfterFailure;
    assert NeverRecovers([]) by {
      NoAnswersYet();
    }
    data, answers := [], [];
    ghost var all, near := reader.inner.AllRest(), reader.inner.Rest();
    for i := 0 to |sizes|
      invariant reader.inner.Valid() && reader.limit <= U64_MAX
      invariant |answers| == i && NeverRecovers(answers)
      invariant reader.bytes <= |all| && reader.inner.AllRest() == all[reader.bytes..]
      invariant reader.tripped <==> Err(LimitExceeded) in answers
      invariant reader.tripped <==> reader.bytes > reader.limit
      invariant data <= all && |data| <= reader.limit
      invariant !reader.tripped ==> data == all[..reader.bytes]
      invariant AllOk(answers) ==> data + reader.inner.Rest() == near
      invariant (forall size :: size in sizes ==> size > 0) && AllOk(answers) ==> |data| >= Min(i, |near|)
    {
      var buf := new byte[sizes[i]];
      ghost var before := reader.bytes;
      var r, taken := reader.Read(buf);
      CountedWithin(all, before, taken, reader.limit);
      AnswersGrow(answers, r);
      assert sizes[i] in sizes;
      if r.Ok? {
        assert data + (buf[..r.value] + reader.inner.Rest()) == data + buf[..r.value] + reader.inner.Rest();
        data := data + buf[..r.value];
      }
      answers := answers + [r];
    }
    assert !reader.tripped ==> data + all[reader.bytes..] == all;
  }

  /** The meter never trips on this stream: it is within the limit, or nothing is over it. */
  predicate Within(stream: seq<byte>, limit: nat) {
    |stream| <= limit || limit == U64_MAX
  }

  /**
   Reading to the end through the meter, with buffers of any positive sizes. A stream within the
   limit comes through whole and ends as the channel does. A longer one is cut off at a prefix of at
   most `limit` bytes, by the first read that takes the meter over the limit.
   */
  method ReadToEndThroughMeter(reader: MeteredReader, sizes: nat -> nat)
    returns (data: seq<byte>, error: Option<ReadError>)
    requires reader.inner.Valid() && reader.limit <= U64_MAX && reader.bytes == 0 && !reader.tripped
    requires forall i :: sizes(i) > 0
    modifies reader, reader.inner
    ensures reader.inner.Valid()
    ensures Within(old(reader.inner.Rest()), reader.limit) ==>
              && data == old(reader.inner.Rest()) && !reader.tripped
              && error == (match old(FirstFailure(reader.inner.queue))
                           case None => None
                           case Some(message) => Some(Channel(message)))
    ensures !Within(old(reader.inner.Rest()), reader.limit) ==>
              && error == Some(LimitExceeded) && reader.tripped
              && data <= old(reader.inner.Rest()) && |data| <= reader.limit
              && var taken := |old(reader.inner.Rest())| - |reader.inner.Rest()|;
                 exists turn :: CutOff(|data|, taken, reader.limit, sizes(turn))
  {
    hide Data, AllData, AfterFailure, FirstFailure, Counted, Passes;
    data, error := [], None;
    var turn := 0;
    ghost var stream := reader.inner.Rest();
    while true
      invariant reader.inner.Valid() && data + reader.inner.Rest() == stream && !reader.tripped
      invariant FirstFailure(reader.inner.queue) == old(FirstFailure(reader.inner.queue))
      invariant reader.limit < U64_MAX ==> reader.bytes == |data| <= reader.limit
      decreases |reader.inner.Rest()|
    {
      var buf := new byte[sizes(turn)];
      ghost var before := |reader.inner.Rest()|;
      var r, taken := reader.Read(buf);
      PassesExactlyWhen(|data|, taken, reader.limit);
      if r.Err? {
        if r.error.LimitExceeded? {
          assert data + (buf[..taken] + reader.inner.Rest()) == data + buf[..taken] + reader.inner.Rest();
          assert CutOff(|data|, |stream| - |reader.inner.Rest()|, reader.limit, sizes(turn));
        }
        return data, Some(r.error);
      }
      if r.value == 0 {
        return data, None;
      }
      assert data + (buf[..r.value] + reader.inner.Rest()) == data + buf[..r.value] + reader.inner.Rest();
      data := data + buf[..r.value];
      turn := turn + 1;
    }
  }

  /** One last read took more than the limit allows, and was withheld. */
  predicate CutOff(delivered: nat, taken: int, limit: nat, size: nat) {
    delivered <= limit < taken <= delivered + size
  }

  lemma PassesExactlyWhen(bytes: nat, read: nat, limit: nat)
    requires limit <= U64_MAX
    ensures limit == U64_MAX ==> forall count: nat :: Passes(count, read, limit)
    ensures limit < U64_MAX ==> (Passes(bytes, read, limit) <==> bytes + read <= limit)
    ensures bytes + read <= limit ==> Counted(bytes, read) == bytes + read
  {
  }
}
