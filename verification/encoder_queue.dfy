/**
 The encode head and output queue of the encoder, as a sequential state
 machine: every region the C code runs under encode_head_mutex, and every
 queue operation, is one atomic transition. Two transitions also take in the
 container writes that follow a locked region: `EndOfStream` the trailer
 (src/encoder.c:97-102) and `LoopTop` the header (src/encoder.c:76-82), both
 written outside the lock. In both windows the encode head is already null,
 and a purge running meanwhile leaves a null head null, so a purge cannot
 change how those chunks are stamped. A flush or a get running in those
 windows is a different interleaving, which the model does not cover. The container
 writer's calls of encoder_write_packet are opaque events, passed in as the
 writes that occur during a transition.
 */
module EncoderQueue {
  import opened Wrappers
  import opened Negotiator

  /** The identity of a GroovePlaylistItem. */
  type ItemId = nat

  /** The value encode_pos takes when the position is unknown. */
  const UnknownPos: int := -1

  /** An encoded chunk: the item, position and format it is stamped with, and
      its recorded size. The payload is not modelled. */
  datatype Chunk = Chunk(item: Option<ItemId>, pos: int, format: AudioFormat, size: int)

  /** An entry of the output queue: a chunk, or the end-of-stream sentinel. */
  datatype QueueItem = Packet(chunk: Chunk) | Sentinel

  /** The encoder's private state that the model keeps: the output queue and
      its abort flag, the encode head (item, position, format), whether a
      header was written, and the item a purge is running for. */
  datatype EncoderState = EncoderState(
    queue: seq<QueueItem>,
    aborted: bool,
    head: Option<ItemId>,
    pos: int,
    format: AudioFormat,
    sentHeader: bool,
    purgeItem: Option<ItemId>)

  /** A decoded buffer pulled from the sink. */
  datatype InputBuffer = InputBuffer(item: ItemId, pos: int, format: AudioFormat)

  /** One call of encoder_write_packet: the byte count, and whether its
      allocations (src/encoder.c:161-194) succeeded. */
  datatype Write = Write(size: int, succeeded: bool)

  /** The sizes of the writes that reach the queue, in order. */
  function AllocatedSizes(writes: seq<Write>): seq<int>
  {
    if |writes| == 0 then []
    else (if writes[0].succeeded then [writes[0].size] else []) + AllocatedSizes(writes[1..])
  }

  /** Chunks stamped with one item, position and format, one per size, in
      order. */
  function Stamp(item: Option<ItemId>, pos: int, format: AudioFormat, sizes: seq<int>): (q: seq<QueueItem>)
    ensures |q| == |sizes|
    decreases |sizes|
  {
    if |sizes| == 0 then []
    else [Packet(Chunk(item, pos, format, sizes[0]))] + Stamp(item, pos, format, sizes[1..])
  }

  /** encoder_write_packet (src/encoder.c:157-203): on success the new chunk
      is stamped with the current encode head and queued; when an allocation
      fails nothing is queued. Only the queue ever changes. */
  function WritePacket(s: EncoderState, w: Write): (r: EncoderState)
    ensures r.(queue := s.queue) == s
    ensures r.queue == s.queue + Stamp(s.head, s.pos, s.format, AllocatedSizes([w]))
  {
    assert [w][1..] == [];
    if !w.succeeded then s
    else s.(queue := s.queue + [Packet(Chunk(s.head, s.pos, s.format, w.size))])
  }

  /** A run of container writes, one call of encoder_write_packet each. */
  function EmitAll(s: EncoderState, writes: seq<Write>): EncoderState
    decreases |writes|
  {
    if |writes| == 0 then s else EmitAll(WritePacket(s, writes[0]), writes[1..])
  }

  /** A run of writes leaves everything but the queue as it was. */
  lemma {:induction false} EmitAllKeepsState(s: EncoderState, writes: seq<Write>)
    ensures EmitAll(s, writes).(queue := s.queue) == s
    decreases |writes|
  {
    if |writes| > 0 {
      EmitAllKeepsState(WritePacket(s, writes[0]), writes[1..]);
    }
  }

  /** A run of writes grows the queue by one chunk per successful write, in
      order, each stamped with the encode head in force. */
  lemma {:induction false} EmitAllQueue(s: EncoderState, writes: seq<Write>)
    ensures EmitAll(s, writes).queue == s.queue + Stamp(s.head, s.pos, s.format, AllocatedSizes(writes))
    decreases |writes|
  {
    if |writes| > 0 {
      var w := writes[0];
      var s' := WritePacket(s, w);
      var rest := AllocatedSizes(writes[1..]);
      EmitAllQueue(s', writes[1..]);
      if w.succeeded {
        var p := Packet(Chunk(s.head, s.pos, s.format, w.size));
        assert AllocatedSizes(writes) == [w.size] + rest;
        assert ([w.size] + rest)[1..] == rest;
        assert Stamp(s.head, s.pos, s.format, [w.size] + rest) == [p] + Stamp(s.head, s.pos, s.format, rest);
        assert s'.queue + Stamp(s.head, s.pos, s.format, rest)
            == s.queue + ([p] + Stamp(s.head, s.pos, s.format, rest));
      } else {
        assert AllocatedSizes(writes) == rest;
      }
    }
  }

  /** encode_buffer (src/encoder.c:40-68) under the lock: a real buffer
      becomes the encode head, and every chunk the encoding writes is stamped
      with that head; the flushing call with no buffer keeps the head. */
  function EncodeBuffer(s: EncoderState, buffer: Option<InputBuffer>, writes: seq<Write>): (r: EncoderState)
    ensures buffer.Some? ==>
      r.head == Some(buffer.value.item) && r.pos == buffer.value.pos && r.format == buffer.value.format
    ensures buffer.None? ==> r.head == s.head && r.pos == s.pos && r.format == s.format
    ensures r.sentHeader == s.sentHeader && r.aborted == s.aborted && r.purgeItem == s.purgeItem
    ensures r.queue == s.queue + Stamp(r.head, r.pos, r.format, AllocatedSizes(writes))
  {
    var s' := match buffer
      case None => s
      case Some(b) => s.(head := Some(b.item), pos := b.pos, format := b.format);
    EmitAllKeepsState(s', writes);
    EmitAllQueue(s', writes);
    EmitAll(s', writes)
  }

  /** The end-of-stream branch of encode_thread (src/encoder.c:86-105): the
      drain writes are stamped with the old head, one sentinel follows them,
      the head is cleared and the header flag reset; the trailer's writes
      come after the sentinel, stamped with no head. */
  function EndOfStream(s: EncoderState, drain: seq<Write>, trailer: seq<Write>): (r: EncoderState)
    ensures r.head == None && r.pos == UnknownPos && !r.sentHeader
    ensures r.format == s.format && r.aborted == s.aborted && r.purgeItem == s.purgeItem
    ensures r.queue == s.queue + Stamp(s.head, s.pos, s.format, AllocatedSizes(drain))
                       + [Sentinel] + Stamp(None, UnknownPos, s.format, AllocatedSizes(trailer))
  {
    var drained := EmitAll(s, drain);
    var ended := drained.(queue := drained.queue + [Sentinel], head := None, pos := UnknownPos);
    EmitAllKeepsState(s, drain);
    EmitAllQueue(s, drain);
    EmitAllKeepsState(ended.(sentHeader := false), trailer);
    EmitAllQueue(ended.(sentHeader := false), trailer);
    EmitAll(ended.(sentHeader := false), trailer)
  }

  /** The number of end-of-stream markers in a queue. */
  function SentinelCount(q: seq<QueueItem>): nat
    decreases |q|
  {
    if |q| == 0 then 0 else (if q[0] == Sentinel then 1 else 0) + SentinelCount(q[1..])
  }

  lemma {:induction false} SentinelCountAppend(a: seq<QueueItem>, b: seq<QueueItem>)
    ensures SentinelCount(a + b) == SentinelCount(a) + SentinelCount(b)
    decreases |a|
  {
    if |a| == 0 {
      assert a + b == b;
    } else {
      assert (a + b)[1..] == a[1..] + b;
      SentinelCountAppend(a[1..], b);
    }
  }

  lemma {:induction false} StampHasNoSentinel(item: Option<ItemId>, pos: int, format: AudioFormat, sizes: seq<int>)
    ensures SentinelCount(Stamp(item, pos, format, sizes)) == 0
    decreases |sizes|
  {
    if |sizes| > 0 {
      StampHasNoSentinel(item, pos, format, sizes[1..]);
    }
  }

  /** End of stream adds exactly one end-of-stream marker to the queue. */
  lemma EndOfStreamAddsOneSentinel(s: EncoderState, drain: seq<Write>, trailer: seq<Write>)
    ensures SentinelCount(EndOfStream(s, drain, trailer).queue) == SentinelCount(s.queue) + 1
  {
    var a := Stamp(s.head, s.pos, s.format, AllocatedSizes(drain));
    var b := Stamp(None, UnknownPos, s.format, AllocatedSizes(trailer));
    StampHasNoSentinel(s.head, s.pos, s.format, AllocatedSizes(drain));
    StampHasNoSentinel(None, UnknownPos, s.format, AllocatedSizes(trailer));
    SentinelCountAppend(s.queue, a);
    SentinelCountAppend(s.queue + a, [Sentinel]);
    SentinelCountAppend(s.queue + a + [Sentinel], b);
    assert SentinelCount([Sentinel]) == 1;
  }

  /** The top of the encode_thread loop (src/encoder.c:76-82): when no header
      was sent, the header's writes are queued and the flag is set. */
  function LoopTop(s: EncoderState, header: seq<Write>): (r: EncoderState)
    ensures r.sentHeader
    ensures s.sentHeader ==> r == s
    ensures !s.sentHeader ==>
      && r.(queue := s.queue, sentHeader := false) == s
      && r.queue == s.queue + Stamp(s.head, s.pos, s.format, AllocatedSizes(header))
  {
    if !s.sentHeader then
      EmitAllKeepsState(s, header);
      EmitAllQueue(s, header);
      EmitAll(s, header).(sentHeader := true)
    else s
  }

  /** After end of stream the next loop iteration writes a fresh header,
      stamped with no head, after whatever the trailer queued. */
  lemma HeaderAfterEndOfStream(s: EncoderState, drain: seq<Write>, trailer: seq<Write>, header: seq<Write>)
    ensures var e := EndOfStream(s, drain, trailer);
      var r := LoopTop(e, header);
      r.sentHeader && r.queue == e.queue + Stamp(None, UnknownPos, s.format, AllocatedSizes(header))
  {
  }

  /** The data branch of encode_thread (src/encoder.c:107-113), once per
      buffer pulled from the sink, each buffer with the writes its encoding
      causes. */
  function EncodeEach(s: EncoderState, buffers: seq<InputBuffer>, writes: seq<seq<Write>>): (r: EncoderState)
    requires |buffers| == |writes|
    ensures r.aborted == s.aborted && r.purgeItem == s.purgeItem && r.sentHeader == s.sentHeader
    ensures |buffers| == 0 ==> r == s
    ensures |buffers| > 0 ==>
      var last := buffers[|buffers| - 1];
      r.head == Some(last.item) && r.pos == last.pos && r.format == last.format
    decreases |buffers|
  {
    if |buffers| == 0 then s
    else
      var n := |buffers| - 1;
      EncodeBuffer(EncodeEach(s, buffers[..n], writes[..n]), Some(buffers[n]), writes[n])
  }

  /** What a run of buffers is expected to put in the queue: for each buffer,
      in order, one chunk per successful write, stamped with that buffer. */
  function Expected(buffers: seq<InputBuffer>, writes: seq<seq<Write>>): seq<QueueItem>
    requires |buffers| == |writes|
    decreases |buffers|
  {
    if |buffers| == 0 then []
    else
      var n := |buffers| - 1;
      var b := buffers[n];
      Expected(buffers[..n], writes[..n]) + Stamp(Some(b.item), b.pos, b.format, AllocatedSizes(writes[n]))
  }

  /** Encoding a run of buffers appends, in submission order, exactly the
      chunks of each buffer stamped with that buffer's item. */
  lemma {:induction false} EncodeEachQueue(s: EncoderState, buffers: seq<InputBuffer>, writes: seq<seq<Write>>)
    requires |buffers| == |writes|
    ensures EncodeEach(s, buffers, writes).queue == s.queue + Expected(buffers, writes)
    decreases |buffers|
  {
    if |buffers| > 0 {
      var n := |buffers| - 1;
      var prev := EncodeEach(s, buffers[..n], writes[..n]);
      EncodeEachQueue(s, buffers[..n], writes[..n]);
      var e1 := Expected(buffers[..n], writes[..n]);
      var st := Stamp(Some(buffers[n].item), buffers[n].pos, buffers[n].format, AllocatedSizes(writes[n]));
      assert Expected(buffers, writes) == e1 + st;
      assert EncodeEach(s, buffers, writes).queue == prev.queue + st;
      assert s.queue + (e1 + st) == (s.queue + e1) + st;
    }
  }

  // ---------------------------------------------------------------- purge

  /** audioq_purge (src/encoder.c:145-150), corrected: a chunk matches when
      it is stamped with the item being purged, exactly as the code decides
      it; the sentinel never matches. */
  function AudioqPurge(x: QueueItem, purgeItem: Option<ItemId>): (r: bool)
    ensures x == Sentinel ==> !r
    ensures x.Packet? ==> r == AudioqPurgeAsWritten(x, purgeItem)
  {
    x.Packet? && x.chunk.item == purgeItem
  }

  /** audioq_purge as written: it reads buffer->item, which only a real
      chunk has; the end-of-stream sentinel is a null pointer
      (src/encoder.c:38). */
  function AudioqPurgeAsWritten(x: QueueItem, purgeItem: Option<ItemId>): bool
    requires x.Packet?
  {
    x.chunk.item == purgeItem
  }

  /** The queue's purge asks the predicate about every queued entry, so the
      as-written predicate is defined on a queue only when it holds no
      sentinel. */
  ghost predicate PurgeAsWrittenDefined(q: seq<QueueItem>)
  {
    forall j :: 0 <= j < |q| ==> q[j].Packet?
  }

  /** After an end of stream the sentinel waits in the queue until the
      consumer takes it; a purge arriving in that window, as on a seek,
      makes the as-written predicate read the null sentinel. */
  lemma SentinelReachesAudioqPurge(s: EncoderState, drain: seq<Write>, trailer: seq<Write>)
    ensures var q := EndOfStream(s, drain, trailer).queue;
      var k := |s.queue| + |AllocatedSizes(drain)|;
      k < |q| && q[k] == Sentinel && !PurgeAsWrittenDefined(q)
  {
  }

  /** groove_queue_purge with audioq_purge: the entries that stay, in order. */
  function QueuePurge(q: seq<QueueItem>, purgeItem: Option<ItemId>): (r: seq<QueueItem>)
    ensures |r| <= |q|
    decreases |q|
  {
    if |q| == 0 then []
    else (if AudioqPurge(q[0], purgeItem) then [] else [q[0]]) + QueuePurge(q[1..], purgeItem)
  }

  /** The entries that stay are exactly the entries that do not match. */
  lemma {:induction false} QueuePurgeMembers(q: seq<QueueItem>, purgeItem: Option<ItemId>)
    ensures forall x :: x in QueuePurge(q, purgeItem) <==> x in q && !AudioqPurge(x, purgeItem)
    decreases |q|
  {
    if |q| > 0 {
      QueuePurgeMembers(q[1..], purgeItem);
      assert q == [q[0]] + q[1..];
    }
  }

  /** The entries the purge hands to audioq_cleanup, in order. */
  function PurgedEntries(q: seq<QueueItem>, purgeItem: Option<ItemId>): seq<QueueItem>
    decreases |q|
  {
    if |q| == 0 then []
    else (if AudioqPurge(q[0], purgeItem) then [q[0]] else []) + PurgedEntries(q[1..], purgeItem)
  }

  /** The entries handed to cleanup are exactly the entries that match. */
  lemma {:induction false} PurgedEntriesMembers(q: seq<QueueItem>, purgeItem: Option<ItemId>)
    ensures forall x :: x in PurgedEntries(q, purgeItem) <==> x in q && AudioqPurge(x, purgeItem)
    decreases |q|
  {
    if |q| > 0 {
      PurgedEntriesMembers(q[1..], purgeItem);
      assert q == [q[0]] + q[1..];
    }
  }

  /** Every entry either stays or goes to cleanup, exactly once. */
  lemma {:induction false} PurgeAccountsForEveryEntry(q: seq<QueueItem>, purgeItem: Option<ItemId>)
    ensures multiset(QueuePurge(q, purgeItem)) + multiset(PurgedEntries(q, purgeItem)) == multiset(q)
    decreases |q|
  {
    if |q| > 0 {
      assert q == [q[0]] + q[1..];
      PurgeAccountsForEveryEntry(q[1..], purgeItem);
    }
  }

  /** The purge keeps the relative order of the entries it keeps: it acts on
      each part of a queue separately. */
  lemma {:induction false} QueuePurgeAppend(a: seq<QueueItem>, b: seq<QueueItem>, purgeItem: Option<ItemId>)
    ensures QueuePurge(a + b, purgeItem) == QueuePurge(a, purgeItem) + QueuePurge(b, purgeItem)
    decreases |a|
  {
    if |a| > 0 {
      assert (a + b)[0] == a[0];
      assert (a + b)[1..] == a[1..] + b;
      QueuePurgeAppend(a[1..], b, purgeItem);
      var h := if AudioqPurge(a[0], purgeItem) then [] else [a[0]];
      var x, y := QueuePurge(a[1..], purgeItem), QueuePurge(b, purgeItem);
      assert QueuePurge(a + b, purgeItem) == h + (x + y);
      assert QueuePurge(a, purgeItem) == h + x;
      assert h + (x + y) == (h + x) + y;
    } else {
      assert a + b == b;
    }
  }

  /** A queue with no matching entry is left as it is. */
  lemma {:induction false} QueuePurgeKeepsUnmatched(q: seq<QueueItem>, purgeItem: Option<ItemId>)
    requires forall j :: 0 <= j < |q| ==> !AudioqPurge(q[j], purgeItem)
    ensures QueuePurge(q, purgeItem) == q
    decreases |q|
  {
    if |q| > 0 {
      QueuePurgeKeepsUnmatched(q[1..], purgeItem);
      assert q == [q[0]] + q[1..];
    }
  }

  /** Purging twice for the same item is purging once. */
  lemma QueuePurgeIdempotent(q: seq<QueueItem>, purgeItem: Option<ItemId>)
    ensures QueuePurge(QueuePurge(q, purgeItem), purgeItem) == QueuePurge(q, purgeItem)
  {
    var r := QueuePurge(q, purgeItem);
    QueuePurgeMembers(q, purgeItem);
    forall j | 0 <= j < |r|
      ensures !AudioqPurge(r[j], purgeItem)
    {
      assert r[j] in r;
    }
    QueuePurgeKeepsUnmatched(r, purgeItem);
  }

  /** sink_purge (src/encoder.c:119-133) under the lock: the queue drops
      exactly the chunks stamped with `item`, keeping the rest in order and
      every sentinel; the purge item is set only for the duration of the
      queue purge; an encode head on `item` is cleared. */
  function SinkPurge(s: EncoderState, item: ItemId): (r: EncoderState)
    ensures forall x :: x in r.queue <==> x in s.queue && !(x.Packet? && x.chunk.item == Some(item))
    ensures r.queue == QueuePurge(s.queue, Some(item))
    ensures r.purgeItem == None && r.head != Some(item)
    ensures s.head == Some(item) ==> r.head == None && r.pos == UnknownPos
    ensures s.head != Some(item) ==> r.head == s.head && r.pos == s.pos
    ensures r.format == s.format && r.sentHeader == s.sentHeader && r.aborted == s.aborted
  {
    QueuePurgeMembers(s.queue, Some(item));
    var marked := s.(purgeItem := Some(item));
    var purged := marked.(queue := QueuePurge(marked.queue, marked.purgeItem));
    var done := purged.(purgeItem := None);
    if done.head == Some(item) then done.(head := None, pos := UnknownPos) else done
  }

  /** The corrected purge never drops an end-of-stream marker, so a seek
      cannot swallow the end of a segment. */
  lemma {:induction false} QueuePurgeKeepsSentinels(q: seq<QueueItem>, purgeItem: Option<ItemId>)
    ensures SentinelCount(QueuePurge(q, purgeItem)) == SentinelCount(q)
    decreases |q|
  {
    if |q| > 0 {
      var head := if AudioqPurge(q[0], purgeItem) then [] else [q[0]];
      QueuePurgeKeepsSentinels(q[1..], purgeItem);
      SentinelCountAppend(head, QueuePurge(q[1..], purgeItem));
    }
  }

  lemma SinkPurgeKeepsSentinels(s: EncoderState, item: ItemId)
    ensures SentinelCount(SinkPurge(s, item).queue) == SentinelCount(s.queue)
  {
    QueuePurgeKeepsSentinels(s.queue, Some(item));
  }

  /** A second purge for the same item changes nothing. */
  lemma SinkPurgeIdempotent(s: EncoderState, item: ItemId)
    ensures SinkPurge(SinkPurge(s, item), item) == SinkPurge(s, item)
  {
    QueuePurgeIdempotent(s.queue, Some(item));
  }

  /** A run of chunks stamped with the purged item is dropped whole. */
  lemma {:induction false} QueuePurgeDropsStamp(item: ItemId, pos: int, format: AudioFormat, sizes: seq<int>)
    ensures QueuePurge(Stamp(Some(item), pos, format, sizes), Some(item)) == []
    decreases |sizes|
  {
    if |sizes| > 0 {
      QueuePurgeDropsStamp(item, pos, format, sizes[1..]);
      assert Stamp(Some(item), pos, format, sizes)[1..] == Stamp(Some(item), pos, format, sizes[1..]);
    }
  }

  /** Purging an item whose chunks sit between other entries removes that run
      and, around it, only the item's own chunks, keeping the order of
      everything else. With `SinkPurge`'s contract this is what a seek away
      from the item being encoded leaves in the queue. */
  lemma QueuePurgeSplits(item: ItemId, before: seq<QueueItem>, after: seq<QueueItem>,
                         sizes: seq<int>, pos: int, format: AudioFormat)
    ensures QueuePurge(before + Stamp(Some(item), pos, format, sizes) + after, Some(item))
         == QueuePurge(before, Some(item)) + QueuePurge(after, Some(item))
  {
    var mid := Stamp(Some(item), pos, format, sizes);
    QueuePurgeAppend(before + mid, after, Some(item));
    QueuePurgeAppend(before, mid, Some(item));
    QueuePurgeDropsStamp(item, pos, format, sizes);
  }

  // ---------------------------------------------------------------- flush

  /** sink_flush (src/encoder.c:135-143) under the lock: every queued entry
      goes to cleanup. The codec's own buffer reset is not modelled. */
  function SinkFlush(s: EncoderState): EncoderState
  {
    s.(queue := [])
  }

  // ---------------------------------------------------------- get_buffer

  /** What groove_encoder_get_buffer reports: a chunk, end of stream with a
      null buffer, or no buffer. */
  datatype BufferResult = BufferYes(chunk: Chunk) | BufferEnd | BufferNo

  /** A get either returns, with the state after it, or waits for a put. */
  datatype GetStep = Blocked | Returned(next: EncoderState, result: BufferResult)

  /** How the consumer sees one queued entry. */
  function Observe(x: QueueItem): (r: BufferResult)
    ensures r != BufferNo
    ensures r == BufferEnd <==> x == Sentinel
    ensures x.Packet? ==> r == BufferYes(x.chunk)
  {
    match x
    case Sentinel => BufferEnd
    case Packet(c) => BufferYes(c)
  }

  /** groove_encoder_get_buffer (src/encoder.c:517-533) over a FIFO queue: an
      aborted queue, or an empty queue asked without blocking, gives no
      buffer; otherwise the first entry is taken and reported. */
  function GetBuffer(s: EncoderState, block: bool): (r: GetStep)
    ensures r == Blocked <==> block && !s.aborted && |s.queue| == 0
    ensures (s.aborted || |s.queue| == 0) && r.Returned? ==> r == Returned(s, BufferNo)
    ensures !s.aborted && |s.queue| > 0 ==>
      && r.Returned?
      && r.next == s.(queue := s.queue[1..])
      && (r.result == BufferEnd <==> s.queue[0] == Sentinel)
      && (s.queue[0].Packet? ==> r.result == BufferYes(s.queue[0].chunk))
      && r.result != BufferNo
  {
    if s.aborted then Returned(s, BufferNo)
    else if |s.queue| == 0 then
      if block then Blocked else Returned(s, BufferNo)
    else
      Returned(s.(queue := s.queue[1..]), Observe(s.queue[0]))
  }

  /** After a flush a get finds nothing: it returns no buffer, or waits. */
  lemma FlushedGetFindsNothing(s: EncoderState, block: bool)
    ensures var r := GetBuffer(SinkFlush(s), block);
      r == Blocked || r == Returned(SinkFlush(s), BufferNo)
  {
  }

  /** The consumer's results for a queue, entry by entry. */
  function ObserveAll(q: seq<QueueItem>): (r: seq<BufferResult>)
    ensures |r| == |q|
  {
    seq(|q|, j requires 0 <= j < |q| => Observe(q[j]))
  }

  lemma ObserveAllAppend(a: seq<QueueItem>, b: seq<QueueItem>)
    ensures ObserveAll(a + b) == ObserveAll(a) + ObserveAll(b)
  {
  }

  /** `n` non-blocking gets in a row. */
  function Drain(s: EncoderState, n: nat): seq<BufferResult>
    decreases n
  {
    if n == 0 then []
    else
      match GetBuffer(s, false)
      case Blocked => []
      case Returned(next, res) => [res] + Drain(next, n - 1)
  }

  /** The consumer receives the queue in order: one result per entry, each
      chunk as itself and each sentinel as end of stream; one get more finds
      the queue empty. */
  lemma {:induction false} DrainObservesQueue(s: EncoderState, extra: nat)
    requires !s.aborted
    ensures Drain(s, |s.queue|) == ObserveAll(s.queue)
    ensures Drain(s, |s.queue| + 1 + extra) == ObserveAll(s.queue) + [BufferNo] + Drain(s.(queue := []), extra)
    decreases |s.queue|
  {
    if |s.queue| == 0 {
      assert Drain(s, 1 + extra) == [BufferNo] + Drain(s, extra);
      assert s.(queue := []) == s;
    } else {
      var next := s.(queue := s.queue[1..]);
      var o := Observe(s.queue[0]);
      DrainObservesQueue(next, extra);
      assert GetBuffer(s, false) == Returned(next, o);
      assert Drain(s, |s.queue|) == [o] + Drain(next, |next.queue|);
      assert Drain(s, |s.queue| + 1 + extra) == [o] + Drain(next, |next.queue| + 1 + extra);
      assert ObserveAll(s.queue) == [o] + ObserveAll(s.queue[1..]);
      assert next.(queue := []) == s.(queue := []);
    }
  }

  /** What end of stream appends after state `m`: the drain chunks stamped
      with m's head, one sentinel, and the trailer chunks stamped with no
      head. */
  function EndOfStreamOutput(m: EncoderState, drain: seq<Write>, trailer: seq<Write>): seq<QueueItem>
  {
    Stamp(m.head, m.pos, m.format, AllocatedSizes(drain)) + [Sentinel]
      + Stamp(None, UnknownPos, m.format, AllocatedSizes(trailer))
  }

  /** A whole segment: buffers are encoded and the sink then reports end of
      stream. The queue gains the segment's chunks in submission order, then
      what end of stream appends. */
  lemma SegmentQueue(s: EncoderState, buffers: seq<InputBuffer>, writes: seq<seq<Write>>,
                     drain: seq<Write>, trailer: seq<Write>)
    requires |buffers| == |writes|
    ensures var m := EncodeEach(s, buffers, writes);
      EndOfStream(m, drain, trailer).queue
        == s.queue + Expected(buffers, writes) + EndOfStreamOutput(m, drain, trailer)
  {
    EncodeEachQueue(s, buffers, writes);
  }

  /** At the end of a segment the drain chunks carry the last buffer's stamp
      and the trailer chunks its format; with no buffers end of stream acts on
      the state as it was. The abort flag is kept. */
  lemma SegmentEnd(s: EncoderState, buffers: seq<InputBuffer>, writes: seq<seq<Write>>,
                   drain: seq<Write>, trailer: seq<Write>)
    requires |buffers| == |writes|
    ensures EndOfStream(EncodeEach(s, buffers, writes), drain, trailer).aborted == s.aborted
    ensures |buffers| > 0 ==>
      var last := buffers[|buffers| - 1];
      EndOfStreamOutput(EncodeEach(s, buffers, writes), drain, trailer)
        == Stamp(Some(last.item), last.pos, last.format, AllocatedSizes(drain))
           + [Sentinel] + Stamp(None, UnknownPos, last.format, AllocatedSizes(trailer))
    ensures |buffers| == 0 ==>
      EndOfStream(EncodeEach(s, buffers, writes), drain, trailer) == EndOfStream(s, drain, trailer)
  {
  }

  /** A queue holding a sentinel is received as the entries before it, then
      end of stream, then the entries after it, then nothing. */
  lemma DrainToSentinel(e: EncoderState, q: seq<QueueItem>, after: seq<QueueItem>)
    requires !e.aborted && e.queue == q + [Sentinel] + after
    ensures Drain(e, |e.queue| + 1) == ObserveAll(q) + [BufferEnd] + ObserveAll(after) + [BufferNo]
  {
    DrainObservesQueue(e, 0);
    assert Drain(e.(queue := []), 0) == [];
    ObserveAllAppend(q + [Sentinel], after);
    ObserveAllAppend(q, [Sentinel]);
    assert ObserveAll([Sentinel]) == [BufferEnd];
  }

  /** How the consumer receives what end of stream appends after state `m`:
      the drain chunks, end of stream, the trailer chunks, then nothing. */
  function EndOfStreamDelivery(m: EncoderState, drain: seq<Write>, trailer: seq<Write>): seq<BufferResult>
  {
    ObserveAll(Stamp(m.head, m.pos, m.format, AllocatedSizes(drain))) + [BufferEnd]
      + ObserveAll(Stamp(None, UnknownPos, m.format, AllocatedSizes(trailer))) + [BufferNo]
  }

  /** The consumer's view of a segment: whatever was queued before, then
      every chunk of the segment in submission order, then the drain chunks,
      then end of stream, then the trailer chunks, then nothing. */
  lemma SegmentDelivery(s: EncoderState, buffers: seq<InputBuffer>, writes: seq<seq<Write>>,
                        drain: seq<Write>, trailer: seq<Write>)
    requires !s.aborted && |buffers| == |writes|
    ensures var e := EndOfStream(EncodeEach(s, buffers, writes), drain, trailer);
      Drain(e, |e.queue| + 1)
        == ObserveAll(s.queue) + ObserveAll(Expected(buffers, writes))
           + EndOfStreamDelivery(EncodeEach(s, buffers, writes), drain, trailer)
  {
    var m := EncodeEach(s, buffers, writes);
    SegmentQueue(s, buffers, writes, drain, trailer);
    DeliveryInOrder(EndOfStream(m, drain, trailer), s.queue, Expected(buffers, writes), m, drain, trailer);
  }

  /** A segment grows the queue by its chunks, its drain chunks, one sentinel
      and its trailer chunks. */
  lemma SegmentLength(s: EncoderState, buffers: seq<InputBuffer>, writes: seq<seq<Write>>,
                      drain: seq<Write>, trailer: seq<Write>)
    requires |buffers| == |writes|
    ensures |EndOfStream(EncodeEach(s, buffers, writes), drain, trailer).queue|
         == |s.queue| + |Expected(buffers, writes)| + |AllocatedSizes(drain)| + 1 + |AllocatedSizes(trailer)|
  {
    SegmentQueue(s, buffers, writes, drain, trailer);
  }

  /** A live queue laid out as earlier entries, a segment's chunks and what
      end of stream appends is received in that order. */
  lemma DeliveryInOrder(e: EncoderState, a: seq<QueueItem>, x: seq<QueueItem>,
                        m: EncoderState, drain: seq<Write>, trailer: seq<Write>)
    requires !e.aborted && e.queue == a + x + EndOfStreamOutput(m, drain, trailer)
    ensures Drain(e, |e.queue| + 1)
         == ObserveAll(a) + ObserveAll(x) + EndOfStreamDelivery(m, drain, trailer)
  {
    var d := Stamp(m.head, m.pos, m.format, AllocatedSizes(drain));
    var t := Stamp(None, UnknownPos, m.format, AllocatedSizes(trailer));
    assert e.queue == a + x + d + [Sentinel] + t;
    DrainToSentinel(e, a + x + d, t);
    ObserveSplit(a, x, d, t);
  }

  /** The consumer's results for earlier entries, a segment's chunks, drain
      chunks, end of stream and trailer chunks, regrouped part by part. */
  lemma ObserveSplit(a: seq<QueueItem>, x: seq<QueueItem>, d: seq<QueueItem>, t: seq<QueueItem>)
    ensures ObserveAll(a + x + d) + [BufferEnd] + ObserveAll(t) + [BufferNo]
         == ObserveAll(a) + ObserveAll(x) + (ObserveAll(d) + [BufferEnd] + ObserveAll(t) + [BufferNo])
  {
  }

}
