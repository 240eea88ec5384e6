# libgroove encoder: format negotiation and output-queue bookkeeping

A Dafny model of the core of libgroove's encoder (`src/encoder.c`), in two parts.

**Format negotiation.** When an encoder is attached, the requested audio format
(sample format, sample rate, channel layout) is mapped onto what the chosen codec
supports, one axis at a time. Each axis scans the codec's terminator-ended list once.
A null list means the codec accepts anything, so the target is kept. Otherwise the
policy rounds up: an exact match wins; failing that, the entry with the least key at
or above the target's key; failing that, the entry with the greatest key. On equal keys
the earliest entry wins. The key is bytes per sample, the rate itself, or the channel
count. A sample format is then swapped for its packed variant when the codec lists it.

- `Closest` holds the shared scan. `Scan` follows the C loop entry by entry, including
  the early return on an exact match. `IsRoundUpChoice` is an independent reference
  definition of the policy. `ScanMeetsPolicy` proves they agree; its precondition is
  the loop invariant.
- `Negotiator` holds the three axis functions, `codec_supports_fmt`, and the negotiation
  block of `groove_encoder_attach`.

**Encode head and output queue.** The worker thread records the buffer it is encoding
as the "encode head". Every chunk the container writer emits is stamped with that head.
Chunks and an end-of-stream sentinel go through one FIFO queue to the consumer. A purge
from the playlist (for example on a seek) removes one item's chunks. `EncoderQueue`
models this as a state machine over an immutable record. Each region run under
`encode_head_mutex`, and each queue operation, is one atomic transition. Two transitions
also include container writes made outside the lock. `EndOfStream` includes the trailer
write (src/encoder.c:97-102) and `LoopTop` the header write (src/encoder.c:76-82). In
both windows the encode head is already null: it is null before the first buffer, and
line 93 clears it before the trailer. The only other writer of the head is a purge
(src/encoder.c:128-131), and a purge only ever sets the head to null. So a purge running
at the same time cannot change how those chunks are stamped. A flush or a get that runs
in those windows is not covered (see "## Left out").

What the container writer emits during a transition (the calls to
`encoder_write_packet`) is not visible in this file. It is passed in as a sequence of
`Write` events, each with a byte count and whether its allocations succeeded. The codec
and container calls themselves (encode, write frame, header, trailer) are not modelled.
The queue's abort flag is part of the state because `groove_encoder_get_buffer` reads it.

The sample format tables (`av_get_bytes_per_sample`, `av_get_packed_sample_fmt`) belong
to FFmpeg. They are a parameter of type `SampleFormatTable`, so every property holds
for any such table. The channel count of a layout is the number of bits set, which is
what FFmpeg's `av_get_channel_layout_nb_channels` computes.

A consumer might expect the sentinel to follow every chunk of its segment. In the
code, the trailer is written (src/encoder.c:100) after the sentinel has been queued
(src/encoder.c:92). So any bytes the container writer emits for the trailer reach the
queue after the sentinel, stamped with no item. The model follows the code
(`EndOfStream`).

## Model

| member | source | states |
|---|---|---|
| `Closest.AbsDiff` | src/encoder.c:291-294 | the result is non-negative, is a - b or b - a, and is zero exactly when a = b |
| `Closest.AbsDiffSymmetric` | src/encoder.c:291-294 | abs_diff(a, b) = abs_diff(b, a) |
| `Closest.StepKeepsChoice` | src/encoder.c:325-332 | one loop iteration turns the round-up choice over the first n entries into the round-up choice over the first n + 1 (the loop invariant) |
| `Closest.ScanMeetsPolicy` | src/encoder.c:321-335 | from any entry on, the loop returns the target if it occurs later, and otherwise the entry the round-up policy picks over the whole list |
| `Closest.RoundUpChoiceUnique` | src/encoder.c:326-332 | the round-up policy, ties to the earliest entry included, picks exactly one entry |
| `Closest.ScanList` | src/encoder.c:318-335 | started from the first entry (or the terminator when the list is empty): the loop exits with an exact match iff the target is listed; an empty list yields the terminator; otherwise the result is the round-up choice |
| `Negotiator.SupportsFrom` | src/encoder.c:299-305 | the walk from entry i finds fmt iff fmt occurs from entry i on |
| `Negotiator.CodecSupportsFmt` | src/encoder.c:296-306 | true iff the format occurs before the terminator; the terminator itself is never supported |
| `Negotiator.ClosestSampleFmt` | src/encoder.c:308-340 | a null list returns the target; a listed target is returned unchanged; an empty list returns GROOVE_SAMPLE_FMT_NONE; otherwise the best entry by bytes per sample (least at or above the target's, else greatest, earliest on ties) is chosen, and the result is its packed variant exactly when the codec lists that variant, else the entry itself, always a listed format |
| `Negotiator.ClosestSampleRate` | src/encoder.c:342-366 | a null list returns the target; a listed target is returned; an empty list returns 0; otherwise the result is listed, and is the least listed rate at or above the target if one exists, else the greatest listed rate |
| `Negotiator.RateChoice` | src/encoder.c:349-365 | the round-up choice over rates, read in terms of rates: a listed rate, minimal among rates at or above the target, else maximal |
| `Negotiator.ClosestChannelLayout` | src/encoder.c:368-396 | a null list returns the target; a listed target is returned; an empty list returns 0; otherwise the result is a listed layout whose channel count is the least count at or above the target's if one exists, else the greatest count, and it is the earliest layout with that count |
| `Negotiator.LayoutChoice` | src/encoder.c:375-395 | the round-up choice over layouts, read in terms of channel counts |
| `Negotiator.Negotiate` | src/encoder.c:440-445 | with all three lists null the actual format equals the target; on each axis an accepted target value is kept; on each axis whose list is not empty, the result is accepted by the codec |
| `Negotiator.NegotiateIdempotent` | src/encoder.c:440-445 | negotiating the negotiated format again returns it unchanged |
| `EncoderQueue.WritePacket` | src/encoder.c:157-203 | one call changes nothing but the queue; it appends one chunk stamped with the current head, position and format and carrying the write's size when the allocations succeed, and nothing when they fail |
| `EncoderQueue.EmitAllKeepsState` | src/encoder.c:157-203 | container writes change nothing but the output queue |
| `EncoderQueue.EmitAllQueue` | src/encoder.c:182-200 | a run of writes appends one chunk per successful write, in order, each stamped with the current head, position and format and carrying its byte count; failed allocations queue nothing |
| `EncoderQueue.EncodeBuffer` | src/encoder.c:40-68 | a real buffer becomes the encode head (item, position, format); the flushing call with no buffer keeps the head; every chunk written meanwhile is stamped with the resulting head; the header flag, abort flag and purge item are untouched |
| `EncoderQueue.EncodeEach` | src/encoder.c:107-113 | after a run of buffers the encode head is the last buffer's item, position and format (no buffers: nothing changes); the abort flag, purge item and header flag are untouched |
| `EncoderQueue.EncodeEachQueue` | src/encoder.c:107-113 | encoding buffers one after another appends each buffer's chunks, stamped with that buffer's item, in submission order |
| `EncoderQueue.EndOfStream` | src/encoder.c:86-105 | the queue gains the drain chunks (stamped with the old head), then one sentinel, then the trailer chunks (stamped with no head); the head is cleared, the position is -1 and the header flag is reset |
| `EncoderQueue.EndOfStreamAddsOneSentinel` | src/encoder.c:92 | end of stream adds exactly one sentinel to the queue |
| `EncoderQueue.LoopTop` | src/encoder.c:76-82 | after the loop top a header has been sent; if none had been sent, the header's chunks are appended and nothing else changes |
| `EncoderQueue.HeaderAfterEndOfStream` | src/encoder.c:76-98 | after end of stream the next loop iteration writes a fresh header, queued after the trailer and stamped with no head |
| `EncoderQueue.AudioqPurge` | src/encoder.c:145-150 | the corrected purge predicate: the sentinel never matches, and on every real chunk it decides exactly as the code's test of line 149 does |
| `EncoderQueue.AudioqPurgeAsWritten` | src/encoder.c:145-150 | the code's predicate: it compares buffer->item with the purge item, so its precondition is a real chunk; the end-of-stream sentinel, a null pointer, falls outside it |
| `EncoderQueue.SentinelReachesAudioqPurge` | src/encoder.c:145-150 | from any state and for any drain and trailer writes, after an end of stream the queue holds the sentinel, just after the drain chunks, so the code's predicate is not defined on every queued entry: a purge in that window reads buffer->item of a null pointer |
| `EncoderQueue.QueuePurge` | src/encoder.c:125 | the queue's purge with the corrected predicate never lengthens the queue; its partner lemmas below state which entries stay and in what order |
| `EncoderQueue.QueuePurgeMembers` | src/encoder.c:123-126 | the entries that stay after the purge are exactly the entries that do not match |
| `EncoderQueue.PurgedEntriesMembers` | src/encoder.c:152-155 | the entries handed to cleanup are exactly the entries that match |
| `EncoderQueue.PurgeAccountsForEveryEntry` | src/encoder.c:152-155 | the kept entries and the entries handed to cleanup together make up the queue, each entry exactly once |
| `EncoderQueue.QueuePurgeAppend` | src/encoder.c:125 | the purge acts on each part of the queue separately, so the kept entries keep their relative order |
| `EncoderQueue.QueuePurgeKeepsUnmatched` | src/encoder.c:125 | a queue with no matching entry is unchanged |
| `EncoderQueue.QueuePurgeIdempotent` | src/encoder.c:125 | purging twice for one item is purging once |
| `EncoderQueue.QueuePurgeDropsStamp` | src/encoder.c:145-150 | a run of chunks stamped with the purged item is removed whole |
| `EncoderQueue.QueuePurgeKeepsSentinels` | src/encoder.c:145-150 | the corrected purge keeps every sentinel |
| `EncoderQueue.SinkPurge` | src/encoder.c:119-133 | the queue keeps exactly the entries that are not chunks of the item, in order; the purge item is back to null; if the head was the item, the head becomes null and the position -1; otherwise head and position are unchanged |
| `EncoderQueue.SinkPurgeKeepsSentinels` | src/encoder.c:119-133 | a purge never removes an end-of-stream sentinel |
| `EncoderQueue.SinkPurgeIdempotent` | src/encoder.c:119-133 | a second purge for the same item changes nothing |
| `EncoderQueue.QueuePurgeSplits` | src/encoder.c:123-126 | purging an item whose run of chunks sits between other entries removes that run and, elsewhere, only the item's own chunks, preserving the order of the rest |
| `EncoderQueue.FlushedGetFindsNothing` | src/encoder.c:135-143 | after a flush, a get returns no buffer or waits |
| `EncoderQueue.Observe` | src/encoder.c:523-528 | the sentinel is reported as END, and any other entry as YES with that chunk; neither is NO |
| `EncoderQueue.GetBuffer` | src/encoder.c:517-533 | an aborted queue, or an empty queue read without blocking, gives NO and changes nothing; a blocking get on an empty, live queue waits; otherwise the first entry is removed and reported, as END exactly when it is the sentinel and otherwise as YES carrying that very chunk |
| `EncoderQueue.DrainObservesQueue` | src/encoder.c:517-533 | on a live queue, as many non-blocking gets as there are entries return the entries in FIFO order; the next get returns NO |
| `EncoderQueue.DrainToSentinel` | src/encoder.c:522-532 | a live queue holding a sentinel is received as the entries before it, then END, then the entries after it, then NO |
| `EncoderQueue.DeliveryInOrder` | src/encoder.c:517-533 | a live queue holding earlier entries, a segment's chunks and then what end of stream appends is received part by part in that order: chunks as themselves, the sentinel as END, and a final NO |
| `EncoderQueue.SegmentQueue` | src/encoder.c:84-113 | encoding a run of buffers and then reaching end of stream appends, in order, the buffers' chunks and then what end of stream appends: the drain chunks stamped with the head the buffers left, one sentinel, and the trailer chunks stamped with no head |
| `EncoderQueue.SegmentEnd` | src/encoder.c:86-113 | after at least one buffer, the drain chunks carry the last buffer's item, position and format, and the trailer chunks its format; with no buffers, end of stream acts on the state as it was; the abort flag is kept |
| `EncoderQueue.SegmentLength` | src/encoder.c:84-113 | a segment grows the queue by one entry per queued chunk of its buffers, one per successful drain write, one sentinel, and one per successful trailer write |
| `EncoderQueue.SegmentDelivery` | src/encoder.c:70-117 | on a live queue, the consumer then receives, in order: what was queued before, the segment's chunks in submission order, the drain chunks, END, the trailer chunks, and then NO |

## Findings

| source | as written | input that shows it | evidently intended | confidence | as-written member | corrected member |
|---|---|---|---|---|---|---|
| src/encoder.c:145-150 | the purge predicate reads `buffer->item` of every queued entry, but the end-of-stream sentinel queued at line 92 is the null pointer of line 38 | an end of stream, then a `sink_purge` of any item (for example a seek) before the consumer has taken END | the sentinel never matches a purge and stays queued, so the consumer still sees END | medium, not executed; relies on the queue's purge (queue.c, not part of this model) asking the predicate about every entry | `EncoderQueue.AudioqPurgeAsWritten`, `EncoderQueue.SentinelReachesAudioqPurge` | `EncoderQueue.AudioqPurge`, `EncoderQueue.SinkPurgeKeepsSentinels` |

## Left out

- The FFmpeg calls (`avcodec_encode_audio2`, `av_write_frame`, header and trailer writing, avio buffering) are foreign code. Their effect on the queue is the `Write` sequence given to each transition. When the codec produces a packet, and when the encode call reports failure, is not modelled.
- The codec and container resolution, stream creation, codec open and sink attach in `groove_encoder_attach` (src/encoder.c:407-438, 446-484) are not modelled; they are calls into FFmpeg and the playlist. Only the negotiation block is modelled.
- `groove_encoder_detach`, `groove_encoder_create` and `groove_encoder_destroy` (src/encoder.c:205-289, 486-515) are not modelled. They are resource set-up and teardown. The abort flag they control is a free field of the state.
- SDL threads and mutexes are not modelled: each locked region is one atomic transition, and thread creation and join are left out.
- A flush or a consumer's get interleaved with the header writes (src/encoder.c:76-82) or the trailer writes (src/encoder.c:97-102) is not modelled. Those writes run outside `encode_head_mutex`, and neither `sink_flush` nor `groove_encoder_get_buffer` waits for them. For example, a flush landing after the sentinel is queued (line 92) and before the trailer is written (line 100) leaves only the trailer's chunks in the queue. Neither `EndOfStream` followed by `SinkFlush` (an empty queue) nor `SinkFlush` followed by `EndOfStream` (drain chunks, sentinel, trailer chunks) reaches that state. The same holds for a flush during the header writes.
- queue.c is not part of this model. The queue is a FIFO sequence: purge is a filter, flush empties it, a get on an aborted queue returns nothing, and a blocking get on an empty queue is the `Blocked` outcome.
- Reference counting and cleanup (`groove_buffer_unref`, `audioq_cleanup`) are not modelled. The entries handed to cleanup are `PurgedEntries`.
- `log_audio_fmt` (src/encoder.c:398-405) only logs, so it is left out.
- Chunk payloads are not modelled, only the recorded size (src/encoder.c:198). The copy at src/encoder.c:195 writes `buf_size` bytes into a block of `sizeof(buf_size)` bytes (src/encoder.c:187), so no payload integrity is claimed.
- `encode_pos` is a double in the source. The model uses an integer and keeps only the -1 "unknown" marker.
- `Closest.AbsDiff`: the subtraction uses unbounded integers. C's `int` overflow on extreme operands is not modelled; rates, byte widths and channel counts are far from the limits.
- `Negotiator.CodecSupportsFmt`: returns a boolean for the C function's 1 or 0.
- `Negotiator.ClosestSampleFmt`: says nothing about the byte width of the packed variant, since `av_get_packed_sample_fmt` is uninterpreted here.
- `EncoderQueue.SinkFlush`: has no contract of its own. Its effect, an empty queue, is stated through `FlushedGetFindsNothing`. The codec buffer reset at src/encoder.c:141 is a foreign call and is not modelled.
- Playlist items are never null in the model: a buffer from the sink always has an item, and `sink_purge` is always called with one.
- The return codes of `encode_buffer`, `avformat_write_header` and `av_write_trailer` are not modelled. A failure there is only logged (src/encoder.c:57-60, 76-79, 100-102). The drain loops at src/encoder.c:89-91 are one `drain` sequence of writes.
