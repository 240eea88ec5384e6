/**
 Audio format negotiation of the encoder: the three closest-supported-value
 functions (src/encoder.c:296-396) and the block of groove_encoder_attach
 that combines them into the actual audio format (src/encoder.c:440-445).
 */
module Negotiator {
  import opened Wrappers
  import opened Closest

  /** A GrooveSampleFormat enumerator; -1 is GROOVE_SAMPLE_FMT_NONE, the
      terminator of a codec's sample format list. */
  type SampleFormat = int

  const SampleFmtNone: SampleFormat := -1

  /** A channel layout bitmask (uint64_t); 0 terminates a layout list. */
  type ChannelLayout = x: int | 0 <= x < 0x1_0000_0000_0000_0000

  /** The entries of a codec's terminator-ended lists, the terminator itself
      left out. */
  type FmtList = s: seq<SampleFormat> | SampleFmtNone !in s
  type RateList = s: seq<int> | 0 !in s
  type LayoutList = s: seq<ChannelLayout> | 0 !in s

  /** GrooveAudioFormat. */
  datatype AudioFormat = AudioFormat(sampleRate: int, channelLayout: ChannelLayout, sampleFmt: SampleFormat)

  /** The capability lists of an AVCodec; `None` is a null pointer, which
      means the codec accepts any value on that axis. */
  datatype Codec = Codec(
    sampleFmts: Option<FmtList>,
    supportedSampleRates: Option<RateList>,
    channelLayouts: Option<LayoutList>)

  /** FFmpeg's sample format tables, which this model leaves uninterpreted:
      av_get_bytes_per_sample and av_get_packed_sample_fmt. */
  datatype SampleFormatTable = SampleFormatTable(
    bytesPerSample: SampleFormat -> int,
    packed: SampleFormat -> SampleFormat)

  /** av_get_channel_layout_nb_channels: the number of bits set in a layout. */
  function Popcount(n: nat): nat
  {
    if n == 0 then 0 else n % 2 + Popcount(n / 2)
  }

  function ChannelCount(layout: ChannelLayout): int
  {
    Popcount(layout)
  }

  /** A list value accepts `v`: it is null, or `v` is one of its entries. */
  predicate Accepts<T(==)>(list: Option<seq<T>>, v: T)
  {
    list.None? || v in list.value
  }

  /** codec_supports_fmt (src/encoder.c:296-306) walks the list up to the
      terminator looking for `fmt`. */
  function CodecSupportsFmt(fmts: FmtList, fmt: SampleFormat): (r: bool)
    ensures r <==> fmt in fmts
    ensures fmt == SampleFmtNone ==> !r
  {
    SupportsFrom(fmts, fmt, 0)
  }

  function SupportsFrom(fmts: seq<SampleFormat>, fmt: SampleFormat, i: nat): (r: bool)
    requires i <= |fmts|
    ensures r <==> fmt in fmts[i..]
    decreases |fmts| - i
  {
    if i == |fmts| then false
    else
      assert fmts[i..] == [fmts[i]] + fmts[i + 1..];
      if fmts[i] == fmt then true
      else SupportsFrom(fmts, fmt, i + 1)
  }

  /** closest_supported_sample_fmt (src/encoder.c:308-340): round up on bytes
      per sample, keeping the earliest format on ties, then prefer the packed
      variant of the chosen format when the codec lists it. An exact match is
      returned as it is. */
  function ClosestSampleFmt(codec: Codec, table: SampleFormatTable, target: SampleFormat): (r: SampleFormat)
    ensures codec.sampleFmts.None? ==> r == target
    ensures codec.sampleFmts.Some? && target in codec.sampleFmts.value ==> r == target
    ensures codec.sampleFmts == Some([]) ==> r == SampleFmtNone
    ensures codec.sampleFmts.Some? && |codec.sampleFmts.value| > 0 ==> r in codec.sampleFmts.value
    ensures codec.sampleFmts.Some? && |codec.sampleFmts.value| > 0 && target !in codec.sampleFmts.value ==>
      var fmts := codec.sampleFmts.value;
      exists k :: && IsRoundUpChoice(table.bytesPerSample, table.bytesPerSample(target), fmts, k)
                  && (table.packed(fmts[k]) in fmts ==> r == table.packed(fmts[k]))
                  && (table.packed(fmts[k]) !in fmts ==> r == fmts[k])
  {
    match codec.sampleFmts
    case None => target
    case Some(fmts) =>
      match ScanList(table.bytesPerSample, target, fmts, SampleFmtNone)
      case ExactMatch => target
      case RoundedTo(best) =>
        // prefer the interleaved variant
        var packedBest := table.packed(best);
        if CodecSupportsFmt(fmts, packedBest) then packedBest else best
  }

  /** closest_supported_sample_rate (src/encoder.c:342-366): the target when
      listed, otherwise the least listed rate above it, otherwise the greatest
      listed rate. */
  function ClosestSampleRate(codec: Codec, target: int): (r: int)
    ensures codec.supportedSampleRates.None? ==> r == target
    ensures codec.supportedSampleRates.Some? && target in codec.supportedSampleRates.value ==> r == target
    ensures codec.supportedSampleRates == Some([]) ==> r == 0
    ensures codec.supportedSampleRates.Some? && |codec.supportedSampleRates.value| > 0 ==>
      var rates := codec.supportedSampleRates.value;
      && r in rates
      && ((exists x :: x in rates && x >= target) ==>
            r >= target && forall x :: x in rates && x >= target ==> r <= x)
      && ((forall x :: x in rates ==> x < target) ==>
            forall x :: x in rates ==> x <= r)
  {
    match codec.supportedSampleRates
    case None => target
    case Some(rates) =>
      var rate := (x: int) => x;
      var o := ScanList(rate, target, rates, 0);
      match o
      case ExactMatch => target
      case RoundedTo(best) =>
        if |rates| == 0 then best
        else
          RateChoice(rates, target, o);
          best
  }

  /** Reads the round-up choice of the rate scan as a statement about rates. */
  lemma RateChoice(rates: RateList, target: int, o: Outcome<int>)
    requires |rates| > 0 && o.RoundedTo?
    requires exists k :: IsRoundUpChoice((x: int) => x, target, rates, k) && o.best == rates[k]
    ensures o.best in rates
    ensures (exists x :: x in rates && x >= target) ==>
      o.best >= target && forall x :: x in rates && x >= target ==> o.best <= x
    ensures (forall x :: x in rates ==> x < target) ==> forall x :: x in rates ==> x <= o.best
  {
    var rate := (x: int) => x;
    var k :| IsRoundUpChoice(rate, target, rates, k) && o.best == rates[k];
    if exists x :: x in rates && x >= target {
      var x :| x in rates && x >= target;
      var j :| 0 <= j < |rates| && rates[j] == x;
      assert rate(rates[j]) >= target;
      assert SomeAtOrAbove(rate, target, rates, |rates|);
      forall y | y in rates && y >= target
        ensures o.best <= y
      {
        var i :| 0 <= i < |rates| && rates[i] == y;
        assert rate(rates[i]) >= target;
      }
    } else {
      forall j | 0 <= j < |rates|
        ensures rate(rates[j]) < target
      {
        assert rates[j] in rates;
      }
      assert !SomeAtOrAbove(rate, target, rates, |rates|);
      forall y | y in rates
        ensures y <= o.best
      {
        var i :| 0 <= i < |rates| && rates[i] == y;
        assert rate(rates[i]) <= rate(rates[k]);
      }
    }
  }

  /** closest_supported_channel_layout (src/encoder.c:368-396): the target
      when listed, otherwise the earliest layout with the least channel count
      at or above the target's, otherwise the earliest with the greatest
      count. */
  function ClosestChannelLayout(codec: Codec, target: ChannelLayout): (r: ChannelLayout)
    ensures codec.channelLayouts.None? ==> r == target
    ensures codec.channelLayouts.Some? && target in codec.channelLayouts.value ==> r == target
    ensures codec.channelLayouts == Some([]) ==> r == 0
    ensures codec.channelLayouts.Some? && |codec.channelLayouts.value| > 0 ==>
      var layouts := codec.channelLayouts.value;
      var tc := ChannelCount(target);
      && r in layouts
      && ((exists l :: l in layouts && ChannelCount(l) >= tc) ==>
            ChannelCount(r) >= tc && forall l :: l in layouts && ChannelCount(l) >= tc ==> ChannelCount(r) <= ChannelCount(l))
      && ((forall l :: l in layouts ==> ChannelCount(l) < tc) ==>
            forall l :: l in layouts ==> ChannelCount(l) <= ChannelCount(r))
    ensures codec.channelLayouts.Some? && |codec.channelLayouts.value| > 0 && target !in codec.channelLayouts.value ==>
      exists k :: IsRoundUpChoice(ChannelCount, ChannelCount(target), codec.channelLayouts.value, k)
               && r == codec.channelLayouts.value[k]
  {
    match codec.channelLayouts
    case None => target
    case Some(layouts) =>
      var o := ScanList(ChannelCount, target, layouts, 0);
      match o
      case ExactMatch => target
      case RoundedTo(best) =>
        if |layouts| == 0 then best
        else
          LayoutChoice(layouts, target, o);
          best
  }

  /** Reads the round-up choice of the layout scan as a statement about
      channel counts. */
  lemma LayoutChoice(layouts: LayoutList, target: ChannelLayout, o: Outcome<ChannelLayout>)
    requires |layouts| > 0 && o.RoundedTo?
    requires exists k :: IsRoundUpChoice(ChannelCount, ChannelCount(target), layouts, k) && o.best == layouts[k]
    ensures o.best in layouts
    ensures (exists l :: l in layouts && ChannelCount(l) >= ChannelCount(target)) ==>
      && ChannelCount(o.best) >= ChannelCount(target)
      && forall l :: l in layouts && ChannelCount(l) >= ChannelCount(target) ==> ChannelCount(o.best) <= ChannelCount(l)
    ensures (forall l :: l in layouts ==> ChannelCount(l) < ChannelCount(target)) ==>
      forall l :: l in layouts ==> ChannelCount(l) <= ChannelCount(o.best)
  {
    var tc := ChannelCount(target);
    var k :| IsRoundUpChoice(ChannelCount, tc, layouts, k) && o.best == layouts[k];
    if exists l :: l in layouts && ChannelCount(l) >= tc {
      var l :| l in layouts && ChannelCount(l) >= tc;
      var j :| 0 <= j < |layouts| && layouts[j] == l;
      assert SomeAtOrAbove(ChannelCount, tc, layouts, |layouts|);
      forall m | m in layouts && ChannelCount(m) >= tc
        ensures ChannelCount(o.best) <= ChannelCount(m)
      {
        var i :| 0 <= i < |layouts| && layouts[i] == m;
      }
    } else {
      forall j | 0 <= j < |layouts|
        ensures ChannelCount(layouts[j]) < tc
      {
        assert layouts[j] in layouts;
      }
      assert !SomeAtOrAbove(ChannelCount, tc, layouts, |layouts|);
      forall m | m in layouts
        ensures ChannelCount(m) <= ChannelCount(o.best)
      {
        var i :| 0 <= i < |layouts| && layouts[i] == m;
      }
    }
  }

  /** The negotiation block of groove_encoder_attach (src/encoder.c:440-445):
      each axis of the actual format is negotiated on its own. */
  function Negotiate(codec: Codec, table: SampleFormatTable, target: AudioFormat): (r: AudioFormat)
    ensures codec == Codec(None, None, None) ==> r == target
    ensures Accepts(codec.sampleFmts, target.sampleFmt) ==> r.sampleFmt == target.sampleFmt
    ensures Accepts(codec.supportedSampleRates, target.sampleRate) ==> r.sampleRate == target.sampleRate
    ensures Accepts(codec.channelLayouts, target.channelLayout) ==> r.channelLayout == target.channelLayout
    ensures codec.sampleFmts != Some([]) ==> Accepts(codec.sampleFmts, r.sampleFmt)
    ensures codec.supportedSampleRates != Some([]) ==> Accepts(codec.supportedSampleRates, r.sampleRate)
    ensures codec.channelLayouts != Some([]) ==> Accepts(codec.channelLayouts, r.channelLayout)
  {
    AudioFormat(
      sampleRate := ClosestSampleRate(codec, target.sampleRate),
      channelLayout := ClosestChannelLayout(codec, target.channelLayout),
      sampleFmt := ClosestSampleFmt(codec, table, target.sampleFmt))
  }

  /** Negotiating the negotiated format again changes nothing: on every axis
      the first answer is already one the codec accepts, or the terminator of
      an empty list, which negotiates to itself. */
  lemma NegotiateIdempotent(codec: Codec, table: SampleFormatTable, target: AudioFormat)
    ensures Negotiate(codec, table, Negotiate(codec, table, target)) == Negotiate(codec, table, target)
  {
  }
}
