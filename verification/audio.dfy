/**
 The self-contained integer rules of the audio stream object: packet sample
 counts, codec comparison and validation, the client-to-mixer audio level
 byte (section 3 of RFC 6464), the audio level query, the EBU ACIP jitter
 buffer bounds (EBU Tech 3368) and the peer packet-time rule.
 */
module Audio {
  import opened CTypes

  const MaxSrate: int := 48000   // maximum sample rate in Hz
  const MaxChannels: int := 2    // maximum number of channels
  const MaxPtime: int := 60      // maximum packet time in ms

  /** Size, in samples, of every sample buffer of the stream. */
  const AudioSampsz: int := MaxSrate * MaxChannels * MaxPtime / 1000

  /** Lowest clock rate an audio codec may announce. */
  const MinClockRate: int := 8000

  /** `calc_nsamp`: the number of samples in `ptime` milliseconds of audio,
      computed in 32-bit unsigned arithmetic and then divided by 1000. */
  function CalcNsamp(srate: uint32, channels: uint8, ptime: uint16): (n: uint32)
    ensures n <= (U32Mod - 1) / 1000
    ensures channels == 0 || ptime == 0 ==> n == 0
  {
    ToU32(ToU32(srate * channels) * ptime) / 1000
  }

  /** Wrapping after each multiplication, as the code does, is the same as
      wrapping the whole product once: the count is the number of whole
      thousands in the exact product reduced modulo 2^32. */
  lemma CalcNsampWrapsOnce(srate: uint32, channels: uint8, ptime: uint16)
    ensures CalcNsamp(srate, channels, ptime) * 1000 <= ToU32(srate * channels * ptime)
              < (CalcNsamp(srate, channels, ptime) + 1) * 1000
  {
    var p := srate * channels;
    assert srate * channels * ptime == p * ptime;
    ToU32MulAbsorbs(p, ptime);
  }

  /** Without 32-bit overflow the sample count is the exact product divided
      by 1000, rounded down. */
  lemma CalcNsampExact(srate: uint32, channels: uint8, ptime: uint16)
    requires srate * channels * ptime < U32Mod
    ensures CalcNsamp(srate, channels, ptime) == srate * channels * ptime / 1000
    ensures CalcNsamp(srate, channels, ptime) * 1000 <= srate * channels * ptime
              < (CalcNsamp(srate, channels, ptime) + 1) * 1000
  {
    var p := srate * channels;
    assert p * ptime == srate * channels * ptime;
    if ptime > 0 {
      MulGrows(p, ptime);
      assert ToU32(p) == p;
    }
    var total := p * ptime;
    assert ToU32(ToU32(p) * ptime) == total;
  }

  /** Every packet within the stream's limits fits the sample buffers, and
      the limits themselves give exactly `AudioSampsz` = 5760 samples. */
  lemma CalcNsampWithinSampsz(srate: uint32, channels: uint8, ptime: uint16)
    requires srate <= MaxSrate && channels <= MaxChannels && ptime <= MaxPtime
    ensures CalcNsamp(srate, channels, ptime) <= AudioSampsz
    ensures CalcNsamp(MaxSrate, MaxChannels, MaxPtime) == AudioSampsz == 5760
  {
    var p := srate * channels;
    MulMono(srate, channels, MaxSrate, MaxChannels);
    MulMono(p, ptime, MaxSrate * MaxChannels, MaxPtime);
    assert srate * channels * ptime <= 5_760_000;
    CalcNsampExact(srate, channels, ptime);
    CalcNsampExact(MaxSrate, MaxChannels, MaxPtime);
  }

  /** The 32-bit arithmetic wraps for large operands: 2^24 Hz, 1 channel and
      256 ms multiply to exactly 2^32, which the code reduces to 0. */
  lemma CalcNsampWraps()
    ensures CalcNsamp(0x100_0000, 1, 256) == 0
    ensures 0x100_0000 * 1 * 256 / 1000 != 0
  {
  }

  /** The fields of an audio codec the modelled rules read. */
  datatype Codec = Codec(name: string, pt: string, srate: uint32, crate: uint32, ch: uint8, pch: uint8)

  /** `aucodec_equal`: two codecs are interchangeable for the audio device
      when both exist and agree on sample rate and channel count. */
  function CodecEqual(a: Option<Codec>, b: Option<Codec>): (r: bool)
    ensures a.None? || b.None? ==> !r
    ensures r ==> a.value.srate == b.value.srate && a.value.ch == b.value.ch
    // equal codecs need the same sample count at every packet time, which
    // is why no device restart is needed between them
    ensures r ==> forall ptime: uint16 ::
      CalcNsamp(a.value.srate, a.value.ch, ptime) == CalcNsamp(b.value.srate, b.value.ch, ptime)
  {
    a.Some? && b.Some? && a.value.srate == b.value.srate && a.value.ch == b.value.ch
  }

  /** Codec equality is a partial equivalence: false on a missing codec,
      symmetric, transitive, and reflexive on every present codec. */
  lemma CodecEqualIsPartialEquivalence(a: Option<Codec>, b: Option<Codec>, c: Option<Codec>)
    ensures a.None? || b.None? ==> !CodecEqual(a, b)
    ensures CodecEqual(a, b) == CodecEqual(b, a)
    ensures CodecEqual(a, b) && CodecEqual(b, c) ==> CodecEqual(a, c)
    ensures a.Some? ==> CodecEqual(a, a)
  {
  }

  /** Only sample rate and channel count matter: codecs that agree on both
      are equal whatever their names, payload types, clock rates and SDP
      channel counts, and changing those fields never changes the answer. */
  lemma CodecEqualOnDeviceParams(a: Codec, b: Codec, name: string, pt: string, crate: uint32, pch: uint8)
    ensures a.srate == b.srate && a.ch == b.ch ==> CodecEqual(Some(a), Some(b))
    ensures CodecEqual(Some(a), Some(b))
      == CodecEqual(Some(a.(name := name, pt := pt, crate := crate, pch := pch)), Some(b))
  {
  }

  /** Outcome of `add_audio_codec`: its status, and whether the codec
      reached the SDP media as a format. */
  datatype AddResult = AddResult(status: Status, formatAdded: bool)

  /** `add_audio_codec`: a codec with a clock rate below 8000 Hz or with zero
      channels (decoded or in SDP) is refused with EINVAL before any format
      is added; otherwise the status is that of adding the SDP format,
      `formatAdd`, which is computed outside this model. */
  function AddAudioCodec(ac: Codec, formatAdd: Status): (r: AddResult)
    ensures r.formatAdded <==> ac.crate >= MinClockRate && ac.ch != 0 && ac.pch != 0
    ensures !r.formatAdded ==> r.status == Err(EINVAL)
    ensures r.formatAdded ==> r.status == formatAdd
  {
    if ac.crate < MinClockRate then AddResult(Err(EINVAL), false)
    else if ac.ch == 0 || ac.pch == 0 then AddResult(Err(EINVAL), false)
    else AddResult(formatAdd, true)
  }

  /** A codec `add_audio_codec` accepts has at least one channel, so at a
      rate of at least 1000 Hz and any packet time `audio_alloc` admits, a
      packet holds at least one sample, and within the stream's limits it
      fits the sample buffers. */
  lemma AcceptedCodecPacket(ac: Codec, formatAdd: Status, ptime: uint16)
    requires AddAudioCodec(ac, formatAdd).formatAdded
    requires AllocGuard(true, true, ptime) == Ok
    requires 1000 <= ac.srate <= MaxSrate && ac.ch <= MaxChannels
    ensures ac.ch >= 1 && ac.pch >= 1 && ac.crate >= MinClockRate
    ensures 1 <= CalcNsamp(ac.srate, ac.ch, ptime) <= AudioSampsz
  {
    var p := ac.srate * ac.ch;
    MulMono(1000, 1, ac.srate, ac.ch);
    MulMono(1000, 1, p, ptime);
    MulMono(ac.srate, ac.ch, MaxSrate, MaxChannels);
    MulMono(p, ptime, MaxSrate * MaxChannels, MaxPtime);
    var total := p * ptime;
    assert 1000 <= total <= 5_760_000;
    CalcNsampExact(ac.srate, ac.ch, ptime);
    CalcNsampWithinSampsz(ac.srate, ac.ch, ptime);
  }

  /** The argument checks at the start of `audio_alloc`: a missing result
      pointer or configuration is EINVAL, checked first; a packet time
      outside 1..60 ms is ENOTSUP. `Ok` means allocation goes ahead. */
  function AllocGuard(apPresent: bool, cfgPresent: bool, ptime: uint32): (r: Status)
    ensures !(apPresent && cfgPresent) ==> r == Err(EINVAL)
    ensures apPresent && cfgPresent ==> (r == Ok <==> 1 <= ptime <= MaxPtime)
    ensures r != Ok ==> r == Err(EINVAL) || r == Err(ENOTSUP)
  {
    if !apPresent || !cfgPresent then Err(EINVAL)
    else if ptime < 1 || ptime > MaxPtime then Err(ENOTSUP)
    else Ok
  }

  /** The audio level byte sent in the RTP header extension: the negated
      level in dBov, as a C `int`, masked to 7 bits. `level` is the measured
      loudness rounded up to an integer; for a loudness of at most 0 dBov,
      `-level` is what the C `(int)` cast makes of the negated loudness. */
  function EncodeLevel(level: int): (b: uint8)
    ensures 0 <= b < 128
  {
    (-level) % 128
  }

  /** For a measured loudness of at most 0 dBov, the byte encoded from its
      ceiling is the byte the code computes from the loudness itself:
      `(int)-level & 0x7f`. */
  lemma EncodeMeasuredLevel(dbov: real)
    requires dbov <= 0.0
    ensures EncodeLevel(Ceil(dbov)) == TruncToInt(-dbov) % 128
  {
  }

  /** The level a received header-extension byte stands for: the low 7 bits,
      negated; the top bit (the voice activity flag) is ignored. */
  function DecodeLevel(b: uint8): (level: int)
    ensures -127 <= level <= 0
  {
    -(b % 128)
  }

  /** Round trip: every level in -127..0 dBov survives encoding at the
      sender and decoding at the receiver. */
  lemma LevelRoundTrip(level: int)
    requires -127 <= level <= 0
    ensures DecodeLevel(EncodeLevel(level)) == level
  {
  }

  /** The other round trip: decoding then encoding keeps the 7-bit level
      field and clears the voice activity bit. */
  lemma LevelByteRoundTrip(b: uint8)
    ensures EncodeLevel(DecodeLevel(b)) == b % 128
    ensures b < 128 ==> EncodeLevel(DecodeLevel(b)) == b
  {
  }

  /** Levels below -127 dBov are not clamped: they wrap modulo 128, so
      -128 dBov reaches the receiver as 0 dBov. */
  lemma LevelBelowRangeWraps()
    ensures EncodeLevel(-128) == 0 && DecodeLevel(EncodeLevel(-128)) == 0
  {
  }

  /** An RTP header extension element: its id and its first data byte. */
  datatype RtpExt = RtpExt(id: int, data0: uint8)

  /** The receive side's record of the audio level. */
  datatype RxLevel = RxLevel(last: int, isSet: bool)

  /** `exts[i]` is the last element carrying the audio level id. */
  predicate LastLevelExt(exts: seq<RtpExt>, id: int, i: int)
  {
    0 <= i < |exts| && exts[i].id == id && forall j :: i < j < |exts| ==> exts[j].id != id
  }

  /** The header-extension loop of the RTP receive handler: each element
      with the negotiated audio level id overwrites the stored level; other
      elements are ignored. */
  function ReceiveLevelExts(exts: seq<RtpExt>, id: int, rx: RxLevel): (r: RxLevel)
    ensures (forall i :: 0 <= i < |exts| ==> exts[i].id != id) ==> r == rx
    ensures forall i :: LastLevelExt(exts, id, i) ==> r == RxLevel(DecodeLevel(exts[i].data0), true)
    ensures -127 <= rx.last <= 0 ==> -127 <= r.last <= 0
    decreases |exts|
  {
    if exts == [] then rx
    else
      var rx' := if exts[0].id == id then RxLevel(DecodeLevel(exts[0].data0), true) else rx;
      var r := ReceiveLevelExts(exts[1..], id, rx');
      assert forall i :: LastLevelExt(exts, id, i) && i > 0 ==> LastLevelExt(exts[1..], id, i - 1);
      r
  }

  /** What `audio_level_get` reports for an audio object (`None` for a null
      one): the level handling fields it reads. */
  datatype LevelView = LevelView(levelEnabled: bool, rx: RxLevel)

  /** Status of `audio_level_get`, and the level written through the output
      pointer, if any. */
  datatype LevelGetResult = LevelGetResult(status: Status, written: Option<int>)

  /** `audio_level_get`: a null object is EINVAL, a stream without the level
      extension is ENOTSUP, one that has not received a level is ENOENT, in
      that order; otherwise the last received level is written when the
      caller passed a pointer (`wantLevel`). */
  function LevelGet(au: Option<LevelView>, wantLevel: bool): (r: LevelGetResult)
    ensures au.None? ==> r.status == Err(EINVAL)
    ensures au.Some? && !au.value.levelEnabled ==> r.status == Err(ENOTSUP)
    ensures au.Some? && au.value.levelEnabled && !au.value.rx.isSet ==> r.status == Err(ENOENT)
    ensures r.status == Ok <==> au.Some? && au.value.levelEnabled && au.value.rx.isSet
    ensures r.written.Some? <==> r.status == Ok && wantLevel
    ensures r.written.Some? ==> r.written.value == au.value.rx.last
  {
    if au.None? then LevelGetResult(Err(EINVAL), None)
    else if !au.value.levelEnabled then LevelGetResult(Err(ENOTSUP), None)
    else if !au.value.rx.isSet then LevelGetResult(Err(ENOENT), None)
    else LevelGetResult(Ok, if wantLevel then Some(au.value.rx.last) else None)
  }

  /** Sender to receiver: once a packet carrying the level extension has
      been received on a stream with levels enabled, the query returns the
      level the sender encoded (for levels in -127..0 dBov). */
  lemma SentLevelIsReported(level: int, id: int, before: seq<RtpExt>, after: seq<RtpExt>, rx: RxLevel)
    requires -127 <= level <= 0
    requires forall j :: 0 <= j < |after| ==> after[j].id != id
    ensures
      var exts := before + [RtpExt(id, EncodeLevel(level))] + after;
      LevelGet(Some(LevelView(true, ReceiveLevelExts(exts, id, rx))), true)
        == LevelGetResult(Ok, Some(level))
  {
    var exts := before + [RtpExt(id, EncodeLevel(level))] + after;
    assert exts[|before|] == RtpExt(id, EncodeLevel(level));
    assert forall j :: |before| < j < |exts| ==> exts[j] == after[j - |before| - 1];
    assert LastLevelExt(exts, id, |before|);
    var rx' := ReceiveLevelExts(exts, id, rx);
    assert rx' == RxLevel(DecodeLevel(EncodeLevel(level)), true);
    LevelRoundTrip(level);
  }

  /** The jitter buffer type named in an `ebuacip` `jbdef` attribute. */
  datatype JbType = Fixed | Auto | OtherType

  /** Minimum and maximum jitter buffer depth, in frames. */
  datatype JbBounds = JbBounds(min: uint32, max: uint32)

  /** Frames of `rxPtime` milliseconds in a `jbdef` value of `value` ms. */
  function JbFrames(value: uint32, rxPtime: uint32): (frames: uint32)
    requires rxPtime >= 1
    ensures frames * rxPtime <= value < (frames + 1) * rxPtime
  {
    value / rxPtime
  }

  /** `ebuacip_handler`, as written: "fixed" resets the jitter buffer to
      (frames - 1, frames), with the minimum raised to 1; "auto" to
      (frames, 2 * frames) in 32-bit arithmetic; any other type leaves it
      alone (`None`). The receive packet time is at least 1 because
      `audio_alloc` refuses a smaller one. */
  function EbuacipJb(value: uint32, rxPtime: uint32, t: JbType): (r: Option<JbBounds>)
    requires rxPtime >= 1
    ensures r.None? <==> t == OtherType
    // fixed: the maximum is the frame count, the minimum one less but at least 1
    ensures t == Fixed ==> r.value.max * rxPtime <= value < (r.value.max + 1) * rxPtime
    ensures t == Fixed ==> r.value.min >= 1 && (r.value.max >= 2 ==> r.value.min == r.value.max - 1)
    ensures t == Fixed && r.value.max <= 1 ==> r.value.min == 1
    // automatic: the minimum is the frame count, the maximum its double in 32 bits
    ensures t == Auto ==> r.value.min * rxPtime <= value < (r.value.min + 1) * rxPtime
    ensures t == Auto ==> (r.value.max - 2 * r.value.min) % U32Mod == 0
  {
    var frames := JbFrames(value, rxPtime);
    match t
    case Fixed => Some(JbBounds(if frames > 1 then frames - 1 else 1, frames))
    case Auto => Some(JbBounds(frames, ToU32(frames * 2)))
    case OtherType => None
  }

  /** A fixed jitter buffer of at least one frame: the maximum is the frame
      count, the minimum one less (but at least 1), so 1 <= min <= max. */
  lemma EbuacipFixedBounds(value: uint32, rxPtime: uint32)
    requires rxPtime >= 1 && value >= rxPtime
    ensures EbuacipJb(value, rxPtime, Fixed).Some?
    ensures var b := EbuacipJb(value, rxPtime, Fixed).value;
      1 <= b.min <= b.max == value / rxPtime && b.min == Max(1, b.max - 1)
  {
  }

  /** An automatic jitter buffer spans one to two times the frame count
      while twice the count fits in 32 bits. */
  lemma EbuacipAutoBounds(value: uint32, rxPtime: uint32)
    requires rxPtime >= 1 && value / rxPtime < 0x8000_0000
    ensures EbuacipJb(value, rxPtime, Auto) == Some(JbBounds(value / rxPtime, 2 * (value / rxPtime)))
  {
  }

  /** A fixed `jbdef` value shorter than one packet gives a minimum above
      the maximum: 10 ms at a 20 ms packet time resets to (1, 0). */
  lemma EbuacipFixedInverted(value: uint32, rxPtime: uint32)
    requires rxPtime >= 1 && value < rxPtime
    ensures EbuacipJb(value, rxPtime, Fixed) == Some(JbBounds(1, 0))
  {
    DivBelowDivisor(value, rxPtime);
  }

  /** An automatic `jbdef` of 2^32 - 1 ms at a 1 ms packet time doubles past
      32 bits: the maximum wraps below the minimum. */
  lemma EbuacipAutoWraps()
    ensures EbuacipJb(0xFFFF_FFFF, 1, Auto) == Some(JbBounds(0xFFFF_FFFF, 0xFFFF_FFFE))
  {
  }

  /** The jitter buffer bounds with both edge cases corrected: the fixed
      maximum is raised to the minimum, and the automatic maximum saturates
      at 2^32 - 1 instead of wrapping. Wherever the code as written gives
      ordered bounds, the two agree. */
  function EbuacipJbOrdered(value: uint32, rxPtime: uint32, t: JbType): (r: Option<JbBounds>)
    requires rxPtime >= 1
    ensures r.Some? <==> t != OtherType
    ensures r.Some? ==> r.value.min <= r.value.max
    ensures t == Fixed ==> r.value.min >= 1
    ensures t == Auto ==> r.value.min == value / rxPtime
    ensures EbuacipJb(value, rxPtime, t).Some? &&
            EbuacipJb(value, rxPtime, t).value.min <= EbuacipJb(value, rxPtime, t).value.max
            ==> r == EbuacipJb(value, rxPtime, t)
  {
    var frames := JbFrames(value, rxPtime);
    match t
    case Fixed =>
      var min := if frames > 1 then frames - 1 else 1;
      Some(JbBounds(min, Max(frames, min)))
    case Auto => Some(JbBounds(frames, Min(frames * 2, U32Mod - 1)))
    case OtherType => None
  }

  /** The transmit side fields the peer packet-time rule touches. */
  datatype Tx = Tx(ptime: uint32, psize: int, ac: Option<Codec>, sampleSize: nat)

  /** The `ptime` attribute rule of `audio_sdp_attr_decode`. `attr` is the
      value `atoi` gave for the peer's attribute (`None` when it sent none),
      stored into a `uint32`. The peer's packet time is adopted when it is
      nonzero, differs from the current one and is at most 60 ms; with a
      current encoder the packet size follows it. */
  function PeerPtime(tx: Tx, attr: Option<int32>): (r: Tx)
    ensures r.ptime != tx.ptime <==>
      attr.Some? && 1 <= attr.value <= MaxPtime && attr.value != tx.ptime
    ensures r.ptime != tx.ptime ==> r.ptime == attr.value
    ensures r.ptime != tx.ptime && tx.ac.Some? ==>
      r.psize == tx.sampleSize * CalcNsamp(tx.ac.value.srate, tx.ac.value.ch, r.ptime)
    ensures r.ptime == tx.ptime ==> r == tx
    ensures r.ac == tx.ac && r.sampleSize == tx.sampleSize
    ensures tx.ac.None? ==> r.psize == tx.psize
  {
    match attr
    case None => tx
    case Some(v) =>
      var ptimeTx := ToU32(v);
      if ptimeTx != 0 && ptimeTx != tx.ptime && ptimeTx <= MaxPtime then
        var psize := if tx.ac.Some?
          then tx.sampleSize * CalcNsamp(tx.ac.value.srate, tx.ac.value.ch, ptimeTx)
          else tx.psize;
        tx.(ptime := ptimeTx, psize := psize)
      else tx
  }

  /** A packet time `audio_alloc` admits is in 1..60 ms, so the `jbdef`
      division of the `ebuacip` handler is defined at it, and every packet
      within the stream's limits fits the sample buffers. */
  lemma AllocatedPtimeFits(apPresent: bool, cfgPresent: bool, ptime: uint32, value: uint32,
                           srate: uint32, channels: uint8)
    requires AllocGuard(apPresent, cfgPresent, ptime) == Ok
    ensures apPresent && cfgPresent && 1 <= ptime <= MaxPtime
    ensures JbFrames(value, ptime) * ptime <= value
    ensures srate <= MaxSrate && channels <= MaxChannels ==>
      CalcNsamp(srate, channels, ptime) <= AudioSampsz
  {
    if srate <= MaxSrate && channels <= MaxChannels {
      CalcNsampWithinSampsz(srate, channels, ptime);
    }
  }

  /** A packet size set from the peer's packet time, for a codec within the
      stream's limits, fits the transmit sample buffer of `AudioSampsz`
      samples. */
  lemma PeerPsizeFitsBuffer(tx: Tx, attr: Option<int32>)
    requires tx.ac.Some? && tx.ac.value.srate <= MaxSrate && tx.ac.value.ch <= MaxChannels
    requires attr.Some? && 1 <= attr.value <= MaxPtime && attr.value != tx.ptime
    ensures PeerPtime(tx, attr).psize <= tx.sampleSize * AudioSampsz
  {
    var r := PeerPtime(tx, attr);
    CalcNsampWithinSampsz(tx.ac.value.srate, tx.ac.value.ch, r.ptime);
    var n := CalcNsamp(tx.ac.value.srate, tx.ac.value.ch, r.ptime);
    assert tx.sampleSize * n <= tx.sampleSize * AudioSampsz;
  }
}
