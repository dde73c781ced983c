/** Audio formats and frames as the playback port sees them. */
module PcmFormat {
  import opened Wrappers

  datatype Codec = PcmS16Le | OtherCodec

  datatype Format = Format(codec: Codec, sampleRateHz: nat, channels: nat, bitsPerSample: nat, frameDurationMs: nat)

  datatype Frame = Frame(format: Format, payload: seq<Byte>)

  const MAX_PAYLOAD_BYTES: nat := 16384

  predicate ValidFormat(f: Format) {
    f.sampleRateHz > 0 && f.channels > 0 && f.bitsPerSample > 0 && f.frameDurationMs > 0
  }

  /** How long a payload plays, at least one millisecond; zero for a frame that is not whole samples. */
  function PcmDurationMs(f: Frame): nat {
    if f.format.sampleRateHz == 0 || f.format.channels == 0 || f.format.bitsPerSample == 0
       || f.format.bitsPerSample % 8 != 0 then 0
    else
      var bytesPerFrame := f.format.bitsPerSample / 8 * f.format.channels;
      if bytesPerFrame == 0 || |f.payload| % bytesPerFrame != 0 then 0
      else
        var ms := |f.payload| / bytesPerFrame * 1000 / f.format.sampleRateHz;
        if ms < 1 then 1 else ms
  }

  /** The frames the playback port takes: 16-bit PCM of the playback channel count, whole samples, bounded size. */
  predicate Playable(f: Frame, channels: nat) {
    && ValidFormat(f.format) && f.format.codec.PcmS16Le? && f.format.bitsPerSample == 16
    && f.format.channels == channels && 0 < |f.payload| <= MAX_PAYLOAD_BYTES
    && |f.payload| % (2 * f.format.channels) == 0
  }

  /** A playable frame always has a duration, so the refusal for an underivable one is never reached. */
  lemma PlayableHasDuration(f: Frame, channels: nat)
    requires Playable(f, channels)
    ensures PcmDurationMs(f) >= 1
  {
    assert f.format.bitsPerSample / 8 * f.format.channels == 2 * f.format.channels;
  }

  /**
   `d` milliseconds is how long `samples` samples last at `rate`: the whole milliseconds in them, but at least one.
   Said without dividing.
   */
  predicate LastsMs(samples: nat, rate: nat, d: nat) {
    (d >= 1 && d * rate <= samples * 1000 < (d + 1) * rate) || (d == 1 && samples * 1000 < rate)
  }

  /** A playable frame of `n` samples in each channel lasts exactly as long as they take at its rate. */
  lemma DurationExact(f: Frame, channels: nat, n: nat)
    requires Playable(f, channels) && |f.payload| == n * (2 * channels)
    ensures LastsMs(n, f.format.sampleRateHz, PcmDurationMs(f))
  {
    var width, rate := 2 * channels, f.format.sampleRateHz;
    assert f.format.bitsPerSample / 8 * f.format.channels == width;
    SamplesOf(|f.payload|, n, width);
    Quotient(n * 1000, rate);
  }

  lemma SamplesOf(length: nat, n: nat, width: nat)
    requires width > 0 && length == n * width
    ensures length / width == n
  {
    var q := length / width;
    Quotient(length, width);
    if q < n {
      Monotone(q + 1, n, width);
    } else if n < q {
      Monotone(n + 1, q, width);
    }
  }

  lemma Quotient(x: nat, d: nat)
    requires d > 0
    ensures x / d * d <= x < (x / d + 1) * d
  {
  }

  /** No other number of milliseconds is right. */
  lemma DurationUnique(samples: nat, rate: nat, d: nat, e: nat)
    requires rate > 0 && LastsMs(samples, rate, d) && LastsMs(samples, rate, e)
    ensures d == e
  {
    if d < e {
      Monotone(d + 1, e, rate);
    } else if e < d {
      Monotone(e + 1, d, rate);
    }
  }

  lemma Monotone(a: nat, b: nat, k: nat)
    requires a <= b
    ensures a * k <= b * k
  {
  }
}
