/**
 The wrap-around PCM ring of the wake detectors, and the WakeNet detector that feeds on it.
 The ring refines a plain sequence: what was appended since the last reset is what was handed
 out in chunks followed by what it still holds.
 */
module PcmRing {
  import opened Wrappers
  import opened PcmFormat

  function Flatten(chunks: seq<seq<int>>): seq<int> {
    if chunks == [] then [] else Flatten(chunks[..|chunks| - 1]) + chunks[|chunks| - 1]
  }

  /** The position `i` places after `start` in a ring of `capacity` places. */
  function Place(start: nat, i: nat, capacity: nat): nat
    requires start < capacity && i <= capacity
  {
    if start + i < capacity then start + i else start + i - capacity
  }

  function Wrap(x: nat, capacity: nat): nat
    requires capacity > 0
  {
    x % capacity
  }

  lemma WrapsOnce(x: nat, capacity: nat)
    requires 0 < capacity && x < 2 * capacity
    ensures Wrap(x, capacity) == if x < capacity then x else x - capacity
  {
    if x >= capacity {
      assert x == capacity + (x - capacity);
    }
  }

  /** The `n` samples that start at place `start`. */
  function Held(ring: seq<int>, start: nat, n: nat): (r: seq<int>)
    requires start < |ring| && n <= |ring|
    ensures |r| == n && forall i | 0 <= i < n :: r[i] == ring[Place(start, i, |ring|)]
  {
    if n == 0 then [] else Held(ring, start, n - 1) + [ring[Place(start, n - 1, |ring|)]]
  }

  lemma HeldAppended(a: seq<int>, b: seq<int>, start: nat, n: nat, samples: seq<int>)
    requires |a| == |b| && start < |a| && n + |samples| <= |a|
    requires forall i | 0 <= i < n :: b[Place(start, i, |a|)] == a[Place(start, i, |a|)]
    requires forall i | 0 <= i < |samples| :: b[Place(start, n + i, |a|)] == samples[i]
    ensures Held(b, start, n + |samples|) == Held(a, start, n) + samples
  {
    var x, y := Held(b, start, n + |samples|), Held(a, start, n) + samples;
    hide Held, Place;
    forall i | 0 <= i < |x| ensures x[i] == y[i] {
      if i >= n {
        assert b[Place(start, n + (i - n), |a|)] == samples[i - n];
      }
    }
  }

  lemma HeldAdvanced(a: seq<int>, start: nat, n: nat, k: nat)
    requires start < |a| && k <= n <= |a| && k > 0
    ensures Place(start, k, |a|) < |a| && Held(a, Place(start, k, |a|), n - k) == Held(a, start, n)[k..]
  {
    hide Held;
    var x, y := Held(a, Place(start, k, |a|), n - k), Held(a, start, n)[k..];
    forall i | 0 <= i < n - k ensures x[i] == y[i] {
      assert Place(Place(start, k, |a|), i, |a|) == Place(start, k + i, |a|);
    }
  }

  lemma AppendRegroup(a: seq<int>, b: seq<int>, c: seq<int>)
    ensures a + (b + c) == (a + b) + c
  {
  }

  lemma PlaceMoved(start: nat, n: nat, k: nat, capacity: nat)
    requires start < capacity && n + k <= capacity
    ensures Wrap(Place(start, n, capacity) + k, capacity) == Place(start, n + k, capacity)
  {
    WrapsOnce(Place(start, n, capacity) + k, capacity);
  }

  /** Handing out the first part of what is held. */
  lemma HandedRegroup(handed: seq<seq<int>>, before: seq<int>, all: seq<int>, k: nat)
    requires Flatten(handed) + before == all && k <= |before|
    ensures Flatten(handed + [before[..k]]) + before[k..] == all
  {
    FlattenSnoc(handed, before[..k]);
    hide Flatten;
    assert Flatten(handed) + before[..k] + before[k..] == Flatten(handed) + (before[..k] + before[k..]);
    assert before[..k] + before[k..] == before;
  }

  class Ring {
    const input: array<int>
    const scratch: array<int>
    const chunk: nat
    var read: nat
    var write: nat
    var available: nat
    ghost var appended: seq<int>
    ghost var handed: seq<seq<int>>

    ghost predicate Shape()
      reads this
    {
      && input != scratch && 0 < chunk == scratch.Length <= input.Length
      && read < input.Length && available <= input.Length
      && write == Place(read, available, input.Length)
    }

    ghost function Contents(): seq<int>
      reads this, input
      requires Shape()
    {
      Held(input[..], read, available)
    }

    ghost predicate Valid()
      reads this, input
    {
      && Shape()
      && Flatten(handed) + Contents() == appended
      && forall i | 0 <= i < |handed| :: |handed[i]| == chunk
    }

    constructor (capacity: nat, chunkSamples: nat)
      requires 0 < chunkSamples <= capacity
      ensures Valid() && appended == [] && handed == [] && Contents() == []
      ensures input.Length == capacity && chunk == chunkSamples && fresh(input) && fresh(scratch)
    {
      input := new int[capacity];
      scratch := new int[chunkSamples];
      chunk := chunkSamples;
      read, write, available := 0, 0, 0;
      appended, handed := [], [];
    }

    method Reset()
      requires Valid()
      modifies this
      ensures Valid() && appended == [] && handed == [] && Contents() == []
    {
      read, write, available := 0, 0, 0;
      appended, handed := [], [];
    }

    /** Appends all samples, or refuses and changes nothing when they do not fit. */
    method Append(samples: seq<int>) returns (ok: bool)
      requires Valid()
      modifies this, input
      ensures Valid() && handed == old(handed)
      ensures ok <==> |samples| <= input.Length - old(available)
      ensures ok ==> Contents() == old(Contents()) + samples && appended == old(appended) + samples
      ensures !ok ==> Contents() == old(Contents()) && appended == old(appended)
    {
      if |samples| > input.Length - available {
        return false;
      }
      hide Flatten, Held, Place;
      AppendRegroup(Flatten(handed), Contents(), samples);
      Store(samples);
      appended := appended + samples;
      return true;
    }

    /** Copies the samples in behind what is held and moves the write position. */
    method Store(samples: seq<int>)
      requires Shape() && |samples| <= input.Length - available
      modifies this`write, this`available, input
      ensures Shape() && Contents() == old(Contents()) + samples
    {
      hide Held, Place, Wrap;
      PlaceMoved(read, available, |samples|, input.Length);
      CopySamples(samples);
      write := Wrap(write + |samples|, input.Length);
      available := available + |samples|;
    }

    /** The two copies: up to the end of the buffer, and the rest at its start. */
    method CopySamples(samples: seq<int>)
      requires Shape() && |samples| <= input.Length - available
      modifies input
      ensures Held(input[..], read, available + |samples|) == old(Contents()) + samples
    {
      hide Held;
      var capacity := input.Length;
      ghost var before := input[..];
      var first := if |samples| < capacity - write then |samples| else capacity - write;
      CopyIn(write, samples[..first]);
      CopyIn(0, samples[first..]);
      ghost var after := input[..];
      forall i | 0 <= i < |samples| ensures after[Place(read, available + i, capacity)] == samples[i] {
        if i < first {
          assert after[write + i] == samples[..first][i];
        } else {
          assert after[i - first] == samples[first..][i - first];
        }
      }
      HeldAppended(before, after, read, available, samples);
    }

    /** `memcpy` of `source` to place `at`. */
    method CopyIn(at: nat, source: seq<int>)
      requires at + |source| <= input.Length
      modifies input
      ensures forall i | 0 <= i < |source| :: input[at + i] == source[i]
      ensures forall i | 0 <= i < at || at + |source| <= i < input.Length :: input[i] == old(input[i])
    {
      var i := 0;
      while i < |source|
        invariant i <= |source|
        invariant forall k | 0 <= k < i :: input[at + k] == source[k]
        invariant forall k | 0 <= k < at || at + i <= k < input.Length :: input[k] == old(input[k])
      {
        input[at + i] := source[i];
        i := i + 1;
      }
    }

    /** The next chunk: in place when it does not wrap, copied to the scratch buffer when it does. */
    method ChunkInput() returns (buffer: array<int>, offset: nat)
      requires Valid() && chunk <= available
      modifies scratch
      ensures Valid() && offset + chunk <= buffer.Length
      ensures buffer[offset..offset + chunk] == Contents()[..chunk]
      ensures Contents() == old(Contents())
    {
      if read + chunk <= input.Length {
        assert input[read..read + chunk] == Contents()[..chunk];
        return input, read;
      }
      var first := input.Length - read;
      var i := 0;
      while i < chunk
        invariant i <= chunk
        invariant forall k | 0 <= k < i :: scratch[k] == input[Place(read, k, input.Length)]
      {
        scratch[i] := if i < first then input[read + i] else input[i - first];
        i := i + 1;
      }
      assert scratch[0..chunk] == Contents()[..chunk];
      return scratch, 0;
    }

    method ConsumeChunk()
      requires Valid() && chunk <= available
      modifies this
      ensures Valid() && appended == old(appended)
      ensures Contents() == old(Contents())[chunk..]
      ensures handed == old(handed) + [old(Contents())[..chunk]]
    {
      hide Flatten, Held, Place;
      HandedRegroup(handed, Contents(), appended, chunk);
      ghost var block := Contents()[..chunk];
      Advance();
      handed := handed + [block];
    }

    /** Moves the read position past one chunk. */
    method Advance()
      requires Shape() && chunk <= available
      modifies this`read, this`available
      ensures Shape() && Contents() == old(Contents())[chunk..]
    {
      hide Held, Wrap;
      HeldAdvanced(input[..], read, available, chunk);
      WrapsOnce(read + chunk, input.Length);
      read := Wrap(read + chunk, input.Length);
      available := available - chunk;
    }
  }

  lemma FlattenSnoc(chunks: seq<seq<int>>, last: seq<int>)
    ensures Flatten(chunks + [last]) == Flatten(chunks) + last
  {
    assert (chunks + [last])[..|chunks|] == chunks;
  }

  /** Chunks of one size whose concatenation starts a sequence are its consecutive blocks. */
  lemma {:induction false} HandedAreBlocks(handed: seq<seq<int>>, rest: seq<int>, all: seq<int>, chunk: nat, i: nat)
    requires chunk > 0 && Flatten(handed) + rest == all && i < |handed|
    requires forall k | 0 <= k < |handed| :: |handed[k]| == chunk
    ensures i * chunk + chunk <= |all| && handed[i] == all[i * chunk..i * chunk + chunk]
    decreases |handed|
  {
    var n := |handed| - 1;
    FlattenLength(handed[..n], chunk);
    var init := Flatten(handed[..n]);
    assert all == init + (handed[n] + rest);
    if i < n {
      HandedAreBlocks(handed[..n], handed[n] + rest, all, chunk, i);
    } else {
      assert all[|init|..|init| + chunk] == handed[n];
    }
  }

  lemma {:induction false} FlattenLength(chunks: seq<seq<int>>, chunk: nat)
    requires forall k | 0 <= k < |chunks| :: |chunks[k]| == chunk
    ensures |Flatten(chunks)| == |chunks| * chunk
  {
    if chunks != [] {
      var n := |chunks| - 1;
      FlattenLength(chunks[..n], chunk);
      assert Flatten(chunks) == Flatten(chunks[..n]) + chunks[n];
      hide Flatten;
      assert (n + 1) * chunk == n * chunk + chunk;
    }
  }

  // ----- The WakeNet detector

  const MAX_FRAME_SAMPLES: nat := MAX_PAYLOAD_BYTES / 2
  const CAPACITY: nat := 2 * MAX_FRAME_SAMPLES

  datatype Submitted = NotRunning | BadFrame | RingFull | Accepted(wake: bool)

  /** The frames the detector takes: 16 kHz, one channel, 16 bits, whole samples, not empty. */
  predicate WakeFrame(f: Frame) {
    && f.format.codec.PcmS16Le? && f.format.sampleRateHz == 16000 && f.format.channels == 1
    && f.format.bitsPerSample == 16 && f.payload != [] && |f.payload| % 2 == 0
  }

  /** A little-endian signed 16-bit sample. */
  function Sample(low: Byte, high: Byte): int { low as int + 256 * high as int - if high < 128 then 0 else 65536 }

  /** The sample is the one 16-bit number whose two's complement the bytes are, the low byte first. */
  lemma SampleExact(low: Byte, high: Byte, x: int)
    ensures -32768 <= Sample(low, high) <= 32767
    ensures -32768 <= x <= 32767 ==> (x == Sample(low, high) <==> x % 256 == low as int && x / 256 % 256 == high as int)
  {
  }

  function Samples(payload: Bytes): (r: seq<int>)
    ensures |r| == |payload| / 2
    ensures forall i | 0 <= i < |r| :: r[i] == Sample(payload[2 * i], payload[2 * i + 1])
  {
    seq(|payload| / 2, i requires 0 <= i < |payload| / 2 => Sample(payload[2 * i], payload[2 * i + 1]))
  }

  class WakeNetDetector {
    const ring: Ring
    var running: bool

    ghost predicate Valid()
      reads this, ring, ring.input
    {
      && ring.Valid() && ring.input.Length == CAPACITY && ring.chunk <= MAX_FRAME_SAMPLES
      && ring.available < ring.chunk
    }

    constructor (chunk: nat)
      requires 0 < chunk <= MAX_FRAME_SAMPLES
      ensures Valid() && !running && fresh(ring) && fresh(ring.input) && fresh(ring.scratch)
    {
      ring := new Ring(CAPACITY, chunk);
      running := false;
    }

    method Start()
      requires Valid()
      modifies this, ring
      ensures Valid() && running && ring.appended == []
    {
      ring.Reset();
      running := true;
    }

    method Stop()
      requires Valid()
      modifies this, ring
      ensures Valid() && !running && ring.appended == []
    {
      running := false;
      ring.Reset();
    }

    /**
     `verdicts[k]` is what the model says of the k-th chunk of this call, and `given` the chunks it
     is shown. While running, a frame within the maximum payload never finds the ring full. The model
     is shown consecutive blocks of what the ring held followed by the frame, until it detects or less
     than a block is left.
     */
    method Submit(frame: Frame, verdicts: seq<bool>) returns (r: Submitted, given: seq<seq<int>>)
      requires Valid()
      modifies this, ring, ring.input, ring.scratch
      ensures Valid()
      ensures r == NotRunning <==> !old(running)
      ensures r == BadFrame <==>
                && old(running)
                && (|| !frame.format.codec.PcmS16Le? || frame.format.sampleRateHz != 16000 || frame.format.channels != 1
                    || frame.format.bitsPerSample != 16 || |frame.payload| == 0 || |frame.payload| % 2 == 1)
      ensures r == RingFull <==> old(running) && WakeFrame(frame) && |frame.payload| / 2 > CAPACITY - old(ring.available)
      ensures |frame.payload| <= MAX_PAYLOAD_BYTES ==> r != RingFull
      ensures !r.Accepted? ==> given == [] && running == old(running) && ring.Contents() == old(ring.Contents())
      ensures r.Accepted? ==> AreBlocks(given, old(ring.Contents()) + Samples(frame.payload), ring.chunk)
      ensures r.Accepted? ==> forall i | 0 <= i < |given| :: Verdict(verdicts, i) == (r.wake && i == |given| - 1)
      ensures r == Accepted(false) ==>
                var all := old(ring.Contents()) + Samples(frame.payload);
                running && Span(|given|, ring.chunk) <= |all| && ring.Contents() == all[Span(|given|, ring.chunk)..]
      ensures r == Accepted(true) ==> !running && given != [] && ring.Contents() == []
    {
      hide Flatten, Place, Verdict, Held, Samples;
      given := [];
      if !running {
        return NotRunning, [];
      }
      if !WakeFrame(frame) {
        return BadFrame, [];
      }
      var samples := Samples(frame.payload);
      var ok := ring.Append(samples);
      if !ok {
        return RingFull, [];
      }
      hide AreBlocks;
      var detected;
      detected, given := Scan(verdicts);
      if detected {
        running := false;
        ring.Reset();
      }
      return Accepted(detected), given;
    }

    /** The loop over the chunks in the ring, up to and including the one the model detects. */
    method Scan(verdicts: seq<bool>) returns (detected: bool, given: seq<seq<int>>)
      requires ring.Valid()
      modifies ring, ring.scratch
      ensures ring.Valid()
      ensures AreBlocks(given, old(ring.Contents()), ring.chunk)
      ensures forall i | 0 <= i < |given| :: Verdict(verdicts, i) == (detected && i == |given| - 1)
      ensures detected ==> given != []
      ensures Span(|given|, ring.chunk) <= |old(ring.Contents())|
      ensures ring.Contents() == old(ring.Contents())[Span(|given|, ring.chunk)..]
      ensures !detected ==> ring.available < ring.chunk
    {
      hide Flatten, Place, Verdict, Held, AreBlocks;
      given := [];
      NoBlocks(ring.Contents(), ring.chunk);
      detected := false;
      assert Span(0, ring.chunk) == 0;
      hide Span;
      ghost var all := ring.Contents();
      while !detected && ring.available >= ring.chunk
        invariant ring.Valid() && (detected ==> given != [])
        invariant Span(|given|, ring.chunk) <= |all| && ring.Contents() == all[Span(|given|, ring.chunk)..]
        invariant AreBlocks(given, all, ring.chunk)
        invariant forall i | 0 <= i < |given| :: Verdict(verdicts, i) == (detected && i == |given| - 1)
        decreases ring.available
      {
        var buffer, offset := ring.ChunkInput();
        var shown := buffer[offset..offset + ring.chunk];
        BlocksSnoc(given, all, ring.chunk, shown);
        DropTwice(all, Span(|given|, ring.chunk), ring.chunk);
        ring.ConsumeChunk();
        detected := Verdict(verdicts, |given|);
        given := given + [shown];
      }
    }
  }

  predicate Verdict(verdicts: seq<bool>, i: nat) { i < |verdicts| && verdicts[i] }

  /** The chunks are the consecutive blocks at the start of `all`. */
  predicate AreBlocks(chunks: seq<seq<int>>, all: seq<int>, chunk: nat) {
    forall i | 0 <= i < |chunks| ::
      Span(i, chunk) + chunk <= |all| && chunks[i] == all[Span(i, chunk)..Span(i, chunk) + chunk]
  }

  lemma DropTwice(all: seq<int>, a: nat, b: nat)
    requires a + b <= |all|
    ensures all[a..][b..] == all[a + b..]
  {
  }

  lemma NoBlocks(all: seq<int>, chunk: nat)
    ensures AreBlocks([], all, chunk)
  {
  }

  /** The length of `n` chunks. */
  function Span(n: nat, chunk: nat): nat { n * chunk }

  lemma BlocksSnoc(chunks: seq<seq<int>>, all: seq<int>, chunk: nat, next: seq<int>)
    requires AreBlocks(chunks, all, chunk) && Span(|chunks|, chunk) + chunk <= |all|
    requires next == all[Span(|chunks|, chunk)..][..chunk]
    ensures AreBlocks(chunks + [next], all, chunk)
    ensures Span(|chunks + [next]|, chunk) == Span(|chunks|, chunk) + chunk
  {
    var at := Span(|chunks|, chunk);
    assert next == all[at..at + chunk];
  }
}
