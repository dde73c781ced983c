/**
 The playback port's shared state and the regions of its methods that run with the mutex held.

 `OutputPort` follows the source statement by statement, dead branches included. Each of its methods
 is one region; the functions on `Port` say what the region does, and the runs of many threads are
 built from those functions.
 */
module PlaybackPort {
  import opened Wrappers
  import opened PcmFormat

  /** The options and the board profile, fixed for the life of the port. */
  datatype Limits = Limits(inputDepth: nat, depth: nat, latencyMs: nat, profileMs: nat, channels: nat)

  /** The output fields; `task` says that the task handle is set, `codec` which codec handle is attached. */
  datatype Port = Port(open: bool, closing: bool, cleanup: bool, running: bool, task: bool,
                       codec: Option<nat>, queue: seq<Frame>, queuedMs: nat)

  const CLOSED := Port(false, false, false, false, false, None, [], 0)

  function SumMs(frames: seq<Frame>): nat {
    if frames == [] then 0 else PcmDurationMs(frames[0]) + SumMs(frames[1..])
  }

  lemma {:induction false} SumMsAppend(frames: seq<Frame>, f: Frame)
    ensures SumMs(frames + [f]) == SumMs(frames) + PcmDurationMs(f)
    decreases |frames|
  {
    if frames != [] {
      SumMsAppend(frames[1..], f);
      assert (frames + [f])[1..] == frames[1..] + [f];
    } else {
      assert (frames + [f])[1..] == [];
    }
  }

  lemma WholeSamples(length: nat, width: nat)
    requires width > 0 && length % width == 0
    ensures length == length / width * width
  {
  }

  /** The stored duration is that of the queued frames, and both bounds hold. */
  predicate Accounted(l: Limits, p: Port) {
    p.queuedMs == SumMs(p.queue) && |p.queue| <= l.depth && p.queuedMs <= l.latencyMs
  }

  // ----- What each region does

  /** The budgets under which an open goes ahead. */
  predicate Opens(l: Limits, formatMs: nat) {
    && l.inputDepth > 0 && l.depth > 0 && l.latencyMs > 0
    && l.depth * l.profileMs <= l.latencyMs && formatMs <= l.latencyMs
  }

  /** The wire formats that playback takes. */
  predicate PlaybackFormat(l: Limits, f: Format) {
    && ValidFormat(f) && f.codec.PcmS16Le? && f.bitsPerSample == 16 && f.channels == l.channels
    && 8000 <= f.sampleRateHz <= 48000
    && 0 < f.sampleRateHz * f.frameDurationMs * f.channels * (f.bitsPerSample / 8) / 1000 <= MAX_PAYLOAD_BYTES
  }

  /** The same, with the payload bound said without dividing. */
  lemma PlaybackFormatIs(l: Limits, f: Format)
    ensures PlaybackFormat(l, f) <==>
              && f.codec.PcmS16Le? && f.bitsPerSample == 16 && f.channels == l.channels > 0
              && 8000 <= f.sampleRateHz <= 48000 && f.frameDurationMs > 0
              && 1000 <= f.sampleRateHz * f.frameDurationMs * f.channels * 2 < 16385000
  {
    var bytes := f.sampleRateHz * f.frameDurationMs * f.channels;
    assert f.bitsPerSample == 16 ==> bytes * (f.bitsPerSample / 8) == bytes * 2;
  }

  function Opened(p: Port, handle: nat): Port {
    p.(open := true, closing := false, cleanup := false, codec := Some(handle), running := true, task := true)
  }

  /** The output task could not be created: the new codec handle is released at once and the port stays closed. */
  function OpenUndone(p: Port): Port {
    p.(open := false, closing := false, cleanup := false, codec := None, running := false)
  }

  predicate Accepting(p: Port) { p.open && !p.closing }

  predicate HasRoom(l: Limits, p: Port, ms: nat) { |p.queue| < l.depth && p.queuedMs + ms <= l.latencyMs }

  /** The condition a waiting producer wakes on. */
  predicate PushWakes(l: Limits, p: Port, ms: nat) {
    HasRoom(l, p, ms) || !p.running || p.closing || !p.open
  }

  function Enqueued(p: Port, f: Frame): Port {
    p.(queue := p.queue + [f], queuedMs := p.queuedMs + PcmDurationMs(f))
  }

  function Flushed(p: Port): Port { p.(queue := [], queuedMs := 0) }

  function CloseBegun(p: Port): Port { Flushed(p).(closing := true, running := false) }

  function Dequeued(p: Port): Port
    requires p.queue != []
  {
    p.(queue := p.queue[1..], queuedMs := SumMs(p.queue[1..]))
  }

  function Detached(p: Port): Port { p.(cleanup := true, codec := None) }

  function Cleaned(p: Port): Port { p.(open := false, closing := false, cleanup := false) }

  // ----- The regions as the source writes them

  datatype PushResult = Accepted | NotOpen | Stopped | QueueFull | OverBudget | BadPayload | NoDuration
  datatype OpenResult = OpenOk | BadFormat | Closing | BadBudget | CodecFailed | TaskFailed
  datatype CloseStart = AlreadyClosed | AlreadyClosing | Began
  datatype FinalStart = NothingToDo | AnotherCleans | Detach(handle: Option<nat>)

  class OutputPort {
    const limits: Limits
    var open: bool
    var closing: bool
    var cleanup: bool
    var running: bool
    var task: bool
    var codec: Option<nat>
    var queue: seq<Frame>
    var queuedMs: nat

    constructor (l: Limits)
      ensures limits == l && State() == CLOSED && Valid()
    {
      limits := l;
      open, closing, cleanup, running, task := false, false, false, false, false;
      codec, queue, queuedMs := None, [], 0;
    }

    function State(): Port reads this { Port(open, closing, cleanup, running, task, codec, queue, queuedMs) }

    ghost predicate Valid() reads this {
      && Accounted(limits, State())
      && (cleanup ==> closing) && (closing ==> open) && (!open ==> codec == None)
    }

    /** `handle` is the codec instance that initialisation would give, absent when it fails. */
    method OpenOutput(format: Format, handle: Option<nat>, taskCreated: bool) returns (r: OpenResult)
      requires Valid()
      modifies this
      ensures Valid()
      ensures r.BadFormat? <==> !PlaybackFormat(limits, format)
      ensures !r.BadFormat? <==>
                && format.codec.PcmS16Le? && format.bitsPerSample == 16 && format.channels == limits.channels > 0
                && 8000 <= format.sampleRateHz <= 48000 && format.frameDurationMs > 0
                && 1000 <= format.sampleRateHz * format.frameDurationMs * format.channels * 2 < 16385000
      ensures r.Closing? <==> PlaybackFormat(limits, format) && old(closing)
      ensures r.BadBudget? <==>
                && PlaybackFormat(limits, format) && !old(closing) && !old(open)
                && (limits.inputDepth == 0 || limits.depth == 0 || limits.latencyMs == 0
                    || limits.depth * limits.profileMs > limits.latencyMs || format.frameDurationMs > limits.latencyMs)
      ensures PlaybackFormat(limits, format) && !old(closing) && !old(open) && Opens(limits, format.frameDurationMs) ==>
                && r == (if handle.None? then CodecFailed else if taskCreated then OpenOk else TaskFailed)
                && (handle.Some? ==>
                      State() == if taskCreated then Opened(old(State()), handle.value) else OpenUndone(old(State())))
      ensures (!PlaybackFormat(limits, format) || old(closing) || old(open) || handle.None?
               || !Opens(limits, format.frameDurationMs)) ==> State() == old(State())
    {
      PlaybackFormatIs(limits, format);
      hide PlaybackFormat;
      if !PlaybackFormat(limits, format) { return BadFormat; }
      var formatMs := format.frameDurationMs;
      if closing { return Closing; }
      if open { return OpenOk; }
      if limits.inputDepth == 0 || limits.depth == 0 || limits.latencyMs == 0 { return BadBudget; }
      if limits.depth * limits.profileMs > limits.latencyMs { return BadBudget; }
      if formatMs > limits.latencyMs { return BadBudget; }
      open, closing, cleanup := true, false, false;
      if codec.None? {
        if handle.None? {
          open := false;
          return CodecFailed;
        }
        codec := handle;
      }
      running := true;
      if !taskCreated {
        if codec.Some? { codec := None; }
        running, open := false, false;
        return TaskFailed;
      }
      task := true;
      return OpenOk;
    }

    /** `PushOutput` up to its wait; absent when the frame goes on to wait for room. */
    method AdmitFrame(f: Frame) returns (r: Option<PushResult>, ms: nat)
      requires Valid()
      ensures r == Some(NotOpen) <==> !open || closing
      ensures r.None? <==>
                && open && !closing
                && f.format.codec.PcmS16Le? && f.format.sampleRateHz > 0 && f.format.frameDurationMs > 0
                && f.format.bitsPerSample == 16 && f.format.channels == limits.channels > 0
                && 0 < |f.payload| <= 16384 && |f.payload| % (2 * limits.channels) == 0
      ensures r.Some? ==> r == Some(NotOpen) || r == Some(BadPayload)
      ensures r.None? ==> Playable(f, limits.channels) && ms == PcmDurationMs(f)
      ensures r.None? ==> LastsMs(|f.payload| / (2 * limits.channels), f.format.sampleRateHz, ms)
    {
      ms := 0;
      if !open || closing { return Some(NotOpen), 0; }
      if !ValidFormat(f.format) || f.format.codec != PcmS16Le || f.format.bitsPerSample != 16
         || f.format.channels != limits.channels || |f.payload| == 0 || |f.payload| > MAX_PAYLOAD_BYTES
         || |f.payload| % (2 * f.format.channels) != 0 {
        return Some(BadPayload), 0;
      }
      PlayableHasDuration(f, limits.channels);
      WholeSamples(|f.payload|, 2 * limits.channels);
      DurationExact(f, limits.channels, |f.payload| / (2 * limits.channels));
      ms := PcmDurationMs(f);
      if ms == 0 { return Some(NoDuration), ms; }
      return None, ms;
    }

    /** `PushOutput` after its wait. Neither refusal for lack of room is ever given. */
    method FinishPush(f: Frame) returns (r: PushResult)
      requires Valid() && PushWakes(limits, State(), PcmDurationMs(f))
      modifies this`queue, this`queuedMs
      ensures Valid()
      ensures r == if Accepting(State()) && running then Accepted else Stopped
      ensures State() == if r.Accepted? then Enqueued(old(State()), f) else old(State())
    {
      var ms := PcmDurationMs(f);
      if !open || closing || !running { return Stopped; }
      if |queue| >= limits.depth { return QueueFull; }
      if queuedMs + ms > limits.latencyMs { return OverBudget; }
      SumMsAppend(queue, f);
      queue := queue + [f];
      queuedMs := queuedMs + ms;
      return Accepted;
    }

    method FlushOutput()
      requires Valid()
      modifies this`queue, this`queuedMs
      ensures Valid() && State() == Flushed(old(State()))
    {
      queue := [];
      queuedMs := 0;
    }

    method BeginClose() returns (r: CloseStart)
      requires Valid()
      modifies this
      ensures Valid()
      ensures r == if old(closing) then AlreadyClosing else if old(open) then Began else AlreadyClosed
      ensures State() == if r.Began? then CloseBegun(old(State())) else old(State())
    {
      if closing { return AlreadyClosing; }
      if !open { return AlreadyClosed; }
      closing := true;
      if open {
        running := false;
        queue := [];
        queuedMs := 0;
      }
      return Began;
    }

    /** One locked pass of the output loop. The duration is taken off, never clamped at zero. */
    method PopFrame() returns (f: Option<Frame>)
      requires Valid() && (queue != [] || !running)
      modifies this`queue, this`queuedMs
      ensures Valid()
      ensures f == if old(queue) == [] then None else Some(old(queue)[0])
      ensures State() == if f.None? then old(State()) else Dequeued(old(State()))
      ensures f.Some? ==> old(queuedMs) == queuedMs + PcmDurationMs(f.value)
    {
      if queue == [] && !running { return None; }
      f := Some(queue[0]);
      queue := queue[1..];
      var ms := PcmDurationMs(f.value);
      var left: int := if ms <= queuedMs then queuedMs - ms else 0;
      queuedMs := left;
    }

    method BeginCleanup() returns (r: FinalStart)
      requires Valid()
      modifies this
      ensures Valid()
      ensures r == if !old(closing) then NothingToDo else if old(cleanup) then AnotherCleans else Detach(old(codec))
      ensures State() == if r.Detach? then Detached(old(State())) else old(State())
    {
      if !closing { return NothingToDo; }
      if cleanup { return AnotherCleans; }
      cleanup := true;
      r := Detach(codec);
      codec := None;
    }

    method FinishCleanup()
      requires Valid() && codec == None
      modifies this
      ensures Valid() && State() == Cleaned(old(State()))
    {
      open, closing, cleanup := false, false, false;
    }
  }
}
