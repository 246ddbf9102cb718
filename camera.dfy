/**
 * The camera registry of the surveillance tool: configuration with its
 * defaults, the per-camera two-slot frame queue, the capture worker's
 * open-retry and read-failure counters, and the manager that keeps the
 * per-camera dictionaries (threads, capture objects, stop events, queues)
 * consistent while cameras are started and stopped.
 *
 * Threads do not exist here.  A thread is an entry of `captureThreads`
 * whose value says whether it is alive; what the running thread would
 * observe (the stop flag at each check, the result of each open and each
 * read) is given to the worker as a sequence of oracle values.
 */
module Cameras {
  import opened Wrappers
  import opened Strings

  // ---------------------------------------------------------------------
  // Configuration
  // ---------------------------------------------------------------------

  /** A camera source as YAML gives it: a device number or a text (a URL, or digits). */
  datatype Source = DeviceIndex(index: int) | Address(text: string)

  datatype CameraConfig = CameraConfig(
    id: int, name: string, source: Source, enabled: bool,
    width: int, height: int, fps: int, rotate: int)

  datatype Resolution = Resolution(width: Option<int>, height: Option<int>)

  /** One entry of the YAML `cameras` list; `None` is a key that is absent. */
  datatype ConfigEntry = ConfigEntry(
    id: Option<int>, name: Option<string>, source: Option<Source>, enabled: Option<bool>,
    resolution: Option<Resolution>, fps: Option<int>, rotate: Option<int>)

  /**
   * A configuration file as `load_config` meets it: unreadable (opening or
   * parsing raises), parsed but without a usable `cameras` list (an empty
   * file, a document that is not a mapping, a `cameras` value that is not a
   * list), or the entries of the list (an absent `cameras` key is the empty
   * list).
   */
  datatype ConfigDoc = Unreadable | NoList | Entries(entries: seq<ConfigEntry>)

  const DefaultFps: int := 30
  const DefaultRotate: int := 0

  function DefaultName(id: int): string {
    "Camera " + IntToString(id)
  }

  /** An entry holds every key that `load_config` reads with `[...]`. */
  predicate HasRequiredKeys(e: ConfigEntry) {
    && e.id.Some? && e.source.Some? && e.resolution.Some?
    && e.resolution.value.width.Some? && e.resolution.value.height.Some?
  }

  /**
   * The `CameraConfig` built from one entry, or `None` where a required key
   * is missing (the `KeyError` case).  Optional keys take their defaults.
   */
  function ConfigFromEntry(e: ConfigEntry): (r: Option<CameraConfig>)
    ensures r.Some? <==> HasRequiredKeys(e)
  {
    if !HasRequiredKeys(e) then None
    else
      var id := e.id.value;
      Some(CameraConfig(
        id, e.name.GetOr(DefaultName(id)), e.source.value, e.enabled.GetOr(true),
        e.resolution.value.width.value, e.resolution.value.height.value,
        e.fps.GetOr(DefaultFps), e.rotate.GetOr(DefaultRotate)))
  }

  /** The fields of a loaded configuration: the required keys as given, the optional ones or their defaults. */
  lemma ConfigFromEntryFields(e: ConfigEntry)
    requires HasRequiredKeys(e)
    ensures var c := ConfigFromEntry(e).value;
      && c.id == e.id.value && c.source == e.source.value
      && c.width == e.resolution.value.width.value && c.height == e.resolution.value.height.value
      && c.name == (if e.name.Some? then e.name.value else "Camera " + IntToString(e.id.value))
      && c.enabled == (e.enabled.None? || e.enabled.value)
      && c.fps == (if e.fps.Some? then e.fps.value else 30)
      && c.rotate == (if e.rotate.Some? then e.rotate.value else 0)
  {
  }

  /**
   * The configurations `load_config` reads from `entries` before it stops:
   * one per entry, in order, up to (not including) the first malformed one.
   */
  function LoadedConfigs(entries: seq<ConfigEntry>): (cs: seq<CameraConfig>)
    ensures |cs| <= |entries|
    ensures forall i :: 0 <= i < |cs| ==> ConfigFromEntry(entries[i]) == Some(cs[i])
    ensures |cs| < |entries| ==> ConfigFromEntry(entries[|cs|]).None?
  {
    if entries == [] || ConfigFromEntry(entries[0]).None? then []
    else
      var rest := LoadedConfigs(entries[1..]);
      LoadedConfigsCons(entries, ConfigFromEntry(entries[0]).value, rest);
      [ConfigFromEntry(entries[0]).value] + rest
  }

  /** One loaded configuration in front of those loaded from the remaining entries. */
  lemma LoadedConfigsCons(entries: seq<ConfigEntry>, c: CameraConfig, rest: seq<CameraConfig>)
    requires entries != [] && ConfigFromEntry(entries[0]) == Some(c) && |rest| < |entries|
    requires forall i :: 0 <= i < |rest| ==> ConfigFromEntry(entries[1..][i]) == Some(rest[i])
    requires |rest| < |entries| - 1 ==> ConfigFromEntry(entries[1..][|rest|]).None?
    ensures forall i :: 0 <= i < |[c] + rest| ==> ConfigFromEntry(entries[i]) == Some(([c] + rest)[i])
    ensures |[c] + rest| < |entries| ==> ConfigFromEntry(entries[|[c] + rest|]).None?
  {
    var cs := [c] + rest;
    forall i | 0 <= i < |cs|
      ensures ConfigFromEntry(entries[i]) == Some(cs[i])
    {
      if i > 0 {
        assert cs[i] == rest[i - 1] && entries[i] == entries[1..][i - 1];
      }
    }
    if |cs| < |entries| {
      assert entries[|cs|] == entries[1..][|rest|];
    }
  }

  /** The dictionary the configurations fill in order: a later one for an id replaces an earlier one. */
  function ConfigMap(cs: seq<CameraConfig>): map<int, CameraConfig>
    decreases |cs|
  {
    if cs == [] then map[] else ConfigMap(cs[..|cs| - 1])[cs[|cs| - 1].id := cs[|cs| - 1]]
  }

  /** A converting entry after the loaded ones extends them by its configuration. */
  lemma LoadedGrows(entries: seq<ConfigEntry>, cs: seq<CameraConfig>, c: CameraConfig)
    requires |cs| < |entries| && ConfigFromEntry(entries[|cs|]) == Some(c)
    requires forall k :: 0 <= k < |cs| ==> ConfigFromEntry(entries[k]) == Some(cs[k])
    ensures forall k :: 0 <= k < |cs + [c]| ==> ConfigFromEntry(entries[k]) == Some((cs + [c])[k])
  {
  }

  /** Loading one more configuration stores it under its id. */
  lemma ConfigMapStep(cs: seq<CameraConfig>, c: CameraConfig)
    ensures ConfigMap(cs + [c]) == ConfigMap(cs)[c.id := c]
  {
    assert (cs + [c])[..|cs|] == cs;
  }

  /** The configured ids are exactly the ids of the configurations. */
  lemma {:induction false} ConfigMapKeys(cs: seq<CameraConfig>)
    ensures forall id :: id in ConfigMap(cs) <==> exists i :: 0 <= i < |cs| && cs[i].id == id
    decreases |cs|
  {
    if cs != [] {
      var init := cs[..|cs| - 1];
      ConfigMapKeys(init);
      forall id ensures id in ConfigMap(cs) <==> exists i :: 0 <= i < |cs| && cs[i].id == id {
        if id in ConfigMap(init) {
          var i :| 0 <= i < |init| && init[i].id == id;
          assert cs[i].id == id;
        }
        if exists i :: 0 <= i < |cs| && cs[i].id == id {
          var i :| 0 <= i < |cs| && cs[i].id == id;
          if i < |init| {
            assert init[i].id == id;
          }
        }
      }
    }
  }

  /** The configuration kept for an id is the last one with that id. */
  lemma {:induction false} ConfigMapLastWins(cs: seq<CameraConfig>, j: nat)
    requires j < |cs|
    requires forall k :: j < k < |cs| ==> cs[k].id != cs[j].id
    ensures cs[j].id in ConfigMap(cs) && ConfigMap(cs)[cs[j].id] == cs[j]
    decreases |cs|
  {
    var n := |cs|;
    if j < n - 1 {
      var init := cs[..n - 1];
      assert cs[n - 1].id != cs[j].id;
      assert forall k :: j < k < |init| ==> init[k] == cs[k];
      ConfigMapLastWins(init, j);
    }
  }

  /** `LoadedConfigs` is the only sequence of leading configurations that stops where loading stops. */
  lemma SameLoaded(entries: seq<ConfigEntry>, cs: seq<CameraConfig>)
    requires |cs| <= |entries|
    requires forall k :: 0 <= k < |cs| ==> ConfigFromEntry(entries[k]) == Some(cs[k])
    requires |cs| < |entries| ==> ConfigFromEntry(entries[|cs|]).None?
    ensures cs == LoadedConfigs(entries)
  {
  }

  // ---------------------------------------------------------------------
  // Source validation and what the worker opens
  // ---------------------------------------------------------------------

  /** The outcome of the quick `HEAD` request made to a network source. */
  datatype Probe = Responded(status: int) | RequestFailed

  predicate IsNetworkSource(s: Source) {
    s.Address? && (StartsWith(s.text, "http") || StartsWith(s.text, "rtsp"))
  }

  /**
   * `_validate_camera_source`: a network source is accepted only when the
   * probe answered with a status below 400; every other source is accepted.
   */
  function ValidateSource(s: Source, probe: Probe): (ok: bool)
    ensures !IsNetworkSource(s) ==> ok
    ensures IsNetworkSource(s) ==> (ok <==> probe.Responded? && probe.status < 400)
  {
    if IsNetworkSource(s) then
      match probe
      case Responded(status) => status < 400
      case RequestFailed => false
    else true
  }

  /** What `cv2.VideoCapture` is asked to open. */
  datatype OpenTarget = Device(index: int) | Stream(url: string)

  /** A source whose text is all digits is opened as that device number. */
  function OpenTargetOf(s: Source): (t: OpenTarget)
    ensures s.DeviceIndex? ==> t == Device(s.index)
    ensures s.Address? ==> (t.Device? <==> IsDigitString(s.text))
  {
    match s
    case DeviceIndex(i) => Device(i)
    case Address(text) => if IsDigitString(text) then Device(DigitsValue(text)) else Stream(text)
  }

  /** The text `"n"` of a device number opens device `n`, the same as the number itself. */
  lemma DigitTextOpensDevice(n: nat)
    ensures OpenTargetOf(Address(NatToString(n))) == OpenTargetOf(DeviceIndex(n))
  {
    DigitsValueOfNatToString(n);
  }

  // ---------------------------------------------------------------------
  // Rotation
  // ---------------------------------------------------------------------

  datatype Rotation = NoRotation | Clockwise90 | Rotate180 | CounterClockwise90

  /** The number of clockwise quarter turns a rotation performs. */
  function QuarterTurns(r: Rotation): nat {
    match r
    case NoRotation => 0
    case Clockwise90 => 1
    case Rotate180 => 2
    case CounterClockwise90 => 3
  }

  /**
   * The `cv2.rotate` code chosen for the configured `rotate` value: 90, 180
   * and 270 turn the frame clockwise by that many degrees; any other value
   * leaves it as read.
   */
  function RotationFor(degrees: int): (r: Rotation)
    ensures r == NoRotation <==> degrees != 90 && degrees != 180 && degrees != 270
    ensures r != NoRotation ==> QuarterTurns(r) * 90 == degrees
  {
    if degrees == 90 then Clockwise90
    else if degrees == 180 then Rotate180
    else if degrees == 270 then CounterClockwise90
    else NoRotation
  }

  // ---------------------------------------------------------------------
  // The frame queue
  // ---------------------------------------------------------------------

  /** A decoded image, identified abstractly; OpenCV's pixel data is not modelled. */
  type Image = nat

  /** A published frame: the image read and the rotation applied to it. */
  datatype Frame = Frame(image: Image, rotation: Rotation)

  /** `queue.Queue(maxsize=2)`. */
  const QueueCapacity: nat := 2

  /** The last `n` elements of `s` (all of `s` when it is shorter). */
  function Newest<T>(s: seq<T>, n: nat): seq<T> {
    if |s| <= n then s else s[|s| - n..]
  }

  /**
   * The worker's publish: when the queue is full the oldest frame is taken
   * out first, then the new frame is put at the end.  The queue therefore
   * always holds the newest frames, at most two.
   */
  function Publish(q: seq<Frame>, f: Frame): (r: seq<Frame>)
    requires |q| <= QueueCapacity
    ensures 1 <= |r| <= QueueCapacity && r[|r| - 1] == f
  {
    if |q| == QueueCapacity then q[1..] + [f] else q + [f]
  }

  /** Publishing keeps exactly the newest frames: the old ones that still fit, then the new one. */
  lemma PublishKeepsNewest(q: seq<Frame>, f: Frame)
    requires |q| <= QueueCapacity
    ensures Publish(q, f) == Newest(q + [f], QueueCapacity)
  {
  }

  datatype Polled = Polled(frame: Option<Frame>, rest: seq<Frame>)

  /** `get_nowait()`: the front (oldest) frame and what remains, or nothing from an empty queue. */
  function Poll(q: seq<Frame>): (r: Polled)
    ensures r.frame.None? <==> q == []
    ensures r.frame.None? ==> r.rest == []
    ensures r.frame.Some? ==> [r.frame.value] + r.rest == q
  {
    if q == [] then Polled(None, []) else Polled(Some(q[0]), q[1..])
  }

  /** Publishing a sequence of frames one after another. */
  function PublishAll(q: seq<Frame>, fs: seq<Frame>): seq<Frame>
    requires |q| <= QueueCapacity
    decreases |fs|
  {
    if fs == [] then q else PublishAll(Publish(q, fs[0]), fs[1..])
  }

  lemma NewestOfNewest<T>(s: seq<T>, t: seq<T>, n: nat)
    ensures Newest(Newest(s, n) + t, n) == Newest(s + t, n)
  {
    var a := Newest(s, n);
    var lhs, rhs := Newest(a + t, n), Newest(s + t, n);
    assert |lhs| == |rhs|;
    forall i | 0 <= i < |lhs| ensures lhs[i] == rhs[i] {
      var k := |a + t| - |lhs| + i;
      var m := |s + t| - |rhs| + i;
      if k < |a| {
        assert m < |s|;
      }
    }
  }

  /** After any number of publishes the queue holds the newest (at most two) frames of all it was given. */
  lemma {:induction false} PublishAllKeepsNewest(q: seq<Frame>, fs: seq<Frame>)
    requires |q| <= QueueCapacity
    ensures PublishAll(q, fs) == Newest(q + fs, QueueCapacity)
    decreases |fs|
  {
    if fs == [] {
      assert q + fs == q;
    } else {
      PublishAllKeepsNewest(Publish(q, fs[0]), fs[1..]);
      PublishKeepsNewest(q, fs[0]);
      NewestOfNewest(q + [fs[0]], fs[1..], QueueCapacity);
      assert q + [fs[0]] + fs[1..] == q + fs;
    }
  }

  /** A frame published to an empty queue is the next one polled. */
  lemma PublishThenPoll(f: Frame)
    ensures Poll(Publish([], f)) == Polled(Some(f), [])
  {
    assert Publish([], f) == [f];
  }

  /**
   * Two publishes before a poll: the poll returns the FIRST (older) frame,
   * since both fit in the two slots; a third publish evicts the first.
   */
  lemma PollReturnsOldest(f1: Frame, f2: Frame, f3: Frame)
    ensures Poll(Publish(Publish([], f1), f2)) == Polled(Some(f1), [f2])
    ensures Publish(Publish(Publish([], f1), f2), f3) == [f2, f3]
  {
    assert Publish([], f1) == [f1];
    assert Publish([f1], f2) == [f1, f2];
    assert Poll([f1, f2]) == Polled(Some(f1), [f2]);
    assert Publish([f1, f2], f3) == [f2, f3];
  }

  // ---------------------------------------------------------------------
  // The capture worker: opening with retries
  // ---------------------------------------------------------------------

  const MaxOpenRetries: nat := 3
  const MaxConsecutiveFailures: nat := 10

  /**
   * What the worker observes at the i-th check of the open loop: whether
   * the stop flag is set, and whether the i-th open attempt would succeed.
   */
  datatype OpenTry = OpenTry(stopSet: bool, succeeds: bool)

  datatype OpenEnd = Opened | StoppedWhileOpening | GaveUp

  /** How the open loop ended, the open attempts it made and the retry delays it slept. */
  datatype OpenOutcome = OpenOutcome(end: OpenEnd, attempts: nat, delays: nat)

  /**
   * The open loop from `retry` failed attempts on.  At most three attempts
   * are made; a delay follows each failed attempt except the third, so
   * there is never a delay after the last attempt.
   */
  function OpenLoop(tries: seq<OpenTry>, retry: nat): (o: OpenOutcome)
    requires |tries| == MaxOpenRetries && retry < MaxOpenRetries
    ensures retry <= o.attempts <= MaxOpenRetries
    ensures o.end != StoppedWhileOpening ==> o.attempts >= 1 && o.delays == o.attempts - 1
    ensures o.end == StoppedWhileOpening ==>
      o.attempts < MaxOpenRetries && o.delays == o.attempts && tries[o.attempts].stopSet
    ensures o.end == GaveUp <==>
      forall i :: retry <= i < MaxOpenRetries ==> !tries[i].stopSet && !tries[i].succeeds
    ensures o.end == Opened ==> tries[o.attempts - 1].succeeds && !tries[o.attempts - 1].stopSet
    ensures forall i :: retry <= i < o.attempts && (o.end != Opened || i < o.attempts - 1) ==>
      !tries[i].stopSet && !tries[i].succeeds
    decreases MaxOpenRetries - retry
  {
    if tries[retry].stopSet then OpenOutcome(StoppedWhileOpening, retry, retry)
    else if tries[retry].succeeds then OpenOutcome(Opened, retry + 1, retry)
    else if retry + 1 < MaxOpenRetries then OpenLoop(tries, retry + 1)
    else OpenOutcome(GaveUp, MaxOpenRetries, MaxOpenRetries - 1)
  }

  /** A stop flag already set at the first check means no open is attempted at all. */
  lemma StopBeforeOpenAttemptsNothing(tries: seq<OpenTry>)
    requires |tries| == MaxOpenRetries && tries[0].stopSet
    ensures OpenLoop(tries, 0) == OpenOutcome(StoppedWhileOpening, 0, 0)
  {
  }

  // ---------------------------------------------------------------------
  // The capture worker: the read loop
  // ---------------------------------------------------------------------

  /** One `cap.read()`: a frame, no frame (`ret` false or `None`), or an exception. */
  datatype ReadOutcome = Got(image: Image) | NoFrame | ReadRaised

  /** One iteration of the read loop: the stop flag at its check and the read it would do. */
  datatype Tick = Tick(stopSet: bool, read: ReadOutcome)

  /** A tick that reaches the read and fails. */
  predicate IsFailedRead(t: Tick) {
    !t.stopSet && !t.read.Got?
  }

  /** `StillRunning`: the ticks given ran out and the loop would go on. */
  datatype ReadEnd = StopObserved | TooManyFailures | StillRunning

  /**
   * How a run of the read loop ended, the consecutive-failure counter at
   * the end, the camera's queue at the end (`None` if it has none) and the
   * frames read successfully, in order, after rotation.
   */
  datatype ReadRun = ReadRun(end: ReadEnd, failures: nat, queue: Option<seq<Frame>>, captured: seq<Frame>)

  predicate QueueFits(q: Option<seq<Frame>>) {
    q.Some? ==> |q.value| <= QueueCapacity
  }

  /** The queues with camera `camId`'s queue set to `q` when it is present. */
  function StoreQueue(queues: map<int, seq<Frame>>, camId: int, q: Option<seq<Frame>>): map<int, seq<Frame>> {
    if q.Some? then queues[camId := q.value] else queues
  }

  function PublishTo(q: Option<seq<Frame>>, f: Frame): (r: Option<seq<Frame>>)
    requires QueueFits(q)
    ensures QueueFits(r) && (r.Some? <==> q.Some?)
  {
    if q.Some? then Some(Publish(q.value, f)) else None
  }

  /** A run preceded by the frames `c` captured before it. */
  function AfterCaptures(c: seq<Frame>, r: ReadRun): ReadRun {
    r.(captured := c + r.captured)
  }

  lemma AfterCapturesTwice(a: seq<Frame>, b: seq<Frame>, r: ReadRun)
    ensures AfterCaptures(a, AfterCaptures(b, r)) == AfterCaptures(a + b, r)
  {
    assert a + (b + r.captured) == a + b + r.captured;
  }

  /**
   * The read loop from a counter value of `failures` on.  A successful read
   * resets the counter to 0 and publishes the rotated frame (when the camera
   * still has a queue); a failed read increments it, and the loop ends when
   * it reaches 10.  The queue at the end holds the newest frames captured.
   */
  function ReadLoop(rot: Rotation, ticks: seq<Tick>, failures: nat, queue: Option<seq<Frame>>): (r: ReadRun)
    requires failures < MaxConsecutiveFailures && QueueFits(queue)
    ensures r.failures <= MaxConsecutiveFailures
    ensures r.end == TooManyFailures <==> r.failures == MaxConsecutiveFailures
    ensures r.queue.Some? <==> queue.Some?
    ensures QueueFits(r.queue)
    decreases |ticks|
  {
    if ticks == [] then ReadRun(StillRunning, failures, queue, [])
    else if ticks[0].stopSet then ReadRun(StopObserved, failures, queue, [])
    else match ticks[0].read
      case Got(image) =>
        var f := Frame(image, rot);
        AfterCaptures([f], ReadLoop(rot, ticks[1..], 0, PublishTo(queue, f)))
      case _ =>
        if failures + 1 == MaxConsecutiveFailures then ReadRun(TooManyFailures, failures + 1, queue, [])
        else ReadLoop(rot, ticks[1..], failures + 1, queue)
  }

  /** The queue a run leaves behind holds the newest (at most two) of the frames it held and the frames captured. */
  lemma {:induction false} ReadLoopKeepsNewest(rot: Rotation, ticks: seq<Tick>, failures: nat, queue: Option<seq<Frame>>)
    requires failures < MaxConsecutiveFailures && QueueFits(queue)
    ensures var r := ReadLoop(rot, ticks, failures, queue);
      queue.Some? ==> r.queue.value == Newest(queue.value + r.captured, QueueCapacity)
    decreases |ticks|
  {
    var r := ReadLoop(rot, ticks, failures, queue);
    if ticks == [] || ticks[0].stopSet {
      assert r.captured == [];
      assert queue.Some? ==> queue.value + r.captured == queue.value;
    } else if ticks[0].read.Got? {
      var f := Frame(ticks[0].read.image, rot);
      var q1 := PublishTo(queue, f);
      ReadLoopKeepsNewest(rot, ticks[1..], 0, q1);
      var r1 := ReadLoop(rot, ticks[1..], 0, q1);
      NewestAfterPublish(queue, f, r1.captured);
    } else if failures + 1 < MaxConsecutiveFailures {
      ReadLoopKeepsNewest(rot, ticks[1..], failures + 1, queue);
    } else {
      assert queue.Some? ==> queue.value + r.captured == queue.value;
    }
  }

  predicate AllRotated(fs: seq<Frame>, rot: Rotation) {
    forall i :: 0 <= i < |fs| ==> fs[i].rotation == rot
  }

  /** Every frame captured carries the configured rotation. */
  lemma {:induction false} ReadLoopRotates(rot: Rotation, ticks: seq<Tick>, failures: nat, queue: Option<seq<Frame>>)
    requires failures < MaxConsecutiveFailures && QueueFits(queue)
    ensures AllRotated(ReadLoop(rot, ticks, failures, queue).captured, rot)
    decreases |ticks|
  {
    if ticks != [] && !ticks[0].stopSet {
      if ticks[0].read.Got? {
        var f := Frame(ticks[0].read.image, rot);
        ReadLoopRotates(rot, ticks[1..], 0, PublishTo(queue, f));
        var r1 := ReadLoop(rot, ticks[1..], 0, PublishTo(queue, f));
        assert ReadLoop(rot, ticks, failures, queue).captured == [f] + r1.captured;
      } else if failures + 1 < MaxConsecutiveFailures {
        ReadLoopRotates(rot, ticks[1..], failures + 1, queue);
      }
    }
  }

  lemma NewestAfterPublish(q: Option<seq<Frame>>, f: Frame, rest: seq<Frame>)
    requires QueueFits(q)
    ensures q.Some? ==> Newest(Publish(q.value, f) + rest, QueueCapacity) == Newest(q.value + ([f] + rest), QueueCapacity)
  {
    if q.Some? {
      PublishKeepsNewest(q.value, f);
      NewestOfNewest(q.value + [f], rest, QueueCapacity);
      assert q.value + [f] + rest == q.value + ([f] + rest);
    }
  }

  /** `k` consecutive ticks from index `j` on all reach the read and fail. */
  predicate FailedRun(ticks: seq<Tick>, j: nat, k: nat) {
    j + k <= |ticks| && forall i :: j <= i < j + k ==> IsFailedRead(ticks[i])
  }

  /** Failed reads that stay below the limit only advance the counter: nothing else happens. */
  lemma {:induction false} FailedReadsOnlyCount(rot: Rotation, ticks: seq<Tick>, failures: nat, k: nat, queue: Option<seq<Frame>>)
    requires failures + k < MaxConsecutiveFailures && QueueFits(queue)
    requires FailedRun(ticks, 0, k)
    ensures ReadLoop(rot, ticks, failures, queue) == ReadLoop(rot, ticks[k..], failures + k, queue)
    decreases k
  {
    if k > 0 {
      assert IsFailedRead(ticks[0]);
      assert FailedRun(ticks[1..], 0, k - 1) by {
        forall i | 0 <= i < k - 1 ensures IsFailedRead(ticks[1..][i]) {
          assert ticks[1..][i] == ticks[i + 1];
        }
      }
      FailedReadsOnlyCount(rot, ticks[1..], failures + 1, k - 1, queue);
      assert ticks[1..][k - 1..] == ticks[k..];
    }
  }

  /** Enough consecutive failed reads to bring the counter to 10 end the loop. */
  lemma {:induction false} FailedReadsReachLimit(rot: Rotation, ticks: seq<Tick>, failures: nat, queue: Option<seq<Frame>>)
    requires failures < MaxConsecutiveFailures && QueueFits(queue)
    requires FailedRun(ticks, 0, MaxConsecutiveFailures - failures)
    ensures ReadLoop(rot, ticks, failures, queue).end == TooManyFailures
    ensures ReadLoop(rot, ticks, failures, queue).captured == []
  {
    var k := MaxConsecutiveFailures - failures - 1;
    assert FailedRun(ticks, 0, k);
    FailedReadsOnlyCount(rot, ticks, failures, k, queue);
    assert ticks[k..][0] == ticks[k];
    assert IsFailedRead(ticks[k]);
  }

  /**
   * Conversely, the loop ends for failures only after that many
   * consecutive failed reads: either the first ones, which bring the
   * initial counter to 10, or ten in a row somewhere later.
   */
  lemma {:induction false} TooManyFailuresNeedsFailedRun(rot: Rotation, ticks: seq<Tick>, failures: nat, queue: Option<seq<Frame>>)
    requires failures < MaxConsecutiveFailures && QueueFits(queue)
    requires ReadLoop(rot, ticks, failures, queue).end == TooManyFailures
    ensures FailedRun(ticks, 0, MaxConsecutiveFailures - failures) ||
            exists j :: 0 < j && FailedRun(ticks, j, MaxConsecutiveFailures)
    decreases |ticks|
  {
    assert ticks != [] && !ticks[0].stopSet;
    var rest := ticks[1..];
    if ticks[0].read.Got? {
      var f := Frame(ticks[0].read.image, rot);
      TooManyFailuresNeedsFailedRun(rot, rest, 0, PublishTo(queue, f));
      if FailedRun(rest, 0, MaxConsecutiveFailures) {
        ShiftFailedRun(ticks, 0, MaxConsecutiveFailures);
      } else {
        var j: nat :| 0 < j && FailedRun(rest, j, MaxConsecutiveFailures);
        ShiftFailedRun(ticks, j, MaxConsecutiveFailures);
      }
    } else if failures + 1 < MaxConsecutiveFailures {
      TooManyFailuresNeedsFailedRun(rot, rest, failures + 1, queue);
      if FailedRun(rest, 0, MaxConsecutiveFailures - failures - 1) {
        PrependFailedRead(ticks, MaxConsecutiveFailures - failures - 1);
      } else {
        var j: nat :| 0 < j && FailedRun(rest, j, MaxConsecutiveFailures);
        ShiftFailedRun(ticks, j, MaxConsecutiveFailures);
      }
    }
  }

  lemma ShiftFailedRun(ticks: seq<Tick>, j: nat, k: nat)
    requires ticks != [] && FailedRun(ticks[1..], j, k)
    ensures FailedRun(ticks, j + 1, k)
  {
    forall i | j + 1 <= i < j + 1 + k ensures IsFailedRead(ticks[i]) {
      assert ticks[i] == ticks[1..][i - 1];
    }
  }

  lemma PrependFailedRead(ticks: seq<Tick>, k: nat)
    requires ticks != [] && IsFailedRead(ticks[0]) && FailedRun(ticks[1..], 0, k)
    ensures FailedRun(ticks, 0, k + 1)
  {
    forall i | 1 <= i < k + 1 ensures IsFailedRead(ticks[i]) {
      assert ticks[i] == ticks[1..][i - 1];
    }
  }

  function FailedTicks(k: nat): (ts: seq<Tick>)
    ensures |ts| == k && forall i :: 0 <= i < k ==> ts[i] == Tick(false, NoFrame)
  {
    seq(k, _ => Tick(false, NoFrame))
  }

  /**
   * Nine failed reads and then a success: the loop keeps running, the
   * counter is back at 0 and the frame is published, exactly as if the
   * failures had not happened.
   */
  lemma NineFailuresThenSuccessContinues(rot: Rotation, image: Image, rest: seq<Tick>, queue: Option<seq<Frame>>)
    requires QueueFits(queue)
    ensures var ticks := FailedTicks(9) + [Tick(false, Got(image))] + rest;
            ReadLoop(rot, ticks, 0, queue) == ReadLoop(rot, [Tick(false, Got(image))] + rest, 0, queue)
    ensures ReadLoop(rot, FailedTicks(9) + [Tick(false, Got(image))], 0, queue).end == StillRunning
    ensures ReadLoop(rot, FailedTicks(9) + [Tick(false, Got(image))], 0, queue).failures == 0
  {
    var ticks := FailedTicks(9) + [Tick(false, Got(image))] + rest;
    assert FailedRun(ticks, 0, 9) by {
      forall i | 0 <= i < 9 ensures IsFailedRead(ticks[i]) { assert ticks[i] == FailedTicks(9)[i]; }
    }
    FailedReadsOnlyCount(rot, ticks, 0, 9, queue);
    assert ticks[9..] == [Tick(false, Got(image))] + rest;
    var short := FailedTicks(9) + [Tick(false, Got(image))];
    assert FailedRun(short, 0, 9) by {
      forall i | 0 <= i < 9 ensures IsFailedRead(short[i]) { assert short[i] == FailedTicks(9)[i]; }
    }
    FailedReadsOnlyCount(rot, short, 0, 9, queue);
    assert short[9..] == [Tick(false, Got(image))];
    var q1 := PublishTo(queue, Frame(image, rot));
    assert ReadLoop(rot, [Tick(false, Got(image))], 9, queue).end == ReadLoop(rot, [], 0, q1).end;
  }

  /** Ten failed reads with no success in between end the loop. */
  lemma TenFailuresStop(rot: Rotation, rest: seq<Tick>, queue: Option<seq<Frame>>)
    requires QueueFits(queue)
    ensures ReadLoop(rot, FailedTicks(10) + rest, 0, queue).end == TooManyFailures
  {
    var ticks := FailedTicks(10) + rest;
    assert FailedRun(ticks, 0, 10) by {
      forall i | 0 <= i < 10 ensures IsFailedRead(ticks[i]) { assert ticks[i] == FailedTicks(10)[i]; }
    }
    FailedReadsReachLimit(rot, ticks, 0, queue);
  }

  // ---------------------------------------------------------------------
  // The whole worker
  // ---------------------------------------------------------------------

  /**
   * A worker's report: `Unconfigured` when its camera id is not configured
   * (the lookup before the `try` raises), otherwise the open loop's outcome
   * and, if the camera opened, the read loop's run.
   */
  datatype WorkerReport = Unconfigured | WorkerReport(open: OpenOutcome, run: Option<ReadRun>)

  /** `_capture_frames` for a configured camera. */
  function Worker(cfg: CameraConfig, tries: seq<OpenTry>, ticks: seq<Tick>, queue: Option<seq<Frame>>): (rep: WorkerReport)
    requires |tries| == MaxOpenRetries && QueueFits(queue)
    ensures rep.WorkerReport? && (rep.run.Some? <==> rep.open.end == Opened)
  {
    var o := OpenLoop(tries, 0);
    if o.end == Opened then WorkerReport(o, Some(ReadLoop(RotationFor(cfg.rotate), ticks, 0, queue)))
    else WorkerReport(o, None)
  }

  /** The thread is still inside its read loop. */
  predicate StillRunningReport(rep: WorkerReport) {
    rep.WorkerReport? && rep.run.Some? && rep.run.value.end == StillRunning
  }

  /** A camera that cannot be opened in three attempts never publishes a frame. */
  lemma GaveUpPublishesNothing(cfg: CameraConfig, tries: seq<OpenTry>, ticks: seq<Tick>, queue: Option<seq<Frame>>)
    requires |tries| == MaxOpenRetries && QueueFits(queue)
    requires forall i :: 0 <= i < MaxOpenRetries ==> tries[i] == OpenTry(false, false)
    ensures Worker(cfg, tries, ticks, queue) == WorkerReport(OpenOutcome(GaveUp, 3, 2), None)
  {
  }

  // ---------------------------------------------------------------------
  // The manager
  // ---------------------------------------------------------------------

  /** An OpenCV capture object: what it opened and whether it is still open. */
  datatype Capture = Capture(target: OpenTarget, isOpen: bool)

  datatype CameraStatus = CameraStatus(
    id: int, name: string, running: bool, frameQueueSize: nat, enabled: bool, source: Source)

  /** `if k in m: del m[k]`. */
  function Forget<V>(m: map<int, V>, k: int): (r: map<int, V>)
    ensures r == m - {k}
  {
    if k in m then m - {k} else m
  }

  lemma EmptyMap<V>(m: map<int, V>)
    requires forall k :: k !in m
    ensures m == map[]
  {
    var empty: map<int, V> := map[];
    assert forall k :: k in m <==> k in empty;
    assert m.Keys == empty.Keys;
  }

  lemma RemoveAbsent<V>(m: map<int, V>, k: int)
    requires k !in m
    ensures m - {k} == m
  {
  }

  lemma RemoveSetRemove<V>(m: map<int, V>, k: int, v: V)
    ensures (m - {k})[k := v] - {k} == m - {k}
  {
  }

  lemma RemoveTwice<V>(m: map<int, V>, k: int)
    ensures m - {k} - {k} == m - {k}
  {
  }

  lemma SetTwice<V>(m: map<int, V>, k: int, v: V, w: V)
    ensures m[k := v][k := w] == m[k := w]
  {
  }

  lemma SetThenRemove<V>(m: map<int, V>, k: int, v: V)
    ensures m[k := v] - {k} == m - {k}
  {
  }

  lemma UpdateAfterRemove<V>(m: map<int, V>, k: int, v: V)
    ensures (m - {k})[k := v] == m[k := v]
  {
  }

  /** A non-empty set of camera ids has a member. */
  lemma HasMember(ids: set<int>)
    requires ids != {}
    ensures exists id :: id in ids
  {
    if forall id :: id !in ids {
      assert false;
    }
  }

  /** A dictionary lookup that may miss: `d.get(k)`. */
  function Lookup<V>(m: map<int, V>, k: int): (r: Option<V>)
    ensures r.Some? <==> k in m
    ensures r.Some? ==> r.value == m[k]
  {
    if k in m then Some(m[k]) else None
  }

  /** Everything the four registries hold for one camera. */
  datatype RegistryEntry = RegistryEntry(
    thread: Option<bool>, capture: Option<Capture>, stopEvent: Option<bool>, queue: Option<seq<Frame>>)

  /** The entry of a camera that has just been started: a live thread, no capture yet, an unset event, an empty queue. */
  const FreshEntry := RegistryEntry(Some(true), None, Some(false), Some([]))

  /** The entry of a camera with no registrations at all. */
  const EmptyEntry := RegistryEntry(None, None, None, None)

  /**
   * The registry invariant: a camera has a queue and a stop event exactly
   * when it has a registered thread, a capture object only then, and no
   * queue ever holds more than two frames.
   */
  ghost predicate Registered(
    threads: map<int, bool>, objects: map<int, Capture>, events: map<int, bool>, queues: map<int, seq<Frame>>)
  {
    && (forall id :: id in queues <==> id in threads)
    && (forall id :: id in events <==> id in threads)
    && (forall id :: id in objects ==> id in threads)
    && forall id :: id in queues ==> |queues[id]| <= QueueCapacity
  }

  /** A registered thread that ends its read loop keeps the registry invariant, with its capture and queue updated. */
  lemma RegisteredAfterRun(
    threads: map<int, bool>, objects: map<int, Capture>, events: map<int, bool>, queues: map<int, seq<Frame>>,
    id: int, alive: bool, c: Capture, q: Option<seq<Frame>>)
    requires Registered(threads, objects, events, queues) && id in threads && QueueFits(q)
    ensures Registered(threads[id := alive], objects[id := c], events, StoreQueue(queues, id, q))
  {
  }

  /** A registered thread that ends early keeps the registry invariant. */
  lemma RegisteredAfterExit(
    threads: map<int, bool>, objects: map<int, Capture>, events: map<int, bool>, queues: map<int, seq<Frame>>,
    id: int)
    requires Registered(threads, objects, events, queues) && id in threads
    ensures Registered(threads[id := false], objects, events, queues)
  {
  }

  class CameraManager {
    var cameras: map<int, CameraConfig>
    /** Registered capture threads; the value is `thread.is_alive()`. */
    var captureThreads: map<int, bool>
    var captureObjects: map<int, Capture>
    /** Stop events; the value is `event.is_set()`. */
    var stopEvents: map<int, bool>
    var frameQueues: map<int, seq<Frame>>

    /** The registry invariant on the manager's own dictionaries. */
    ghost predicate Valid()
      reads this
    {
      Registered(captureThreads, captureObjects, stopEvents, frameQueues)
    }

    /** `__init__` before its call to `load_config`: every dictionary empty. */
    constructor ()
      ensures Valid()
      ensures cameras == map[] && captureThreads == map[] && captureObjects == map[]
      ensures stopEvents == map[] && frameQueues == map[]
    {
      cameras, captureThreads, captureObjects := map[], map[], map[];
      stopEvents, frameQueues := map[], map[];
    }

    /**
     * `load_config`.  An unreadable document raises before anything
     * changes.  Otherwise the configuration is cleared first; a document
     * without a usable `cameras` list then raises with the table empty, and
     * a list is loaded entry by entry, a malformed entry raising with the
     * entries before it loaded.  `ok` is False exactly when it raises.
     */
    method LoadConfig(doc: ConfigDoc) returns (ok: bool)
      modifies this`cameras
      ensures doc.Unreadable? ==> !ok && cameras == old(cameras)
      ensures doc.NoList? ==> !ok && cameras == map[]
      ensures doc.Entries? ==> ok == (|LoadedConfigs(doc.entries)| == |doc.entries|)
      ensures doc.Entries? ==> cameras == ConfigMap(LoadedConfigs(doc.entries))
    {
      if doc.Unreadable? {
        return false;  // open or yaml.safe_load raises
      }
      cameras := map[];
      if doc.NoList? {
        return false;  // `config.get` on a non-mapping, or iterating a non-list
      }
      ok := LoadEntries(doc.entries);
    }

    /**
     * The entry loop of `load_config`, on a cleared table: each entry is
     * converted and stored under its id until one lacks a required key.
     */
    method LoadEntries(entries: seq<ConfigEntry>) returns (ok: bool)
      requires cameras == map[]
      modifies this`cameras
      ensures ok == (|LoadedConfigs(entries)| == |entries|)
      ensures cameras == ConfigMap(LoadedConfigs(entries))
    {
      ghost var loaded: seq<CameraConfig> := [];
      var i := 0;
      while i < |entries|
        invariant 0 <= i <= |entries| && |loaded| == i
        invariant forall k :: 0 <= k < i ==> ConfigFromEntry(entries[k]) == Some(loaded[k])
        invariant cameras == ConfigMap(loaded)
      {
        var c := ConfigFromEntry(entries[i]);
        if c.None? {
          SameLoaded(entries, loaded);
          return false;
        }
        ConfigMapStep(loaded, c.value);
        LoadedGrows(entries, loaded, c.value);
        loaded := loaded + [c.value];
        cameras := cameras[c.value.id := c.value];
        i := i + 1;
      }
      SameLoaded(entries, loaded);
      return true;
    }

    /** `start_camera` can go ahead: configured, enabled and validated. */
    predicate Startable(camId: int, probe: Probe)
      reads this
    {
      camId in cameras && cameras[camId].enabled && ValidateSource(cameras[camId].source, probe)
    }

    /**
     * `_cleanup_camera_thread`: sets the stop event, forgets the thread
     * (joining it is not modelled), releases and forgets the capture object,
     * drains and forgets the queue, and forgets the stop event.
     */
    method CleanupCameraThread(camId: int)
      requires Valid()
      modifies this
      ensures Valid()
      ensures cameras == old(cameras)
      ensures captureThreads == old(captureThreads) - {camId}
      ensures captureObjects == old(captureObjects) - {camId}
      ensures stopEvents == old(stopEvents) - {camId}
      ensures frameQueues == old(frameQueues) - {camId}
    {
      if camId in stopEvents {
        stopEvents := stopEvents[camId := true];
      }
      captureThreads := Forget(captureThreads, camId);
      captureObjects := Forget(captureObjects, camId);  // cap.release() first when it is open
      if camId in frameQueues {
        DrainQueue(camId);
        SetThenRemove(old(frameQueues), camId, []);
      }
      frameQueues := Forget(frameQueues, camId);
      stopEvents := Forget(stopEvents, camId);
    }

    /** The drain loop of `_cleanup_camera_thread`: `get_nowait` until the camera's queue is empty. */
    method DrainQueue(camId: int)
      requires camId in frameQueues
      modifies this`frameQueues
      ensures frameQueues == old(frameQueues)[camId := []]
    {
      while frameQueues[camId] != []
        invariant camId in frameQueues
        invariant frameQueues == old(frameQueues)[camId := frameQueues[camId]]
        decreases |frameQueues[camId]|
      {
        ghost var before := frameQueues;
        frameQueues := frameQueues[camId := Poll(frameQueues[camId]).rest];
        SetTwice(old(frameQueues), camId, before[camId], frameQueues[camId]);
      }
    }

    /**
     * `start_camera`.  `probe` is what the reachability check of a network
     * source would see; `spawnOk` says whether the thread starts (when
     * `thread.start()` raises, the camera is cleaned up and `False` returned).
     * A camera that is not configured, disabled or not validated is declined
     * and nothing changes; otherwise any earlier registration is cleaned up
     * first and a fresh empty queue, unset event and live thread registered.
     */
    method StartCamera(camId: int, probe: Probe, spawnOk: bool) returns (ok: bool)
      requires Valid()
      modifies this
      ensures Valid()
      ensures cameras == old(cameras)
      ensures ok <==> Startable(camId, probe) && spawnOk
      ensures !Startable(camId, probe) ==>
        && captureThreads == old(captureThreads) && captureObjects == old(captureObjects)
        && stopEvents == old(stopEvents) && frameQueues == old(frameQueues)
      ensures ok ==>
        && captureThreads == old(captureThreads)[camId := true]
        && frameQueues == old(frameQueues)[camId := []]
        && stopEvents == old(stopEvents)[camId := false]
        && captureObjects == old(captureObjects) - {camId}
      ensures Startable(camId, probe) && !spawnOk ==>
        && captureThreads == old(captureThreads) - {camId}
        && frameQueues == old(frameQueues) - {camId}
        && stopEvents == old(stopEvents) - {camId}
        && captureObjects == old(captureObjects) - {camId}
    {
      if camId !in cameras {
        return false;
      }
      var cfg := cameras[camId];
      if !cfg.enabled {
        return false;
      }
      if !ValidateSource(cfg.source, probe) {
        return false;
      }
      ok := LaunchThread(camId, spawnOk);
    }

    /** `start_camera`'s cleanup of a camera it is about to restart, done only when a thread is registered. */
    method CleanupIfRegistered(camId: int)
      requires Valid()
      modifies this
      ensures Valid()
      ensures cameras == old(cameras)
      ensures captureThreads == old(captureThreads) - {camId}
      ensures captureObjects == old(captureObjects) - {camId}
      ensures stopEvents == old(stopEvents) - {camId}
      ensures frameQueues == old(frameQueues) - {camId}
    {
      if camId in captureThreads {
        CleanupCameraThread(camId);
      } else {
        RemoveAbsent(captureThreads, camId);
        RemoveAbsent(captureObjects, camId);
        RemoveAbsent(stopEvents, camId);
        RemoveAbsent(frameQueues, camId);
      }
    }

    /**
     * The `try` block of `start_camera`: clean up any earlier registration,
     * then register a fresh empty queue, an unset stop event and the thread,
     * and start it; when starting fails, clean up again.
     */
    method LaunchThread(camId: int, spawnOk: bool) returns (ok: bool)
      requires Valid()
      modifies this
      ensures Valid()
      ensures cameras == old(cameras)
      ensures ok == spawnOk
      ensures ok ==>
        && captureThreads == old(captureThreads)[camId := true]
        && frameQueues == old(frameQueues)[camId := []]
        && stopEvents == old(stopEvents)[camId := false]
        && captureObjects == old(captureObjects) - {camId}
      ensures !ok ==>
        && captureThreads == old(captureThreads) - {camId}
        && frameQueues == old(frameQueues) - {camId}
        && stopEvents == old(stopEvents) - {camId}
        && captureObjects == old(captureObjects) - {camId}
    {
      CleanupIfRegistered(camId);
      RegisterThread(camId, spawnOk);
      if !spawnOk {
        CleanupCameraThread(camId);
        RemoveSetRemove(old(captureThreads), camId, false);
        RemoveSetRemove(old(stopEvents), camId, false);
        RemoveSetRemove(old(frameQueues), camId, []);
        RemoveTwice(old(captureObjects), camId);
        return false;
      }
      UpdateAfterRemove(old(captureThreads), camId, true);
      UpdateAfterRemove(old(stopEvents), camId, false);
      UpdateAfterRemove(old(frameQueues), camId, []);
      return true;
    }

    /**
     * Registers an empty queue, an unset stop event and the thread of camera
     * `camId`; `alive` says whether `thread.start()` went through.
     */
    method RegisterThread(camId: int, alive: bool)
      requires Valid()
      modifies this`frameQueues, this`stopEvents, this`captureThreads
      ensures Valid()
      ensures frameQueues == old(frameQueues)[camId := []]
      ensures stopEvents == old(stopEvents)[camId := false]
      ensures captureThreads == old(captureThreads)[camId := alive]
    {
      frameQueues := frameQueues[camId := []];
      stopEvents := stopEvents[camId := false];
      captureThreads := captureThreads[camId := alive];
    }

    /** `stop_camera`: `False` exactly when no thread is registered; otherwise the camera is cleaned up. */
    method StopCamera(camId: int) returns (ok: bool)
      requires Valid()
      modifies this
      ensures Valid()
      ensures ok <==> camId in old(captureThreads)
      ensures cameras == old(cameras)
      ensures ok ==>
        && captureThreads == old(captureThreads) - {camId}
        && captureObjects == old(captureObjects) - {camId}
        && stopEvents == old(stopEvents) - {camId}
        && frameQueues == old(frameQueues) - {camId}
      ensures !ok ==>
        && captureThreads == old(captureThreads) && captureObjects == old(captureObjects)
        && stopEvents == old(stopEvents) && frameQueues == old(frameQueues)
    {
      if camId in captureThreads {
        CleanupCameraThread(camId);
        return true;
      }
      return false;
    }

    /** `stop_all_cameras`: every registered camera is stopped, so every registry ends empty. */
    method StopAllCameras()
      requires Valid()
      modifies this
      ensures Valid()
      ensures cameras == old(cameras)
      ensures captureThreads == map[] && captureObjects == map[]
      ensures stopEvents == map[] && frameQueues == map[]
    {
      var ids := captureThreads.Keys;
      while ids != {}
        invariant Valid()
        invariant cameras == old(cameras)
        invariant forall id :: id in captureThreads <==> id in ids
        decreases ids
      {
        HasMember(ids);
        var id :| id in ids;
        var _ := StopCamera(id);
        ids := ids - {id};
      }
      EmptyMap(captureThreads);
      EmptyMap(captureObjects);
      EmptyMap(stopEvents);
      EmptyMap(frameQueues);
    }

    /** What the registries hold for camera `id`. */
    function Entry(id: int): RegistryEntry
      reads this
    {
      RegistryEntry(Lookup(captureThreads, id), Lookup(captureObjects, id), Lookup(stopEvents, id), Lookup(frameQueues, id))
    }

    /**
     * `start_all_cameras`: `start_camera` for every enabled configured camera.
     * A startable camera ends freshly started (or with no registrations when
     * its thread fails to start); every other camera keeps its registrations.
     */
    method StartAllCameras(probe: int -> Probe, spawnOk: int -> bool)
      requires Valid()
      modifies this
      ensures Valid()
      ensures cameras == old(cameras)
      ensures forall id ::
        Entry(id) == if !Startable(id, probe(id)) then old(Entry(id)) else if spawnOk(id) then FreshEntry else EmptyEntry
    {
      var todo := cameras.Keys;
      while todo != {}
        invariant Valid()
        invariant cameras == old(cameras)
        invariant todo <= cameras.Keys
        invariant forall id ::
          Entry(id) == if id in todo || !Startable(id, probe(id)) then old(Entry(id)) else if spawnOk(id) then FreshEntry else EmptyEntry
        decreases todo
      {
        HasMember(todo);
        var id :| id in todo;
        if cameras[id].enabled {
          var _ := StartCamera(id, probe(id), spawnOk(id));
        }
        todo := todo - {id};
      }
    }

    /**
     * The open loop of the capture thread: at most three attempts to open
     * `target`, stopping early when the stop flag is seen.  The capture
     * object is registered once an attempt succeeds.
     */
    method OpenCapture(camId: int, target: OpenTarget, tries: seq<OpenTry>) returns (o: OpenOutcome)
      requires |tries| == MaxOpenRetries
      modifies this`captureObjects
      ensures o == OpenLoop(tries, 0)
      ensures o.end == Opened ==> captureObjects == old(captureObjects)[camId := Capture(target, true)]
      ensures o.end != Opened ==> captureObjects == old(captureObjects)
    {
      var retryCount := 0;
      var delays := 0;
      while retryCount < MaxOpenRetries && !tries[retryCount].stopSet
        invariant 0 <= retryCount < MaxOpenRetries && delays == retryCount
        invariant OpenLoop(tries, 0) == OpenLoop(tries, retryCount)
        invariant captureObjects == old(captureObjects)
        decreases MaxOpenRetries - retryCount
      {
        if tries[retryCount].succeeds {
          captureObjects := captureObjects[camId := Capture(target, true)];
          return OpenOutcome(Opened, retryCount + 1, delays);
        }
        retryCount := retryCount + 1;
        if retryCount < MaxOpenRetries {
          delays := delays + 1;  // time.sleep(2)
        } else {
          return OpenOutcome(GaveUp, MaxOpenRetries, delays);
        }
      }
      return OpenOutcome(StoppedWhileOpening, retryCount, delays);
    }

    /**
     * The read loop of the capture thread, over the iterations `ticks`: each
     * frame read is rotated and published to the camera's queue while the
     * camera has one; ten consecutive failed reads end the loop.
     */
    method ReadFrames(camId: int, rot: Rotation, ticks: seq<Tick>) returns (run: ReadRun)
      requires QueueFits(Lookup(frameQueues, camId))
      modifies this`frameQueues
      ensures run == ReadLoop(rot, ticks, 0, Lookup(old(frameQueues), camId))
      ensures frameQueues == StoreQueue(old(frameQueues), camId, run.queue)
    {
      ghost var q0 := Lookup(frameQueues, camId);
      var queue := Lookup(frameQueues, camId);
      var failures := 0;
      var captured: seq<Frame> := [];
      var i := 0;
      while i < |ticks|
        invariant 0 <= i <= |ticks| && failures < MaxConsecutiveFailures
        invariant QueueFits(queue) && (queue.Some? <==> q0.Some?)
        invariant frameQueues == StoreQueue(old(frameQueues), camId, queue)
        invariant ReadLoop(rot, ticks, 0, q0) == AfterCaptures(captured, ReadLoop(rot, ticks[i..], failures, queue))
        decreases |ticks| - i
      {
        ghost var rest := ReadLoop(rot, ticks[i..], failures, queue);
        if ticks[i].stopSet {
          assert rest == ReadRun(StopObserved, failures, queue, []);
          return ReadRun(StopObserved, failures, queue, captured);
        }
        match ticks[i].read {
          case Got(image) =>
            var frame := Frame(image, rot);
            assert rest == AfterCaptures([frame], ReadLoop(rot, ticks[i + 1..], 0, PublishTo(queue, frame))) by {
              assert ticks[i..][1..] == ticks[i + 1..];
            }
            failures := 0;
            if camId in frameQueues {
              queue := Some(Publish(frameQueues[camId], frame));
              frameQueues := frameQueues[camId := queue.value];
            }
            AfterCapturesTwice(captured, [frame], ReadLoop(rot, ticks[i + 1..], 0, queue));
            captured := captured + [frame];
          case _ =>
            if failures + 1 == MaxConsecutiveFailures {
              assert rest == ReadRun(TooManyFailures, failures + 1, queue, []);
              return ReadRun(TooManyFailures, failures + 1, queue, captured);
            }
            assert rest == ReadLoop(rot, ticks[i + 1..], failures + 1, queue) by {
              assert ticks[i..][1..] == ticks[i + 1..];
            }
            failures := failures + 1;
        }
        i := i + 1;
      }
      return ReadRun(StillRunning, failures, queue, captured);
    }

    /**
     * The body of the capture thread of camera `camId`.  `tries` holds what
     * the three possible checks and open attempts of the open loop observe,
     * `ticks` what the iterations of the read loop observe.  The run is the
     * one `Worker` describes; the capture object is registered once opened
     * and released at the end, frames go to the camera's queue while it has
     * one, and the thread is alive afterwards only if its ticks ran out.
     */
    method CaptureFrames(camId: int, tries: seq<OpenTry>, ticks: seq<Tick>) returns (rep: WorkerReport)
      requires Valid() && camId in captureThreads
      requires |tries| == MaxOpenRetries
      modifies this
      ensures Valid()
      ensures cameras == old(cameras) && stopEvents == old(stopEvents)
      ensures camId !in cameras ==> rep == Unconfigured
      ensures camId in cameras ==> rep == Worker(cameras[camId], tries, ticks, Lookup(old(frameQueues), camId))
      ensures captureThreads == old(captureThreads)[camId := StillRunningReport(rep)]
      ensures captureObjects == if rep.WorkerReport? && rep.run.Some? then
        old(captureObjects)[camId := Capture(OpenTargetOf(cameras[camId].source), StillRunningReport(rep))]
        else old(captureObjects)
      ensures frameQueues == if rep.WorkerReport? && rep.run.Some? then
        StoreQueue(old(frameQueues), camId, rep.run.value.queue) else old(frameQueues)
    {
      if camId !in cameras {
        RegisteredAfterExit(captureThreads, captureObjects, stopEvents, frameQueues, camId);
        captureThreads := captureThreads[camId := false];
        return Unconfigured;
      }
      var cfg := cameras[camId];
      var target := OpenTargetOf(cfg.source);
      var o := OpenCapture(camId, target, tries);
      if o.end != Opened {
        RegisteredAfterExit(captureThreads, captureObjects, stopEvents, frameQueues, camId);
        captureThreads := captureThreads[camId := false];
        return WorkerReport(o, None);
      }
      var run := ReadFrames(camId, RotationFor(cfg.rotate), ticks);
      rep := WorkerReport(o, Some(run));
      var alive := run.end == StillRunning;
      var cap := Capture(target, alive);
      RegisteredAfterRun(old(captureThreads), old(captureObjects), stopEvents, old(frameQueues), camId, alive, cap, run.queue);
      SetTwice(old(captureObjects), camId, Capture(target, true), cap);
      captureObjects := captureObjects[camId := cap];  // finally: cap.release()
      captureThreads := captureThreads[camId := alive];
    }

    /** `get_frame`: the oldest queued frame, taken out; nothing for a camera without a queue or with an empty one. */
    method GetFrame(camId: int) returns (f: Option<Frame>)
      requires Valid()
      modifies this`frameQueues
      ensures Valid()
      ensures camId !in old(frameQueues) ==> f.None? && frameQueues == old(frameQueues)
      ensures camId in old(frameQueues) ==>
        && f == Poll(old(frameQueues)[camId]).frame
        && frameQueues == old(frameQueues)[camId := Poll(old(frameQueues)[camId]).rest]
      ensures f.None? ==> frameQueues == old(frameQueues)
    {
      if camId !in frameQueues {
        return None;
      }
      var p := Poll(frameQueues[camId]);
      frameQueues := frameQueues[camId := p.rest];
      f := p.frame;
    }

    /** `get_all_frames`: one `get_frame` per camera with a queue; cameras with an empty queue are left out. */
    method GetAllFrames() returns (frames: map<int, Frame>)
      requires Valid()
      modifies this`frameQueues
      ensures Valid()
      ensures forall id ::
        Lookup(frames, id) == if id in old(frameQueues) then Poll(old(frameQueues)[id]).frame else None
      ensures frameQueues.Keys == old(frameQueues).Keys
      ensures forall id :: id in frameQueues ==> frameQueues[id] == Poll(old(frameQueues)[id]).rest
    {
      frames := map[];
      var todo := frameQueues.Keys;
      while todo != {}
        invariant Valid()
        invariant todo <= frameQueues.Keys == old(frameQueues).Keys
        invariant forall id :: id in todo ==> frameQueues[id] == old(frameQueues)[id]
        invariant forall id :: id in frameQueues && id !in todo ==> frameQueues[id] == Poll(old(frameQueues)[id]).rest
        invariant forall id ::
          Lookup(frames, id) == if id in todo || id !in old(frameQueues) then None else Poll(old(frameQueues)[id]).frame
        decreases todo
      {
        HasMember(todo);
        var id :| id in todo;
        var f := GetFrame(id);
        if f.Some? {
          frames := frames[id := f.value];
        }
        todo := todo - {id};
      }
    }

    /**
     * `get_camera_status`: nothing for an unconfigured id; otherwise the
     * configured name, flag and source, the queue depth, and `running`,
     * which holds only while a registered thread is alive.
     */
    function GetCameraStatus(camId: int): (s: Option<CameraStatus>)
      reads this
      ensures s.None? <==> camId !in cameras
      ensures s.Some? ==>
        && s.value.id == camId && s.value.name == cameras[camId].name
        && s.value.enabled == cameras[camId].enabled && s.value.source == cameras[camId].source
      ensures s.Some? ==> (s.value.running <==> camId in captureThreads && captureThreads[camId])
      ensures s.Some? ==> s.value.frameQueueSize == if camId in frameQueues then |frameQueues[camId]| else 0
      ensures Valid() && s.Some? ==> s.value.frameQueueSize <= QueueCapacity
      ensures Valid() && s.Some? && s.value.running ==> camId in frameQueues && camId in stopEvents
    {
      if camId !in cameras then None
      else
        var c := cameras[camId];
        Some(CameraStatus(
          camId, c.name, camId in captureThreads && captureThreads[camId],
          if camId in frameQueues then |frameQueues[camId]| else 0, c.enabled, c.source))
    }

    /** `get_all_camera_status`, keyed by camera id (the list's order is not modelled). */
    function GetAllCameraStatus(): (all: map<int, CameraStatus>)
      reads this
      ensures all.Keys == cameras.Keys
      ensures forall id :: id in all ==> GetCameraStatus(id) == Some(all[id])
    {
      map id | id in cameras :: GetCameraStatus(id).value
    }

    /** The main window's "active" light for a camera: a registered thread, alive or not. */
    predicate UiShowsActive(camId: int)
      reads this
    {
      camId in captureThreads
    }
  }

  /**
   * A camera whose device never opens: `start_camera` still reports
   * success and creates its queue, because opening happens later in the
   * thread.  After the three failed attempts the status says not running,
   * while the main window, which only looks for a registered thread, still
   * shows the camera active and its queue is still there.
   */
  method OpenFailureScenario() returns (started: bool, running: bool, hasQueue: bool, uiActive: bool, rep: WorkerReport)
    ensures started && !running && hasQueue && uiActive
    ensures rep == WorkerReport(OpenOutcome(GaveUp, 3, 2), None)
  {
    var m := new CameraManager();
    var entry := ConfigEntry(Some(0), None, Some(DeviceIndex(7)), None,
                             Some(Resolution(Some(640), Some(480))), None, None);
    var loaded := m.LoadConfig(Entries([entry]));
    assert m.cameras[0].enabled;
    started := m.StartCamera(0, RequestFailed, true);
    rep := m.CaptureFrames(0, [OpenTry(false, false), OpenTry(false, false), OpenTry(false, false)], []);
    var status := m.GetCameraStatus(0);
    running := status.value.running;
    hasQueue := 0 in m.frameQueues;
    uiActive := m.UiShowsActive(0);
  }

  /**
   * A camera that opens and then fails ten reads in a row: the thread
   * stops, the status turns to not running, and the main window still
   * shows it active until someone calls `stop_camera`.
   */
  method ReadFailureScenario() returns (runningBefore: bool, runningAfter: bool, uiActive: bool, stopped: bool, uiActiveAfterStop: bool)
    ensures runningBefore && !runningAfter && uiActive && stopped && !uiActiveAfterStop
  {
    var m := new CameraManager();
    var entry := ConfigEntry(Some(1), Some("door"), Some(Address("rtsp://cam")), Some(true),
                             Some(Resolution(Some(1280), Some(720))), None, Some(90));
    var loaded := m.LoadConfig(Entries([entry]));
    assert IsNetworkSource(m.cameras[1].source) by {
      assert m.cameras[1].source.text[..4] == "rtsp";
    }
    var ok := m.StartCamera(1, Responded(200), true);
    runningBefore := m.GetCameraStatus(1).value.running;
    var rep := m.CaptureFrames(1, [OpenTry(false, true), OpenTry(false, true), OpenTry(false, true)], FailedTicks(10));
    TenFailuresStop(RotationFor(90), [], Some([]));
    assert FailedTicks(10) + [] == FailedTicks(10);
    runningAfter := m.GetCameraStatus(1).value.running;
    uiActive := m.UiShowsActive(1);
    stopped := m.StopCamera(1);
    uiActiveAfterStop := m.UiShowsActive(1);
  }
}
