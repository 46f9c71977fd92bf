/** Following the logs of several pods: one worker per pod, a bounded line channel, an error
    channel with one slot per pod, a closer, and a consumer that may stop at any time. */
module LogFanIn {

  const LINE_SLOTS := 64

  datatype LogLine = LogLine(pod: nat, text: string)

  datatype Worker = Opening | Scanning | Sending(text: string) | Failing | Finished

  datatype Closer = Waiting | LinesClosed | BothClosed

  /** `scanned[i]` are the lines worker `i` has read so far; `emitted` what the client was sent. */
  datatype State = State(
    workers: seq<Worker>, scanned: seq<seq<string>>,
    lines: seq<LogLine>, errors: seq<nat>,
    lineCloses: nat, errorCloses: nat, closer: Closer,
    cancelled: bool, consuming: bool, emitted: seq<LogLine>)

  datatype Event =
    | StreamOpened(i: nat) | StreamFailed(i: nat)
    | ScannedLine(i: nat, text: string) | ScanEnded(i: nat) | ScanFailed(i: nat)
    | SendLine(i: nat) | SeeCancel(i: nat) | SendError(i: nat)
    | CloseLines | CloseErrors
    | TakeLine | TakeError | Ping | Stop
    | Cancel

  function Start(pods: nat): State {
    State(seq(pods, _ => Opening), seq(pods, _ => []), [], [], 0, 0, Waiting, false, true, [])
  }

  predicate Is(s: State, i: nat, w: Worker) {
    i < |s.workers| && s.workers[i] == w
  }

  /** When a step can be taken. A send waits for a free slot; a select takes any ready case. */
  predicate Enabled(s: State, e: Event) {
    match e
    case StreamOpened(i) => Is(s, i, Opening)
    case StreamFailed(i) => Is(s, i, Opening)
    case ScannedLine(i, _) => Is(s, i, Scanning)
    case ScanEnded(i) => Is(s, i, Scanning)
    case ScanFailed(i) => Is(s, i, Scanning)
    case SendLine(i) => i < |s.workers| && s.workers[i].Sending? && |s.lines| < LINE_SLOTS
    case SeeCancel(i) => i < |s.workers| && s.workers[i].Sending? && s.cancelled
    case SendError(i) => Is(s, i, Failing) && |s.errors| < |s.workers|
    case CloseLines => s.closer == Waiting && forall i :: 0 <= i < |s.workers| ==> s.workers[i] == Finished
    case CloseErrors => s.closer == LinesClosed
    case TakeLine => s.consuming && s.lines != []
    case TakeError => s.consuming && s.errors != []
    case Ping => s.consuming
    case Stop => s.consuming && (s.cancelled || (s.lines == [] && s.lineCloses > 0) || (s.errors == [] && s.errorCloses > 0))
    case Cancel => true
  }

  /** Steps a runtime answers with a panic: sending on a closed channel, closing one twice. */
  predicate Panics(s: State, e: Event) {
    || (e.SendLine? && s.lineCloses > 0)
    || (e.SendError? && s.errorCloses > 0)
    || (e.CloseLines? && s.lineCloses > 0)
    || (e.CloseErrors? && s.errorCloses > 0)
  }

  function Apply(s: State, e: Event): State
    requires Enabled(s, e)
  {
    match e
    case StreamOpened(i) => s.(workers := s.workers[i := Scanning])
    case StreamFailed(i) => s.(workers := s.workers[i := Failing])
    case ScannedLine(i, text) =>
      if i < |s.scanned|
      then s.(workers := s.workers[i := Sending(text)], scanned := s.scanned[i := s.scanned[i] + [text]])
      else s
    case ScanEnded(i) => s.(workers := s.workers[i := Finished])
    case ScanFailed(i) => s.(workers := s.workers[i := Failing])
    case SendLine(i) => s.(workers := s.workers[i := Scanning], lines := s.lines + [LogLine(i, s.workers[i].text)])
    case SeeCancel(i) => s.(workers := s.workers[i := Finished])
    case SendError(i) => s.(workers := s.workers[i := Finished], errors := s.errors + [i])
    case CloseLines => s.(closer := LinesClosed, lineCloses := s.lineCloses + 1)
    case CloseErrors => s.(closer := BothClosed, errorCloses := s.errorCloses + 1)
    case TakeLine => s.(lines := s.lines[1..], emitted := s.emitted + [s.lines[0]])
    case TakeError => s.(errors := s.errors[1..])
    case Ping => s
    case Stop => s.(consuming := false, cancelled := true)
    case Cancel => s.(cancelled := true)
  }

  /** `t` is where the enabled steps `es`, taken one after the other, lead from `s`. */
  ghost predicate Run(s: State, es: seq<Event>, t: State)
    decreases |es|
  {
    if es == [] then s == t
    else Enabled(s, es[0]) && Run(Apply(s, es[0]), es[1..], t)
  }

  ghost predicate Reachable(pods: nat, t: State) {
    exists es :: Run(Start(pods), es, t)
  }

  // --- The invariant ---

  function CountFinished(ws: seq<Worker>): (n: nat)
    ensures n <= |ws|
  {
    if ws == [] then 0 else (if ws[0] == Finished then 1 else 0) + CountFinished(ws[1..])
  }

  lemma {:induction false} CountAfter(ws: seq<Worker>, i: nat, w: Worker)
    requires i < |ws|
    ensures CountFinished(ws[i := w]) == CountFinished(ws)
      + (if w == Finished then 1 else 0) - (if ws[i] == Finished then 1 else 0)
  {
    if i > 0 {
      assert ws[i := w][1..] == ws[1..][i - 1 := w];
      CountAfter(ws[1..], i - 1, w);
    } else {
      assert ws[i := w][1..] == ws[1..];
    }
  }

  lemma {:induction false} UnfinishedLeavesRoom(ws: seq<Worker>, i: nat)
    requires i < |ws| && ws[i] != Finished
    ensures CountFinished(ws) < |ws|
  {
    CountAfter(ws, i, Finished);
  }

  /** The texts of one pod, in order. */
  function Of(ls: seq<LogLine>, pod: nat): seq<string> {
    if ls == [] then []
    else Of(ls[..|ls| - 1], pod) + if ls[|ls| - 1].pod == pod then [ls[|ls| - 1].text] else []
  }

  lemma {:induction false} OfConcat(a: seq<LogLine>, b: seq<LogLine>, pod: nat)
    ensures Of(a + b, pod) == Of(a, pod) + Of(b, pod)
    decreases |b|
  {
    if b == [] {
      assert a + b == a;
    } else {
      assert (a + b)[..|a + b| - 1] == a + b[..|b| - 1];
      OfConcat(a, b[..|b| - 1], pod);
    }
  }

  /** How far what was sent for one pod lags behind what was scanned from it. */
  ghost predicate Tracks(w: Worker, sent: seq<string>, scanned: seq<string>) {
    match w
    case Opening => sent == [] && scanned == []
    case Scanning => sent == scanned
    case Sending(text) => sent + [text] == scanned
    case Failing => sent == scanned
    case Finished => sent <= scanned && |scanned| <= |sent| + 1
  }

  ghost predicate Inv(pods: nat, s: State) {
    && |s.workers| == |s.scanned| == pods
    && |s.lines| <= LINE_SLOTS && |s.errors| <= CountFinished(s.workers)
    && s.lineCloses == (if s.closer == Waiting then 0 else 1)
    && s.errorCloses == (if s.closer == BothClosed then 1 else 0)
    && (s.closer != Waiting ==> forall i :: 0 <= i < pods ==> s.workers[i] == Finished)
    && forall i :: 0 <= i < pods ==> Tracks(s.workers[i], Of(s.emitted + s.lines, i), s.scanned[i])
  }

  lemma StartInv(pods: nat)
    ensures Inv(pods, Start(pods))
  {
  }

  /** A step of worker `i` that sends nothing. */
  lemma QuietStepKeepsInv(pods: nat, s: State, i: nat, w: Worker, scanned: seq<string>)
    requires Inv(pods, s) && i < pods && s.workers[i] != Finished
    requires Tracks(w, Of(s.emitted + s.lines, i), scanned)
    ensures Inv(pods, s.(workers := s.workers[i := w], scanned := s.scanned[i := scanned]))
  {
    CountAfter(s.workers, i, w);
  }

  lemma SendKeepsInv(pods: nat, s: State, i: nat)
    requires Inv(pods, s) && Enabled(s, SendLine(i))
    ensures Inv(pods, Apply(s, SendLine(i)))
  {
    var t := Apply(s, SendLine(i));
    CountAfter(s.workers, i, Scanning);
    forall j | 0 <= j < pods ensures Tracks(t.workers[j], Of(t.emitted + t.lines, j), t.scanned[j]) {
      assert Tracks(s.workers[j], Of(s.emitted + s.lines, j), s.scanned[j]);
      SentLine(s, i, j);
    }
  }

  lemma SentLine(s: State, i: nat, j: nat)
    requires Enabled(s, SendLine(i))
    ensures
      var t := Apply(s, SendLine(i));
      Of(t.emitted + t.lines, j) == Of(s.emitted + s.lines, j) + if j == i then [s.workers[i].text] else []
  {
    var t := Apply(s, SendLine(i));
    var line := [LogLine(i, s.workers[i].text)];
    assert t.emitted + t.lines == (s.emitted + s.lines) + line;
    OfConcat(s.emitted + s.lines, line, j);
    assert Of(line, j) == if j == i then [s.workers[i].text] else [];
  }

  lemma SendErrorKeepsInv(pods: nat, s: State, i: nat)
    requires Inv(pods, s) && Enabled(s, SendError(i))
    ensures Inv(pods, Apply(s, SendError(i)))
  {
    CountAfter(s.workers, i, Finished);
  }

  lemma WorkerStepKeepsInv(pods: nat, s: State, e: Event)
    requires Inv(pods, s) && Enabled(s, e)
    requires e.StreamOpened? || e.StreamFailed? || e.ScannedLine? || e.ScanEnded? || e.ScanFailed? || e.SeeCancel?
    ensures Inv(pods, Apply(s, e))
  {
    var t := Apply(s, e);
    assert Tracks(s.workers[e.i], Of(s.emitted + s.lines, e.i), s.scanned[e.i]);
    QuietStepKeepsInv(pods, s, e.i, t.workers[e.i], t.scanned[e.i]);
    assert t == s.(workers := s.workers[e.i := t.workers[e.i]], scanned := s.scanned[e.i := t.scanned[e.i]]);
  }

  lemma StepKeepsInv(pods: nat, s: State, e: Event)
    requires Inv(pods, s) && Enabled(s, e)
    ensures Inv(pods, Apply(s, e))
  {
    if e.SendLine? {
      SendKeepsInv(pods, s, e.i);
    } else if e.SendError? {
      SendErrorKeepsInv(pods, s, e.i);
    } else if e.TakeLine? {
      assert Apply(s, e).emitted + Apply(s, e).lines == s.emitted + s.lines;
    } else if e.CloseLines? || e.CloseErrors? || e.TakeError? || e.Ping? || e.Stop? || e.Cancel? {
    } else {
      WorkerStepKeepsInv(pods, s, e);
    }
  }

  lemma {:induction false} RunKeepsInv(pods: nat, s: State, es: seq<Event>, t: State)
    requires Inv(pods, s) && Run(s, es, t)
    ensures Inv(pods, t)
    decreases |es|
  {
    if es != [] {
      StepKeepsInv(pods, s, es[0]);
      RunKeepsInv(pods, Apply(s, es[0]), es[1..], t);
    }
  }

  lemma ReachableInv(pods: nat, s: State)
    requires Reachable(pods, s)
    ensures Inv(pods, s)
  {
    var es :| Run(Start(pods), es, s);
    StartInv(pods);
    RunKeepsInv(pods, Start(pods), es, s);
  }

  // --- Safety ---

  /** No worker ever waits for the error channel, and no step panics. */
  lemma NeverBlocksOnErrorsNorPanics(pods: nat, s: State)
    requires Reachable(pods, s)
    ensures forall i :: Is(s, i, Failing) ==> Enabled(s, SendError(i))
    ensures forall e :: Enabled(s, e) ==> !Panics(s, e)
  {
    ReachableInv(pods, s);
    forall i | Is(s, i, Failing) ensures Enabled(s, SendError(i)) {
      UnfinishedLeavesRoom(s.workers, i);
    }
  }

  /** Each channel is closed at most once, the lines first, and only when every worker is done. */
  lemma ClosedOnceAfterWorkers(pods: nat, s: State)
    requires Reachable(pods, s)
    ensures s.errorCloses <= s.lineCloses <= 1
    ensures s.lineCloses > 0 ==> forall i :: 0 <= i < |s.workers| ==> s.workers[i] == Finished
  {
    ReachableInv(pods, s);
  }

  /** The lines the client got for a pod are a prefix, in order, of those scanned from it. */
  lemma EmittedIsPrefix(pods: nat, s: State, i: nat)
    requires Reachable(pods, s) && i < pods
    ensures i < |s.scanned| && Of(s.emitted, i) <= s.scanned[i]
  {
    ReachableInv(pods, s);
    OfConcat(s.emitted, s.lines, i);
    assert Tracks(s.workers[i], Of(s.emitted + s.lines, i), s.scanned[i]);
    assert Of(s.emitted, i) <= Of(s.emitted + s.lines, i) <= s.scanned[i];
  }

  /** Without cancellation a worker that is done has sent all it scanned. */
  ghost predicate AllSent(s: State) {
    !s.cancelled ==> forall i :: 0 <= i < |s.workers| && i < |s.scanned| && s.workers[i] == Finished ==>
      Of(s.emitted + s.lines, i) == s.scanned[i]
  }

  lemma StepKeepsAllSent(pods: nat, s: State, e: Event)
    requires Inv(pods, s) && AllSent(s) && Enabled(s, e)
    ensures AllSent(Apply(s, e))
  {
    var t := Apply(s, e);
    if !t.cancelled {
      forall i | 0 <= i < |t.workers| && t.workers[i] == Finished ensures Of(t.emitted + t.lines, i) == t.scanned[i] {
        assert Tracks(s.workers[i], Of(s.emitted + s.lines, i), s.scanned[i]);
        if e.SendLine? {
          SentLine(s, e.i, i);
        } else if e.TakeLine? {
          assert t.emitted + t.lines == s.emitted + s.lines;
        }
      }
    }
  }

  lemma {:induction false} RunKeepsAllSent(pods: nat, s: State, es: seq<Event>, t: State)
    requires Inv(pods, s) && AllSent(s) && Run(s, es, t)
    ensures AllSent(t)
    decreases |es|
  {
    if es != [] {
      StepKeepsInv(pods, s, es[0]);
      StepKeepsAllSent(pods, s, es[0]);
      RunKeepsAllSent(pods, Apply(s, es[0]), es[1..], t);
    }
  }

  /** As long as nothing is cancelled, no line is lost: what a finished pod wrote has been sent to
      the client or waits in the channel. */
  lemma NothingLostUncancelled(pods: nat, s: State, i: nat)
    requires Reachable(pods, s) && !s.cancelled && Is(s, i, Finished)
    ensures i < |s.scanned| && Of(s.emitted, i) + Of(s.lines, i) == s.scanned[i]
  {
    ReachableInv(pods, s);
    var es :| Run(Start(pods), es, s);
    StartInv(pods);
    RunKeepsAllSent(pods, Start(pods), es, s);
    OfConcat(s.emitted, s.lines, i);
  }

  lemma {:induction false} RunOneMore(s: State, es: seq<Event>, t: State, e: Event)
    requires Run(s, es, t) && Enabled(t, e)
    ensures Run(s, es + [e], Apply(t, e))
    decreases |es|
  {
    if es == [] {
      assert [e][1..] == [] && es + [e] == [e];
    } else {
      assert (es + [e])[0] == es[0] && (es + [e])[1..] == es[1..] + [e];
      RunOneMore(Apply(s, es[0]), es[1..], t, e);
    }
  }

  lemma Next(pods: nat, s: State, e: Event) returns (t: State)
    requires Reachable(pods, s) && Enabled(s, e)
    ensures t == Apply(s, e) && Reachable(pods, t)
  {
    var es :| Run(Start(pods), es, s);
    RunOneMore(Start(pods), es, s, e);
    t := Apply(s, e);
  }

  /** Only a prefix: the consumer may stop on the closed error channel with a line left. */
  lemma LinesCanBeDropped() returns (s: State)
    ensures Reachable(1, s) && !s.consuming && s.closer == BothClosed
    ensures s.emitted == [] && s.scanned == [["x"]] && s.lines == [LogLine(0, "x")]
  {
    s := Start(1);
    assert Run(s, [], s) && s.workers == [Opening] && s.scanned == [[]];
    s := Next(1, s, StreamOpened(0));
    assert s.workers == [Scanning] && s.scanned == [[]];
    assert s.scanned[0] + ["x"] == ["x"];
    s := Next(1, s, ScannedLine(0, "x"));
    assert s.scanned[0] == ["x"];
    assert s.workers == [Sending("x")] && s.scanned == [["x"]];
    s := Next(1, s, SendLine(0));
    assert s.workers == [Scanning] && s.lines == [LogLine(0, "x")];
    s := Next(1, s, ScanEnded(0));
    assert s.workers == [Finished];
    s := Next(1, s, CloseLines);
    s := Next(1, s, CloseErrors);
    s := Next(1, s, Stop);
  }

  // --- Termination after cancellation ---

  /** Steps of the workers and the closer. */
  predicate Background(e: Event) {
    !(e.TakeLine? || e.TakeError? || e.Ping? || e.Stop? || e.Cancel?)
  }

  function Work(w: Worker): nat {
    match w
    case Opening => 5
    case Scanning => 4
    case Sending(_) => 3
    case Failing => 2
    case Finished => 0
  }

  function TotalWork(ws: seq<Worker>): nat {
    if ws == [] then 0 else Work(ws[0]) + TotalWork(ws[1..])
  }

  lemma {:induction false} WorkAfter(ws: seq<Worker>, i: nat, w: Worker)
    requires i < |ws|
    ensures TotalWork(ws[i := w]) == TotalWork(ws) + Work(w) - Work(ws[i])
  {
    if i > 0 {
      assert ws[i := w][1..] == ws[1..][i - 1 := w];
      WorkAfter(ws[1..], i - 1, w);
    } else {
      assert ws[i := w][1..] == ws[1..];
    }
  }

  /** An upper bound on the background steps left when nothing is received any more. */
  function Remaining(s: State): int {
    2 * (LINE_SLOTS - |s.lines|) + TotalWork(s.workers)
    + match s.closer case Waiting => 2 case LinesClosed => 1 case BothClosed => 0
  }

  lemma BackgroundStepDecreases(pods: nat, s: State, e: Event)
    requires Inv(pods, s) && Enabled(s, e) && Background(e)
    ensures Remaining(Apply(s, e)) < Remaining(s)
  {
    var t := Apply(s, e);
    if !(e.CloseLines? || e.CloseErrors?) {
      WorkAfter(s.workers, e.i, t.workers[e.i]);
    }
  }

  /** Every run of background steps is at most `Remaining` long. */
  lemma {:induction false} BackgroundRunsAreBounded(pods: nat, s: State, es: seq<Event>, t: State)
    requires Inv(pods, s) && Run(s, es, t) && forall e :: e in es ==> Background(e)
    ensures 0 <= |es| <= Remaining(s) - Remaining(t) && 0 <= Remaining(t)
    ensures Inv(pods, t) && (s.cancelled ==> t.cancelled)
    decreases |es|
  {
    if es != [] {
      StepKeepsInv(pods, s, es[0]);
      BackgroundStepDecreases(pods, s, es[0]);
      BackgroundRunsAreBounded(pods, Apply(s, es[0]), es[1..], t);
    }
  }

  /** After cancellation some background step is possible until both channels are closed. */
  lemma CancelledMakesProgress(pods: nat, s: State)
    requires Inv(pods, s) && s.cancelled && s.closer != BothClosed
    ensures exists e :: Background(e) && Enabled(s, e)
  {
    if s.closer == LinesClosed {
      assert Enabled(s, CloseErrors) && Background(CloseErrors);
    } else if i :| 0 <= i < |s.workers| && s.workers[i] != Finished {
      var e := if s.workers[i].Opening? then StreamOpened(i)
        else if s.workers[i].Scanning? then ScanEnded(i)
        else if s.workers[i].Sending? then SeeCancel(i)
        else SendError(i);
      UnfinishedLeavesRoom(s.workers, i);
      assert Enabled(s, e) && Background(e);
    } else {
      assert Enabled(s, CloseLines) && Background(CloseLines);
    }
  }

  /** Shutdown: from any reachable cancelled state, however the runtime schedules the workers
      and the closer and even if the consumer never receives again, they come to rest within
      `Remaining` steps, and at rest every worker is done and both channels are closed. */
  lemma CancelledRunsShutDown(pods: nat, s: State, es: seq<Event>, t: State)
    requires Reachable(pods, s) && s.cancelled
    requires Run(s, es, t) && forall e :: e in es ==> Background(e)
    ensures |es| <= Remaining(s)
    ensures (forall e :: Background(e) ==> !Enabled(t, e)) ==>
      t.lineCloses == 1 && t.errorCloses == 1 && forall i :: 0 <= i < |t.workers| ==> t.workers[i] == Finished
  {
    ReachableInv(pods, s);
    BackgroundRunsAreBounded(pods, s, es, t);
    if t.closer != BothClosed { CancelledMakesProgress(pods, t); }
  }

  // --- Delivery ---

  /** At most 64 lines and one error per pod wait in the channels. */
  lemma ChannelsAreBounded(pods: nat, s: State)
    requires Reachable(pods, s)
    ensures |s.lines| <= 64 && |s.errors| <= pods
  {
    ReachableInv(pods, s);
  }

  function Copies(text: string, n: nat): seq<LogLine> {
    seq(n, _ => LogLine(0, text))
  }

  /** Up to sixty-four lines can wait while nobody receives. */
  lemma {:induction false} ChannelFills(text: string, n: nat) returns (s: State)
    requires n <= 64
    ensures Reachable(1, s) && s.workers == [Scanning] && s.lines == Copies(text, n)
    ensures s.consuming && !s.cancelled && |s.scanned| == 1 && s.errors == []
    decreases n
  {
    if n == 0 {
      s := Opened();
    } else {
      s := ChannelFills(text, n - 1);
      s := Next(1, s, ScannedLine(0, text));
      s := Next(1, s, SendLine(0));
      assert Copies(text, n - 1) + [LogLine(0, text)] == Copies(text, n);
    }
  }

  lemma Opened() returns (s: State)
    ensures Reachable(1, s) && s.workers == [Scanning] && s.scanned == [[]] && s.lines == [] && s.emitted == []
    ensures s.consuming && !s.cancelled && s.errors == [] && s.closer == Waiting && s.lineCloses == 0 && s.errorCloses == 0
  {
    s := Start(1);
    assert Run(s, [], s) && s.workers == [Opening] && s.scanned == [[]];
    s := Next(1, s, StreamOpened(0));
  }

  /** Nothing stands in the way of a complete delivery: whatever lines a pod writes, some run
      hands all of them to the client, in order. */
  lemma {:induction false} EveryLineCanArrive(texts: seq<string>) returns (s: State)
    ensures Reachable(1, s) && s.scanned == [texts] && Of(s.emitted, 0) == texts && |s.emitted| == |texts|
    ensures s.workers == [Scanning] && s.lines == [] && s.consuming && !s.cancelled && s.errors == []
    ensures s.closer == Waiting && s.lineCloses == 0 && s.errorCloses == 0
    decreases |texts|
  {
    if texts == [] {
      s := Opened();
    } else {
      var n := |texts| - 1;
      s := EveryLineCanArrive(texts[..n]);
      var emitted := s.emitted;
      s := Next(1, s, ScannedLine(0, texts[n]));
      s := Next(1, s, SendLine(0));
      s := Next(1, s, TakeLine);
      assert s.emitted == emitted + [LogLine(0, texts[n])];
      assert texts == texts[..n] + [texts[n]] && s.emitted[..n] == emitted;
    }
  }

  /** And the run can end with both channels closed and the client told. */
  lemma DeliveryCanEnd(texts: seq<string>) returns (s: State)
    ensures Reachable(1, s) && s.scanned == [texts] && Of(s.emitted, 0) == texts
    ensures s.workers == [Finished] && s.lineCloses == 1 && s.errorCloses == 1 && !s.consuming
  {
    var arrived := EveryLineCanArrive(texts);
    s := ClosesAfter(arrived);
  }

  /** The end of the only stream, then both closes, then the consumer's return. */
  lemma ClosesAfter(arrived: State) returns (s: State)
    requires Reachable(1, arrived) && arrived.workers == [Scanning] && arrived.lines == [] && arrived.consuming
    requires arrived.closer == Waiting && arrived.lineCloses == 0 && arrived.errorCloses == 0
    ensures Reachable(1, s) && s.scanned == arrived.scanned && s.emitted == arrived.emitted
    ensures s.workers == [Finished] && s.lineCloses == 1 && s.errorCloses == 1 && !s.consuming
  {
    s := Next(1, arrived, ScanEnded(0));
    assert s == arrived.(workers := [Finished]);
    s := Next(1, s, CloseLines);
    s := Next(1, s, CloseErrors);
    s := Next(1, s, Stop);
  }

  /** A stream that fails, at opening or while it is read, reports its pod. */
  lemma FailureIsReported(reading: bool) returns (s: State)
    ensures Reachable(1, s) && s.errors == [0] && s.workers == [Finished] && Enabled(s, TakeError)
  {
    s := Start(1);
    assert Run(s, [], s) && s.workers == [Opening];
    if reading {
      s := Next(1, s, StreamOpened(0));
      s := Next(1, s, ScanFailed(0));
    } else {
      s := Next(1, s, StreamFailed(0));
    }
    assert s.workers == [Failing];
    s := Next(1, s, SendError(0));
  }
}
