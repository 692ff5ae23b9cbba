/** `YouTubePlayerView`: the view's state, the host's calls on it, the
    messages the page sends back through the JavaScript bridge, the
    lifecycle events it observes, and runs of all of these in order.

    Every outbound call is recorded in the view's command log; every
    listener callback and every `whenReady` callback is an effect of the
    step that caused it. */
module PlayerView {
  import opened Wrappers
  import opened Decimal
  import opened Player
  import opened Listeners
  import PlayerOptions
  import Transport

  type LifecycleId = nat

  // ---------------------------------------------------------------- state codes

  /** The bridge's table from the page's numeric state codes to `PlayerState`;
      any code outside the table, 4 included, is `Unknown`. */
  function StateOfCode(code: Int32): (s: PlayerState)
    ensures s == Unstarted <==> code == -1
    ensures s == Ended <==> code == 0
    ensures s == Playing <==> code == 1
    ensures s == Paused <==> code == 2
    ensures s == Buffering <==> code == 3
    ensures s == VideoCued <==> code == 5
  {
    match code
    case -1 => Unstarted
    case 0 => Ended
    case 1 => Playing
    case 2 => Paused
    case 3 => Buffering
    case 5 => VideoCued
    case _ => Unknown
  }

  /** The code the page reports for a state; `Unknown` has none. */
  function CodeOfState(s: PlayerState): Option<Int32> {
    match s
    case Unknown => None
    case Unstarted => Some(-1)
    case Ended => Some(0)
    case Playing => Some(1)
    case Paused => Some(2)
    case Buffering => Some(3)
    case VideoCued => Some(5)
  }

  /** The table is a bijection between the six known states and their codes:
      every state but `Unknown` is reported by exactly one code. */
  lemma StateCodeRoundTrip(code: Int32, s: PlayerState)
    ensures StateOfCode(code) != Unknown ==> CodeOfState(StateOfCode(code)) == Some(code)
    ensures CodeOfState(s).Some? <==> s != Unknown
    ensures CodeOfState(s).Some? ==> StateOfCode(CodeOfState(s).value) == s
    ensures StateOfCode(code) == s && s != Unknown ==> CodeOfState(s) == Some(code)
  {
  }

  // ---------------------------------------------------------------- inputs

  /** The host's calls on the view. */
  datatype HostCall =
    | Initialize(listener: ListenerId, options: PlayerOptions.Options)
    | LoadVideo(videoId: string, startSeconds: real)
    | CueVideo(videoId: string, startSeconds: real)
    | Play
    | Pause
    | Stop
    | SeekTo(seconds: real)
    | SetVolume(volume: real)
    | AddListener(listener: ListenerId)
    | RemoveListener(listener: ListenerId)
    | WhenReady(callback: CallbackId)
    | Release
    /** Assigning the `lifecycle` property; `None` is `null`. */
    | SetLifecycle(lifecycle: Option<LifecycleId>)

  /** The messages the page sends through the JavaScript bridge. */
  datatype Inbound =
    | OnReady
    | OnStateChange(code: Int32)
    | OnPlaybackQualityChange(quality: string)
    | OnPlaybackRateChange(rate: string)
    | OnError(error: string)
    | OnCurrentSecond(second: real)
    | OnVideoDuration(duration: real)
    | OnVideoLoadedFraction(fraction: real)
    | OnVideoId(videoId: string)

  /** `Lifecycle.Event`. */
  datatype LifecycleEvent = OnCreate | OnStart | OnResume | OnPause | OnStop | OnDestroy | OnAny

  datatype Input =
    | Call(call: HostCall)
    | Bridge(message: Inbound)
    /** The web view client's `onPageFinished`. */
    | PageFinished
    /** An event from the lifecycle `source`. */
    | Lifecycle(source: LifecycleId, event: LifecycleEvent)

  /** The listener event a bridge message is forwarded as. */
  function EventOf(m: Inbound): Event {
    match m
    case OnReady => Ready
    case OnStateChange(code) => StateChange(StateOfCode(code))
    case OnPlaybackQualityChange(q) => PlaybackQualityChange(q)
    case OnPlaybackRateChange(r) => PlaybackRateChange(r)
    case OnError(e) => Error(e)
    case OnCurrentSecond(s) => CurrentSecond(s)
    case OnVideoDuration(d) => VideoDuration(d)
    case OnVideoLoadedFraction(f) => VideoLoadedFraction(f)
    case OnVideoId(id) => VideoId(id)
  }

  lemma EventOfReady(m: Inbound)
    ensures EventOf(m).Ready? <==> m.OnReady?
  {
  }

  /** The commands a host call issues, in order. */
  function CallCommands(c: HostCall): seq<Transport.Command> {
    match c
    case Initialize(_, options) => [Transport.LoadPage(options)]
    case LoadVideo(id, start) => [Transport.LoadVideo(id, start)]
    case CueVideo(id, start) => [Transport.CueVideo(id, start)]
    case Play => [Transport.Play]
    case Pause => [Transport.Pause]
    case Stop => [Transport.Stop]
    case SeekTo(s) => [Transport.SeekTo(s)]
    case SetVolume(v) => [Transport.SetVolume(v)]
    case Release => [Transport.Destroy]
    case _ => []
  }

  // ---------------------------------------------------------------- the view

  datatype Outcome = Outcome(view: View, effects: seq<Effect>)

  datatype View = View(
    listeners: seq<Listener>,
    isPlayerReady: bool,
    currentVideoId: Option<string>,
    playerOptions: Option<PlayerOptions.Options>,
    /** The `lifecycle` property. */
    lifecycle: Option<LifecycleId>,
    /** Whether the view is registered as an observer of `lifecycle`. */
    observing: bool,
    commands: seq<Transport.Command>,
    /** The serial the next one-shot ready listener gets. */
    nextSerial: nat)
  {
    function Send(c: Transport.Command): View {
      this.(commands := commands + [c])
    }

    /** `initialize`: registers the listener, keeps the options and loads
        the page with them. Nothing stops a second call. */
    function Initialize(listener: ListenerId, options: PlayerOptions.Options): (r: View)
      ensures r.listeners == listeners + [Host(listener)]
      ensures r.playerOptions == Some(options)
      ensures r.commands == commands + [Transport.LoadPage(options)]
      ensures r.isPlayerReady == isPlayerReady && r.currentVideoId == currentVideoId
      ensures r.lifecycle == lifecycle && r.observing == observing && r.nextSerial == nextSerial
    {
      this.(listeners := listeners + [Host(listener)], playerOptions := Some(options)).Send(Transport.LoadPage(options))
    }

    /** `loadVideo` and `cueVideo` remember the video before issuing the command. */
    function LoadVideo(videoId: string, startSeconds: real): View {
      this.(currentVideoId := Some(videoId)).Send(Transport.LoadVideo(videoId, startSeconds))
    }

    function CueVideo(videoId: string, startSeconds: real): View {
      this.(currentVideoId := Some(videoId)).Send(Transport.CueVideo(videoId, startSeconds))
    }

    function AddListener(l: Listener): View {
      this.(listeners := listeners + [l])
    }

    function RemoveListener(l: Listener): View {
      this.(listeners := RemoveFirst(listeners, l))
    }

    /** `getYouTubePlayerWhenReady`: calls back at once when the player is
        ready; otherwise registers a fresh one-shot ready listener. */
    function WhenReady(callback: CallbackId): (r: Outcome)
      ensures isPlayerReady ==> r.effects == [Invoke(callback)] && r.view == this
      ensures !isPlayerReady ==> && r.effects == []
                                 && r.view.listeners == listeners + [OneShot(nextSerial, callback)]
                                 && r.view.nextSerial == nextSerial + 1
                                 && r.view.commands == commands
                                 && r.view.isPlayerReady == isPlayerReady
                                 && r.view.currentVideoId == currentVideoId
                                 && r.view.playerOptions == playerOptions
                                 && r.view.lifecycle == lifecycle && r.view.observing == observing
    {
      if isPlayerReady then Outcome(this, [Invoke(callback)])
      else Outcome(this.(listeners := listeners + [OneShot(nextSerial, callback)], nextSerial := nextSerial + 1), [])
    }

    /** `release`: stops observing the lifecycle, drops every listener and
        destroys the web view. The ready flag, the video id and the options
        are kept. */
    function Release(): (r: View)
      ensures r.listeners == [] && !r.observing
      ensures r.commands == commands + [Transport.Destroy]
      ensures r.isPlayerReady == isPlayerReady && r.currentVideoId == currentVideoId
      ensures r.lifecycle == lifecycle && r.playerOptions == playerOptions
      ensures r.nextSerial == nextSerial
    {
      this.(listeners := [], observing := false).Send(Transport.Destroy)
    }

    /** The `lifecycle` setter: stops observing the old lifecycle and
        observes the new one. */
    function SetLifecycle(value: Option<LifecycleId>): View {
      this.(lifecycle := value, observing := value.Some?)
    }

    /** Placeholders: these accessors never consult the view. */
    function GetCurrentTime(): real {
      0.0
    }

    function GetDuration(): real {
      0.0
    }

    function GetPlayerState(): PlayerState {
      Unknown
    }

    /** `onStateChanged`, for events that reach the view: resume plays,
        pause pauses, destroy releases, every other event is ignored. */
    function OnLifecycle(event: LifecycleEvent): (r: View)
      ensures event == OnResume ==> r == Send(Transport.Play)
      ensures event == OnPause ==> r == Send(Transport.Pause)
      ensures event == OnDestroy ==> r == Release()
      ensures event !in {OnResume, OnPause, OnDestroy} ==> r == this
    {
      match event
      case OnResume => Send(Transport.Play)
      case OnPause => Send(Transport.Pause)
      case OnDestroy => Release()
      case _ => this
    }

    /** A bridge message: every listener registered when it arrives is told
        the matching event once, in order; `onReady` first sets the ready
        flag and `onVideoId` first records the video. */
    function Receive(m: Inbound): (r: Outcome)
      ensures r.effects == Trace(listeners, EventOf(m))
      ensures Deliveries(r.effects) == Broadcast(listeners, EventOf(m))
      ensures Invocations(r.effects) == if m.OnReady? then ReadyCallbacks(listeners) else []
      ensures r.view.listeners == if m.OnReady? then Persistent(listeners) else listeners
      ensures r.view.isPlayerReady == (isPlayerReady || m.OnReady?)
      ensures r.view.currentVideoId == if m.OnVideoId? then Some(m.videoId) else currentVideoId
      ensures r.view.commands == commands && r.view.nextSerial == nextSerial
      ensures r.view.lifecycle == lifecycle && r.view.observing == observing
      ensures r.view.playerOptions == playerOptions
    {
      EventOfReady(m);
      var f := Dispatch(listeners, EventOf(m));
      var ready := isPlayerReady || m.OnReady?;
      var videoId := if m.OnVideoId? then Some(m.videoId) else currentVideoId;
      Outcome(this.(listeners := f.live, isPlayerReady := ready, currentVideoId := videoId), f.effects)
    }

    /** `onPageFinished`: a page that finishes loading while the ready flag
        is set tells every listener `onReady` again. */
    function PageFinished(): (r: Outcome)
      ensures !isPlayerReady ==> r == Outcome(this, [])
      ensures isPlayerReady ==> && r.effects == Trace(listeners, Ready)
                                && Deliveries(r.effects) == Broadcast(listeners, Ready)
                                && Invocations(r.effects) == ReadyCallbacks(listeners)
                                && r.view.listeners == Persistent(listeners)
      ensures r.view.commands == commands && r.view.isPlayerReady == isPlayerReady
      ensures r.view.currentVideoId == currentVideoId && r.view.playerOptions == playerOptions
      ensures r.view.lifecycle == lifecycle && r.view.observing == observing
      ensures r.view.nextSerial == nextSerial
    {
      if isPlayerReady then
        var f := Dispatch(listeners, Ready);
        Outcome(this.(listeners := f.live), f.effects)
      else Outcome(this, [])
    }
  }

  /** A freshly constructed view. */
  const Constructed: View := View([], false, None, None, None, false, [], 0)

  function Perform(v: View, c: HostCall): Outcome {
    match c
    case Initialize(l, options) => Outcome(v.Initialize(l, options), [])
    case LoadVideo(id, start) => Outcome(v.LoadVideo(id, start), [])
    case CueVideo(id, start) => Outcome(v.CueVideo(id, start), [])
    case Play => Outcome(v.Send(Transport.Play), [])
    case Pause => Outcome(v.Send(Transport.Pause), [])
    case Stop => Outcome(v.Send(Transport.Stop), [])
    case SeekTo(s) => Outcome(v.Send(Transport.SeekTo(s)), [])
    case SetVolume(x) => Outcome(v.Send(Transport.SetVolume(x)), [])
    case AddListener(l) => Outcome(v.AddListener(Host(l)), [])
    case RemoveListener(l) => Outcome(v.RemoveListener(Host(l)), [])
    case WhenReady(cb) => v.WhenReady(cb)
    case Release => Outcome(v.Release(), [])
    case SetLifecycle(value) => Outcome(v.SetLifecycle(value), [])
  }

  /** Whether an event of `source` reaches the view. */
  predicate Observes(v: View, source: LifecycleId) {
    v.observing && v.lifecycle == Some(source)
  }

  function Step(v: View, x: Input): Outcome {
    match x
    case Call(c) => Perform(v, c)
    case Bridge(m) => v.Receive(m)
    case PageFinished => v.PageFinished()
    case Lifecycle(source, event) =>
      if Observes(v, source) then Outcome(v.OnLifecycle(event), []) else Outcome(v, [])
  }

  /** The inputs in order, collecting the effects of each step. */
  function Run(v: View, xs: seq<Input>): Outcome
    decreases |xs|
  {
    if |xs| == 0 then Outcome(v, [])
    else
      var o := Run(v, xs[..|xs| - 1]);
      var s := Step(o.view, xs[|xs| - 1]);
      Outcome(s.view, o.effects + s.effects)
  }

  lemma RunSnoc(v: View, xs: seq<Input>, x: Input)
    ensures Run(v, xs + [x]).view == Step(Run(v, xs).view, x).view
    ensures Run(v, xs + [x]).effects == Run(v, xs).effects + Step(Run(v, xs).view, x).effects
  {
    assert (xs + [x])[..|xs|] == xs;
  }

  lemma StepCall(v: View, c: HostCall)
    ensures Step(v, Call(c)) == Perform(v, c)
  {
  }

  lemma StepBridge(v: View, m: Inbound)
    ensures Step(v, Bridge(m)) == v.Receive(m)
  {
  }

  lemma RunTwo(v: View, x: Input, y: Input, first: Outcome, second: Outcome)
    requires Step(v, x) == first && Step(first.view, y) == second
    ensures Run(v, [x, y]) == Outcome(second.view, first.effects + second.effects)
  {
    RunPair(v, x, y);
  }

  /** Two steps, the first of which has no effect. */
  lemma RunTwoQuiet(v: View, x: Input, y: Input, first: Outcome, second: Outcome)
    requires Step(v, x) == first && first.effects == [] && Step(first.view, y) == second
    ensures Run(v, [x, y]) == second
  {
    RunTwo(v, x, y, first, second);
    assert [] + second.effects == second.effects;
  }

  lemma RunExtend(v: View, xs: seq<Input>, x: Input, ys: seq<Input>, o: Outcome, s: Outcome)
    requires ys == xs + [x] && Run(v, xs) == o && Step(o.view, x) == s
    ensures Run(v, ys) == Outcome(s.view, o.effects + s.effects)
  {
    RunSnoc(v, xs, x);
  }

  lemma Snoc3(a: Input, b: Input, c: Input)
    ensures [a, b] + [c] == [a, b, c]
  {
  }

  lemma Snoc4(a: Input, b: Input, c: Input, d: Input)
    ensures [a, b, c] + [d] == [a, b, c, d]
  {
  }

  lemma RunPair(v: View, x: Input, y: Input)
    ensures Run(v, [x, y]).view == Step(Step(v, x).view, y).view
    ensures Run(v, [x, y]).effects == Step(v, x).effects + Step(Step(v, x).view, y).effects
  {
    assert [] + [x] == [x];
    assert [x] + [y] == [x, y];
    RunSnoc(v, [], x);
    RunSnoc(v, [x], y);
    assert [] + Step(v, x).effects == Step(v, x).effects;
  }

  // ---------------------------------------------------------------- the ready flag

  lemma StepReady(v: View, x: Input)
    ensures Step(v, x).view.isPlayerReady == (v.isPlayerReady || x == Bridge(OnReady))
  {
  }

  /** The ready flag is set exactly when an `onReady` message has arrived,
      and nothing ever clears it, `release` included. */
  lemma {:induction false} ReadyAfterRun(v: View, xs: seq<Input>)
    ensures Run(v, xs).view.isPlayerReady <==> v.isPlayerReady || Bridge(OnReady) in xs
    decreases |xs|
  {
    if |xs| > 0 {
      var init := xs[..|xs| - 1];
      assert xs == init + [xs[|xs| - 1]];
      ReadyAfterRun(v, init);
      StepReady(Run(v, init).view, xs[|xs| - 1]);
    }
  }

  // ---------------------------------------------------------------- the current video

  /** The video an input names, if it sets the current video. */
  function VideoIdOf(x: Input): Option<string> {
    match x
    case Call(LoadVideo(id, _)) => Some(id)
    case Call(CueVideo(id, _)) => Some(id)
    case Bridge(OnVideoId(id)) => Some(id)
    case _ => None
  }

  /** The video named by the last input that names one, or `d`. */
  function LastVideoId(xs: seq<Input>, d: Option<string>): Option<string>
    decreases |xs|
  {
    if |xs| == 0 then d
    else if VideoIdOf(xs[|xs| - 1]).Some? then VideoIdOf(xs[|xs| - 1])
    else LastVideoId(xs[..|xs| - 1], d)
  }

  lemma StepVideoId(v: View, x: Input)
    ensures Step(v, x).view.currentVideoId == if VideoIdOf(x).Some? then VideoIdOf(x) else v.currentVideoId
  {
  }

  /** After a run the current video is the one named last, by the host or
      by the page. */
  lemma {:induction false} VideoIdAfterRun(v: View, xs: seq<Input>)
    ensures Run(v, xs).view.currentVideoId == LastVideoId(xs, v.currentVideoId)
    decreases |xs|
  {
    if |xs| > 0 {
      var init := xs[..|xs| - 1];
      VideoIdAfterRun(v, init);
      StepVideoId(Run(v, init).view, xs[|xs| - 1]);
    }
  }

  // ---------------------------------------------------------------- the command log

  /** Whether no input of `xs` is a lifecycle event. */
  predicate NoLifecycle(xs: seq<Input>)
    decreases |xs|
  {
    |xs| == 0 || (NoLifecycle(xs[..|xs| - 1]) && !xs[|xs| - 1].Lifecycle?)
  }

  /** The commands a sequence of host calls and bridge messages issues. */
  function Issued(xs: seq<Input>): seq<Transport.Command>
    decreases |xs|
  {
    if |xs| == 0 then []
    else Issued(xs[..|xs| - 1]) + InputCommands(xs[|xs| - 1])
  }

  function InputCommands(x: Input): seq<Transport.Command> {
    if x.Call? then CallCommands(x.call) else []
  }

  lemma StepCommands(v: View, x: Input)
    requires !x.Lifecycle?
    ensures Step(v, x).view.commands == v.commands + InputCommands(x)
  {
    if !x.Call? || x.call.WhenReady? || x.call.AddListener? || x.call.RemoveListener? || x.call.SetLifecycle? {
      assert v.commands + [] == v.commands;
    }
  }

  lemma RunCommandsLast(v: View, xs: seq<Input>)
    requires |xs| > 0 && !xs[|xs| - 1].Lifecycle?
    ensures Run(v, xs).view.commands == Run(v, xs[..|xs| - 1]).view.commands + InputCommands(xs[|xs| - 1])
  {
    StepCommands(Run(v, xs[..|xs| - 1]).view, xs[|xs| - 1]);
  }

  /** Without lifecycle events the log holds exactly the commands of the
      host's calls, in call order; bridge messages and page loads issue none. */
  lemma {:induction false} CommandsAfterRun(v: View, xs: seq<Input>)
    requires NoLifecycle(xs)
    ensures Run(v, xs).view.commands == v.commands + Issued(xs)
    decreases |xs|
  {
    if |xs| > 0 {
      var init := xs[..|xs| - 1];
      CommandsAfterRun(v, init);
      RunCommandsLast(v, xs);
      AppendAssoc(v.commands, Issued(init), InputCommands(xs[|xs| - 1]));
    }
  }

  lemma StepCommandsGrow(v: View, x: Input)
    ensures v.commands <= Step(v, x).view.commands
  {
    match x
    case Lifecycle(source, event) =>
    case _ =>
      StepCommands(v, x);
  }

  /** Nothing is ever taken back out of the command log. */
  lemma {:induction false} CommandsGrow(v: View, xs: seq<Input>)
    ensures v.commands <= Run(v, xs).view.commands
    decreases |xs|
  {
    if |xs| > 0 {
      var init := xs[..|xs| - 1];
      CommandsGrow(v, init);
      StepCommandsGrow(Run(v, init).view, xs[|xs| - 1]);
    }
  }

  // ---------------------------------------------------------------- lifecycle

  /** Lifecycle events reach the view only from the lifecycle it observes;
      once released, or once the property is cleared, they change nothing. */
  lemma LifecycleMapping(v: View, source: LifecycleId, event: LifecycleEvent)
    ensures !Observes(v, source) ==> Step(v, Lifecycle(source, event)) == Outcome(v, [])
    ensures Observes(v, source) && event == OnResume ==>
      Step(v, Lifecycle(source, event)).view.commands == v.commands + [Transport.Play]
    ensures Observes(v, source) && event == OnPause ==>
      Step(v, Lifecycle(source, event)).view.commands == v.commands + [Transport.Pause]
    ensures Observes(v, source) && event == OnDestroy ==>
      Step(v, Lifecycle(source, event)).view == Step(v, Call(Release)).view
    ensures !Observes(v.Release(), source)
    ensures !Observes(v.SetLifecycle(None), source)
    ensures Observes(v.SetLifecycle(Some(source)), source)
  {
  }

  // ---------------------------------------------------------------- the one-shot ready listener

  /** How many more `Ready` deliveries the one-shot listener `l` can still
      receive from `v`: one per registration, plus one if its serial has not
      been handed out yet. */
  function Budget(v: View, l: Listener): nat {
    multiset(v.listeners)[l] + (if l.OneShot? && l.serial >= v.nextSerial then 1 else 0)
  }

  /** Each one-shot ready listener is registered at most once, and only
      after its serial has been handed out. */
  ghost predicate Valid(v: View) {
    forall l: Listener :: l.OneShot? ==> Budget(v, l) <= 1
  }

  lemma PersistentHasNoOneShot(ls: seq<Listener>, l: Listener)
    requires l.OneShot?
    ensures multiset(Persistent(ls))[l] == 0
  {
    OneShotNotIn(Persistent(ls), l);
  }

  lemma DispatchBudget(ls: seq<Listener>, e: Event, l: Listener)
    requires l.OneShot?
    ensures ReadyCount(Dispatch(ls, e).effects, l) + multiset(Dispatch(ls, e).live)[l] == multiset(ls)[l]
  {
    DispatchReadyCount(ls, e, l);
    if e.Ready? {
      PersistentHasNoOneShot(ls, l);
    }
  }

  lemma ReceiveBudget(v: View, m: Inbound, l: Listener)
    requires l.OneShot?
    ensures ReadyCount(v.Receive(m).effects, l) + Budget(v.Receive(m).view, l) == Budget(v, l)
  {
    DispatchBudget(v.listeners, EventOf(m), l);
  }

  lemma PerformBudget(v: View, c: HostCall, l: Listener)
    requires l.OneShot?
    ensures ReadyCount(Perform(v, c).effects, l) + Budget(Perform(v, c).view, l) <= Budget(v, l)
  {
    if c.Initialize? || c.AddListener? {
      AddBudget(v, c, l);
    } else if c.RemoveListener? {
      RemoveFirstCount(v.listeners, Host(c.listener));
    } else if c.WhenReady? {
      if !v.isPlayerReady {
        AppendCount(v.listeners, OneShot(v.nextSerial, c.callback), l);
      }
    } else {
      CommandBudget(v, c, l);
    }
  }

  lemma AddBudget(v: View, c: HostCall, l: Listener)
    requires l.OneShot? && (c.Initialize? || c.AddListener?)
    ensures ReadyCount(Perform(v, c).effects, l) + Budget(Perform(v, c).view, l) <= Budget(v, l)
  {
    AppendCount(v.listeners, Host(c.listener), l);
  }

  lemma CommandBudget(v: View, c: HostCall, l: Listener)
    requires !(c.Initialize? || c.AddListener? || c.RemoveListener? || c.WhenReady?)
    ensures ReadyCount(Perform(v, c).effects, l) + Budget(Perform(v, c).view, l) <= Budget(v, l)
  {
  }

  lemma AppendCount(ls: seq<Listener>, x: Listener, l: Listener)
    ensures multiset(ls + [x])[l] == multiset(ls)[l] + (if x == l then 1 else 0)
  {
    assert multiset(ls + [x]) == multiset(ls) + multiset{x};
  }

  /** No step lets a one-shot listener be told `Ready` more often than its
      budget allows. */
  lemma StepBudget(v: View, x: Input, l: Listener)
    requires l.OneShot?
    ensures ReadyCount(Step(v, x).effects, l) + Budget(Step(v, x).view, l) <= Budget(v, l)
  {
    match x
    case Call(c) => PerformBudget(v, c, l);
    case Bridge(m) => ReceiveBudget(v, m, l);
    case PageFinished =>
      if v.isPlayerReady {
        DispatchBudget(v.listeners, Ready, l);
      }
    case Lifecycle(_, _) =>
  }

  lemma {:induction false} RunBudget(v: View, xs: seq<Input>, l: Listener)
    requires l.OneShot?
    ensures ReadyCount(Run(v, xs).effects, l) + Budget(Run(v, xs).view, l) <= Budget(v, l)
    decreases |xs|
  {
    if |xs| > 0 {
      var init := xs[..|xs| - 1];
      var o := Run(v, init);
      RunBudget(v, init, l);
      StepBudget(o.view, xs[|xs| - 1], l);
    }
  }

  /** Every step keeps the one-shot listeners well formed. */
  lemma ValidStep(v: View, x: Input)
    requires Valid(v)
    ensures Valid(Step(v, x).view)
  {
    forall l: Listener | l.OneShot?
      ensures Budget(Step(v, x).view, l) <= 1
    {
      StepBudget(v, x, l);
    }
  }

  lemma ValidConstructed()
    ensures Valid(Constructed)
  {
  }

  /** From a well-formed view, a one-shot ready listener is told `Ready` at
      most once over any run, so the callback it carries runs at most once
      on its account. */
  lemma WhenReadyFiresAtMostOnce(v: View, xs: seq<Input>, l: Listener)
    requires Valid(v) && l.OneShot?
    ensures ReadyCount(Run(v, xs).effects, l) <= 1
  {
    RunBudget(v, xs, l);
  }

  /** A callback handed over before the player is ready runs when `onReady`
      arrives, after the callbacks handed over before it, and its listener
      leaves the registry. */
  lemma WhenReadyThenReady(v: View, cb: CallbackId)
    requires !v.isPlayerReady
    ensures var r := Run(v, [Call(WhenReady(cb)), Bridge(OnReady)]);
      && Invocations(r.effects) == ReadyCallbacks(v.listeners) + [cb]
      && r.view.listeners == Persistent(v.listeners)
      && r.view.isPlayerReady
  {
    var first := v.WhenReady(cb);
    var second := first.view.Receive(OnReady);
    WhenReadyRun(v, cb, first, second);
    var l := OneShot(v.nextSerial, cb);
    assert first.view.listeners == v.listeners + [l];
    ReadyWithOneShotLast(v.listeners, l);
  }

  // ---------------------------------------------------------------- the live list

  /** The view dispatches a bridge message over the registry as it stands
      when the message arrives. The source iterates the live list instead;
      that iteration throws exactly when an `onReady` finds a one-shot
      listener before the last place, and whenever it completes it does
      what the view does. */
  lemma ReceiveAsWritten(v: View, m: Inbound)
    ensures !m.OnReady? ==> LiveDispatch(v.listeners, EventOf(m)).Completed?
    ensures m.OnReady? ==> (LiveDispatch(v.listeners, Ready).Completed? <==>
      |v.listeners| == 0 || NoOneShots(v.listeners[..|v.listeners| - 1]))
    ensures LiveDispatch(v.listeners, EventOf(m)).Completed? ==>
      LiveDispatch(v.listeners, EventOf(m)) == Completed(v.Receive(m).effects, v.Receive(m).view.listeners)
  {
    EventOfReady(m);
    LiveDispatchExact(v.listeners, EventOf(m));
  }

  /** The same for the `onReady` broadcast of a page that finishes loading
      while the ready flag is set. */
  lemma PageFinishedAsWritten(v: View)
    requires v.isPlayerReady
    ensures LiveDispatch(v.listeners, Ready).Completed? <==>
      |v.listeners| == 0 || NoOneShots(v.listeners[..|v.listeners| - 1])
    ensures LiveDispatch(v.listeners, Ready).Completed? ==>
      LiveDispatch(v.listeners, Ready) == Completed(v.PageFinished().effects, v.PageFinished().view.listeners)
  {
    LiveDispatchExact(v.listeners, Ready);
  }

  /** A `whenReady` callback handed over before readiness: when `onReady`
      arrives, the source's iteration over the live list completes exactly
      when no earlier callback is pending, and then the callback runs and
      only the host listeners remain. With an earlier one pending, the
      iterator throws after that earlier callback. */
  lemma WhenReadyAsWritten(v: View, cb: CallbackId)
    requires !v.isPlayerReady
    ensures var ls := v.WhenReady(cb).view.listeners;
      && (LiveDispatch(ls, Ready).Completed? <==> NoOneShots(v.listeners))
      && (NoOneShots(v.listeners) ==>
            && Invocations(LiveDispatch(ls, Ready).effects) == [cb]
            && LiveDispatch(ls, Ready).live == v.listeners)
  {
    var l := OneShot(v.nextSerial, cb);
    var ls := v.listeners + [l];
    assert v.WhenReady(cb).view.listeners == ls;
    assert ls[..|ls| - 1] == v.listeners;
    LiveDispatchExact(ls, Ready);
    if NoOneShots(v.listeners) {
      ReadyWithOneShotLast(v.listeners, l);
      NoReadyCallbacks(v.listeners);
    }
  }

  lemma WhenReadyRun(v: View, cb: CallbackId, first: Outcome, second: Outcome)
    requires first == v.WhenReady(cb) && first.effects == []
    requires Step(first.view, Bridge(OnReady)) == second
    ensures Run(v, [Call(WhenReady(cb)), Bridge(OnReady)]) == second
  {
    WhenReadyStep(v, cb);
    RunTwoQuiet(v, Call(WhenReady(cb)), Bridge(OnReady), first, second);
  }

  lemma WhenReadyStep(v: View, cb: CallbackId)
    ensures Step(v, Call(WhenReady(cb))) == v.WhenReady(cb)
  {
    StepCall(v, WhenReady(cb));
  }

  // ---------------------------------------------------------------- release

  /** An input that can register a listener or call back directly. */
  predicate Registers(x: Input) {
    x.Call? && (x.call.Initialize? || x.call.AddListener? || x.call.WhenReady?)
  }

  lemma StepSilent(v: View, x: Input)
    requires v.listeners == [] && !Registers(x)
    ensures Step(v, x).effects == [] && Step(v, x).view.listeners == []
  {
  }

  /** A released view tells no one anything until something registers
      again, whatever the page or the lifecycle sends. */
  lemma {:induction false} ReleasedViewIsSilent(v: View, xs: seq<Input>)
    requires forall i :: 0 <= i < |xs| ==> !Registers(xs[i])
    ensures Run(v.Release(), xs).effects == []
    ensures Run(v.Release(), xs).view.listeners == []
    decreases |xs|
  {
    if |xs| > 0 {
      var init := xs[..|xs| - 1];
      assert forall i :: 0 <= i < |init| ==> init[i] == xs[i];
      ReleasedViewIsSilent(v, init);
      StepSilent(Run(v.Release(), init).view, xs[|xs| - 1]);
    }
  }

  // ---------------------------------------------------------------- initialize

  /** `initialize` has no guard: a second call registers a second listener
      and loads the page again, and the later options win. */
  lemma InitializeHasNoGuard(v: View, a: ListenerId, oa: PlayerOptions.Options, b: ListenerId, ob: PlayerOptions.Options)
    ensures var r := Run(v, [Call(Initialize(a, oa)), Call(Initialize(b, ob))]);
      && r.view.listeners == v.listeners + [Host(a), Host(b)]
      && r.view.commands == v.commands + [Transport.LoadPage(oa), Transport.LoadPage(ob)]
      && r.view.playerOptions == Some(ob)
      && r.effects == []
  {
    RunPair(v, Call(Initialize(a, oa)), Call(Initialize(b, ob)));
    var w := v.Initialize(a, oa);
    assert w.commands == v.commands + [Transport.LoadPage(oa)];
    assert w.Initialize(b, ob).commands == (v.commands + [Transport.LoadPage(oa)]) + [Transport.LoadPage(ob)];
    assert w.Initialize(b, ob).listeners == (v.listeners + [Host(a)]) + [Host(b)];
  }

  /** The page `initialize` loads carries exactly the options it was
      given: they can be read back from its embedded parameters. */
  lemma InitializeLoadsOptions(v: View, l: ListenerId, options: PlayerOptions.Options)
    ensures var c := v.Initialize(l, options).commands[|v.commands|];
      c.LoadPage? && PlayerOptions.Decode(Transport.PlayerVars(c)) == Some(options)
  {
  }

  /** `initialize` called without options uses `IFramePlayerOptions()`: the
      page carries the default parameter string. */
  lemma InitializeDefaultOptions(v: View, l: ListenerId)
    ensures var w := v.Initialize(l, PlayerOptions.Defaults);
      && w.playerOptions == Some(PlayerOptions.Defaults)
      && w.commands[|v.commands|] == Transport.LoadPage(PlayerOptions.Defaults)
      && Transport.PlayerVars(w.commands[|v.commands|]) ==
           "autoplay=0&controls=1&enablejsapi=1&" + "fullscreen=1&modestbranding=1&rel=0&" +
           "showinfo=0&fs=1&cc_load_policy=0&" + "iv_load_policy=3&playsinline=1"
  {
    PlayerOptions.DefaultsEncoding();
  }

  // ---------------------------------------------------------------- accessors

  /** The synchronous accessors are placeholders: whatever has happened, the
      time and duration read as zero and the state as `Unknown`, even right
      after the page has reported a state. */
  lemma AccessorsArePlaceholders(v: View, xs: seq<Input>)
    ensures var w := Run(v, xs + [Bridge(OnStateChange(1))]).view;
      && w.GetCurrentTime() == 0.0
      && w.GetDuration() == 0.0
      && w.GetPlayerState() == Unknown
      && w.GetPlayerState() != StateOfCode(1)
  {
  }

  // ---------------------------------------------------------------- a whole session

  /** Construct, initialise, become ready, load a video and hear its id
      back from the page: the host listener hears `Ready` and then the id,
      and the page was loaded with options it can read back. */
  lemma EndToEndScenario(listener: ListenerId, options: PlayerOptions.Options, videoId: string, start: real)
    ensures var xs := [
        Call(Initialize(listener, options)),
        Bridge(OnReady),
        Call(LoadVideo(videoId, start)),
        Bridge(OnVideoId(videoId))];
      var r := Run(Constructed, xs);
      && r.view.isPlayerReady
      && r.view.currentVideoId == Some(videoId)
      && r.view.listeners == [Host(listener)]
      && r.view.commands == [Transport.LoadPage(options), Transport.LoadVideo(videoId, start)]
      && PlayerOptions.Decode(Transport.PlayerVars(r.view.commands[0])) == Some(options)
      && r.effects == [Deliver(Host(listener), Ready), Deliver(Host(listener), VideoId(videoId))]
  {
    ScenarioRun(listener, options, videoId, start);
    assert Loaded(listener, options, videoId, start).commands[0] == Transport.LoadPage(options);
  }

  lemma ScenarioRun(listener: ListenerId, options: PlayerOptions.Options, videoId: string, start: real)
    ensures Run(Constructed, [Call(Initialize(listener, options)), Bridge(OnReady), Call(LoadVideo(videoId, start)),
        Bridge(OnVideoId(videoId))]) ==
      Outcome(Loaded(listener, options, videoId, start),
        [Deliver(Host(listener), Ready), Deliver(Host(listener), VideoId(videoId))])
  {
    var x1, x2, x3, x4 := Call(Initialize(listener, options)), Bridge(OnReady),
      Call(LoadVideo(videoId, start)), Bridge(OnVideoId(videoId));
    var v3 := Loaded(listener, options, videoId, start);
    ScenarioPrefix(listener, options, videoId, start);
    ScenarioVideoId(v3, videoId);
    Snoc4(x1, x2, x3, x4);
    RunExtend(Constructed, [x1, x2, x3], x4, [x1, x2, x3, x4], Outcome(v3, [Deliver(Host(listener), Ready)]),
      Outcome(v3, [Deliver(Host(listener), VideoId(videoId))]));
    DeliverPair(Deliver(Host(listener), Ready), Deliver(Host(listener), VideoId(videoId)));
  }

  /** The view of the session after `initialize`. */
  function Initialized(listener: ListenerId, options: PlayerOptions.Options): View {
    View([Host(listener)], false, None, Some(options), None, false, [Transport.LoadPage(options)], 0)
  }

  /** The view of the session after `loadVideo`. */
  function Loaded(listener: ListenerId, options: PlayerOptions.Options, videoId: string, start: real): View {
    Initialized(listener, options).(isPlayerReady := true, currentVideoId := Some(videoId),
      commands := [Transport.LoadPage(options), Transport.LoadVideo(videoId, start)])
  }

  lemma ScenarioPrefix(listener: ListenerId, options: PlayerOptions.Options, videoId: string, start: real)
    ensures Run(Constructed, [Call(Initialize(listener, options)), Bridge(OnReady), Call(LoadVideo(videoId, start))]) ==
      Outcome(Loaded(listener, options, videoId, start), [Deliver(Host(listener), Ready)])
  {
    var x1, x2, x3 := Call(Initialize(listener, options)), Bridge(OnReady), Call(LoadVideo(videoId, start));
    var v1 := Initialized(listener, options);
    var v2 := v1.(isPlayerReady := true);
    ScenarioStarted(listener, options);
    ScenarioLoad(v2, videoId, start);
    Snoc3(x1, x2, x3);
    RunExtend(Constructed, [x1, x2], x3, [x1, x2, x3], Outcome(v2, [Deliver(Host(listener), Ready)]),
      Outcome(Loaded(listener, options, videoId, start), []));
    assert [Deliver(Host(listener), Ready)] + [] == [Deliver(Host(listener), Ready)];
  }

  lemma DeliverPair(a: Effect, b: Effect)
    ensures [a] + [b] == [a, b]
  {
  }

  lemma ScenarioStarted(listener: ListenerId, options: PlayerOptions.Options)
    ensures Run(Constructed, [Call(Initialize(listener, options)), Bridge(OnReady)]) ==
      Outcome(Initialized(listener, options).(isPlayerReady := true), [Deliver(Host(listener), Ready)])
  {
    var v1 := Initialized(listener, options);
    ScenarioInitialize(listener, options);
    ScenarioReady(v1);
    RunTwo(Constructed, Call(Initialize(listener, options)), Bridge(OnReady), Outcome(v1, []),
      Outcome(v1.(isPlayerReady := true), [Deliver(Host(listener), Ready)]));
  }

  lemma ScenarioInitialize(listener: ListenerId, options: PlayerOptions.Options)
    ensures Step(Constructed, Call(Initialize(listener, options))) == Outcome(Initialized(listener, options), [])
  {
    StepCall(Constructed, Initialize(listener, options));
  }

  lemma ScenarioReady(v: View)
    requires |v.listeners| == 1 && v.listeners[0].Host?
    ensures Step(v, Bridge(OnReady)) == Outcome(v.(isPlayerReady := true), [Deliver(v.listeners[0], Ready)])
  {
    StepBridge(v, OnReady);
    assert Persistent(v.listeners) == v.listeners;
    assert Trace(v.listeners, Ready) == [Deliver(v.listeners[0], Ready)] by {
      assert v.listeners[1..] == [];
    }
  }

  lemma ScenarioLoad(v: View, videoId: string, start: real)
    ensures Step(v, Call(LoadVideo(videoId, start))) ==
      Outcome(v.(currentVideoId := Some(videoId), commands := v.commands + [Transport.LoadVideo(videoId, start)]), [])
  {
    StepCall(v, LoadVideo(videoId, start));
  }

  lemma ScenarioVideoId(v: View, videoId: string)
    requires |v.listeners| == 1 && v.currentVideoId == Some(videoId)
    ensures Step(v, Bridge(OnVideoId(videoId))) == Outcome(v, [Deliver(v.listeners[0], VideoId(videoId))])
  {
    StepBridge(v, OnVideoId(videoId));
    assert Trace(v.listeners, VideoId(videoId)) == [Deliver(v.listeners[0], VideoId(videoId))] by {
      assert v.listeners[1..] == [];
    }
  }
}
