# A verified model of the YouTube player view

This project models the core of an Android YouTube player library in Dafny:

- the IFrame player options record;
- its fluent builder;
- the encoder `toUrlParams`, which turns the record into the `key=value&...`
  parameter string the player page embeds;
- `YouTubePlayerView`, the WebView-based player facade.

The model of the view covers five things:

- Its state: the listener registry, the ready flag, the current video id, the options
  and the lifecycle it observes.
- The host's calls: `initialize`, `loadVideo`, `cueVideo`, `play`, `pause`, `stop`,
  `seekTo`, `setVolume`, `addListener`, `removeListener`,
  `getYouTubePlayerWhenReady`, `release`, the three accessors and the `lifecycle`
  setter.
- The messages the page sends back through the JavaScript bridge, including the
  table from numeric state codes to `PlayerState`.
- The web view client's `onPageFinished`.
- The lifecycle events the view observes.

Modules, one per concern:

- `Wrappers`: `Option`.
- `Decimal`: Kotlin's 32-bit `Int` and `Int.toString()`, with a parser that inverts
  it.
- `PlayerOptions`: the options record, the builder, `toUrlParams`, and `Decode`.
  `Decode` is a reference decoder that has no counterpart in the library. It exists
  to state that the encoding loses nothing.
- `Player`: `PlayerState`.
- `Transport`: the commands the view sends to the page. They are recorded
  abstractly, in issue order, in the view's command log.
- `Listeners`: the registry and the fan-out of one event over it.
- `PlayerView`: the view, its inputs, and `Run`, which applies a sequence of inputs.

Listeners are identities.

- A host listener is `Host(id)`. Its callbacks are outside the model and are taken
  not to modify the registry.
- The listener that `getYouTubePlayerWhenReady` registers is `OneShot(serial,
  callback)`. It is modelled concretely. On `onReady` it removes itself and then runs
  the host's callback, which appears as an `Invoke` effect.

Every callback the host observes is an `Effect` of the step that caused it.

Three behaviours of the code are stated as lemmas:

- A second `initialize` is not rejected. It registers a second listener and loads
  the page again (`InitializeHasNoGuard`).
- `getCurrentTime`, `getDuration` and `getPlayerState` return constants, as the
  "Placeholder" comments on them say (`AccessorsArePlaceholders`).
- Every dispatch loop iterates the live listener list while the one-shot ready
  listener removes itself from it. `LiveDispatch` models that iteration as written.
  It throws `ConcurrentModificationException` when a one-shot listener is followed by
  another listener. This is the finding below. The view itself uses the corrected
  `Dispatch`, which tells every listener registered when the event arrives. The
  lemmas `ReceiveAsWritten`, `PageFinishedAsWritten` and `WhenReadyAsWritten` state
  exactly when the code as written completes, and that it then agrees with the view.

## Model

| member | source | states |
|---|---|---|
| PlayerOptions.SetFlag | youtube-player/src/main/java/com/service/techityoutube/player/options/IFramePlayerOptions.kt:71-80 | each integer setter sets its own flag to the given value and leaves every other flag and the origin unchanged |
| PlayerOptions.SetOrigin | youtube-player/src/main/java/com/service/techityoutube/player/options/IFramePlayerOptions.kt:81 | the origin setter changes the origin and no flag |
| PlayerOptions.Build | youtube-player/src/main/java/com/service/techityoutube/player/options/IFramePlayerOptions.kt:84-97 | `build()` copies every builder field, untransformed, into the record field of the same name |
| PlayerOptions.BuildNewBuilder | youtube-player/src/main/java/com/service/techityoutube/player/options/IFramePlayerOptions.kt:57-69 | an untouched builder builds exactly the record of the constructor's defaults |
| PlayerOptions.SetFlagLastWriteWins | youtube-player/src/main/java/com/service/techityoutube/player/options/IFramePlayerOptions.kt:71-80 | calling the same integer setter twice leaves the builder as if only the second call had been made |
| PlayerOptions.SetOriginLastWriteWins | youtube-player/src/main/java/com/service/techityoutube/player/options/IFramePlayerOptions.kt:81 | calling the origin setter twice keeps only the second value |
| PlayerOptions.SettersCommute | youtube-player/src/main/java/com/service/techityoutube/player/options/IFramePlayerOptions.kt:71-82 | setters of different fields commute, so the order of a builder chain does not matter |
| PlayerOptions.BuildAfterSetFlag | youtube-player/src/main/java/com/service/techityoutube/player/options/IFramePlayerOptions.kt:71-97 | the record built after a setter equals the record built before it with only that flag replaced |
| PlayerOptions.FlagPairsDecode | youtube-player/src/main/java/com/service/techityoutube/player/options/IFramePlayerOptions.kt:34-44 | each of the eleven flag pairs holds no `&`, and the reference pair parser reads it back as the value of the flag in that place of the emission order, under that flag's name |
| PlayerOptions.EmitOrderKeys | youtube-player/src/main/java/com/service/techityoutube/player/options/IFramePlayerOptions.kt:34-44 | the emission order, by parameter name, is autoplay, controls, enablejsapi, fullscreen, modestbranding, rel, showinfo, fs, cc_load_policy, iv_load_policy, playsinline |
| PlayerOptions.Position | youtube-player/src/main/java/com/service/techityoutube/player/options/IFramePlayerOptions.kt:34-44 | every flag has a place in the emission order, so every flag is emitted |
| PlayerOptions.EmitOrderDistinct | youtube-player/src/main/java/com/service/techityoutube/player/options/IFramePlayerOptions.kt:34-44 | no flag is emitted twice |
| PlayerOptions.Params | youtube-player/src/main/java/com/service/techityoutube/player/options/IFramePlayerOptions.kt:32-48 | the pair list has 11 entries when the origin is empty and 12 otherwise |
| PlayerOptions.ParamsShape | youtube-player/src/main/java/com/service/techityoutube/player/options/IFramePlayerOptions.kt:34-48 | the eleven flag pairs come first; a non-empty origin adds `origin=<origin>` as the last pair |
| PlayerOptions.ToUrlParams | youtube-player/src/main/java/com/service/techityoutube/player/options/IFramePlayerOptions.kt:31-51 | the parameter string always begins with `autoplay=` |
| PlayerOptions.ToUrlParamsShape | youtube-player/src/main/java/com/service/techityoutube/player/options/IFramePlayerOptions.kt:31-51 | the string is the flag pairs joined by `&`, followed by `&origin=<origin>` exactly when the origin is non-empty |
| PlayerOptions.SeparatorCount | youtube-player/src/main/java/com/service/techityoutube/player/options/IFramePlayerOptions.kt:50 | the string holds one `&` between each two pairs, plus every `&` of the origin, which is not escaped |
| PlayerOptions.EncodingEndsWithPlaysInline | youtube-player/src/main/java/com/service/techityoutube/player/options/IFramePlayerOptions.kt:44-50 | without an origin the string ends with the `playsinline` pair |
| PlayerOptions.EncodingEndsWithOrigin | youtube-player/src/main/java/com/service/techityoutube/player/options/IFramePlayerOptions.kt:46-50 | with an origin the string ends with `&origin=` followed by the origin |
| PlayerOptions.DecodeToUrlParams | youtube-player/src/main/java/com/service/techityoutube/player/options/IFramePlayerOptions.kt:31-51 | the reference decoder recovers every field of every record, the origin included, even an origin that contains `&` or `=` |
| PlayerOptions.ToUrlParamsInjective | youtube-player/src/main/java/com/service/techityoutube/player/options/IFramePlayerOptions.kt:31-51 | distinct records encode to distinct strings |
| PlayerOptions.DefaultFlagPairs | youtube-player/src/main/java/com/service/techityoutube/player/options/IFramePlayerOptions.kt:7-18 | the default record's flag pairs are autoplay=0, controls=1, enablejsapi=1, fullscreen=1, modestbranding=1, rel=0, showinfo=0, fs=1, cc_load_policy=0, iv_load_policy=3, playsinline=1 |
| PlayerOptions.DefaultsEncoding | youtube-player/src/main/java/com/service/techityoutube/player/options/IFramePlayerOptions.kt:7-18 | the default record encodes to exactly `autoplay=0&controls=1&enablejsapi=1&fullscreen=1&modestbranding=1&rel=0&showinfo=0&fs=1&cc_load_policy=0&iv_load_policy=3&playsinline=1`, with no origin pair |
| Decimal.NatToString | youtube-player/src/main/java/com/service/techityoutube/player/options/IFramePlayerOptions.kt:34 | a magnitude renders as at least one decimal digit, with no leading zero unless the value is zero |
| Decimal.IntToString | youtube-player/src/main/java/com/service/techityoutube/player/options/IFramePlayerOptions.kt:34 | a value renders as a leading `-` exactly when it is negative, followed by at least one decimal digit and no leading zero |
| Decimal.CanonicalIsNatToString | youtube-player/src/main/java/com/service/techityoutube/player/options/IFramePlayerOptions.kt:34 | every digit string without a leading zero is the rendering of its own value, so the rendering is the one canonical decimal form |
| Decimal.IntToStringRoundTrip | youtube-player/src/main/java/com/service/techityoutube/player/options/IFramePlayerOptions.kt:34-44 | parsing the rendering of any integer gives that integer back |
| Decimal.IntToStringInjective | youtube-player/src/main/java/com/service/techityoutube/player/options/IFramePlayerOptions.kt:34-44 | distinct values render differently |
| Transport.PlayerVars | youtube-player/src/main/java/com/service/techityoutube/player/views/YouTubePlayerView.kt:84-115 | the page a `LoadPage` command loads carries the options' parameter string, and the options can be decoded back from it |
| Listeners.RemoveFirst | youtube-player/src/main/java/com/service/techityoutube/player/views/YouTubePlayerView.kt:309-311 | removing a listener that is not registered leaves the registry unchanged |
| Listeners.RemoveFirstAt | youtube-player/src/main/java/com/service/techityoutube/player/views/YouTubePlayerView.kt:309-311 | removal cuts out exactly the first occurrence and keeps the order of the rest |
| Listeners.RemoveFirstCount | youtube-player/src/main/java/com/service/techityoutube/player/views/YouTubePlayerView.kt:309-311 | removal takes away one registration of the listener and nothing else |
| Listeners.RemoveAfterAdd | youtube-player/src/main/java/com/service/techityoutube/player/views/YouTubePlayerView.kt:305-311 | add then remove restores the registry when the listener was absent; when it was present, the older registration goes and the new one stays last |
| Listeners.Persistent | youtube-player/src/main/java/com/service/techityoutube/player/views/YouTubePlayerView.kt:242-246 | what a ready dispatch leaves holds no one-shot listener and never grows; a registry of host listeners only is left as it is |
| Listeners.Broadcast | youtube-player/src/main/java/com/service/techityoutube/player/views/YouTubePlayerView.kt:347 | one delivery per registered listener, in registration order |
| Listeners.DispatchOverSpec | youtube-player/src/main/java/com/service/techityoutube/player/views/YouTubePlayerView.kt:242-246 | delivering to each pending listener while one-shot listeners remove themselves gives the reaction trace; the one-shot listeners leave and the rest stay in place |
| Listeners.TraceProjections | youtube-player/src/main/java/com/service/techityoutube/player/views/YouTubePlayerView.kt:242-246 | the deliveries of a trace are the broadcast; its callbacks are those of the one-shot listeners, in order, and only for `Ready` |
| Listeners.Dispatch | youtube-player/src/main/java/com/service/techityoutube/player/views/YouTubePlayerView.kt:347 | each listener registered when dispatch starts is told the event once, in order; on `Ready` each one-shot listener runs its callback and leaves, and otherwise the registry is unchanged |
| Listeners.DispatchReadyCount | youtube-player/src/main/java/com/service/techityoutube/player/views/YouTubePlayerView.kt:347 | a dispatch tells a listener `Ready` as often as it is registered, and never for any other event |
| Listeners.ReadyWithOneShotLast | youtube-player/src/main/java/com/service/techityoutube/player/views/YouTubePlayerView.kt:242-246 | a one-shot listener registered last runs its callback after those before it, and afterwards only the host listeners remain |
| Listeners.LiveDispatchAgrees | youtube-player/src/main/java/com/service/techityoutube/player/views/YouTubePlayerView.kt:363 | when no one-shot listener is told `Ready`, iterating the live list completes and agrees with `Dispatch` |
| Listeners.LiveDispatchOneShotLast | youtube-player/src/main/java/com/service/techityoutube/player/views/YouTubePlayerView.kt:242-246 | a single one-shot listener registered after every host listener is harmless: the live iteration completes and agrees with `Dispatch` |
| Listeners.LiveDispatchExact | youtube-player/src/main/java/com/service/techityoutube/player/views/YouTubePlayerView.kt:347 | iterating the live list completes exactly when the event is not `Ready` or no one-shot listener stands before the last place, and then it agrees with `Dispatch` |
| Listeners.LiveDispatchDropsLaterListener | youtube-player/src/main/java/com/service/techityoutube/player/views/YouTubePlayerView.kt:347 | with a one-shot listener before a host listener, the live iteration throws after the one-shot removes itself and the host listener is never told `Ready`, while `Dispatch` tells it |
| PlayerView.StateOfCode | youtube-player/src/main/java/com/service/techityoutube/player/views/YouTubePlayerView.kt:354-362 | codes -1, 0, 1, 2, 3 and 5 map to unstarted, ended, playing, paused, buffering and cued, each in both directions; every other code, 4 included, maps to unknown |
| PlayerView.StateCodeRoundTrip | youtube-player/src/main/java/com/service/techityoutube/player/views/YouTubePlayerView.kt:354-362 | the table is a bijection between the six known states and their codes; `Unknown` has no code |
| PlayerView.View.Initialize | youtube-player/src/main/java/com/service/techityoutube/player/views/YouTubePlayerView.kt:78-82 | `initialize` appends the listener, keeps the options and issues one page load with them; the ready flag, the video id, the lifecycle, its observation and the serial counter are untouched |
| PlayerView.View.WhenReady | youtube-player/src/main/java/com/service/techityoutube/player/views/YouTubePlayerView.kt:238-257 | when ready, the callback runs at once and nothing else changes; otherwise a fresh one-shot listener with the next serial is appended, nothing runs, no command is issued, and the ready flag, video id, options and lifecycle are untouched |
| PlayerView.View.Release | youtube-player/src/main/java/com/service/techityoutube/player/views/YouTubePlayerView.kt:316-320 | `release` stops observing the lifecycle, empties the registry and issues `destroy`; the ready flag, the video id, the options, the lifecycle property and the serial counter are kept |
| PlayerView.View.OnLifecycle | youtube-player/src/main/java/com/service/techityoutube/player/views/YouTubePlayerView.kt:323-336 | resume issues `play()`, pause issues `pause()`, destroy releases the view, and every other event changes nothing |
| PlayerView.View.Receive | youtube-player/src/main/java/com/service/techityoutube/player/views/YouTubePlayerView.kt:344-415 | a bridge message tells every listener registered on arrival the matching event once, in order, and on `onReady` the one-shot listeners run their callbacks and leave; `onReady` sets the ready flag and `onVideoId` records the id; no message issues a command or changes the options or the lifecycle |
| PlayerView.View.PageFinished | youtube-player/src/main/java/com/service/techityoutube/player/views/YouTubePlayerView.kt:63-69 | a finished page load does nothing before the player is ready; afterwards it tells every listener `onReady` again, the one-shot listeners run their callbacks and leave, and nothing else about the view changes |
| PlayerView.LifecycleMapping | youtube-player/src/main/java/com/service/techityoutube/player/views/YouTubePlayerView.kt:34-39 | only the lifecycle the view observes reaches it; assigning a lifecycle observes it, assigning `null` or releasing stops observing, and resume, pause and destroy act as `play`, `pause` and `release` |
| PlayerView.ReadyAfterRun | youtube-player/src/main/java/com/service/techityoutube/player/views/YouTubePlayerView.kt:344-349 | after any run the ready flag is set exactly when it was set before or an `onReady` message arrived; nothing clears it, `release` included |
| PlayerView.VideoIdAfterRun | youtube-player/src/main/java/com/service/techityoutube/player/views/YouTubePlayerView.kt:260-268 | after any run the current video is the one named last by `loadVideo`, `cueVideo` or an `onVideoId` message |
| PlayerView.CommandsAfterRun | youtube-player/src/main/java/com/service/techityoutube/player/views/YouTubePlayerView.kt:260-288 | without lifecycle events, the command log grows by exactly the commands of the host's calls, in call order; bridge messages issue none |
| PlayerView.CommandsGrow | youtube-player/src/main/java/com/service/techityoutube/player/views/YouTubePlayerView.kt:260-288 | nothing is ever taken back out of the command log |
| PlayerView.ValidStep | youtube-player/src/main/java/com/service/techityoutube/player/views/YouTubePlayerView.kt:238-257 | every step keeps each one-shot listener registered at most once, and only after its serial was handed out |
| PlayerView.WhenReadyFiresAtMostOnce | youtube-player/src/main/java/com/service/techityoutube/player/views/YouTubePlayerView.kt:238-257 | from a well-formed view, each one-shot ready listener is told `Ready` at most once over any run |
| PlayerView.WhenReadyThenReady | youtube-player/src/main/java/com/service/techityoutube/player/views/YouTubePlayerView.kt:238-257 | a callback handed over before readiness runs when `onReady` arrives, after the earlier pending callbacks; its listener is gone and the view is ready |
| PlayerView.ReleasedViewIsSilent | youtube-player/src/main/java/com/service/techityoutube/player/views/YouTubePlayerView.kt:316-320 | after `release`, no input tells anyone anything until something registers again |
| PlayerView.InitializeHasNoGuard | youtube-player/src/main/java/com/service/techityoutube/player/views/YouTubePlayerView.kt:78-82 | a second `initialize` registers a second listener and loads a second page; the later options win |
| PlayerView.ReceiveAsWritten | youtube-player/src/main/java/com/service/techityoutube/player/views/YouTubePlayerView.kt:344-415 | the live-list iteration of a bridge message completes for every message but `onReady`, completes for `onReady` exactly when no one-shot listener stands before the last place, and when it completes it does what the view does |
| PlayerView.PageFinishedAsWritten | youtube-player/src/main/java/com/service/techityoutube/player/views/YouTubePlayerView.kt:63-69 | the same for the `onReady` broadcast of a finished page load |
| PlayerView.WhenReadyAsWritten | youtube-player/src/main/java/com/service/techityoutube/player/views/YouTubePlayerView.kt:238-257 | with a callback handed over before readiness, the live-list iteration on `onReady` completes exactly when no earlier callback is pending, and then runs just that callback and leaves the host listeners |
| PlayerView.InitializeDefaultOptions | youtube-player/src/main/java/com/service/techityoutube/player/views/YouTubePlayerView.kt:78 | `initialize` without options loads a page that carries the default parameter string |
| PlayerView.InitializeLoadsOptions | youtube-player/src/main/java/com/service/techityoutube/player/views/YouTubePlayerView.kt:78-87 | the page `initialize` loads carries exactly the options it was given: they decode back from its embedded parameters |
| PlayerView.AccessorsArePlaceholders | youtube-player/src/main/java/com/service/techityoutube/player/views/YouTubePlayerView.kt:290-303 | the time and duration read zero and the state reads unknown, even right after the page reported a state |
| PlayerView.EndToEndScenario | youtube-player/src/main/java/com/service/techityoutube/player/views/YouTubePlayerView.kt:78-82 | a whole session: initialize, ready, load a video, hear its id back; the listener hears `Ready` then the id, and the log holds the page load and the load command |

## Left out

- The HTML and JavaScript of the player page (lines 89-233 of `YouTubePlayerView.kt`) are left out. Commands are recorded abstractly rather than as the JavaScript strings the view evaluates.
  - The page embeds the `key=value&...` parameter string where a JavaScript object literal (`playerVars: { ... }`) is expected. This model does not examine the consequence, because the page is not part of it.
- The `volume * 100` rescaling inside the page is left out.
- Float formatting in the command strings is left out. Player floats are modelled as `real` values that are only forwarded.
- The WebView settings, the chrome client and the registration of the bridge object are left out. They are platform configuration.
- `enableAutomaticInitialization` is left out. It is declared but nothing in the view reads it.
- Thread hand-off is not modelled. Each bridge message is a single step; this stands in for the `post { }` that moves it to the main thread.
- How a lifecycle calls `onStateChanged` is not modelled; that belongs to the Android lifecycle library.
  - This includes replaying earlier events to a newly added observer.
  - Lifecycle events are inputs, and they reach the view only while it observes their source.
- The bodies of the host's listener callbacks are outside the model. The view calls them, and each call appears as a `Deliver` effect.
  - Host listeners are taken not to add or remove listeners during a dispatch.
  - Host listeners are taken not to call back into the view, although a host may do so (the sample app calls `loadVideo` inside `onReady`).
- Callbacks given to `getYouTubePlayerWhenReady` are taken not to call back into the view; each run appears only as an `Invoke` effect. A callback receives the player so that it can call it (for example `loadVideo`), so `View.WhenReady`'s "nothing else changes", `CommandsAfterRun`'s "bridge messages issue none" and `VideoIdAfterRun` hold only under this assumption.
- The `YouTubePlayer` and `YouTubePlayerListener` interfaces are represented only by the datatypes they imply. `AbstractYouTubePlayerListener` is the same.
- The build script and the sample app are not part of this model.
- PlayerView.View.Receive: on `onReady` it follows the corrected `Dispatch`. Where the source's live iteration throws, because a one-shot listener stands before another listener, the model still tells every listener and runs every pending callback. `ReceiveAsWritten` states when the two agree.
- PlayerView.View.PageFinished: the same as `Receive` for its `onReady` broadcast; `PageFinishedAsWritten` states when the two agree.
- PlayerView.WhenReadyThenReady: it is stated for the corrected dispatch. In the source, an earlier pending `whenReady` callback makes the iterator throw after that callback, so `cb` never runs. `WhenReadyAsWritten` states the source's behaviour.
- PlayerView.View.LoadVideo: the function carries no contract of its own. What it does to the current video is stated by `VideoIdAfterRun`. What it does to the command log is stated by `CommandsAfterRun`.
- PlayerView.View.CueVideo: the same as `loadVideo`.
- PlayerView.View.AddListener: the function carries no contract of its own. It sets the registry to `listeners + [Host(id)]`; `RemoveAfterAdd` states add-then-remove on a registry of that shape, at the level of `Listeners`.
- PlayerView.View.RemoveListener: the function carries no contract of its own. Its effect on the registry is stated through `RemoveFirstAt` and `RemoveFirstCount`.
- PlayerView.View.SetLifecycle: the function carries no contract of its own. It is stated through `LifecycleMapping`.

## Findings

| source | as written | input that shows it | evidently intended | confidence | as-written member | corrected member |
|---|---|---|---|---|---|---|
| youtube-player/src/main/java/com/service/techityoutube/player/views/YouTubePlayerView.kt:242-246 | the one-shot ready listener calls `removeListener(this)` from inside `listeners.forEach` (line 347), a structural change to the list being iterated | `getYouTubePlayerWhenReady(cb)` before the player is ready, then `addListener(h)`, then the page's `onReady`: after the one-shot listener removes itself the iterator throws `ConcurrentModificationException` and `h` is never told `onReady` | every listener registered when `onReady` arrives is told once, and the one-shot listener leaves the registry | not executed | Listeners.LiveDispatchDropsLaterListener | Listeners.Dispatch |
