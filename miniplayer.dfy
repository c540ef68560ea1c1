/** The mini player: the one surface that follows the playback store on every
    page. It keeps the last record the store sent it, whether the embed failed
    to load, a manual retry counter, the iframe it loaded into, and a cache of
    the embed URL for the current video. It talks to the embed by posting
    `playVideo`/`pauseVideo` commands.

    The component is modelled twice, as the two halves of one specification:
    `Player` is its whole observable state as a value (the store's record
    included), with one pure step function per event; the class
    `MiniPlayerComponent` updates real fields and calls the store, and every
    one of its methods is proved to perform exactly that step. The store's
    notification is synchronous: whatever a store call emits is delivered to
    the component's callback before the calling method continues. Messages to
    the iframe are recorded in `sent`; the 100 ms `setTimeout` of `retry` is a
    queue `pending` that the `TimerFires` event drains in order. */
module MiniPlayer {
  import opened Records
  import opened Text
  import opened YouTube
  import opened Playback

  /** The iframe element the embed lives in: its `src`, and whether it has a
      content window to post to. */
  datatype Iframe = Iframe(src: string, hasContentWindow: bool)

  /** The message `{event: 'command', func, args: []}` posted to the embed. */
  datatype Command = Command(event: string, func: string, args: seq<string>)

  function CommandFor(shouldPlay: bool): Command {
    Command("command", if shouldPlay then "playVideo" else "pauseVideo", [])
  }

  /** A replay scheduled by `retry`: play this release in this section. */
  datatype Replay = Replay(release: Option<Release>, section: string)

  /** Everything observable about the mini player and the store it follows. */
  datatype Player = Player(
    store: PlaybackState,
    currentState: PlaybackState,
    failedToLoad: bool,
    retryCount: nat,
    iframe: Option<Iframe>,
    cachedUrl: Option<string>,
    cachedVideoId: Option<string>,
    sent: seq<Command>,
    pending: seq<Replay>)

  /** The events the mini player reacts to. `Intent` is a store operation
      issued by any surface; the others are the component's own entry points
      and the browser's callbacks. */
  datatype Event =
    | Intent(op: StoreOp)
    | Close
    | TogglePlay
    | IframeLoad(frame: Iframe)
    | IframeError
    | Retry
    | TimerFires
    | ReadUrl

  /** The state right after construction, following store record `st`. */
  function Initial(st: PlaybackState): Player {
    Player(st, st, false, 0, None, None, None, [], [])
  }

  /** `controlPlayback(shouldPlay)`: post one command when there is an iframe
      with a content window, otherwise nothing. */
  function Control(p: Player, shouldPlay: bool): Player {
    if p.iframe.Some? && p.iframe.value.hasContentWindow then p.(sent := p.sent + [CommandFor(shouldPlay)])
    else p
  }

  /** The subscription callback, run for every record `s` the store emits. */
  function OnState(p: Player, s: PlaybackState): Player {
    var previousVideoId := p.currentState.videoId;
    var previousIsPlaying := p.currentState.isPlaying;
    var p1 := p.(currentState := s, failedToLoad := false);
    var p2 := if previousVideoId != s.videoId then p1.(retryCount := 0, cachedUrl := None, cachedVideoId := None) else p1;
    if previousVideoId == s.videoId && previousIsPlaying != s.isPlaying && p2.iframe.Some?
    then Control(p2, s.isPlaying)
    else p2
  }

  /** A store operation followed by the synchronous delivery of what it emitted. */
  function StoreStep(p: Player, op: StoreOp): Player {
    match Emission(p.store, op)
    case None => p
    case Some(s) => OnState(p.(store := s), s)
  }

  /** `togglePlay()`: pause when playing; otherwise replay the loaded release, if any. */
  function TogglePlayStep(p: Player): Player {
    if p.currentState.isPlaying then StoreStep(p, Pause)
    else if p.currentState.release.Some? then StoreStep(p, Play(p.currentState.release, p.currentState.section))
    else p
  }

  /** Whether an iframe `src` is the YouTube embed (`src && src.includes('youtube.com')`). */
  predicate IsYouTubeSrc(src: string) {
    Truthy(Some(src)) && Contains(src, "youtube.com")
  }

  /** `onIframeLoad(event)`: record the iframe; for a YouTube embed clear the
      failure and send play if the record says playing. */
  function IframeLoadStep(p: Player, f: Iframe): Player {
    var p1 := p.(iframe := Some(f));
    if IsYouTubeSrc(f.src) then
      var p2 := p1.(failedToLoad := false);
      if p2.currentState.isPlaying then Control(p2, true) else p2
    else p1
  }

  /** `onIframeError(event)`: mark the failure and forget the iframe. */
  function IframeErrorStep(p: Player): Player {
    p.(failedToLoad := true, iframe := None)
  }

  /** `retry()`: below three attempts, count one, clear the failure and the
      cache, stop the store (which notifies the callback at once) and schedule
      a replay of the release and section that were loaded. */
  function RetryStep(p: Player): Player {
    if p.retryCount < 3 then
      var p1 := p.(retryCount := p.retryCount + 1, failedToLoad := false, cachedUrl := None, cachedVideoId := None);
      var replay := Replay(p.currentState.release, p.currentState.section);
      var p2 := StoreStep(p1, Stop);
      p2.(pending := p2.pending + [replay])
    else p
  }

  /** The oldest scheduled replay fires: it plays its release in its section. */
  function TimerStep(p: Player): Player {
    if p.pending == [] then p
    else StoreStep(p.(pending := p.pending[1..]), Play(p.pending[0].release, p.pending[0].section))
  }

  /** The `safeYouTubeUrl` getter: the new state and the URL it returns. */
  function ReadUrlStep(p: Player): (Player, Option<string>) {
    if !Truthy(p.currentState.videoId) then (p, None)
    else if p.cachedVideoId == p.currentState.videoId && p.cachedUrl.Some? then (p, p.cachedUrl)
    else
      var url := EmbedUrl(p.currentState.videoId.value);
      (p.(cachedUrl := Some(url), cachedVideoId := p.currentState.videoId), Some(url))
  }

  function Step(p: Player, e: Event): Player {
    match e
    case Intent(op) => StoreStep(p, op)
    case Close => StoreStep(p, Stop)
    case TogglePlay => TogglePlayStep(p)
    case IframeLoad(f) => IframeLoadStep(p, f)
    case IframeError => IframeErrorStep(p)
    case Retry => RetryStep(p)
    case TimerFires => TimerStep(p)
    case ReadUrl => ReadUrlStep(p).0
  }

  function Run(p: Player, evs: seq<Event>): Player
    decreases |evs|
  {
    if evs == [] then p else Run(Step(p, evs[0]), evs[1..])
  }

  /** The invariant of the mini player and its store: the component holds the
      store's record; the record is consistent; the retry counter stays within
      0..3 and is 0 whenever a video is loaded; a cached URL is the embed URL
      of the loaded video. */
  ghost predicate PlayerInv(p: Player) {
    && p.currentState == p.store
    && Inv(p.store)
    && p.retryCount <= 3
    && (p.currentState.videoId.Some? ==> p.retryCount == 0)
    && (p.cachedVideoId.Some? ==> p.cachedVideoId == p.currentState.videoId && p.cachedUrl == Some(EmbedUrl(p.cachedVideoId.value)))
    && (p.cachedVideoId.None? ==> p.cachedUrl.None?)
  }

  /** The callback always clears the failure and takes the new record; a new
      video resets the counter and the cache, the same video keeps them. */
  lemma OnStateResets(p: Player, s: PlaybackState)
    ensures OnState(p, s).currentState == s && !OnState(p, s).failedToLoad
    ensures p.currentState.videoId != s.videoId ==>
      OnState(p, s).retryCount == 0 && OnState(p, s).cachedUrl.None? && OnState(p, s).cachedVideoId.None?
    ensures p.currentState.videoId == s.videoId ==>
      OnState(p, s).retryCount == p.retryCount && OnState(p, s).cachedUrl == p.cachedUrl
      && OnState(p, s).cachedVideoId == p.cachedVideoId
    ensures OnState(p, s).iframe == p.iframe && OnState(p, s).pending == p.pending && OnState(p, s).store == p.store
  {
  }

  /** The callback posts a command exactly when the video is unchanged, the
      playing flag flipped and there is an iframe with a window; the command
      is `playVideo` or `pauseVideo` after the new flag. */
  lemma OnStateCommand(p: Player, s: PlaybackState)
    ensures var sends := p.currentState.videoId == s.videoId && p.currentState.isPlaying != s.isPlaying
                         && p.iframe.Some? && p.iframe.value.hasContentWindow;
            OnState(p, s).sent == if sends then p.sent + [Command("command", if s.isPlaying then "playVideo" else "pauseVideo", [])] else p.sent
  {
  }

  lemma StoreStepPreservesInv(p: Player, op: StoreOp)
    requires PlayerInv(p)
    ensures PlayerInv(StoreStep(p, op))
  {
    ApplyPreservesInv(p.store, op);
  }

  lemma RetryPreservesInv(p: Player)
    requires PlayerInv(p)
    ensures PlayerInv(RetryStep(p))
  {
    if p.retryCount < 3 {
      var p1 := p.(retryCount := p.retryCount + 1, failedToLoad := false, cachedUrl := None, cachedVideoId := None);
      assert PlayerInv(StoreStep(p1, Stop));
    }
  }

  lemma TimerPreservesInv(p: Player)
    requires PlayerInv(p)
    ensures PlayerInv(TimerStep(p))
  {
    if p.pending != [] {
      StoreStepPreservesInv(p.(pending := p.pending[1..]), Play(p.pending[0].release, p.pending[0].section));
    }
  }

  lemma StepPreservesInv(p: Player, e: Event)
    requires PlayerInv(p)
    ensures PlayerInv(Step(p, e))
  {
    match e
    case Intent(op) => StoreStepPreservesInv(p, op);
    case Close => StoreStepPreservesInv(p, Stop);
    case TogglePlay =>
      StoreStepPreservesInv(p, Pause);
      StoreStepPreservesInv(p, Play(p.currentState.release, p.currentState.section));
    case Retry => RetryPreservesInv(p);
    case TimerFires => TimerPreservesInv(p);
    case IframeLoad(f) => assert PlayerInv(IframeLoadStep(p, f));
    case IframeError => assert PlayerInv(IframeErrorStep(p));
    case ReadUrl => assert PlayerInv(ReadUrlStep(p).0);
  }

  /** Every state reachable from construction satisfies the invariant; in
      particular the retry counter never exceeds 3. */
  lemma {:induction false} ReachableInvariant(p: Player, evs: seq<Event>)
    requires PlayerInv(p)
    ensures PlayerInv(Run(p, evs))
    ensures Run(p, evs).retryCount <= 3
    decreases |evs|
  {
    if evs != [] {
      StepPreservesInv(p, evs[0]);
      ReachableInvariant(Step(p, evs[0]), evs[1..]);
    }
  }

  /** Construction satisfies the invariant whenever the store's record is consistent. */
  lemma InitialInv(st: PlaybackState)
    requires Inv(st)
    ensures PlayerInv(Initial(st))
    ensures PlayerInv(Run(Initial(st), []))
  {
  }

  /** `retry` does nothing at three attempts or more. Below that it clears the
      failure and the cache, leaves the store stopped, and schedules a replay
      of what was loaded; the callback run by `stop` puts the counter back to
      0 whenever a video was loaded, and otherwise it has gone up by one. */
  lemma RetryEffect(p: Player)
    requires PlayerInv(p)
    ensures p.retryCount >= 3 ==> RetryStep(p) == p
    ensures p.retryCount < 3 ==>
      && RetryStep(p).store == Stopped && RetryStep(p).currentState == Stopped
      && !RetryStep(p).failedToLoad
      && RetryStep(p).cachedUrl.None? && RetryStep(p).cachedVideoId.None?
      && RetryStep(p).pending == p.pending + [Replay(p.currentState.release, p.currentState.section)]
      && RetryStep(p).retryCount == (if p.currentState.videoId.Some? then 0 else p.retryCount + 1)
      && RetryStep(p).sent == p.sent
  {
  }

  /** While a video is loaded `retry` is always allowed and leaves the counter at 0,
      so three attempts are never used up by retrying a loaded video. */
  lemma RetryNeverExhaustedWhileLoaded(p: Player)
    requires PlayerInv(p) && p.currentState.videoId.Some?
    ensures p.retryCount < 3
    ensures RetryStep(p).retryCount == 0
  {
  }

  /** A retry of a loaded video followed by its timer replays the same release
      in the same section, playing. */
  lemma {:induction false} RetryThenReplay(p: Player)
    requires PlayerInv(p) && p.currentState.videoId.Some? && p.pending == []
    ensures Run(p, [Retry, TimerFires]).store == p.store.(isPlaying := true)
    ensures Run(p, [Retry, TimerFires]).pending == []
    ensures Run(p, [Retry, TimerFires]).retryCount == 0
  {
    RetryEffect(p);
    var p1 := Step(p, Retry);
    assert p1.pending == [Replay(p.currentState.release, p.currentState.section)];
    var p2 := TimerStep(p1);
    assert p2 == StoreStep(p1.(pending := []), Play(p.store.release, p.store.section));
    assert p2.store == PlaybackState(p.store.release, p.store.section, VideoIdOf(p.store.release), true);
    var evs := [Retry, TimerFires];
    assert evs[1..] == [TimerFires];
    assert Run(p, evs) == Run(p1, [TimerFires]) == Run(p2, []);
  }

  /** Scheduled replays are never cancelled: if another release is played
      between a retry and its timer, the timer brings the retried release back. */
  lemma {:induction false} StaleReplayWins(p: Player, r2: Option<Release>, s2: string)
    requires PlayerInv(p) && p.currentState.videoId.Some? && p.pending == []
    ensures Run(p, [Retry, Intent(Play(r2, s2)), TimerFires]).store == p.store.(isPlaying := true)
  {
    RetryEffect(p);
    var p1 := RetryStep(p);
    var p2 := StoreStep(p1, Play(r2, s2));
    StoreStepKeepsPending(p1, Play(r2, s2));
    assert p2.pending == [Replay(p.currentState.release, p.currentState.section)];
    var p3 := TimerStep(p2);
    assert p3 == StoreStep(p2.(pending := []), Play(p.store.release, p.store.section));
    assert p3.store == PlaybackState(p.store.release, p.store.section, VideoIdOf(p.store.release), true);
    RunThree(p, Retry, Intent(Play(r2, s2)), TimerFires);
  }

  /** A store operation leaves the scheduled replays alone. */
  lemma StoreStepKeepsPending(p: Player, op: StoreOp)
    ensures StoreStep(p, op).pending == p.pending
  {
  }

  lemma RunThree(p: Player, a: Event, b: Event, c: Event)
    ensures Run(p, [a, b, c]) == Step(Step(Step(p, a), b), c)
  {
    var evs := [a, b, c];
    assert evs[1..] == [b, c];
    assert evs[1..][1..] == [c];
    assert Run(p, evs) == Run(Step(p, a), [b, c]) == Run(Step(Step(p, a), b), [c])
      == Run(Step(Step(Step(p, a), b), c), []);
  }

  /** No event other than an iframe load can post a command while there is no iframe. */
  predicate NoLoad(evs: seq<Event>) {
    forall i :: 0 <= i < |evs| ==> !evs[i].IframeLoad?
  }

  lemma StepKeepsSilence(p: Player, e: Event)
    requires p.iframe.None? && !e.IframeLoad?
    ensures Step(p, e).iframe.None? && Step(p, e).sent == p.sent
  {
    match e
    case TimerFires =>
    case TogglePlay =>
    case _ =>
  }

  /** After an iframe error no command is posted until the next iframe load. */
  lemma {:induction false} ErrorSilencesCommands(p: Player, evs: seq<Event>)
    requires NoLoad(evs)
    ensures Run(Step(p, IframeError), evs).sent == p.sent
    ensures Run(Step(p, IframeError), evs).iframe.None?
  {
    SilentRun(Step(p, IframeError), evs);
  }

  lemma {:induction false} SilentRun(p: Player, evs: seq<Event>)
    requires p.iframe.None? && NoLoad(evs)
    ensures Run(p, evs).sent == p.sent && Run(p, evs).iframe.None?
    decreases |evs|
  {
    if evs != [] {
      StepKeepsSilence(p, evs[0]);
      assert NoLoad(evs[1..]) by {
        forall i | 0 <= i < |evs[1..]| ensures !evs[1..][i].IframeLoad? {
          assert evs[1..][i] == evs[i + 1];
        }
      }
      SilentRun(Step(p, evs[0]), evs[1..]);
    }
  }

  /** An iframe load is recorded; a YouTube embed clears the failure and gets
      `playVideo` exactly when the record says playing and it has a window;
      any other page leaves the failure flag alone and gets nothing. */
  lemma IframeLoadEffect(p: Player, f: Iframe)
    ensures IframeLoadStep(p, f).iframe == Some(f)
    ensures IsYouTubeSrc(f.src) ==> !IframeLoadStep(p, f).failedToLoad
    ensures !IsYouTubeSrc(f.src) ==> IframeLoadStep(p, f).failedToLoad == p.failedToLoad
    ensures IframeLoadStep(p, f).sent ==
      if IsYouTubeSrc(f.src) && p.currentState.isPlaying && f.hasContentWindow
      then p.sent + [Command("command", "playVideo", [])] else p.sent
    ensures IframeLoadStep(p, f).store == p.store && IframeLoadStep(p, f).currentState == p.currentState
  {
  }

  /** `togglePlay` pauses when playing, replays the loaded release in its
      section when paused, and does nothing when no release is loaded;
      `close` always stops. */
  lemma TogglePlayAndClose(p: Player)
    requires PlayerInv(p)
    ensures p.currentState.isPlaying ==> Step(p, TogglePlay).store == p.store.(isPlaying := false)
    ensures !p.currentState.isPlaying && p.currentState.release.Some? ==>
      Step(p, TogglePlay).store == Apply(p.store, Play(p.currentState.release, p.currentState.section))
    ensures !p.currentState.isPlaying && p.currentState.release.Some? ==> Step(p, TogglePlay).store.isPlaying
    ensures !p.currentState.isPlaying && p.currentState.release.None? ==> Step(p, TogglePlay) == p
    ensures Step(p, Close).store == Stopped && Step(p, Close).currentState == Stopped
  {
  }

  /** The URL getter returns null without a video and otherwise exactly the
      embed URL; a second read finds it cached and changes nothing. */
  lemma ReadUrlEffect(p: Player)
    requires PlayerInv(p)
    ensures p.currentState.videoId.None? ==> ReadUrlStep(p).1.None?
    ensures p.currentState.videoId.Some? ==> ReadUrlStep(p).1 == Some(EmbedUrl(p.currentState.videoId.value))
    ensures PlayerInv(ReadUrlStep(p).0)
    ensures ReadUrlStep(ReadUrlStep(p).0) == (ReadUrlStep(p).0, ReadUrlStep(p).1)
    ensures ReadUrlStep(p).0.store == p.store && ReadUrlStep(p).0.sent == p.sent
  {
  }

  /** The URL the mini player loads always yields the loaded video back. */
  lemma ReadUrlRoundTrip(p: Player)
    requires PlayerInv(p) && p.currentState.videoId.Some?
    ensures ExtractYouTubeId(ReadUrlStep(p).1) == p.currentState.videoId
  {
    EmbedUrlRoundTrip(p.currentState.videoId.value);
  }

  /** The component object. Its fields are the source's fields, plus the log
      of posted commands and the queue of pending timers. */
  class MiniPlayerComponent {
    const playback: PlaybackService
    var currentState: PlaybackState
    var failedToLoad: bool
    var retryCount: nat
    var iframeElement: Option<Iframe>
    var cachedUrl: Option<string>
    var cachedVideoId: Option<string>
    var sent: seq<Command>
    var pending: seq<Replay>

    function View(): Player
      reads this, playback
    {
      Player(playback.state, currentState, failedToLoad, retryCount, iframeElement, cachedUrl, cachedVideoId, sent, pending)
    }

    ghost predicate Valid()
      reads this, playback
    {
      PlayerInv(View())
    }

    /** Reads the store's snapshot and subscribes; the subject calls back at
        once with the same record. */
    constructor (playback: PlaybackService)
      requires playback.Valid()
      ensures this.playback == playback
      ensures Valid() && View() == Initial(playback.state)
    {
      this.playback := playback;
      currentState := playback.GetCurrentState();
      failedToLoad := false;
      retryCount := 0;
      iframeElement := None;
      cachedUrl := None;
      cachedVideoId := None;
      sent := [];
      pending := [];
      new;
      OnStoreEmit(playback.state);
    }

    /** The subscription callback. */
    method OnStoreEmit(state: PlaybackState)
      modifies this
      ensures View() == OnState(old(View()), state)
    {
      var previousVideoId := currentState.videoId;
      var previousIsPlaying := currentState.isPlaying;
      currentState := state;
      failedToLoad := false;
      if previousVideoId != state.videoId {
        retryCount := 0;
        cachedUrl := None;
        cachedVideoId := None;
      }
      if previousVideoId == state.videoId && previousIsPlaying != state.isPlaying && iframeElement.Some? {
        ControlPlayback(state.isPlaying);
      }
    }

    /** Hands what a store call emitted to the callback, as the subject does. */
    method Deliver(emitted: Option<PlaybackState>)
      requires emitted.Some? ==> playback.state == emitted.value
      modifies this
      ensures emitted.None? ==> View() == old(View())
      ensures emitted.Some? ==> View() == OnState(old(View()), emitted.value)
    {
      if emitted.Some? {
        OnStoreEmit(emitted.value);
      }
    }

    /** The `isVisible` getter. */
    predicate IsVisible()
      reads this, playback
      ensures Valid() ==> (IsVisible() <==> currentState.videoId.Some?)
    {
      Truthy(currentState.videoId)
    }

    /** The `safeYouTubeUrl` getter, which fills the cache on a miss. */
    method SafeYouTubeUrl() returns (url: Option<string>)
      requires Valid()
      modifies this
      ensures Valid()
      ensures (View(), url) == ReadUrlStep(old(View()))
    {
      ghost var before := View();
      if !Truthy(currentState.videoId) {
        return None;
      }
      if cachedVideoId == currentState.videoId && cachedUrl.Some? {
        return cachedUrl;
      }
      var u := EmbedUrl(currentState.videoId.value);
      cachedUrl := Some(u);
      cachedVideoId := currentState.videoId;
      url := cachedUrl;
      ReadUrlEffect(before);
    }

    method Close()
      requires Valid()
      modifies this, playback
      ensures Valid()
      ensures View() == Step(old(View()), Event.Close)
    {
      ghost var before := View();
      var emitted := playback.Stop();
      Deliver(emitted);
      StepPreservesInv(before, Event.Close);
    }

    method TogglePlay()
      requires Valid()
      modifies this, playback
      ensures Valid()
      ensures View() == Step(old(View()), Event.TogglePlay)
    {
      ghost var before := View();
      if currentState.isPlaying {
        var emitted := playback.Pause();
        Deliver(emitted);
      } else if currentState.release.Some? {
        var emitted := playback.Play(currentState.release, currentState.section);
        Deliver(emitted);
      }
      StepPreservesInv(before, Event.TogglePlay);
    }

    method OnIframeLoad(iframe: Iframe)
      requires Valid()
      modifies this
      ensures Valid()
      ensures View() == Step(old(View()), IframeLoad(iframe))
    {
      ghost var before := View();
      iframeElement := Some(iframe);
      if iframe.src != "" && Contains(iframe.src, "youtube.com") {
        failedToLoad := false;
        if currentState.isPlaying {
          ControlPlayback(true);
        }
      }
      StepPreservesInv(before, IframeLoad(iframe));
    }

    method OnIframeError()
      requires Valid()
      modifies this
      ensures Valid()
      ensures View() == Step(old(View()), IframeError)
    {
      failedToLoad := true;
      iframeElement := None;
    }

    /** `controlPlayback(shouldPlay)`: posts when the iframe has a window. */
    method ControlPlayback(shouldPlay: bool)
      modifies this
      ensures View() == Control(old(View()), shouldPlay)
    {
      if iframeElement.None? || !iframeElement.value.hasContentWindow {
        return;
      }
      var command := if shouldPlay then "playVideo" else "pauseVideo";
      sent := sent + [Command("command", command, [])];
    }

    method Retry()
      requires Valid()
      modifies this, playback
      ensures Valid()
      ensures View() == Step(old(View()), Event.Retry)
    {
      ghost var before := View();
      if retryCount < 3 {
        retryCount := retryCount + 1;
        failedToLoad := false;
        cachedUrl := None;
        cachedVideoId := None;
        var currentRelease := currentState.release;
        var currentSection := currentState.section;
        ghost var counted := View();
        assert counted == before.(retryCount := before.retryCount + 1, failedToLoad := false, cachedUrl := None, cachedVideoId := None);
        var emitted := playback.Stop();
        Deliver(emitted);
        assert View() == StoreStep(counted, Stop);
        pending := pending + [Replay(currentRelease, currentSection)];
      }
      StepPreservesInv(before, Event.Retry);
    }

    /** The oldest pending `setTimeout` callback of `retry` runs. */
    method TimerFires()
      requires Valid()
      modifies this, playback
      ensures Valid()
      ensures View() == Step(old(View()), Event.TimerFires)
    {
      ghost var before := View();
      if pending != [] {
        var replay := pending[0];
        pending := pending[1..];
        var emitted := playback.Play(replay.release, replay.section);
        Deliver(emitted);
      }
      StepPreservesInv(before, Event.TimerFires);
    }

    /** The `releaseTitle` getter: the title, or `'Unknown Track'` when it is falsy. */
    function ReleaseTitle(): (title: string)
      reads this
      ensures title != ""
      ensures currentState.release.Some? && Truthy(currentState.release.value.title) ==> title == currentState.release.value.title.value
      ensures !(currentState.release.Some? && Truthy(currentState.release.value.title)) ==> title == "Unknown Track"
    {
      if currentState.release.None? then "Unknown Track" else OrElse(currentState.release.value.title, "Unknown Track")
    }

    /** The `artistName` getter: the artist, or `''`. */
    function ArtistName(): (artist: string)
      reads this
      ensures artist != "" <==> currentState.release.Some? && Truthy(currentState.release.value.artist)
      ensures artist != "" ==> Some(artist) == currentState.release.value.artist
    {
      if currentState.release.None? then "" else OrElse(currentState.release.value.artist, "")
    }

    /** The `coverImage` getter: `coverArt`, then `heroImage`, then `''`. */
    function CoverImage(): (image: string)
      reads this
      ensures image == "" <==> (currentState.release.None?
        || (!Truthy(currentState.release.value.coverArt) && !Truthy(currentState.release.value.heroImage)))
      ensures image != "" && Truthy(currentState.release.value.coverArt) ==> Some(image) == currentState.release.value.coverArt
      ensures image != "" && !Truthy(currentState.release.value.coverArt) ==> Some(image) == currentState.release.value.heroImage
    {
      if currentState.release.None? then ""
      else OrElse(Or(currentState.release.value.coverArt, currentState.release.value.heroImage), "")
    }

    /** `getStreamingLink(platform)`: `links[platform]`, then
        `preSaveLinks[platform]`, then null; an empty string counts as missing. */
    function GetStreamingLink(platform: string): (link: Option<string>)
      reads this
      ensures link.Some? ==> link.value != ""
      ensures link.None? <==> (currentState.release.None?
        || (!Truthy(Lookup(currentState.release.value.links, platform)) && !Truthy(Lookup(currentState.release.value.preSaveLinks, platform))))
      ensures link.Some? && Truthy(Lookup(currentState.release.value.links, platform)) ==> link == Lookup(currentState.release.value.links, platform)
      ensures link.Some? && !Truthy(Lookup(currentState.release.value.links, platform)) ==> link == Lookup(currentState.release.value.preSaveLinks, platform)
    {
      if currentState.release.None? then None
      else
        var r := currentState.release.value;
        var link := Or(Lookup(r.links, platform), Lookup(r.preSaveLinks, platform));
        if Truthy(link) then link else None
    }
  }

  /** A play, pause, stop or toggle issued on the store by any surface, with
      the store's synchronous notification of the mini player. */
  method Dispatch(player: MiniPlayerComponent, op: StoreOp)
    requires player.Valid()
    modifies player, player.playback
    ensures player.Valid()
    ensures player.View() == Step(old(player.View()), Intent(op))
  {
    ghost var before := player.View();
    var emitted: Option<PlaybackState>;
    match op {
      case Play(r, s) => emitted := player.playback.Play(r, s);
      case Pause => emitted := player.playback.Pause();
      case Stop => emitted := player.playback.Stop();
      case Toggle(r, s) => emitted := player.playback.Toggle(r, s);
    }
    player.Deliver(emitted);
    StepPreservesInv(before, Intent(op));
  }
}
