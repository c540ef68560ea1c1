/** The playback store: one record saying which release is playing, from
    which section of the site, with which video, and whether it should be
    playing. `play`, `pause`, `stop` and `toggle` replace the record whole;
    each replacement is the value the store emits to its subscribers. */
module Playback {
  import opened Records
  import opened YouTube

  /** The store's record. `release` is `null` when nothing is loaded. */
  datatype PlaybackState = PlaybackState(
    release: Option<Release>,
    section: string,
    videoId: Option<string>,
    isPlaying: bool)

  /** The initial record, and the one `stop` installs. */
  const Stopped: PlaybackState := PlaybackState(None, "main", None, false)

  /** `release?.links?.youtubeMusic || release?.preSaveLinks?.youtubeMusic`. */
  function YouTubeLink(r: Option<Release>): (link: Option<string>)
    ensures r.None? ==> link.None?
    ensures r.Some? && Truthy(Lookup(r.value.links, "youtubeMusic")) ==> link == Lookup(r.value.links, "youtubeMusic")
    ensures r.Some? && !Truthy(Lookup(r.value.links, "youtubeMusic")) ==> link == Lookup(r.value.preSaveLinks, "youtubeMusic")
  {
    if r.None? then None
    else Or(Lookup(r.value.links, "youtubeMusic"), Lookup(r.value.preSaveLinks, "youtubeMusic"))
  }

  /** The video a release resolves to, if any. */
  function VideoIdOf(r: Option<Release>): (id: Option<string>)
    ensures r.None? ==> id.None?
    ensures id.Some? ==> ValidId(id.value)
  {
    ExtractYouTubeId(YouTubeLink(r))
  }

  /** The record is consistent: its video is the one its release resolves to
      (so a video implies a release), a release is only loaded with its
      video, and only a loaded video can be playing. */
  ghost predicate Inv(st: PlaybackState) {
    && st.videoId == VideoIdOf(st.release)
    && (st.release.Some? ==> st.videoId.Some?)
    && (st.isPlaying ==> st.videoId.Some?)
  }

  /** The store's operations, as any surface of the site issues them. */
  datatype StoreOp =
    | Play(release: Option<Release>, section: string)
    | Pause
    | Stop
    | Toggle(release: Option<Release>, section: string)

  /** What `play` emits: nothing when no video can be resolved, otherwise the
      new record with the release, the section, the video and playing on. */
  function PlayNext(r: Option<Release>, section: string): Option<PlaybackState> {
    match VideoIdOf(r)
    case None => None
    case Some(id) => Some(PlaybackState(r, section, Some(id), true))
  }

  /** What `pause` emits: the current record with playing off. */
  function PauseNext(st: PlaybackState): PlaybackState {
    st.(isPlaying := false)
  }

  /** The value `op` emits from record `st`, or nothing when it returns early. */
  function Emission(st: PlaybackState, op: StoreOp): (r: Option<PlaybackState>)
    ensures r.Some? && r.value.isPlaying ==> r.value.videoId.Some? && r.value.videoId == VideoIdOf(r.value.release)
    ensures r.None? ==> (op.Play? || op.Toggle?) && VideoIdOf(op.release).None?
  {
    match op
    case Play(r, section) => PlayNext(r, section)
    case Pause => Some(PauseNext(st))
    case Stop => Some(Stopped)
    case Toggle(r, section) =>
      if st.videoId == VideoIdOf(r) && st.isPlaying then Some(PauseNext(st)) else PlayNext(r, section)
  }

  /** The record after `op`. */
  function Apply(st: PlaybackState, op: StoreOp): PlaybackState {
    match Emission(st, op)
    case Some(next) => next
    case None => st
  }

  /** The record after a sequence of operations. */
  function Run(st: PlaybackState, ops: seq<StoreOp>): PlaybackState
    decreases |ops|
  {
    if ops == [] then st else Run(Apply(st, ops[0]), ops[1..])
  }

  /** `isPlaying(release, section)`: the release's video, the section and the
      playing flag all match the record. */
  predicate IsPlayingFor(st: PlaybackState, r: Option<Release>, section: string) {
    st.videoId == VideoIdOf(r) && st.section == section && st.isPlaying
  }

  /** Playing a release with no resolvable video emits nothing and leaves the record as it was. */
  lemma PlayUnresolvedIsNoOp(st: PlaybackState, r: Option<Release>, section: string)
    requires VideoIdOf(r).None?
    ensures Emission(st, Play(r, section)).None?
    ensures Apply(st, Play(r, section)) == st
  {
  }

  /** After a successful `play(r, s)` the record is `{r, s, id, true}`: the
      release is playing in `s` and in no other section. */
  lemma PlayThenIsPlaying(st: PlaybackState, r: Option<Release>, s: string, s2: string)
    requires VideoIdOf(r).Some?
    ensures Apply(st, Play(r, s)) == PlaybackState(r, s, VideoIdOf(r), true)
    ensures IsPlayingFor(Apply(st, Play(r, s)), r, s)
    ensures s2 != s ==> !IsPlayingFor(Apply(st, Play(r, s)), r, s2)
  {
  }

  /** `pause` keeps the release, section and video, and turns playing off, so
      no release reports itself as playing. */
  lemma PauseKeepsTarget(st: PlaybackState, r: Option<Release>, s: string)
    ensures Apply(st, Pause).release == st.release
    ensures Apply(st, Pause).section == st.section
    ensures Apply(st, Pause).videoId == st.videoId
    ensures !Apply(st, Pause).isPlaying
    ensures !IsPlayingFor(Apply(st, Pause), r, s)
  {
  }

  /** `stop` empties the record, and stopping twice is stopping once. */
  lemma StopIdempotent(st: PlaybackState)
    ensures Apply(st, Stop) == PlaybackState(None, "main", None, false)
    ensures Apply(Apply(st, Stop), Stop) == Apply(st, Stop)
  {
  }

  /** `toggle` pauses exactly when the release's video is the loaded one and
      it is playing (whatever the section); otherwise it is `play`. */
  lemma ToggleIsPauseOrPlay(st: PlaybackState, r: Option<Release>, s: string)
    ensures st.videoId == VideoIdOf(r) && st.isPlaying ==> Apply(st, Toggle(r, s)) == Apply(st, Pause)
    ensures !(st.videoId == VideoIdOf(r) && st.isPlaying) ==> Apply(st, Toggle(r, s)) == Apply(st, Play(r, s))
  {
  }

  /** From the empty record, three toggles of a playable release give
      playing, paused, playing. */
  lemma ThreeToggles(r: Option<Release>, s: string)
    requires VideoIdOf(r).Some?
    ensures IsPlayingFor(Run(Stopped, [Toggle(r, s)]), r, s)
    ensures !IsPlayingFor(Run(Stopped, [Toggle(r, s), Toggle(r, s)]), r, s)
    ensures Run(Stopped, [Toggle(r, s), Toggle(r, s)]).videoId == VideoIdOf(r)
    ensures IsPlayingFor(Run(Stopped, [Toggle(r, s), Toggle(r, s), Toggle(r, s)]), r, s)
  {
    var one := Apply(Stopped, Toggle(r, s));
    assert one == PlaybackState(r, s, VideoIdOf(r), true);
    var two := Apply(one, Toggle(r, s));
    assert two == one.(isPlaying := false);
    var three := Apply(two, Toggle(r, s));
    assert three == one;
    var t := Toggle(r, s);
    assert Run(Stopped, [t]) == Run(one, []) == one;
    assert [t, t][1..] == [t];
    assert Run(Stopped, [t, t]) == Run(one, [t]) == Run(two, []) == two;
    assert [t, t, t][1..] == [t, t];
    assert Run(Stopped, [t, t, t]) == Run(one, [t, t]) == Run(two, [t]) == Run(three, []);
  }

  /** Every operation keeps the record consistent. */
  lemma ApplyPreservesInv(st: PlaybackState, op: StoreOp)
    requires Inv(st)
    ensures Inv(Apply(st, op))
    ensures Emission(st, op).Some? ==> Inv(Emission(st, op).value)
  {
  }

  /** Every record reachable from the initial one by the four operations is
      consistent: `isPlaying` implies a video, and a video implies a release. */
  lemma {:induction false} ReachableInv(st: PlaybackState, ops: seq<StoreOp>)
    requires Inv(st)
    ensures Inv(Run(st, ops))
    ensures Run(st, ops).isPlaying ==> Run(st, ops).videoId.Some?
    ensures Run(st, ops).videoId.Some? <==> Run(st, ops).release.Some?
    decreases |ops|
  {
    if ops != [] {
      ApplyPreservesInv(st, ops[0]);
      ReachableInv(Apply(st, ops[0]), ops[1..]);
    }
  }

  /** A release reports itself as playing only if it resolves to the loaded video. */
  lemma IsPlayingNeedsVideo(st: PlaybackState, r: Option<Release>, s: string)
    requires Inv(st)
    requires IsPlayingFor(st, r, s)
    ensures VideoIdOf(r).Some? && r.Some?
  {
  }

  /** The store object: its record is a field that every operation replaces
      whole. Each mutating method returns the value it passed to the
      subscribers (nothing when `play` returned early). */
  class PlaybackService {
    var state: PlaybackState

    ghost predicate Valid()
      reads this
    {
      Inv(state)
    }

    constructor ()
      ensures Valid() && state == Stopped
    {
      state := Stopped;
    }

    method Play(release: Option<Release>, section: string) returns (emitted: Option<PlaybackState>)
      requires Valid()
      modifies this
      ensures Valid()
      ensures emitted == Emission(old(state), StoreOp.Play(release, section))
      ensures state == Apply(old(state), StoreOp.Play(release, section))
    {
      var videoId := ExtractYouTubeId(YouTubeLink(release));
      if videoId.None? {
        return None;
      }
      state := PlaybackState(release, section, videoId, true);
      emitted := Some(state);
    }

    method Pause() returns (emitted: Option<PlaybackState>)
      requires Valid()
      modifies this
      ensures Valid()
      ensures emitted == Emission(old(state), StoreOp.Pause)
      ensures state == Apply(old(state), StoreOp.Pause)
    {
      var current := state;
      state := current.(isPlaying := false);
      emitted := Some(state);
    }

    method Stop() returns (emitted: Option<PlaybackState>)
      requires Valid()
      modifies this
      ensures Valid()
      ensures emitted == Emission(old(state), StoreOp.Stop)
      ensures state == Apply(old(state), StoreOp.Stop)
    {
      state := PlaybackState(None, "main", None, false);
      emitted := Some(state);
    }

    method Toggle(release: Option<Release>, section: string) returns (emitted: Option<PlaybackState>)
      requires Valid()
      modifies this
      ensures Valid()
      ensures emitted == Emission(old(state), StoreOp.Toggle(release, section))
      ensures state == Apply(old(state), StoreOp.Toggle(release, section))
    {
      var current := state;
      var videoId := ExtractYouTubeId(YouTubeLink(release));
      if current.videoId == videoId && current.isPlaying {
        emitted := Pause();
      } else {
        emitted := Play(release, section);
      }
    }

    /** `isPlaying(release, section)` on the current record. */
    predicate IsPlaying(release: Option<Release>, section: string)
      reads this
      ensures IsPlaying(release, section) ==> state.isPlaying && state.section == section
      ensures Valid() && IsPlaying(release, section) ==> release.Some? && VideoIdOf(release).Some?
    {
      IsPlayingFor(state, release, section)
    }

    /** `getCurrentState()`: a snapshot that is always consistent. */
    function GetCurrentState(): (snapshot: PlaybackState)
      reads this
      requires Valid()
      ensures snapshot.isPlaying ==> snapshot.videoId.Some?
      ensures snapshot.videoId.Some? <==> snapshot.release.Some?
      ensures snapshot.videoId.Some? ==> ValidId(snapshot.videoId.value)
      ensures snapshot == state
    {
      state
    }
  }
}
