/**
  The decision logic of the player component: which episode it shows, what
  the end of a track does, how the audio element's own play and pause events
  are fed back into the container, what a seek does to the displayed
  progress, and when each control button is enabled.
 */
module Player {
  import opened PlayerContext

  datatype Option<T> = None | Some(value: T)

  /**
    `episodeList[currentEpisodeIndex]`: an index outside the queue (or any
    index into an empty queue) reads `undefined`, and an episode record is
    always truthy, so "an episode is present" means the index is in range.
   */
  function CurrentEpisode(s: PlayerState): (ep: Option<Episode>)
    ensures ep.Some? <==> 0 <= s.index < |s.queue|
    ensures ep.Some? ==> ep.value == s.queue[s.index]
  {
    if 0 <= s.index < |s.queue| then Some(s.queue[s.index]) else None
  }

  /** Under the container's invariant an episode is shown exactly when the queue is non-empty. */
  lemma EpisodePresentIffQueued(s: PlayerState)
    requires Valid(s)
    ensures CurrentEpisode(s).Some? <==> |s.queue| > 0
    ensures |s.queue| > 0 ==> CurrentEpisode(s) == Some(s.queue[s.index])
  {
  }

  /**
    The `ended` handler: move on when there is a next episode, otherwise
    clear the queue. It is built from the container's own transitions, with
    the shuffle draw passed in as `r`.
   */
  function HandleEpisodeEnded(s: PlayerState, r: int): (t: PlayerState)
    requires s.isShuffling ==> RandomPick(|s.queue|, r)
    ensures t.isPlaying == s.isPlaying && SameModes(s, t)
    ensures s.isShuffling ==> t.queue == s.queue && t.index == r
    ensures !s.isShuffling && s.index + 1 < |s.queue| ==> t.queue == s.queue && t.index == s.index + 1
    ensures !HasNext(s) ==> t.queue == [] && t.index == 0
    ensures Valid(s) ==> Valid(t)
  {
    if HasNext(s) then PlayNext(s, r) else ClearPlayer(s)
  }

  /** While shuffling, the end of a track never empties the queue. */
  lemma EndedWhileShufflingKeepsQueue(s: PlayerState, r: int)
    requires s.isShuffling && RandomPick(|s.queue|, r)
    ensures HandleEpisodeEnded(s, r).queue == s.queue
    ensures |s.queue| > 0 ==> CurrentEpisode(HandleEpisodeEnded(s, r)).Some?
  {
  }

  /**
    Outside shuffle mode, the end of the last episode of the queue leaves an
    empty queue with index 0, and the playing flag as it was.
   */
  lemma EndedAtLastClears(s: PlayerState, r: int)
    requires Valid(s) && !s.isShuffling && |s.queue| > 0 && s.index == |s.queue| - 1
    ensures HandleEpisodeEnded(s, r).queue == [] && HandleEpisodeEnded(s, r).index == 0
    ensures HandleEpisodeEnded(s, r).isPlaying == s.isPlaying
  {
  }

  /**
    Outside shuffle mode, the end of any other episode starts the one after
    it in the queue.
   */
  lemma EndedBeforeLastAdvances(s: PlayerState, r: int)
    requires Valid(s) && !s.isShuffling && |s.queue| > 0 && s.index < |s.queue| - 1
    ensures CurrentEpisode(HandleEpisodeEnded(s, r)) == Some(s.queue[s.index + 1])
  {
  }

  /** The audio element's `play` event: the container now says playing; nothing else moves. */
  function OnNativePlay(s: PlayerState): (t: PlayerState)
    ensures t.isPlaying
    ensures t.(isPlaying := s.isPlaying) == s
  {
    SetIsPlayingState(s, true)
  }

  /** The audio element's `pause` event: the container now says paused; nothing else moves. */
  function OnNativePause(s: PlayerState): (t: PlayerState)
    ensures !t.isPlaying
    ensures t.(isPlaying := s.isPlaying) == s
  {
    SetIsPlayingState(s, false)
  }

  /**
    Reconciliation settles: after any burst of native play and pause events
    the container agrees with the last one, so a repeated event changes nothing.
   */
  lemma NativeEventsSettle(s: PlayerState)
    ensures OnNativePlay(OnNativePlay(s)) == OnNativePlay(s)
    ensures OnNativePause(OnNativePause(s)) == OnNativePause(s)
    ensures OnNativePause(OnNativePlay(s)) == OnNativePause(s)
    ensures OnNativePlay(OnNativePause(s)) == OnNativePlay(s)
  {
  }

  /** The component's local view of the playhead: the element's position and the displayed progress. */
  datatype Playhead = Playhead(position: int, progress: int)

  /** The slider's change handler: the element jumps to `amount` and the display shows it at once. */
  function HandleSeek(h: Playhead, amount: int): (g: Playhead)
    ensures g.progress == amount
    ensures g.position == g.progress
  {
    Playhead(amount, amount)
  }

  /** Seeking does not depend on where the playhead was: the last seek wins. */
  lemma SeekLastWins(h: Playhead, a: int, b: int)
    ensures HandleSeek(HandleSeek(h, a), b) == HandleSeek(h, b)
  {
  }

  /** The shuffle button: disabled with no episode or a queue of exactly one. */
  function ShuffleEnabled(s: PlayerState): (on: bool)
    ensures Valid(s) ==> (on <==> |s.queue| >= 2)
  {
    !(CurrentEpisode(s).None? || |s.queue| == 1)
  }

  /** The previous button: disabled with no episode or without `hasPrevious`. */
  function PreviousEnabled(s: PlayerState): (on: bool)
    ensures Valid(s) ==> (on <==> |s.queue| > 0 && s.index > 0)
    ensures on ==> PlayPrevious(s) != s
  {
    !(CurrentEpisode(s).None? || !HasPrevious(s))
  }

  /** The play/pause button: disabled with no episode. */
  function PlayEnabled(s: PlayerState): (on: bool)
    ensures Valid(s) ==> (on <==> |s.queue| > 0)
  {
    !CurrentEpisode(s).None?
  }

  /** The next button: disabled with no episode or without `hasNext`. */
  function NextEnabled(s: PlayerState): (on: bool)
    ensures Valid(s) ==> (on <==> |s.queue| > 0 && (s.isShuffling || s.index + 1 < |s.queue|))
    ensures on && !s.isShuffling ==> PlayNext(s, 0).index == s.index + 1
  {
    !(CurrentEpisode(s).None? || !HasNext(s))
  }

  /** The loop button: disabled with no episode, so always live together with play/pause. */
  function LoopEnabled(s: PlayerState): (on: bool)
    ensures on <==> PlayEnabled(s)
    ensures Valid(s) ==> (on <==> |s.queue| > 0)
  {
    !CurrentEpisode(s).None?
  }

  /**
    Under the invariant the previous control is live exactly when an episode
    is shown and `playPrevious()` would move; the disabled state hides only no-ops.
   */
  lemma PreviousEnabledIffMoves(s: PlayerState)
    requires Valid(s) && |s.queue| > 0
    ensures PreviousEnabled(s) <==> PlayPrevious(s) != s
  {
  }

  /**
    Under the invariant and outside shuffle mode, the next control is live
    exactly when an episode is shown and `playNext()` would move.
   */
  lemma NextEnabledIffMoves(s: PlayerState, r: int)
    requires Valid(s) && |s.queue| > 0 && !s.isShuffling
    ensures NextEnabled(s) <==> PlayNext(s, r) != s
  {
  }
}
