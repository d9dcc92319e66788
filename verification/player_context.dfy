/**
  The playback-state container of the podcast player: an episode queue, the
  index of the active episode, and three independent flags. Each intent is a
  pure function of the state snapshot of the render in which it was created;
  React's batching of the three setters an intent calls is not modelled, so
  an intent's setters are applied together as one transition.
 */
module PlayerContext {

  /** One playable item. Built by the page that lists episodes; never changed here. */
  datatype Episode = Episode(
    title: string,
    members: string,
    thumbnail: string,
    duration: int,
    url: string)

  datatype PlayerState = PlayerState(
    queue: seq<Episode>,
    index: int,
    isPlaying: bool,
    isLooping: bool,
    isShuffling: bool)

  /** The state the provider is mounted with: nothing queued, and valid from the start. */
  function Initial(): (s: PlayerState)
    ensures s.queue == [] && s.index == 0
    ensures !s.isPlaying && !s.isLooping && !s.isShuffling
    ensures Valid(s)
  {
    PlayerState([], 0, false, false, false)
  }

  /** An index is usable for a queue: whenever the queue has an episode, the index names one. */
  predicate IndexInBounds(queue: seq<Episode>, index: int) {
    |queue| > 0 ==> 0 <= index < |queue|
  }

  /** The container's invariant. */
  predicate Valid(s: PlayerState) {
    IndexInBounds(s.queue, s.index)
  }

  /** Neither the loop nor the shuffle mode differs between the two states. */
  predicate SameModes(s: PlayerState, t: PlayerState) {
    t.isLooping == s.isLooping && t.isShuffling == s.isShuffling
  }

  /**
    Derived flag: there is an earlier queue position to go back to. With an
    active episode, that position is one of the queue.
   */
  function HasPrevious(s: PlayerState): (b: bool)
    ensures Valid(s) && |s.queue| > 0 ==> (b <==> 0 <= s.index - 1 < |s.queue|)
  {
    s.index > 0
  }

  /**
    Derived flag: shuffling always offers a next episode; otherwise, with an
    active episode, the position after it must be one of the queue.
   */
  function HasNext(s: PlayerState): (b: bool)
    ensures s.isShuffling ==> b
    ensures Valid(s) && |s.queue| > 0 && !s.isShuffling ==> (b <==> 0 <= s.index + 1 < |s.queue|)
  {
    s.isShuffling || s.index + 1 < |s.queue|
  }

  /**
    The integers `Math.floor(Math.random() * n)` can produce for a queue of
    length `n`: a position of the queue, or 0 when the queue is empty.
   */
  predicate RandomPick(n: nat, r: int) {
    if n == 0 then r == 0 else 0 <= r < n
  }

  /**
    The shuffle choice computed from a draw `x` of the unit interval, over
    exact reals: it always lands where `RandomPick` says.
   */
  function ShuffleIndex(x: real, n: nat): (r: int)
    requires 0.0 <= x < 1.0
    ensures RandomPick(n, r)
  {
    var y := x * n as real;
    assert 0.0 <= y;
    assert n > 0 ==> y < n as real by {
      if n > 0 {
        assert x * n as real < 1.0 * n as real;
      }
    }
    y.Floor
  }

  /** `play(episode)`: the queue becomes just this episode, which starts playing. */
  function Play(s: PlayerState, e: Episode): (t: PlayerState)
    ensures t.queue == [e] && t.index == 0 && t.isPlaying
    ensures SameModes(s, t)
    ensures Valid(t) && t.queue[t.index] == e
  {
    s.(queue := [e], index := 0, isPlaying := true)
  }

  /**
    `playList(list, index)`: the queue becomes `list` and playback starts at
    `index`. The intent does not check `index`, so the result satisfies the
    invariant exactly when the caller passed an index usable for `list`.
   */
  function PlayList(s: PlayerState, list: seq<Episode>, i: int): (t: PlayerState)
    ensures t.queue == list && t.index == i && t.isPlaying
    ensures SameModes(s, t)
    ensures Valid(t) <==> IndexInBounds(list, i)
    ensures 0 <= i < |list| ==> t.queue[t.index] == list[i]
  {
    s.(queue := list, index := i, isPlaying := true)
  }

  /** `togglePlay()`: flips the playing flag and nothing else. */
  function TogglePlay(s: PlayerState): (t: PlayerState)
    ensures t.isPlaying == !s.isPlaying
    ensures t.(isPlaying := s.isPlaying) == s
  {
    s.(isPlaying := !s.isPlaying)
  }

  /**
    `setIsPlayingState(b)`: sets the playing flag to `b` and nothing else; a
    state that already agrees with `b` is left as it is, so repeated
    reconciliation from the audio element cannot oscillate.
   */
  function SetIsPlayingState(s: PlayerState, b: bool): (t: PlayerState)
    ensures t.isPlaying == b
    ensures t.(isPlaying := s.isPlaying) == s
    ensures s.isPlaying == b ==> t == s
  {
    s.(isPlaying := b)
  }

  /** `playPrevious()`: steps back one position when there is one, and otherwise does nothing. */
  function PlayPrevious(s: PlayerState): (t: PlayerState)
    ensures t.(index := s.index) == s
    ensures HasPrevious(s) ==> t.index == s.index - 1
    ensures !HasPrevious(s) ==> t == s
    ensures Valid(s) ==> Valid(t)
  {
    if HasPrevious(s) then s.(index := s.index - 1) else s
  }

  /**
    `playNext()`, with the random draw passed in as `r`. Shuffling jumps to
    `r`, which may be the current position; otherwise it steps forward one
    position when there is one and does nothing at the end of the queue.
   */
  function PlayNext(s: PlayerState, r: int): (t: PlayerState)
    requires s.isShuffling ==> RandomPick(|s.queue|, r)
    ensures t.(index := s.index) == s
    ensures s.isShuffling ==> t.index == r && Valid(t)
    ensures !s.isShuffling && s.index + 1 < |s.queue| ==> t.index == s.index + 1
    ensures !HasNext(s) ==> t == s
    ensures Valid(s) ==> Valid(t)
  {
    if s.isShuffling then s.(index := r)
    else if HasNext(s) then s.(index := s.index + 1)
    else s
  }

  /** `toggleLoop()`: flips the loop flag and nothing else. */
  function ToggleLoop(s: PlayerState): (t: PlayerState)
    ensures t.isLooping == !s.isLooping
    ensures t.(isLooping := s.isLooping) == s
  {
    s.(isLooping := !s.isLooping)
  }

  /** `toggleShuffle()`: flips the shuffle flag; the queue and the index stay as they are. */
  function ToggleShuffle(s: PlayerState): (t: PlayerState)
    ensures t.isShuffling == !s.isShuffling
    ensures t.(isShuffling := s.isShuffling) == s
  {
    s.(isShuffling := !s.isShuffling)
  }

  /** `clearPlayer()`: empties the queue and resets the index; all three flags are kept. */
  function ClearPlayer(s: PlayerState): (t: PlayerState)
    ensures t.queue == [] && t.index == 0
    ensures t.isPlaying == s.isPlaying && SameModes(s, t)
    ensures Valid(t)
  {
    s.(queue := [], index := 0)
  }

  /** Toggling the playing flag twice gives back the state. */
  lemma TogglePlayInvolution(s: PlayerState)
    ensures TogglePlay(TogglePlay(s)) == s
  {
  }

  /** Toggling the loop flag twice gives back the state. */
  lemma ToggleLoopInvolution(s: PlayerState)
    ensures ToggleLoop(ToggleLoop(s)) == s
  {
  }

  /** Toggling the shuffle flag twice gives back the state. */
  lemma ToggleShuffleInvolution(s: PlayerState)
    ensures ToggleShuffle(ToggleShuffle(s)) == s
  {
  }

  /** Setting the playing flag twice to the same value is setting it once. */
  lemma SetIsPlayingStateIdempotent(s: PlayerState, b: bool)
    ensures SetIsPlayingState(SetIsPlayingState(s, b), b) == SetIsPlayingState(s, b)
  {
  }

  /** `hasPrevious` holds exactly when `playPrevious()` would change the state. */
  lemma HasPreviousIffPreviousMoves(s: PlayerState)
    ensures HasPrevious(s) <==> PlayPrevious(s) != s
  {
  }

  /**
    Outside shuffle mode, `hasNext` holds exactly when `playNext()` would
    change the state, whatever the (unused) draw.
   */
  lemma HasNextIffNextMoves(s: PlayerState, r: int)
    requires !s.isShuffling
    ensures HasNext(s) <==> PlayNext(s, r) != s
  {
  }

  /**
    Shuffling gives no guarantee of moving on: drawing the current position
    leaves the state as it was.
   */
  lemma ShuffleMayRepeat(s: PlayerState)
    requires s.isShuffling && Valid(s) && |s.queue| > 0
    ensures PlayNext(s, s.index) == s
  {
  }

  /** Toggling shuffle never reorders the queue or moves the index. */
  lemma ToggleShuffleKeepsOrder(s: PlayerState)
    ensures ToggleShuffle(s).queue == s.queue && ToggleShuffle(s).index == s.index
    ensures Valid(s) <==> Valid(ToggleShuffle(s))
  {
  }
}
