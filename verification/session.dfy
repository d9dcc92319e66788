/**
  A page session: the container driven by a sequence of events, each one an
  intent of the container or a notification of the audio element relayed by
  the player. The container's invariant holds after every admissible sequence.
 */
module Session {
  import opened PlayerContext
  import opened Player

  datatype Event =
    | PlayEpisode(episode: Episode)
    | PlayFromList(list: seq<Episode>, start: int)
    | TogglePlaying
    | Previous
    | Next(draw: int)
    | ToggleLooping
    | ToggleShuffling
    | NativePlay
    | NativePause
    | Clear
    | Ended(draw: int)

  /**
    What each event needs of its caller: `playList` relies on the page to
    pass a usable index, and a shuffle draw lies where `Math.floor(Math.random() * n)` can land.
   */
  predicate Admits(s: PlayerState, ev: Event) {
    match ev
    case PlayFromList(list, start) => IndexInBounds(list, start)
    case Next(draw) => s.isShuffling ==> RandomPick(|s.queue|, draw)
    case Ended(draw) => s.isShuffling ==> RandomPick(|s.queue|, draw)
    case _ => true
  }

  /** One event applied to a state; every event keeps the invariant. */
  function Step(s: PlayerState, ev: Event): (t: PlayerState)
    requires Admits(s, ev)
    ensures Valid(s) ==> Valid(t)
  {
    match ev
    case PlayEpisode(e) => Play(s, e)
    case PlayFromList(list, start) => PlayList(s, list, start)
    case TogglePlaying => TogglePlay(s)
    case Previous => PlayPrevious(s)
    case Next(draw) => PlayNext(s, draw)
    case ToggleLooping => ToggleLoop(s)
    case ToggleShuffling => ToggleShuffle(s)
    case NativePlay => OnNativePlay(s)
    case NativePause => OnNativePause(s)
    case Clear => ClearPlayer(s)
    case Ended(draw) => HandleEpisodeEnded(s, draw)
  }

  /** Every event of `evs` is admitted by the state it is applied to. */
  predicate Admissible(s: PlayerState, evs: seq<Event>)
    decreases |evs|
  {
    |evs| == 0 || (Admits(s, evs[0]) && Admissible(Step(s, evs[0]), evs[1..]))
  }

  /** The state after the events `evs`, in order. */
  function Run(s: PlayerState, evs: seq<Event>): (t: PlayerState)
    requires Admissible(s, evs)
    decreases |evs|
  {
    if |evs| == 0 then s else Run(Step(s, evs[0]), evs[1..])
  }

  /** The invariant holds after any admissible sequence of events from a valid state. */
  lemma {:induction false} RunPreservesValid(s: PlayerState, evs: seq<Event>)
    requires Valid(s) && Admissible(s, evs)
    ensures Valid(Run(s, evs))
    decreases |evs|
  {
    if |evs| > 0 {
      RunPreservesValid(Step(s, evs[0]), evs[1..]);
    }
  }

  /** Every state a session can reach from the provider's initial state is valid. */
  lemma ReachableIsValid(evs: seq<Event>)
    requires Admissible(Initial(), evs)
    ensures Valid(Run(Initial(), evs))
  {
    RunPreservesValid(Initial(), evs);
  }

  /** Events that only navigate the queue. */
  predicate Navigation(evs: seq<Event>) {
    forall i :: 0 <= i < |evs| ==> evs[i].Previous? || evs[i].Next?
  }

  /**
    Any sequence of `playPrevious()` and `playNext()` calls keeps the queue
    and every flag, and keeps the index inside a non-empty queue.
   */
  lemma {:induction false} NavigationKeepsQueue(s: PlayerState, evs: seq<Event>)
    requires Valid(s) && |s.queue| > 0 && Admissible(s, evs) && Navigation(evs)
    ensures Run(s, evs).(index := s.index) == s
    ensures 0 <= Run(s, evs).index < |s.queue|
    decreases |evs|
  {
    if |evs| > 0 {
      var t := Step(s, evs[0]);
      assert t.(index := s.index) == s;
      assert Navigation(evs[1..]) by {
        forall i | 0 <= i < |evs[1..]|
          ensures evs[1..][i].Previous? || evs[1..][i].Next?
        {
          assert evs[1..][i] == evs[i + 1];
        }
      }
      NavigationKeepsQueue(t, evs[1..]);
    }
  }

  /**
    `clearPlayer()` keeps the playing flag, so an `ended` notification (or a
    clear) arriving while the container says "playing" leaves it saying
    "playing" with nothing queued.
   */
  lemma PlayingWithEmptyQueueReachable(e: Episode)
    ensures Admissible(Initial(), [PlayEpisode(e), Ended(0)])
    ensures Run(Initial(), [PlayEpisode(e), Ended(0)]).isPlaying
    ensures Run(Initial(), [PlayEpisode(e), Ended(0)]).queue == []
  {
    var s1 := Play(Initial(), e);
    assert Step(Initial(), PlayEpisode(e)) == s1;
    assert [PlayEpisode(e), Ended(0)][1..] == [Ended(0)];
    assert [Ended(0)][1..] == [];
  }

  /**
    The order in which an audio element reports a track that plays out: it
    pauses first, so `pause` reaches the container before `ended`, and the
    queue is then cleared with the container saying "paused".
   */
  lemma PlayedOutTrackEndsPaused(e: Episode)
    ensures Admissible(Initial(), [PlayEpisode(e), NativePause, Ended(0)])
    ensures !Run(Initial(), [PlayEpisode(e), NativePause, Ended(0)]).isPlaying
    ensures Run(Initial(), [PlayEpisode(e), NativePause, Ended(0)]).queue == []
  {
    var evs := [PlayEpisode(e), NativePause, Ended(0)];
    var s1 := Play(Initial(), e);
    var s2 := OnNativePause(s1);
    var s3 := HandleEpisodeEnded(s2, 0);
    assert evs[1..] == [NativePause, Ended(0)];
    assert evs[1..][1..] == [Ended(0)];
    assert [Ended(0)][1..] == [];
    assert Run(s3, []) == s3;
    assert Run(s2, [Ended(0)]) == s3;
    assert Run(s1, [NativePause, Ended(0)]) == s3;
    assert Run(Initial(), evs) == s3;
  }

  /**
    Going back twice from the middle of a three-episode list: the first step
    reaches position 0, the second does nothing.
   */
  lemma PreviousTwiceFromMiddle(s: PlayerState, e0: Episode, e1: Episode, e2: Episode)
    ensures PlayPrevious(PlayList(s, [e0, e1, e2], 1)).index == 0
    ensures PlayPrevious(PlayPrevious(PlayList(s, [e0, e1, e2], 1))) == PlayPrevious(PlayList(s, [e0, e1, e2], 1))
  {
  }

  /** At the last of two episodes there is no next one until shuffle is switched on. */
  lemma ShuffleOffersNextAtEnd(s: PlayerState, e0: Episode, e1: Episode)
    requires !s.isShuffling
    ensures !HasNext(PlayList(s, [e0, e1], 1))
    ensures HasNext(ToggleShuffle(PlayList(s, [e0, e1], 1)))
  {
  }
}
