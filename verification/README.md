# Podcast player playback state, in Dafny

This project models the playback core of a browser podcast player. It has two parts.

The first is the **player context**. This container holds the episode queue (`episodeList`), the active position (`currentEpisodeIndex`) and three flags (`isPlaying`, `isLooping`, `isShuffling`). It exposes one intent per user action: `play`, `playList`, `togglePlay`, `playPrevious`, `playNext`, `toggleLoop`, `toggleShuffle`, `setIsPlayingState` and `clearPlayer`. It also derives `hasPrevious` and `hasNext`.

The second is the **player component's decision logic**. It covers:

- which episode is shown;
- what the audio element's `ended`, `play` and `pause` events do to the container;
- what a seek does to the displayed progress;
- when each of the five control buttons is enabled.

Files:

- `player_context.dfy` (module `PlayerContext`): the `Episode` and `PlayerState` records, and one pure transition function per intent. Every intent reads the single state snapshot of the render that created it. An intent's setter calls are applied together, as one transition.
- `player.dfy` (module `Player`): the episode selection, the end-of-track handler, the native play/pause reconciliation, the seek handler and the button predicates.
- `session.dfy` (module `Session`): sequences of events from the initial state. It proves that the invariant survives any admissible sequence.

The invariant is `Valid`: whenever the queue is non-empty, `0 <= index < |queue|`. Every transition preserves it except `playList`. The source never checks the index that `playList` receives. The model keeps `PlayList` total, as the source is, and proves that its result is valid exactly when the index is usable for the list. Inside a session, the caller's obligation becomes the `Admits` condition on the `PlayFromList` event.

`Math.random()` is not modelled. `playNext` and the ended handler take the draw as an explicit integer `r`. While shuffling, `r` must satisfy `RandomPick`: for an empty queue `r == 0`, because `Math.floor(x * 0) == 0`; otherwise `0 <= r < |queue|`. `ShuffleIndex` shows that flooring any draw `x` in `[0, 1)` times the length gives such an `r`, over exact reals.

`clearPlayer` keeps `isPlaying`. So an `ended` notification or a clear that arrives while `isPlaying` is true leaves the container saying "playing" with an empty queue. `PlayingWithEmptyQueueReachable` records this, and the model keeps the behaviour as the source has it. An audio element that plays a track to its end reports `pause` before `ended`. In that order the queue is cleared while the container says "paused" (`PlayedOutTrackEndsPaused`).

## Model

| member | source | states |
|---|---|---|
| PlayerContext.Play | src/contexts/PlayerContext.tsx:43-47 | the queue becomes `[e]` with index 0 and playing on; loop and shuffle are kept; the result is valid and shows `e` |
| PlayerContext.PlayList | src/contexts/PlayerContext.tsx:49-53 | the queue becomes `list` with index `i` and playing on, modes kept; the result is valid iff `i` is usable for `list` (the source does not check it) |
| PlayerContext.TogglePlay | src/contexts/PlayerContext.tsx:55 | flips `isPlaying` and changes nothing else |
| PlayerContext.TogglePlayInvolution | src/contexts/PlayerContext.tsx:55 | toggling play twice gives back the same state |
| PlayerContext.HasPreviousIffPreviousMoves | src/contexts/PlayerContext.tsx:57-63 | `hasPrevious` holds exactly when `playPrevious` would change the state |
| PlayerContext.Initial | src/contexts/PlayerContext.tsx:37-41 | the provider starts with an empty queue at index 0, not playing, looping or shuffling, and this state is valid |
| PlayerContext.HasPrevious | src/contexts/PlayerContext.tsx:57 | with a valid non-empty queue, `hasPrevious` holds iff `index - 1` is a position of the queue |
| PlayerContext.HasNext | src/contexts/PlayerContext.tsx:59 | shuffling always gives `hasNext`; with a valid non-empty queue and no shuffle, `hasNext` holds iff `index + 1` is a position of the queue |
| PlayerContext.PlayPrevious | src/contexts/PlayerContext.tsx:61-63 | with `hasPrevious` the index drops by exactly one, otherwise the state is unchanged; queue and flags never change; validity is kept |
| PlayerContext.ShuffleIndex | src/contexts/PlayerContext.tsx:67-69 | flooring a draw in `[0, 1)` times the queue length gives a position of the queue, or 0 for an empty queue |
| PlayerContext.PlayNext | src/contexts/PlayerContext.tsx:65-73 | shuffling sets the index to the draw and the result is valid; otherwise the index rises by one when a later position exists and the state is unchanged when `hasNext` fails; queue and flags never change; validity is kept |
| PlayerContext.HasNextIffNextMoves | src/contexts/PlayerContext.tsx:59-73 | outside shuffle mode, `hasNext` holds exactly when `playNext` would change the state |
| PlayerContext.ShuffleMayRepeat | src/contexts/PlayerContext.tsx:66-71 | a shuffle draw may pick the current position, and then nothing changes |
| PlayerContext.SetIsPlayingState | src/contexts/PlayerContext.tsx:75 | sets `isPlaying` to `b` and nothing else; a state already agreeing with `b` is unchanged |
| PlayerContext.SetIsPlayingStateIdempotent | src/contexts/PlayerContext.tsx:75 | setting the same playing value twice is setting it once |
| PlayerContext.ToggleLoop | src/contexts/PlayerContext.tsx:77 | flips `isLooping` and changes nothing else |
| PlayerContext.ToggleLoopInvolution | src/contexts/PlayerContext.tsx:77 | toggling loop twice gives back the same state |
| PlayerContext.ToggleShuffle | src/contexts/PlayerContext.tsx:79 | flips `isShuffling` and changes nothing else |
| PlayerContext.ToggleShuffleInvolution | src/contexts/PlayerContext.tsx:79 | toggling shuffle twice gives back the same state |
| PlayerContext.ToggleShuffleKeepsOrder | src/contexts/PlayerContext.tsx:79 | toggling shuffle keeps the queue and the index, and with them validity |
| PlayerContext.ClearPlayer | src/contexts/PlayerContext.tsx:81-84 | the queue becomes empty with index 0; `isPlaying`, `isLooping` and `isShuffling` are kept; the result is valid |
| Player.CurrentEpisode | src/components/Player/index.tsx:34 | Some exactly when 0 <= index < the queue length, and then it holds `queue[index]` |
| Player.EpisodePresentIffQueued | src/components/Player/index.tsx:34 | for a valid state, an episode (`queue[index]`) is shown iff the queue is non-empty |
| Player.HandleEpisodeEnded | src/components/Player/index.tsx:51-54 | all flags are kept; shuffling moves to the draw and keeps the queue; otherwise it advances by one when it can; without `hasNext` the queue is emptied with index 0; validity is kept |
| Player.EndedWhileShufflingKeepsQueue | src/components/Player/index.tsx:51-54 | while shuffling, the end of a track never clears the queue, and an episode is still shown |
| Player.EndedAtLastClears | src/components/Player/index.tsx:51-54 | without shuffle, the end of the last episode leaves an empty queue, index 0 and the playing flag as it was |
| Player.EndedBeforeLastAdvances | src/components/Player/index.tsx:51-54 | without shuffle, the end of any earlier episode shows the next episode of the queue |
| Player.OnNativePlay | src/components/Player/index.tsx:113 | the native `play` event sets `isPlaying` and changes nothing else |
| Player.OnNativePause | src/components/Player/index.tsx:114 | the native `pause` event clears `isPlaying` and changes nothing else |
| Player.NativeEventsSettle | src/components/Player/index.tsx:113-114 | after native play/pause events the state agrees with the last event; repeating an event changes nothing |
| Player.HandleSeek | src/components/Player/index.tsx:46-49 | the displayed progress becomes exactly `amount`, and it matches the element's position |
| Player.SeekLastWins | src/components/Player/index.tsx:46-49 | a seek does not depend on the earlier playhead, so the last seek wins |
| Player.ShuffleEnabled | src/components/Player/index.tsx:123 | for a valid state, shuffle is enabled iff the queue holds at least two episodes |
| Player.PreviousEnabled | src/components/Player/index.tsx:131 | for a valid state, previous is enabled iff an episode is shown and `index > 0`; when enabled, clicking it changes the state |
| Player.PreviousEnabledIffMoves | src/components/Player/index.tsx:131-132 | with an episode shown, previous is enabled exactly when `playPrevious` would change the state |
| Player.PlayEnabled | src/components/Player/index.tsx:139 | for a valid state, play/pause is enabled iff the queue is non-empty |
| Player.NextEnabled | src/components/Player/index.tsx:150 | for a valid state, next is enabled iff an episode is shown and (shuffling or a later position exists); outside shuffle mode, clicking it advances by one |
| Player.NextEnabledIffMoves | src/components/Player/index.tsx:150-151 | with an episode shown and no shuffle, next is enabled exactly when `playNext` would change the state |
| Player.LoopEnabled | src/components/Player/index.tsx:157 | loop is enabled exactly when play/pause is; for a valid state, iff the queue is non-empty |
| Session.Step | src/contexts/PlayerContext.tsx:43-84 | every intent, and every element event the player relays (its ended handler at src/components/Player/index.tsx lines 51-54, its play/pause handlers at lines 113-114), keeps a valid state valid |
| Session.RunPreservesValid | src/contexts/PlayerContext.tsx:37-84 | any admissible sequence of events from a valid state ends in a valid state |
| Session.ReachableIsValid | src/contexts/PlayerContext.tsx:37-41 | every state an admissible sequence reaches from the provider's initial state (each `playList` index usable for its list) is valid |
| Session.NavigationKeepsQueue | src/contexts/PlayerContext.tsx:61-73 | any sequence of `playPrevious`/`playNext` calls keeps the queue and all flags, and keeps the index inside a non-empty queue |
| Session.PlayingWithEmptyQueueReachable | src/contexts/PlayerContext.tsx:81-84 | `clearPlayer` keeps `isPlaying`, so an `ended` arriving while `isPlaying` is true leaves "playing" with an empty queue |
| Session.PlayedOutTrackEndsPaused | src/components/Player/index.tsx:51-54 | when `pause` arrives before `ended`, as it does for a track that plays out, the queue is cleared with `isPlaying` false |
| Session.PreviousTwiceFromMiddle | src/contexts/PlayerContext.tsx:49-63 | after `playList([e0, e1, e2], 1)`, one `playPrevious` reaches index 0 and a second does nothing |
| Session.ShuffleOffersNextAtEnd | src/contexts/PlayerContext.tsx:59 | at the last of two episodes `hasNext` is false, and it becomes true once shuffle is on |

## Left out

- `Math.random()` and floating point: the shuffle draw is an explicit integer parameter constrained by `RandomPick`. `ShuffleIndex` reasons over exact reals, so IEEE rounding of `Math.random() * n` is not modelled.
- React itself is not modelled: `createContext`, `useState`, `usePlayer`, re-renders and the batching of several setters within one intent. Each intent is one transition over one snapshot.
- JSX rendering, styles, `next/image` and the slider widget are not modelled: they are presentation only.
- The `<audio>` element is not modelled. This covers its `play()`/`pause()` calls in the effect at src/components/Player/index.tsx:56-61, its `loop` attribute, and its `autoPlay`. That looping suppresses `ended` is the native element's behaviour, not this code's.
- The `timeupdate` listener set up on `loadedmetadata` (src/components/Player/index.tsx:36-44) is not modelled: it floors a float position and registers listeners.
- Player.HandleSeek: the source writes through `audioRef.current!`, which would throw with no audio element. The slider is only rendered together with the audio element, so the model does not represent the failing path. Positions and amounts are integers.
- `convertDurationToTimeString` is not part of this model.
- `src/pages/_app.tsx` is not modelled: it only composes the page.
- Session event sequences do not follow the audio element's own event order (for a track that plays out, `pause` comes before `ended`). Any order of events is admitted, so reachability results hold for the model's sequences of events, not necessarily for a track that plays out.
- Episode indices are integers. A fractional index passed to `playList` reads `undefined` in the source. This is not represented.
