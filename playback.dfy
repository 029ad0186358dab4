/** The queue accessor exposed to scripts (start.go, `defineInternals`) and the handler run
    when a song finishes (start.go, `SetSongFinish`). The queue's own operations (`enqueue`,
    `playQueue`) are not part of this model: enqueueing is an append at the tail, and starting
    the next track is reported as the action the handler takes. */
module Playback {
  import opened Wrappers

  datatype AudioFile = AudioFile(path: string, name: string)

  /** `Queue.get_focused()`: the item at the queue's current index, or nil when the index is
      outside the item list (`GetCurrentItem` reports -1 when nothing is selected). */
  function GetFocused(items: seq<AudioFile>, index: int): (r: Option<AudioFile>)
    ensures r.None? <==> (index < 0 || index >= |items|)
    ensures r.Some? ==> 0 <= index < |items| && r.value == items[index]
    ensures r.Some? ==> r.value in items
  {
    if index < 0 || index > |items| - 1 then None else Some(items[index])
  }

  /** What the handler does after the queue update. */
  datatype FinishAction = PlayQueue | SetDefault

  /** The queue after a song finished, and the action taken: in loop mode the finished track
      goes back at the tail before the emptiness test. */
  function AfterFinish(items: seq<AudioFile>, isLoop: bool, finished: AudioFile): (r: (seq<AudioFile>, FinishAction))
    ensures r.1 == SetDefault <==> !isLoop && items == []
    ensures isLoop ==> |r.0| == |items| + 1 && r.0[..|items|] == items && r.0[|items|] == finished
    ensures !isLoop ==> r.0 == items
  {
    var queued := if isLoop then items + [finished] else items;
    (queued, if |queued| > 0 then PlayQueue else SetDefault)
  }

  /** Looping a single finished track over an empty queue replays it: the queue is that track. */
  lemma LoopSingleTrack(finished: AudioFile)
    ensures AfterFinish([], true, finished) == ([finished], PlayQueue)
  {
    assert [] + [finished] == [finished];
  }

  /** The part of the player state the song-finished handler touches. */
  class Session {
    var items: seq<AudioFile>
    var isLoop: bool
    var subtitles: seq<string>
    var subtitle: Option<string>

    constructor (isLoop: bool)
      ensures items == [] && this.isLoop == isLoop && subtitles == [] && subtitle == None
    {
      items, this.isLoop, subtitles, subtitle := [], isLoop, [], None;
    }

    /** The `SetSongFinish` handler: clears the lyric state, re-enqueues the finished track in
        loop mode, then starts the queue or shows the idle bar. */
    method OnSongFinish(finished: AudioFile) returns (action: FinishAction)
      modifies this
      ensures (items, action) == AfterFinish(old(items), isLoop, finished)
      ensures isLoop == old(isLoop)
      ensures subtitles == [] && subtitle == None
    {
      subtitles := [];
      subtitle := None;
      if isLoop {
        items := items + [finished];
      }
      if |items| > 0 {
        action := PlayQueue;
      } else {
        action := SetDefault;
      }
    }
  }
}
