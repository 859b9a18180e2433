/**
 The renderer's process-wide state (audio_renderer/audio_renderer.c) as one
 value: the BGM playlist, the pending sound effect, the stored audio map and
 the BGM stream queue, and the playlist-advance step that links them.
 */
module Renderer {
  import opened Types
  import opened AudioMap
  import Playlist
  import Sfx
  import opened TrackQueue

  datatype State = State(
    playlist: Playlist.Playlist,
    sfx: Sfx.Slot,
    audioMap: Option<seq<uint8>>,
    bgm: StreamQueue)

  /** The statics before any call: empty looping playlist, no request, no map, initial queue. */
  const Initial := State(Playlist.Initial, Sfx.Empty, None, InitialBgmQueue)

  /** The BGM queue has read all its sectors and a track is waiting. */
  predicate ReadyToAdvance(s: State)
  {
    s.bgm.sectorIndex >= s.bgm.sectorCount && |s.playlist.entries| > 0
  }

  /**
   What an advance dereferences stays defined: a looping playlist has a
   second entry to walk to, and the head track's record is inside the map.
   */
  predicate UpdateSafe(s: State)
  {
    ReadyToAdvance(s) ==>
      && !(s.playlist.loop && |s.playlist.entries| == 1)
      && LookupSafe(s.audioMap, s.playlist.entries[0], LookupOffset)
  }

  /**
   update_bgm_playlist: once the queue is finished and the playlist is not
   empty, pop the head (rotating it to the tail when looping) and look it
   up; a failed lookup leaves the queue as it was, a found track restarts
   the queue on that track.
   */
  function UpdateBgmPlaylist(s: State): (r: State)
    requires UpdateSafe(s)
    ensures r.sfx == s.sfx && r.audioMap == s.audioMap
    ensures !ReadyToAdvance(s) ==> r == s
    ensures ReadyToAdvance(s) ==>
      var e := s.playlist.entries;
      && r.playlist.loop == s.playlist.loop
      && r.playlist.entries == (if s.playlist.loop then e[1..] + [e[0]] else e[1..])
      && (ReadTrackData(s.audioMap, e[0]).None? ==> r.bgm == s.bgm)
      && (ReadTrackData(s.audioMap, e[0]).Some? ==>
            var loc := ReadTrackData(s.audioMap, e[0]).value;
            r.bgm == StartTrack(e[0], loc.sector, loc.count))
  {
    if !ReadyToAdvance(s) then s
    else
      match Playlist.Advance(s.playlist)
      case NullDereference => assert false; s
      case Popped(t, next) =>
        match ReadTrackData(s.audioMap, t)
        case None => s.(playlist := next)
        case Some(loc) => s.(playlist := next, bgm := StartTrack(t, loc.sector, loc.count))
  }

  /** From the initial queue, the first update with a waiting track advances. */
  lemma InitialQueueAdvances(s: State)
    requires s.bgm == InitialBgmQueue && |s.playlist.entries| > 0
    ensures ReadyToAdvance(s)
  {
  }

  /**
   Nothing in the written code moves sector_index forward, so once a track
   with sectors has started, later updates change nothing.
   */
  lemma StartedTrackStopsAdvancing(s: State)
    requires UpdateSafe(s) && ReadyToAdvance(s)
    requires var t := ReadTrackData(s.audioMap, s.playlist.entries[0]);
             t.Some? && t.value.count > 0
    ensures !ReadyToAdvance(UpdateBgmPlaylist(s))
    ensures UpdateBgmPlaylist(UpdateBgmPlaylist(s)) == UpdateBgmPlaylist(s)
  {
  }

  /** n updates with no audio map stored and looping off. */
  function UpdateTimes(s: State, n: nat): (r: State)
    requires s.audioMap.None? && !s.playlist.loop
    ensures r.audioMap.None? && !r.playlist.loop
    ensures r.bgm == s.bgm
    decreases n
  {
    if n == 0 then s else UpdateTimes(UpdateBgmPlaylist(s), n - 1)
  }

  /**
   Without a stored map every lookup fails, so while the queue stays
   finished each update discards one track and starts nothing: n updates
   drop the first n tracks.
   */
  lemma {:induction false} NoMapDrainsPlaylist(s: State, n: nat)
    requires s.audioMap.None? && !s.playlist.loop
    requires s.bgm.sectorIndex >= s.bgm.sectorCount
    requires n <= |s.playlist.entries|
    ensures UpdateTimes(s, n).playlist.entries == s.playlist.entries[n..]
    ensures UpdateTimes(s, n).bgm == s.bgm
    decreases n
  {
    if n > 0 {
      var s' := UpdateBgmPlaylist(s);
      assert s'.playlist.entries == s.playlist.entries[1..];
      NoMapDrainsPlaylist(s', n - 1);
      assert s.playlist.entries[1..][n - 1..] == s.playlist.entries[n..];
    }
  }
}
