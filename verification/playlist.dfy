/**
 The BGM playlist (audio_renderer/audio_renderer.c, region music_playlist).
 The source keeps a singly linked list of track ids and a loop flag; here the
 list is the sequence of its ids from head to tail.
 */
module Playlist {
  import opened Types

  datatype Playlist = Playlist(entries: seq<uint16>, loop: bool)

  /** No entries; music_playlist_loop starts out true. */
  const Initial := Playlist([], true)

  /** music_playlist_clear: free every entry; the loop flag is kept. */
  function Clear(p: Playlist): (r: Playlist)
    ensures |r.entries| == 0
    ensures r.loop == p.loop
  {
    p.(entries := [])
  }

  /**
   music_playlist_enqueue: the new entry becomes the head, so the track
   enqueued last is played first.
   */
  function Enqueue(p: Playlist, t: uint16): (r: Playlist)
    ensures |r.entries| == |p.entries| + 1
    ensures r.entries[0] == t && r.entries[1..] == p.entries
    ensures r.loop == p.loop
  {
    p.(entries := [t] + p.entries)
  }

  /** music_playlist_set_loop */
  function SetLoop(p: Playlist, loop: bool): (r: Playlist)
    ensures r.loop == loop
    ensures r.entries == p.entries
  {
    p.(loop := loop)
  }

  /** The result of dequeuing the head: the popped track and the playlist left. */
  datatype Step = NullDereference | Popped(track: uint16, next: Playlist)

  /**
   The tail walk of update_bgm_playlist: starting from the new head, follow
   `next` to the last entry and link the popped entry after it. When no
   entry is left the walk starts at NULL; None stands for that dereference.
   */
  function AppendAfterLast(rest: seq<uint16>, t: uint16): (r: Option<seq<uint16>>)
    ensures r.None? <==> |rest| == 0
    ensures r.Some? ==> |r.value| == |rest| + 1 && r.value[..|rest|] == rest && r.value[|rest|] == t
  {
    if |rest| == 0 then None else Some(rest + [t])
  }

  /**
   The dequeue of update_bgm_playlist (the caller has checked the head is
   not NULL): pop the head and, when looping, link it after the last entry.
   */
  function Advance(p: Playlist): (r: Step)
    requires |p.entries| > 0
    ensures r.NullDereference? <==> p.loop && |p.entries| == 1
    ensures r.Popped? ==> r.track == p.entries[0] && r.next.loop == p.loop
    ensures r.Popped? && !p.loop ==> r.next.entries == p.entries[1..]
    ensures r.Popped? && p.loop ==> r.next.entries == p.entries[1..] + [p.entries[0]]
  {
    var t := p.entries[0];
    var rest := p.entries[1..];
    if !p.loop then Popped(t, p.(entries := rest))
    else
      match AppendAfterLast(rest, t)
      case None => NullDereference
      case Some(e) => Popped(t, p.(entries := e))
  }

  /** The dequeue as evidently intended: a looping one-entry playlist keeps its entry. */
  function AdvanceIntended(p: Playlist): (r: Step)
    requires |p.entries| > 0
    ensures r.Popped?
    ensures r.track == p.entries[0] && r.next.loop == p.loop
    ensures !p.loop ==> r.next.entries == p.entries[1..]
    ensures p.loop ==> r.next.entries == p.entries[1..] + [p.entries[0]]
  {
    var t := p.entries[0];
    Popped(t, p.(entries := if p.loop then p.entries[1..] + [t] else p.entries[1..]))
  }

  /**
   Up to n advances: the tracks played, in order, and the playlist left.
   Advancing an empty playlist plays nothing (the channel idles); None
   means an advance dereferenced NULL.
   */
  function Play(p: Playlist, n: nat): Option<(seq<uint16>, Playlist)>
    decreases n
  {
    if n == 0 || |p.entries| == 0 then Some(([], p))
    else
      match Advance(p)
      case NullDereference => None
      case Popped(t, q) =>
        match Play(q, n - 1)
        case None => None
        case Some((ts, q')) => Some(([t] + ts, q'))
  }

  /** Up to n advances of AdvanceIntended. */
  function PlayIntended(p: Playlist, n: nat): (seq<uint16>, Playlist)
    decreases n
  {
    if n == 0 || |p.entries| == 0 then ([], p)
    else
      var q := AdvanceIntended(p).next;
      var (ts, q') := PlayIntended(q, n - 1);
      ([p.entries[0]] + ts, q')
  }

  /** Without looping, advancing undoes an enqueue. */
  lemma AdvanceUndoesEnqueue(p: Playlist, t: uint16)
    requires !p.loop
    ensures Advance(Enqueue(p, t)) == Popped(t, p)
  {
  }

  /** With looping, an enqueued track is played and then moves to the tail. */
  lemma AdvanceRotatesEnqueued(p: Playlist, t: uint16)
    requires p.loop && |p.entries| > 0
    ensures Advance(Enqueue(p, t)) == Popped(t, p.(entries := p.entries + [t]))
  {
  }

  /** A looping playlist with a single entry dereferences NULL on its first advance. */
  lemma SingleEntryLoopFaults(t: uint16)
    ensures Advance(Playlist([t], true)) == NullDereference
  {
  }

  /**
   Without looping, advancing plays every entry once, head first, and leaves
   the playlist empty.
   */
  lemma {:induction false} LoopOffPlaysEachOnce(p: Playlist)
    requires !p.loop
    ensures Play(p, |p.entries|) == Some((p.entries, Playlist([], false)))
    decreases |p.entries|
  {
    if |p.entries| > 0 {
      var q := p.(entries := p.entries[1..]);
      LoopOffPlaysEachOnce(q);
      assert [p.entries[0]] + q.entries == p.entries;
    }
  }

  /**
   With looping and at least two entries, k <= n advances play the first k
   entries in order and rotate them to the tail.
   */
  lemma {:induction false} LoopOnRotates(p: Playlist, k: nat)
    requires p.loop && |p.entries| >= 2 && k <= |p.entries|
    ensures Play(p, k) == Some((p.entries[..k], Playlist(p.entries[k..] + p.entries[..k], true)))
    decreases k
  {
    var e := p.entries;
    if k == 0 {
      assert e[k..] + e[..k] == e;
    } else {
      var q := Playlist(e[1..] + [e[0]], true);
      assert Advance(p) == Popped(e[0], q);
      LoopOnRotates(q, k - 1);
      assert q.entries[..k - 1] == e[1..k];
      assert q.entries[k - 1..] + q.entries[..k - 1] == e[k..] + e[..k];
      assert [e[0]] + e[1..k] == e[..k];
    }
  }

  /** A full round of a looping playlist of two or more entries returns it unchanged. */
  lemma LoopOnCycles(p: Playlist)
    requires p.loop && |p.entries| >= 2
    ensures Play(p, |p.entries|) == Some((p.entries, p))
  {
    var e := p.entries;
    LoopOnRotates(p, |e|);
    assert e[..|e|] == e;
    assert e[|e|..] + e[..|e|] == e;
    assert Playlist(e, true) == p;
  }

  /**
   Enqueuing a then b and switching looping off plays b, then a, then
   nothing more.
   */
  lemma EnqueueOrderIsReversed(p: Playlist, a: uint16, b: uint16)
    ensures Play(SetLoop(Enqueue(Enqueue(Clear(p), a), b), false), 3) == Some(([b, a], Playlist([], false)))
  {
    var q := SetLoop(Enqueue(Enqueue(Clear(p), a), b), false);
    assert q.entries == [b, a];
    LoopOffPlaysEachOnce(q);
    assert Play(Playlist([], false), 1) == Some(([], Playlist([], false)));
    assert Play(q, 3) == Some(([b, a], Playlist([], false)));
  }

  /**
   With the intended dequeue, every looping playlist, one entry included,
   plays its entries in order over k <= n advances and rotates them.
   */
  lemma {:induction false} IntendedLoopRotates(p: Playlist, k: nat)
    requires p.loop && |p.entries| >= 1 && k <= |p.entries|
    ensures PlayIntended(p, k) == (p.entries[..k], Playlist(p.entries[k..] + p.entries[..k], true))
    decreases k
  {
    var e := p.entries;
    if k == 0 {
      assert e[k..] + e[..k] == e;
    } else {
      var q := Playlist(e[1..] + [e[0]], true);
      IntendedLoopRotates(q, k - 1);
      assert q.entries[..k - 1] == e[1..k];
      assert q.entries[k - 1..] + q.entries[..k - 1] == e[k..] + e[..k];
      assert [e[0]] + e[1..k] == e[..k];
    }
  }

  /** A one-entry looping playlist replays its track forever under the intended dequeue. */
  lemma IntendedSingleEntryLoops(t: uint16)
    ensures PlayIntended(Playlist([t], true), 1) == ([t], Playlist([t], true))
  {
    IntendedLoopRotates(Playlist([t], true), 1);
    assert [t][..1] == [t];
    assert [t][1..] + [t][..1] == [t];
  }
}
