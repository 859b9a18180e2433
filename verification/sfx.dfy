/**
 The pending sound-effect request (audio_renderer/audio_renderer.c, region
 sfx_queue): one cell, not a queue, holding whether a request is pending,
 its track id and its priority.
 */
module Sfx {
  import opened Types

  datatype Slot = Slot(pending: bool, trackId: uint16, priority: uint8)

  /** The static initial values: nothing pending, id 0, priority 0. */
  const Empty := Slot(false, 0, 0)

  /**
   sfx_play: a pending request of equal or higher priority keeps the cell
   and the new request is refused; otherwise the new request takes the cell.
   The result is the return value and the cell afterwards.
   */
  function SfxPlay(s: Slot, id: uint16, priority: uint8): (res: (bool, Slot))
    ensures res.0 <==> !s.pending || s.priority < priority
    ensures res.0 ==> res.1 == Slot(true, id, priority)
    ensures !res.0 ==> res.1 == s
  {
    if s.pending && s.priority >= priority then (false, s)
    else (true, Slot(true, id, priority))
  }

  /**
   After any request a request is pending whose priority is at least the
   one asked for, and a pending priority never goes down.
   */
  lemma RequestLeavesHigherOrEqualPending(s: Slot, id: uint16, priority: uint8)
    ensures SfxPlay(s, id, priority).1.pending
    ensures SfxPlay(s, id, priority).1.priority >= priority
    ensures s.pending ==> SfxPlay(s, id, priority).1.priority >= s.priority
  {
  }

  /** Ties favour the resident request: asking twice at one priority refuses the second. */
  lemma EqualPriorityRepeatIsRefused(s: Slot, a: uint16, b: uint16, priority: uint8)
    ensures var s1 := SfxPlay(s, a, priority).1;
            SfxPlay(s1, b, priority) == (false, s1)
  {
  }

  /** Requesting x at 5, then y at 5, then z at 6, starting empty. */
  lemma PreemptionExample(x: uint16, y: uint16, z: uint16)
    ensures SfxPlay(Empty, x, 5) == (true, Slot(true, x, 5))
    ensures SfxPlay(Slot(true, x, 5), y, 5) == (false, Slot(true, x, 5))
    ensures SfxPlay(Slot(true, x, 5), z, 6) == (true, Slot(true, z, 6))
  {
  }
}
