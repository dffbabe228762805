/**
 A character buffer that is written between two positions.
 */
module Buffers {

  /** Nothing outside the positions from `start` to before `end` differs. */
  predicate OnlyChanged(was: string, now: string, start: nat, end: nat) {
    && start <= end <= |was| == |now|
    && (forall i | 0 <= i < start :: now[i] == was[i])
    && (forall i | end <= i < |was| :: now[i] == was[i])
  }

  lemma NothingChanged(s: string, start: nat, end: nat)
    requires start <= end <= |s|
    ensures OnlyChanged(s, s, start, end)
  {
  }

  /** One more character is written at the end. */
  lemma OneMore(was: string, now: string, start: nat, end: nat, c: char)
    requires OnlyChanged(was, now, start, end) && end < |now|
    ensures OnlyChanged(was, now[end := c], start, end + 1)
    ensures now[end := c][start..end + 1] == now[start..end] + [c]
    ensures now[end := c][start] == if start < end then now[start] else c
  {
  }

  /** One change after the other. */
  lemma ThenChanged(was: string, now: string, then': string, start: nat, mid: nat, end: nat)
    requires OnlyChanged(was, now, start, mid) && OnlyChanged(now, then', start, end) && mid <= end
    ensures OnlyChanged(was, then', start, end)
  {
  }

  /** A text that has been written behind what was there. */
  lemma Written(was: string, now: string, first: nat, text: string)
    requires first + |text| <= |was| == |now|
    requires forall i | 0 <= i < first :: now[i] == was[i]
    requires forall k | 0 <= k < |text| :: now[first + k] == text[k]
    ensures now[..first + |text|] == was[..first] + text
  {
  }
}
