/** The ring of 300 slots that `switch.c` and `switch_main.c` keep per direction, and the slot a sequence number
    chooses in it.
 */
module Rings {

  const N: nat := 300

  function Idx(psn: int): (k: nat)
    ensures k < N
  {
    psn % N
  }

  /** Within a window of the ring's size every number has a slot of its own. */
  lemma SlotsAreDistinct(p: int, q: int)
    requires Idx(p) == Idx(q) && p < q + N && q < p + N
    ensures p == q
  {
  }

  /** Numbers that choose the same slot do so one further on, and the other way round. */
  lemma NextSlotsAgreeIff(p: int, q: int)
    ensures Idx(p + 1) == Idx(q + 1) <==> Idx(p) == Idx(q)
  {
    NextSlot(p);
    NextSlot(q);
  }

  lemma NextSlot(p: int)
    ensures Idx(p + 1) == if Idx(p) + 1 == N then 0 else Idx(p) + 1
  {
  }
}
