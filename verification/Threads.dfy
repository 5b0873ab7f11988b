/** Thread names, and how the size of a set of threads changes when one of them moves. */
module Threads {
  type Tid = nat

  function Bit(b: bool): int {
    if b then 1 else 0
  }

  lemma CountMoved(was: set<Tid>, now: set<Tid>, t: Tid)
    requires now - {t} == was - {t}
    ensures |now| == |was| + Bit(t in now) - Bit(t in was)
  {
    assert now == (now - {t}) + if t in now then {t} else {};
    assert was == (was - {t}) + if t in was then {t} else {};
  }

  lemma SubsetSize(a: set<Tid>, b: set<Tid>)
    requires a <= b
    ensures |a| <= |b|
  {
    assert b == a + (b - a);
  }
}
