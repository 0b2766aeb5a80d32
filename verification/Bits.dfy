/** What 32-bit arithmetic keeps apart: the facts about bit patterns that the digest rests on. */
module Bits {

  function Mix(hash: bv32, octet: bv32): bv32 {
    hash ^ octet
  }

  function Times(hash: bv32): bv32 {
    hash * 16777619
  }

  /** One octet of FNV-1a. */
  function Step(hash: bv32, octet: bv8): bv32 {
    Times(Mix(hash, octet as bv32))
  }

  lemma {:induction false} WidenedApart(x: bv8, y: bv8)
    requires x != y
    ensures x as bv32 != y as bv32
  {
  }

  lemma {:induction false} MixBack(hash: bv32, octet: bv32)
    ensures Mix(Mix(hash, octet), octet) == hash && Mix(Mix(hash, octet), hash) == octet
  {
  }

  // That multiplying by the prime keeps two hashes apart: write one as the other plus a difference,
  // and the products differ by the difference times the prime, which is odd.

  predicate Exceeds(x: bv32, y: bv32, gap: bv32) {
    x == y + gap
  }

  lemma {:induction false} OddTimes(y: bv32, gap: bv32, product: bv32)
    requires (y + gap) * 16777619 == product && y * 16777619 == product
    ensures gap == 0
  {
  }

  lemma {:induction false} TimesOfSum(y: bv32, gap: bv32)
    requires gap != 0
    ensures Times(y + gap) != Times(y)
  {
    if Times(y + gap) == Times(y) {
      OddTimes(y, gap, Times(y));
    }
  }

  lemma {:induction false} ExceedsByNothing(x: bv32, y: bv32)
    requires Exceeds(x, y, 0)
    ensures x == y
  {
  }

  lemma {:induction false} HasDifference(x: bv32, y: bv32)
    ensures exists gap :: Exceeds(x, y, gap)
  {
    assert Exceeds(x, y, x - y);
  }

  lemma {:induction false} TimesExceeds(x: bv32, y: bv32, gap: bv32)
    requires gap != 0 && Exceeds(x, y, gap)
    ensures Times(x) != Times(y)
  {
    TimesOfSum(y, gap);
  }

  lemma {:induction false} TimesApart(x: bv32, y: bv32)
    requires x != y
    ensures Times(x) != Times(y)
  {
    HasDifference(x, y);
    var gap :| Exceeds(x, y, gap);
    if gap == 0 {
      ExceedsByNothing(x, y);
    } else {
      TimesExceeds(x, y, gap);
    }
  }

  lemma {:induction false} StepApartByOctet(hash: bv32, x: bv8, y: bv8)
    requires x != y
    ensures Step(hash, x) != Step(hash, y)
  {
    WidenedApart(x, y);
    MixBack(hash, x as bv32);
    MixBack(hash, y as bv32);
    TimesApart(Mix(hash, x as bv32), Mix(hash, y as bv32));
  }

  lemma {:induction false} StepApartByHash(h: bv32, g: bv32, octet: bv8)
    requires h != g
    ensures Step(h, octet) != Step(g, octet)
  {
    MixBack(h, octet as bv32);
    MixBack(g, octet as bv32);
    TimesApart(Mix(h, octet as bv32), Mix(g, octet as bv32));
  }
}
