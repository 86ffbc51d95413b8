/** The ids commands are published under: a cyclic walk over `[SEQUENCE_ID_FLOOR, TASK_ID_MAX)`. */
module SequenceIds {

  const SEQUENCE_ID_FLOOR: nat := 30_000
  const TASK_ID_MAX: nat := 0x7FFF_FFFF
  const CYCLE: nat := TASK_ID_MAX - SEQUENCE_ID_FLOOR

  predicate InRange(id: nat) {
    SEQUENCE_ID_FLOOR <= id < TASK_ID_MAX
  }

  /** The counter a connection begins with, from the clock. */
  function FromSeed(seed: nat): (id: nat)
    ensures InRange(id)
  {
    SEQUENCE_ID_FLOOR + seed % CYCLE
  }

  /** The id minted after `counter`, which is also the new counter. */
  function Next(counter: nat): (id: nat)
    ensures InRange(counter) ==> InRange(id)
  {
    if counter + 1 >= TASK_ID_MAX then SEQUENCE_ID_FLOOR else counter + 1
  }

  /** The `k`-th id minted after `counter`. */
  function Minted(counter: nat, k: nat): (id: nat) {
    if k == 0 then counter else Next(Minted(counter, k - 1))
  }

  /** The closed form of the walk. */
  lemma {:induction false} MintedIsCyclic(counter: nat, k: nat)
    requires InRange(counter)
    ensures Minted(counter, k) == SEQUENCE_ID_FLOOR + (counter - SEQUENCE_ID_FLOOR + k) % CYCLE
    ensures InRange(Minted(counter, k))
  {
    var at := counter - SEQUENCE_ID_FLOOR + k;
    if k > 0 {
      MintedIsCyclic(counter, k - 1);
      ModSuccessor(at - 1);
    }
  }

  lemma ModSuccessor(n: nat)
    ensures (n + 1) % CYCLE == if n % CYCLE + 1 == CYCLE then 0 else n % CYCLE + 1
  {
  }

  /** Any `CYCLE` consecutive ids are distinct, and the next one repeats the first. */
  lemma {:induction false} MintedRepeatsOnlyAfterCycle(counter: nat, a: nat, b: nat)
    requires InRange(counter) && a < b <= a + CYCLE
    ensures Minted(counter, a) == Minted(counter, b) <==> b == a + CYCLE
  {
    MintedIsCyclic(counter, a);
    MintedIsCyclic(counter, b);
    var x, d := counter - SEQUENCE_ID_FLOOR + a, b - a;
    ModShift(x, d);
  }

  lemma ModShift(x: nat, d: nat)
    requires 0 < d <= CYCLE
    ensures (x + d) % CYCLE == x % CYCLE <==> d == CYCLE
  {
  }

  /** Seeds less than a cycle apart give different counters, from 30000 on and below the 32-bit limit. */
  lemma SeedsDiffer(a: nat, b: nat)
    requires a < b < a + 2_147_453_647
    ensures FromSeed(a) != FromSeed(b)
    ensures 30_000 <= FromSeed(a) < 2_147_483_647
  {
    ModShift(a, b - a);
  }

  // ----- the arcs that connections mint -----

  /** The ids a connection minted: `length` of them, after `start`. */
  datatype Arc = Arc(start: nat, length: nat)
  {
    ghost predicate Contains(id: nat) {
      exists k: nat :: 1 <= k <= length && Minted(start, k) == id
    }
  }

  /** How far along the cycle it is from `a` to `b`. */
  function Offset(a: nat, b: nat): nat {
    (b - a) % CYCLE
  }

  /** The two arcs do not meet: neither reaches the start of the other. */
  predicate Apart(a: Arc, b: Arc) {
    || a.length == 0 || b.length == 0
    || (a.length <= Offset(a.start, b.start) && b.length <= Offset(b.start, a.start))
  }

  lemma OffsetIs(a: nat, b: nat)
    requires InRange(a) && InRange(b)
    ensures Offset(a, b) == if a <= b then b - a else b - a + CYCLE
  {
  }

  lemma MintedIs(counter: nat, k: nat)
    requires InRange(counter) && 1 <= k <= CYCLE
    ensures Minted(counter, k) == if counter + k < TASK_ID_MAX then counter + k else counter + k - CYCLE
  {
    hide Minted;
    MintedIsCyclic(counter, k);
  }

  /** Arcs of no more than a cycle share no id exactly when they are apart. */
  lemma ApartIffDisjoint(a: Arc, b: Arc)
    requires InRange(a.start) && InRange(b.start) && a.length <= CYCLE && b.length <= CYCLE
    ensures Apart(a, b) <==> forall id: nat :: !(a.Contains(id) && b.Contains(id))
  {
    hide Minted, Offset;
    OffsetIs(a.start, b.start);
    OffsetIs(b.start, a.start);
    if Apart(a, b) {
      forall id: nat
        ensures !(a.Contains(id) && b.Contains(id))
      {
        if a.Contains(id) && b.Contains(id) {
          var k: nat :| 1 <= k <= a.length && Minted(a.start, k) == id;
          var j: nat :| 1 <= j <= b.length && Minted(b.start, j) == id;
          MintedIs(a.start, k);
          MintedIs(b.start, j);
        }
      }
    } else if Offset(a.start, b.start) < a.length {
      MintedIs(b.start, 1);
      MintedIs(a.start, Offset(a.start, b.start) + 1);
      assert b.Contains(Minted(b.start, 1)) && a.Contains(Minted(b.start, 1));
    } else {
      MintedIs(a.start, 1);
      MintedIs(b.start, Offset(b.start, a.start) + 1);
      assert a.Contains(Minted(a.start, 1)) && b.Contains(Minted(a.start, 1));
    }
  }

  /** The walk goes on from where it is. */
  lemma {:induction false} MintedAdds(counter: nat, a: nat, b: nat)
    ensures Minted(Minted(counter, a), b) == Minted(counter, a + b)
  {
    if b > 0 {
      MintedAdds(counter, a, b - 1);
    }
  }
}
