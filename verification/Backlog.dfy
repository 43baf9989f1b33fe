/** A queue from which one entry is served per event: how far serving falls behind arriving. */
module Backlog {
  /** Where each piece of a stream ends, beginning with 0. */
  predicate Growing(ends: seq<nat>) {
    ends != [] && ends[0] == 0 && forall i, j | 0 <= i < j < |ends| :: ends[i] <= ends[j]
  }

  /** How many of the first `k` pieces end within `length` bytes. */
  function CountBelow(ends: seq<nat>, length: nat, k: nat): (n: nat)
    requires k < |ends|
    ensures n <= k
  {
    if k == 0 || ends[k] <= length then k else CountBelow(ends, length, k - 1)
  }

  lemma {:induction false} CountExactly(ends: seq<nat>, length: nat, k: nat, j: nat)
    requires Growing(ends) && j <= k < |ends|
    ensures j <= CountBelow(ends, length, k) <==> ends[j] <= length
  {
    if k != 0 && ends[k] > length && j < k {
      CountExactly(ends, length, k - 1, j);
    }
  }

  function Served(complete: seq<nat>, m: nat): nat
    requires m < |complete|
  {
    if m == 0 then 0
    else
      var before := Served(complete, m - 1);
      if complete[m] > before then before + 1 else before
  }

  lemma {:induction false} ServedPrefix(a: seq<nat>, b: seq<nat>, m: nat)
    requires m < |a| && m < |b| && forall i | 0 <= i <= m :: a[i] == b[i]
    ensures Served(a, m) == Served(b, m)
  {
    if m > 0 {
      ServedPrefix(a, b, m - 1);
    }
  }

  /** Served is the least, over `i`, of what was complete after `i` events plus the events since. */
  lemma {:induction false} ServedIsLeast(complete: seq<nat>, m: nat) returns (i: nat)
    requires m < |complete| && Growing(complete)
    ensures i <= m && Served(complete, m) == complete[i] + (m - i)
    ensures forall j | 0 <= j <= m :: Served(complete, m) <= complete[j] + (m - j)
  {
    i := m;
    if m > 0 {
      var before := ServedIsLeast(complete, m - 1);
      assert complete[m - 1] <= complete[m];
      if complete[m] > Served(complete, m - 1) {
        i := before;
      }
    }
  }
}
