/**
 * `generateId`: a module-level counter, bumped on every call, formatted
 * with the current time as `id-<time>-<counter>`. The clock is the
 * environment's; only the counter makes ids distinct.
 */
module Ids {
  import opened Text

  /** The text `id-${time}-${n}`: the three parts joined by `-`. */
  function FormatId(time: int, n: nat): string {
    Join(["id", IntToString(time), NatToString(n)], '-')
  }

  lemma FormatIdText(time: int, n: nat)
    ensures FormatId(time, n) == "id-" + IntToString(time) + "-" + NatToString(n)
  {
    var parts := ["id", IntToString(time), NatToString(n)];
    assert parts[1..][1..] == [NatToString(n)];
    assert Join(parts[1..], '-') == IntToString(time) + "-" + NatToString(n);
  }

  /** The part of an id after its last `-`. */
  function CounterPart(id: string): string {
    var parts := Split(id, '-');
    parts[|parts| - 1]
  }

  /** An id ends with its counter, whatever the time (even a negative one, which prints a `-`). */
  lemma CounterPartOfId(time: int, n: nat)
    ensures CounterPart(FormatId(time, n)) == NatToString(n)
  {
    var digits := NatToString(n);
    assert '-' !in digits by {
      NatToStringDigits(n);
      forall i | 0 <= i < |digits| ensures digits[i] != '-' { }
    }
    SplitNoSeparator(digits, '-');
    FormatIdText(time, n);
    SplitConcat("id-" + IntToString(time), '-', digits);
  }

  /** Ids made from different counter values differ, whatever the times. */
  lemma FormatIdInjective(t1: int, n1: nat, t2: int, n2: nat)
    requires FormatId(t1, n1) == FormatId(t2, n2)
    ensures n1 == n2
  {
    CounterPartOfId(t1, n1);
    CounterPartOfId(t2, n2);
    NatToStringInjective(n1, n2);
  }

  /** The ids a generator hands out after counter value `start`, `count` of them, in order. */
  function IdRange(clock: nat -> int, start: nat, count: nat): (ids: seq<string>)
    ensures |ids| == count
  {
    if count == 0 then []
    else IdRange(clock, start, count - 1) + [FormatId(clock(start + count), start + count)]
  }

  /** The range grows by the id for the next counter value. */
  lemma IdRangeSnoc(clock: nat -> int, start: nat, count: nat, id: string)
    requires id == FormatId(clock(start + count + 1), start + count + 1)
    ensures IdRange(clock, start, count + 1) == IdRange(clock, start, count) + [id]
  {
  }

  /** The `k`-th id of a range is the one for counter value `start + 1 + k`. */
  lemma {:induction false} IdRangeAt(clock: nat -> int, start: nat, count: nat, k: nat)
    requires k < count
    ensures IdRange(clock, start, count)[k] == FormatId(clock(start + 1 + k), start + 1 + k)
    decreases count
  {
    if k < count - 1 {
      IdRangeAt(clock, start, count - 1, k);
    }
  }

  /** Ids handed out for different counter values differ. */
  lemma CounterIdsDiffer(clock: nat -> int, a: nat, b: nat)
    requires a != b
    ensures FormatId(clock(a), a) != FormatId(clock(b), b)
  {
    if FormatId(clock(a), a) == FormatId(clock(b), b) {
      FormatIdInjective(clock(a), a, clock(b), b);
    }
  }

  /** No id occurs twice in a range. */
  lemma IdRangeDistinct(clock: nat -> int, start: nat, count: nat, i: nat, j: nat)
    requires i < j < count
    ensures IdRange(clock, start, count)[i] != IdRange(clock, start, count)[j]
  {
    IdRangeAt(clock, start, count, i);
    IdRangeAt(clock, start, count, j);
    CounterIdsDiffer(clock, start + 1 + i, start + 1 + j);
  }

  /** Two consecutive ranges share no id. */
  lemma IdRangesDisjoint(clock: nat -> int, start: nat, m: nat, n: nat, i: nat, j: nat)
    requires i < m && j < n
    ensures IdRange(clock, start, m)[i] != IdRange(clock, start + m, n)[j]
  {
    IdRangeAt(clock, start, m, i);
    IdRangeAt(clock, start + m, n, j);
    CounterIdsDiffer(clock, start + 1 + i, start + m + 1 + j);
  }

  /** The generator's state: the counter, and the clock `Date.now()` reads (time at the n-th call). */
  class IdGenerator {
    var counter: nat
    const clock: nat -> int

    /** The counter starts at 0 when the module is loaded. */
    constructor (clock: nat -> int)
      ensures counter == 0 && this.clock == clock
    {
      counter := 0;
      this.clock := clock;
    }

    /** `generateId()`: bumps the counter by one and formats the new value. */
    method Next() returns (id: string)
      modifies this
      ensures counter == old(counter) + 1
      ensures id == FormatId(clock(counter), counter)
    {
      counter := counter + 1;
      id := FormatId(clock(counter), counter);
    }
  }

  /** Two ids handed out by one generator, the later after the earlier, differ. */
  method NextTwiceDiffers(gen: IdGenerator) returns (first: string, second: string)
    modifies gen
    ensures first != second
  {
    first := gen.Next();
    ghost var n1 := gen.counter;
    second := gen.Next();
    if first == second {
      FormatIdInjective(gen.clock(n1), n1, gen.clock(gen.counter), gen.counter);
    }
  }
}
