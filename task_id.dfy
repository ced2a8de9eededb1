/** lib/TaskId.ts: task ids of the form `prefix.seed.counter`. The counter and
    the seed are module-level state shared by every queue of the process. The
    counter restarts, and a fresh seed is drawn, whenever the stored counter is
    a multiple of 99999. The random draws are inputs of the model. */
module TaskIds {
  import opened Text

  /** The 62 characters a seed is drawn from. */
  const Alphabet: string := "0123456789abcdefghijklmnopqrstuvwxyzABCDEFGHIJKLMNOPQRSTUVWXYZ"

  /** Number of ids issued under one seed. */
  const WindowSize: nat := 99999

  /** Length of the seed the module draws. */
  const SeedLength: nat := 4

  /** Character indices as `Math.round(Math.random() * (chars.length - 1))` yields them. */
  predicate ValidDraws(draws: seq<nat>) {
    forall i :: 0 <= i < |draws| ==> draws[i] < |Alphabet|
  }

  /** The string that `randomString` builds from the given draws. */
  function SeedFrom(draws: seq<nat>): string
    requires ValidDraws(draws)
  {
    seq(|draws|, i requires 0 <= i < |draws| => Alphabet[draws[i]])
  }

  /** `randomString(count)`: one alphabet character per draw, in draw order. */
  method RandomString(count: nat, draws: seq<nat>) returns (result: string)
    requires |draws| == count && ValidDraws(draws)
    ensures |result| == count
    ensures forall i :: 0 <= i < |result| ==> result[i] in Alphabet
    ensures result == SeedFrom(draws)
  {
    result := "";
    var i := count;
    while i > 0
      invariant 0 <= i <= count
      invariant result == SeedFrom(draws[..count - i])
    {
      result := result + [Alphabet[draws[count - i]]];
      i := i - 1;
    }
    assert draws[..count] == draws;
  }

  /** The reset test of the id function: the stored counter is a multiple of 99999. */
  predicate Rotates(stored: nat) {
    stored % WindowSize == 0
  }

  /** The counter an id carries, given the stored counter before the call. */
  function NextCounter(stored: nat): (n: nat)
    requires stored <= WindowSize
    ensures 1 <= n <= WindowSize
    ensures n == 1 <==> Rotates(stored)
    ensures !Rotates(stored) ==> n == stored + 1
  {
    if Rotates(stored) then 1 else stored + 1
  }

  /** The reset happens on the very first call and right after the 99999th id. */
  lemma RotationPoints(stored: nat)
    requires stored <= WindowSize
    ensures Rotates(stored) <==> stored == 0 || stored == WindowSize
  {
  }

  /** The stored counter after `calls` ids have been drawn since the module loaded. */
  function CounterAfter(calls: nat): (n: nat)
    ensures n <= WindowSize
  {
    if calls == 0 then 0 else NextCounter(CounterAfter(calls - 1))
  }

  /** The `calls`-th id carries counter ((calls - 1) mod 99999) + 1: counters run
      1, 2, ..., 99999 and then start again under a new seed. */
  lemma {:induction false} CounterAfterCalls(calls: nat)
    requires calls >= 1
    ensures CounterAfter(calls) == (calls - 1) % WindowSize + 1
  {
    if calls > 1 {
      CounterAfterCalls(calls - 1);
      var previous := (calls - 2) % WindowSize + 1;
      if previous == WindowSize {
        assert (calls - 2) % WindowSize == WindowSize - 1;
        assert (calls - 1) % WindowSize == 0;
      } else {
        assert (calls - 1) % WindowSize == (calls - 2) % WindowSize + 1;
      }
    }
  }

  /** The id string `${prefix}.${seed}.${counter}`. */
  function IdString(prefix: string, seed: string, n: nat): (id: string)
    ensures |id| == |prefix| + |seed| + 2 + |NatToString(n)|
    ensures id[|prefix| + |seed| + 2..] == NatToString(n)
  {
    prefix + "." + seed + "." + NatToString(n)
  }

  /** Under one prefix and seed, different counters give different ids. */
  lemma IdsDistinct(prefix: string, seed: string, n: nat, m: nat)
    requires n != m
    ensures IdString(prefix, seed, n) != IdString(prefix, seed, m)
  {
    if IdString(prefix, seed, n) == IdString(prefix, seed, m) {
      var head := prefix + "." + seed + ".";
      assert IdString(prefix, seed, n) == head + NatToString(n);
      assert IdString(prefix, seed, m) == head + NatToString(m);
      assert NatToString(n) == IdString(prefix, seed, n)[|head|..];
      assert NatToString(m) == IdString(prefix, seed, m)[|head|..];
      NatToStringInjective(n, m);
    }
  }

  /** The module-level state of lib/TaskId.ts: `id` (here `counter`) and `seed`.
      `calls` counts the ids handed out so far. */
  class TaskIdSource {
    var counter: nat
    var seed: string
    ghost var calls: nat

    ghost predicate Valid()
      reads this
    {
      && counter == CounterAfter(calls)
      && |seed| == SeedLength
      && forall i :: 0 <= i < |seed| ==> seed[i] in Alphabet
    }

    /** Module load: `id = 0` and a first seed of four random characters. */
    constructor (draws: seq<nat>)
      requires |draws| == SeedLength && ValidDraws(draws)
      ensures Valid() && calls == 0 && counter == 0 && seed == SeedFrom(draws)
    {
      var s := RandomString(SeedLength, draws);
      counter := 0;
      seed := s;
      calls := 0;
    }

    /** The default export: draw the next id under `prefix`. `draws` are the
        random characters used if the seed is rotated on this call. */
    method Next(prefix: string, draws: seq<nat>) returns (id: string)
      requires Valid()
      requires |draws| == SeedLength && ValidDraws(draws)
      modifies this
      ensures Valid() && calls == old(calls) + 1
      ensures counter == NextCounter(old(counter)) && counter == (calls - 1) % WindowSize + 1
      ensures seed == if Rotates(old(counter)) then SeedFrom(draws) else old(seed)
      ensures id == IdString(prefix, seed, counter)
    {
      if counter % WindowSize == 0 {
        seed := RandomString(SeedLength, draws);
        counter := 0;
      }
      counter := counter + 1;
      calls := calls + 1;
      CounterAfterCalls(calls);
      id := IdString(prefix, seed, counter);
    }
  }
}
