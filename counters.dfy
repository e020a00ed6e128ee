/**
 * ThreadCounter: a lazily created singleton holding a C# `int` Count that only Increase,
 * Reduce and Reset change. C# int arithmetic is unchecked by default, so Count wraps
 * around at 32 bits.
 */
module Counters {

  const TwoTo31: int := 0x8000_0000
  const TwoTo32: int := 0x1_0000_0000

  newtype Int32 = x: int | -0x8000_0000 <= x < 0x8000_0000

  /** Two's-complement truncation of an exact integer to 32 bits, as unchecked C# int arithmetic. */
  function Wrap(x: int): (r: Int32)
    ensures -TwoTo31 <= x < TwoTo31 ==> r as int == x
    ensures (r as int - x) % TwoTo32 == 0
  {
    ((x + TwoTo31) % TwoTo32 - TwoTo31) as Int32
  }

  /** Values that agree modulo 2^32 wrap to the same Int32. */
  lemma {:induction false} WrapCongruent(x: int, y: int)
    requires (x - y) % TwoTo32 == 0
    ensures Wrap(x) == Wrap(y)
  {
    var k := (x - y) / TwoTo32;
    assert x == y + k * TwoTo32;
    var a, b := x + TwoTo31, y + TwoTo31;
    assert a == b + k * TwoTo32;
    ModShift(b, k);
  }

  lemma ModShift(b: int, k: int)
    ensures (b + k * TwoTo32) % TwoTo32 == b % TwoTo32
  {
    var q, r := b / TwoTo32, b % TwoTo32;
    assert b + k * TwoTo32 == (q + k) * TwoTo32 + r;
  }

  /** Adding n and then subtracting n gives back the start, wrap-around or not. */
  lemma AddThenSubtract(c: Int32, n: Int32)
    ensures Wrap(Wrap(c as int + n as int) as int - n as int) == c
  {
    var x := Wrap(c as int + n as int) as int;
    assert (x - (c as int + n as int)) % TwoTo32 == 0;
    WrapCongruent(x - n as int, c as int);
  }

  class ThreadCounter {
    var count: Int32

    /** The private constructor: a new counter starts at zero. */
    constructor ()
      ensures count == 0
    {
      count := 0;
    }

    /** Count += num. */
    method Increase(num: Int32)
      modifies this
      ensures count == Wrap(old(count) as int + num as int)
      ensures -TwoTo31 <= old(count) as int + num as int < TwoTo31 ==>
                count as int == old(count) as int + num as int
    {
      count := Wrap(count as int + num as int);
    }

    /** Count -= num; there is no lower bound, so Count may become negative. */
    method Reduce(num: Int32)
      modifies this
      ensures count == Wrap(old(count) as int - num as int)
      ensures -TwoTo31 <= old(count) as int - num as int < TwoTo31 ==>
                count as int == old(count) as int - num as int
    {
      count := Wrap(count as int - num as int);
    }

    /** Count = 0, whatever it was. */
    method Reset()
      modifies this
      ensures count == 0
    {
      count := 0;
    }
  }

  /** Increase(n) followed by Reduce(n) restores Count. */
  method IncreaseThenReduce(c: ThreadCounter, n: Int32)
    modifies c
    ensures c.count == old(c.count)
  {
    c.Increase(n);
    c.Reduce(n);
    AddThenSubtract(old(c.count), n);
  }

  /**
   * The static storage of ThreadCounter: the field `_instanse`, created on first access
   * to Instance. Dafny has no static mutable fields, so this object holds it.
   */
  class ThreadCounterStatics {
    var instance: ThreadCounter?

    constructor ()
      ensures instance == null
    {
      instance := null;
    }

    /** ThreadCounter.Instance: the existing counter, or a new one on first access. */
    method Instance() returns (c: ThreadCounter)
      modifies this
      ensures old(instance) != null ==> c == old(instance)
      ensures old(instance) == null ==> fresh(c) && c.count == 0
      ensures instance == c
    {
      if instance == null {
        instance := new ThreadCounter();
      }
      c := instance;
    }
  }

  /** Sequential accesses to Instance all return the same object. */
  method InstanceIsShared(statics: ThreadCounterStatics) returns (a: ThreadCounter, b: ThreadCounter)
    modifies statics
    ensures a == b == statics.instance
  {
    a := statics.Instance();
    b := statics.Instance();
  }
}
