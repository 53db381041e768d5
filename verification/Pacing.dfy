/**
 The pacing budget (src/sender/event_loop.rs): a token bucket kept as whole
 bytes plus a remainder in byte-nanoseconds.
 */
module Pacing {
  import opened Bytes

  const NANOS: nat := 1_000_000_000
  const BYTES_PER_SECOND: nat := 16_777_216          // 128 Mibit/s over eight
  const BURST_INTERVAL: nat := 10_000_000            // nanoseconds
  const CAPACITY: nat := Max(BYTES_PER_SECOND * BURST_INTERVAL / NANOS, 1)
  const U128_MAX: nat := 0xFFFF_FFFF_FFFF_FFFF_FFFF_FFFF_FFFF_FFFF
  const USIZE_MAX: nat := 0xFFFF_FFFF_FFFF_FFFF

  datatype Budget = Budget(availableBytes: nat, fractionalByteNanos: nat, lastRefill: nat)

  ghost predicate Valid(b: Budget) {
    && b.availableBytes <= CAPACITY
    && b.fractionalByteNanos < NANOS
    && (b.availableBytes == CAPACITY ==> b.fractionalByteNanos == 0)
  }

  function Full(now: nat): Budget { Budget(CAPACITY, 0, now) }

  /** Credit for the time since the last refill, in the source's saturating words. */
  function Refilled(b: Budget, now: nat): Budget {
    var elapsed := Max(now - b.lastRefill, 0);
    if b.availableBytes == CAPACITY then Budget(CAPACITY, 0, now)
    else
      var scaled := Min(Min(elapsed * BYTES_PER_SECOND, U128_MAX) + b.fractionalByteNanos, U128_MAX);
      var added := Min(scaled / NANOS, USIZE_MAX);
      var available := Min(Min(b.availableBytes + added, USIZE_MAX), CAPACITY);
      Budget(available, if available == CAPACITY then 0 else scaled % NANOS, now)
  }

  predicate HasCredit(b: Budget) { b.availableBytes != 0 }

  function Consumed(b: Budget, bytes: nat): Budget {
    b.(availableBytes := Max(b.availableBytes - bytes, 0))
  }

  class BurstBudget {
    var availableBytes: nat
    var fractionalByteNanos: nat
    var lastRefill: nat

    ghost function Model(): Budget
      reads this
    {
      Budget(availableBytes, fractionalByteNanos, lastRefill)
    }

    constructor (now: nat)
      ensures Model() == Full(now)
    {
      availableBytes, fractionalByteNanos, lastRefill := CAPACITY, 0, now;
    }

    method Refill(now: nat)
      requires Valid(Model())
      modifies this
      ensures Model() == Refilled(old(Model()), now) && Valid(Model())
    {
      var elapsed := Max(now - lastRefill, 0);
      lastRefill := now;
      if availableBytes == CAPACITY {
        fractionalByteNanos := 0;
        return;
      }
      var scaled := Min(Min(elapsed * BYTES_PER_SECOND, U128_MAX) + fractionalByteNanos, U128_MAX);
      var added := scaled / NANOS;
      fractionalByteNanos := scaled % NANOS;
      availableBytes := Min(Min(availableBytes + Min(added, USIZE_MAX), USIZE_MAX), CAPACITY);
      if availableBytes == CAPACITY {
        fractionalByteNanos := 0;
      }
    }

    method Consume(bytes: nat)
      requires Valid(Model())
      modifies this`availableBytes
      ensures Model() == Consumed(old(Model()), bytes) && Valid(Model())
    {
      availableBytes := Max(availableBytes - bytes, 0);
      ConsumeKeepsValid(old(Model()), bytes);
    }
  }

  // ----- The exact bucket --------------------------------------------------

  /** What the two words stand for: an exact level in byte-nanoseconds. */
  function Level(b: Budget): nat { b.availableBytes * NANOS + b.fractionalByteNanos }

  /** The level is exactly that of an ideal bucket: nothing is lost to rounding or saturation. */
  lemma RefillIsExact(b: Budget, now: nat)
    requires Valid(b) && b.lastRefill <= now
    ensures Valid(Refilled(b, now)) && Refilled(b, now).lastRefill == now
    ensures Level(Refilled(b, now)) == Min(CAPACITY * NANOS, Level(b) + (now - b.lastRefill) * BYTES_PER_SECOND)
  {
    var earned := (now - b.lastRefill) * BYTES_PER_SECOND;
    if b.availableBytes < CAPACITY {
      var scaled := Min(Min(earned, U128_MAX) + b.fractionalByteNanos, U128_MAX);
      assert scaled == scaled / NANOS * NANOS + scaled % NANOS;
      if earned + b.fractionalByteNanos <= U128_MAX {
        assert scaled == earned + b.fractionalByteNanos;
      } else {
        assert scaled == U128_MAX && scaled / NANOS > CAPACITY;
      }
    }
  }

  lemma LevelDetermines(a: Budget, b: Budget)
    requires Valid(a) && Valid(b) && Level(a) == Level(b) && a.lastRefill == b.lastRefill
    ensures a == b
  {
  }

  /** Refilling in two steps or in one makes no difference. */
  lemma RefillSplits(b: Budget, t: nat, u: nat)
    requires Valid(b) && b.lastRefill <= t <= u
    ensures Refilled(Refilled(b, t), u) == Refilled(b, u)
  {
    RefillIsExact(b, t);
    RefillIsExact(Refilled(b, t), u);
    RefillIsExact(b, u);
    hide Refilled;
    assert (u - b.lastRefill) * BYTES_PER_SECOND
        == (t - b.lastRefill) * BYTES_PER_SECOND + (u - t) * BYTES_PER_SECOND;
    LevelDetermines(Refilled(Refilled(b, t), u), Refilled(b, u));
  }

  lemma ConsumeKeepsValid(b: Budget, bytes: nat)
    requires Valid(b)
    ensures Valid(Consumed(b, bytes))
  {
  }

  /** A packet overdraws the bucket if and only if it is longer than the whole bytes left, and by just the excess. */
  lemma OverdrawIsExact(b: Budget, bytes: nat)
    ensures Level(Consumed(b, bytes)) + bytes * NANOS == Level(b) + Max(bytes - b.availableBytes, 0) * NANOS
    ensures Level(Consumed(b, bytes)) + bytes * NANOS == Level(b) <==> bytes <= b.availableBytes
  {
    if bytes <= b.availableBytes {
      assert (b.availableBytes - bytes) * NANOS + bytes * NANOS == b.availableBytes * NANOS;
    } else {
      assert b.availableBytes * NANOS + (bytes - b.availableBytes) * NANOS == bytes * NANOS;
    }
  }

  /** What sending takes from the level; the packet that empties the bucket may overdraw it. */
  lemma ConsumeFromLevel(b: Budget, bytes: nat)
    requires Valid(b) && HasCredit(b)
    ensures HasCredit(Consumed(b, bytes)) ==> Level(Consumed(b, bytes)) == Level(b) - bytes * NANOS
    ensures Level(Consumed(b, bytes)) <= Level(b) - bytes * NANOS + Max(bytes - 1, 0) * NANOS
  {
  }
}
