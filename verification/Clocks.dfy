/**
 Media and wall-clock arithmetic (src/sender/stream.rs, src/ntp.rs). A duration
 is its number of nanoseconds; the machine words of the source, and where they
 wrap, are written out.
 */
module Clocks {
  import opened Bytes

  const NANOS: nat := 1_000_000_000
  const WORD: nat := 0x1_0000_0000
  const NTP_EPOCH_OFFSET_SECS: nat := 2_208_988_800

  // ----- RTP timestamps ----------------------------------------------------

  /** Whole seconds and the remainder are scaled apart, each in wrapping arithmetic. */
  function MediaToRtp(duration: nat, timebase: u32): u32 {
    var wholeSeconds := duration / NANOS * timebase % 0x1_0000_0000_0000_0000 % WORD;
    var fractional := duration % NANOS * timebase / NANOS;
    (wholeSeconds + fractional % WORD) % WORD
  }

  /** Ticks of the media clock at an instant, on the unbounded time line. */
  function Ticks(instant: int, timebase: u32): int { instant * timebase / NANOS }

  /** Splitting off the seconds and wrapping lose nothing: the stamp is the tick count modulo 2^32. */
  lemma MediaToRtpIsTicks(duration: nat, timebase: u32)
    ensures MediaToRtp(duration, timebase) == Ticks(duration, timebase) % WORD
  {
    var s, r := duration / NANOS, duration % NANOS;
    assert duration * timebase == s * timebase * NANOS + r * timebase by {
      assert duration == s * NANOS + r;
    }
    SplitQuotient(s * timebase, r * timebase);
    WrapTwice(s * timebase, r * timebase / NANOS);
  }

  lemma SplitQuotient(a: int, b: int)
    ensures (a * NANOS + b) / NANOS == a + b / NANOS
  {
  }

  lemma WrapTwice(a: nat, b: nat)
    ensures (a % 0x1_0000_0000_0000_0000 % WORD + b % WORD) % WORD == (a + b) % WORD
  {
    WordOfLong(a);
    WrapSum(a, b);
  }

  lemma WordOfLong(a: nat)
    ensures a % 0x1_0000_0000_0000_0000 % WORD == a % WORD
  {
    var k := a / 0x1_0000_0000_0000_0000 * WORD;
    assert a == a % 0x1_0000_0000_0000_0000 + k * WORD;
    ModuloShift(a % 0x1_0000_0000_0000_0000, k);
  }

  lemma ModuloShift(a: int, k: int)
    ensures (a + k * WORD) % WORD == a % WORD
  {
  }

  /** The RTP stamp a Sender Report sent at `now` carries. */
  function ProjectedRtp(lastRtp: u32, reference: int, now: int, timebase: u32): u32 {
    if reference <= now then (lastRtp + MediaToRtp(now - reference, timebase)) % WORD
    else (lastRtp - MediaToRtp(reference - now, timebase)) % WORD
  }

  /**
   The Sender Report's stamp is within one tick of the media clock read at the
   report time: never ahead when projecting forwards, never behind when
   projecting backwards.
   */
  lemma SenderReportWithinOneTick(media: nat, reference: int, now: int, timebase: u32)
    ensures
      var exact := Ticks(media + now - reference, timebase);
      var sent := ProjectedRtp(MediaToRtp(media, timebase), reference, now, timebase);
      if reference <= now then sent == exact % WORD || sent == (exact - 1) % WORD
      else sent == exact % WORD || sent == (exact + 1) % WORD
  {
    hide MediaToRtp, Ticks;
    MediaToRtpIsTicks(media, timebase);
    var a := Ticks(media, timebase);
    if reference <= now {
      var elapsed := now - reference;
      MediaToRtpIsTicks(elapsed, timebase);
      TicksSum(media, elapsed, timebase);
      WrapSum(a, Ticks(elapsed, timebase));
    } else {
      var lead := reference - now;
      MediaToRtpIsTicks(lead, timebase);
      TicksSum(media - lead, lead, timebase);
      WrapDifference(a, Ticks(lead, timebase));
    }
  }

  lemma TicksSum(x: int, y: int, timebase: u32)
    ensures
      var sum := Ticks(x, timebase) + Ticks(y, timebase);
      sum <= Ticks(x + y, timebase) <= sum + 1
  {
    assert (x + y) * timebase == x * timebase + y * timebase;
    FloorSum(x * timebase, y * timebase);
  }

  lemma FloorSum(a: int, b: int)
    ensures a / NANOS + b / NANOS <= (a + b) / NANOS <= a / NANOS + b / NANOS + 1
  {
  }

  lemma WrapSum(a: int, b: int)
    ensures (a % WORD + b % WORD) % WORD == (a + b) % WORD
  {
  }

  lemma WrapDifference(a: int, b: int)
    ensures (a % WORD - b % WORD) % WORD == (a - b) % WORD
  {
  }

  // ----- NTP ---------------------------------------------------------------

  /** `NtpTimestamp::from_system_time`; a time before the Unix epoch counts as the epoch. */
  function FromSystemTime(time: int): u64 {
    var duration := Max(time, 0);
    var fraction := duration % NANOS * WORD / NANOS;
    HighWord(duration / NANOS + NTP_EPOCH_OFFSET_SECS, fraction);
    (duration / NANOS + NTP_EPOCH_OFFSET_SECS) * WORD % 0x1_0000_0000_0000_0000 + fraction
  }

  function Seconds(ntp: u64): u32 { ntp / WORD }

  function Fraction(ntp: u64): u32 { ntp % WORD }

  function ToSystemTime(ntp: u64): nat {
    Max(Seconds(ntp) - NTP_EPOCH_OFFSET_SECS, 0) * NANOS + Fraction(ntp) * NANOS / WORD
  }

  lemma NtpFields(seconds: nat, nanos: nat)
    requires nanos < NANOS
    ensures
      var ntp := FromSystemTime(seconds * NANOS + nanos);
      && Seconds(ntp) == (seconds + NTP_EPOCH_OFFSET_SECS) % WORD
      && Fraction(ntp) == nanos * WORD / NANOS
  {
    var time := seconds * NANOS + nanos;
    assert time / NANOS == seconds && time % NANOS == nanos;
    HighWord(seconds + NTP_EPOCH_OFFSET_SECS, nanos * WORD / NANOS);
  }

  lemma HighWord(s: nat, f: nat)
    requires f < WORD
    ensures
      var x := s * WORD % 0x1_0000_0000_0000_0000 + f;
      x < 0x1_0000_0000_0000_0000 && x / WORD == s % WORD && x % WORD == f
  {
    var k := s / WORD;
    assert s * WORD == s % WORD * WORD + k * WORD * WORD;
    assert s % WORD * WORD < 0x1_0000_0000_0000_0000;
    assert s * WORD % 0x1_0000_0000_0000_0000 == s % WORD * WORD;
  }

  /** A fraction of a second loses at most one nanosecond, and none for multiples of 5^9 ns. */
  lemma FractionRoundTrip(nanos: nat)
    requires nanos < NANOS
    ensures
      var back := nanos * WORD / NANOS * NANOS / WORD;
      back == if nanos % 1_953_125 == 0 then nanos else nanos - 1
  {
    var q, r := nanos * WORD / NANOS, nanos * WORD % NANOS;
    assert q * NANOS == nanos * WORD - r;
    if nanos % 1_953_125 == 0 {
      var k := nanos / 1_953_125;
      assert nanos * WORD == k * 0x80_0000 * NANOS;
      assert r == 0;
    } else if r == 0 {
      FifthPowers(nanos, q);
      assert false;
    }
  }

  /** 5^9 divides whatever 2^23 times of which it divides. */
  lemma FifthPowers(nanos: nat, q: nat)
    requires nanos * WORD == q * NANOS
    ensures nanos % 1_953_125 == 0
  {
    // 1241897 inverts 2^23 modulo 5^9.
    assert nanos * 0x80_0000 == q * 1_953_125;
    assert nanos == (1241897 * q - 5333907 * nanos) * 1_953_125;
  }

  /**
   Converting a time to NTP and back loses at most one nanosecond exactly until
   the 32-bit NTP era ends in 2036; later times come back at least a second off.
   */
  lemma NtpRoundTrip(time: nat)
    ensures
      var back := ToSystemTime(FromSystemTime(time));
      if time / NANOS + NTP_EPOCH_OFFSET_SECS < WORD then
        back == if time % 1_953_125 == 0 then time else time - 1
      else
        back + NANOS < time
  {
    var s, n := time / NANOS, time % NANOS;
    NtpFields(s, n);
    FractionRoundTrip(n);
    SubsecondPart(time);
    if s + NTP_EPOCH_OFFSET_SECS >= WORD {
      EraLost(s);
    }
    RoundTripTotal(s, n, (s + NTP_EPOCH_OFFSET_SECS) % WORD);
  }

  lemma RoundTripTotal(s: nat, n: nat, e: u32)
    requires n < NANOS
    requires s + NTP_EPOCH_OFFSET_SECS < WORD ==> e == s + NTP_EPOCH_OFFSET_SECS
    requires s + NTP_EPOCH_OFFSET_SECS >= WORD ==> Max(e - NTP_EPOCH_OFFSET_SECS, 0) <= s - 2
    ensures
      var total := Max(e - NTP_EPOCH_OFFSET_SECS, 0) * NANOS;
      if s + NTP_EPOCH_OFFSET_SECS < WORD then total == s * NANOS else total + n + NANOS < s * NANOS + n
  {
  }

  lemma SubsecondPart(time: nat)
    ensures time % NANOS % 1_953_125 == time % 1_953_125
  {
  }

  lemma EraLost(s: nat)
    requires s + NTP_EPOCH_OFFSET_SECS >= WORD
    ensures Max((s + NTP_EPOCH_OFFSET_SECS) % WORD - NTP_EPOCH_OFFSET_SECS, 0) <= s - 2
  {
  }
}
