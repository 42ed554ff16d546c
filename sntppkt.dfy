/**
 * The SNTP packet codec and estimator of app/modules/sntppkt.c.
 *
 * Every entry point of the C module is a pure computation over its arguments,
 * so each becomes a function here.  The Lua arguments (strings, integers,
 * userdata) become byte sequences, integers and a `Response` value; the Lua
 * error raised by `luaL_error` becomes the `Raised` outcome.
 *
 * The wire layout is the 48-byte packet of section 4 of RFC 4330; the offset
 * and delay follow section 5 of RFC 4330, computed in wrapping 64-bit
 * arithmetic exactly as the C expressions do.
 */
module SntpPkt {
  import opened Bits

  /** Seconds from 1900-01-01 (NTP era 0) to 1970-01-01 (Unix epoch). */
  const NTP_TO_UNIX_EPOCH: int := 2208988800
  const MICROSECONDS: int := 1000000

  /** Size of the NTP frame and of a cookie (one NTP timestamp). */
  const PACKET_LEN: int := 48
  const COOKIE_LEN: int := 8

  /** Byte offsets of the fields used by the codec (section 4 of RFC 4330). */
  const ROOT_DELAY_AT: int := 4
  const ROOT_DISPERSION_AT: int := 8
  const REFID_AT: int := 12
  const ORIGIN_AT: int := 24
  const RECV_AT: int := 32
  const XMIT_AT: int := 40

  const TWO40: int := 0x100_0000_0000

  // ---------------------------------------------------------------------
  // Conversion helpers
  // ---------------------------------------------------------------------

  /**
   * Shift-and-add approximation of `n / 1000000` (uint64 arithmetic).
   * The sum is scaled by 2^20/10^6 = 1.048576 and shifted down by 20 bits.
   */
  function Div1m(n: u64): (q: u64)
    ensures q < 0x1000_0000_0000
  {
    Div1mQ2(n, Wrap64(n / 32 + n / 1024))
  }

  /** `Div1m` once `q1` is computed. */
  function Div1mQ2(n: u64, q1: u64): (q: u64)
    ensures q < 0x1000_0000_0000
  {
    Div1mQ3(n, q1, Wrap64(n / 4096 + q1 / 2))
  }

  /** `Div1m` once `q1` and `q2` are computed. */
  function Div1mQ3(n: u64, q1: u64, q2: u64): (q: u64)
    ensures q < 0x1000_0000_0000
  {
    Div1mQ(n, q1, q2, Wrap64(q2 / 2048 - q2 / 8388608))
  }

  /** `Div1m` once `q1`, `q2` and `q3` are computed: the sum, shifted down. */
  function Div1mQ(n: u64, q1: u64, q2: u64, q3: u64): (q: u64)
    ensures q < 0x1000_0000_0000
  {
    Wrap64(n + q1 + q2 - q3) / 1048576
  }

  /** The sum that `Div1m` shifts down, when none of its terms wraps. */
  function Div1mSum(n: int): int
  {
    var q1 := n / 32 + n / 1024;
    var q2 := n / 4096 + q1 / 2;
    var q3 := q2 / 2048 - q2 / 8388608;
    n + q1 + q2 - q3
  }

  /** The linear core of the error analysis: each shift is a floor. */
  lemma Div1mSumBounds(n: int, a: int, b: int, c: int, d: int, e: int, f: int, q: int)
    requires 0 <= n < 0x10_0000_0000_0000
    requires 32 * a <= n < 32 * a + 32
    requires 1024 * b <= n < 1024 * b + 1024
    requires 4096 * c <= n < 4096 * c + 4096
    requires 2 * d <= a + b < 2 * d + 2
    requires 2048 * e <= c + d < 2048 * e + 2048
    requires 8388608 * f <= c + d < 8388608 * f + 8388608
    requires q == n + (a + b) + (c + d) - (e - f)
    ensures 1048576 * (n / 1000000 - 4) <= q < 1048576 * (n / 1000000 + 1)
    ensures 0 <= e - f <= c + d <= a + b <= n
    ensures q < 2 * n + 1
  {
  }

  lemma Div1mNoWrap(n: int)
    requires 0 <= n < 0x10_0000_0000_0000
    ensures Div1m(n) == Div1mSum(n) / 1048576
    ensures 1048576 * (n / 1000000 - 4) <= Div1mSum(n) < 1048576 * (n / 1000000 + 1)
  {
    var a, b, c := n / 32, n / 1024, n / 4096;
    var d := (a + b) / 2;
    var e, f := (c + d) / 2048, (c + d) / 8388608;
    Div1mSumBounds(n, a, b, c, d, e, f, Div1mSum(n));
    Div1mSteps(n, a, b, c, d, e, f);
  }

  /** `Div1m` step by step, when no intermediate sum wraps. */
  lemma Div1mSteps(n: int, a: int, b: int, c: int, d: int, e: int, f: int)
    requires 0 <= n < 0x10_0000_0000_0000
    requires a == n / 32 && b == n / 1024 && c == n / 4096 && d == (a + b) / 2
    requires e == (c + d) / 2048 && f == (c + d) / 8388608
    requires 0 <= e - f <= c + d <= a + b <= n
    ensures Div1m(n) == (n + (a + b) + (c + d) - (e - f)) / 1048576
  {
    Div1mStaged(n, a + b, c + d, e - f, n + (a + b) + (c + d) - (e - f));
  }

  /** `Div1m` from the values of its intermediate sums. */
  lemma Div1mStaged(n: u64, q1: u64, q2: u64, q3: u64, q: int)
    requires Wrap64(n / 32 + n / 1024) == q1
    requires Wrap64(n / 4096 + q1 / 2) == q2
    requires Wrap64(q2 / 2048 - q2 / 8388608) == q3
    requires Wrap64(n + q1 + q2 - q3) == q
    ensures Div1m(n) == q / 1048576
  {
    assert Div1m(n) == Div1mQ2(n, q1) == Div1mQ3(n, q1, q2) == Div1mQ(n, q1, q2, q3);
  }

  lemma FloorBetween(q: int, m: int)
    requires 1048576 * (m - 4) <= q < 1048576 * (m + 1)
    ensures m - 4 <= q / 1048576 <= m
  {
  }

  /**
   * Below 2^52 the approximation never overshoots the true quotient and
   * falls short of it by at most 4.
   */
  lemma Div1mApprox(n: u64)
    requires n < 0x10_0000_0000_0000
    ensures n / 1000000 - 4 <= Div1m(n) <= n / 1000000
  {
    Div1mNoWrap(n);
    FloorBetween(Div1mSum(n), n / 1000000);
  }

  /** Microseconds to a 32-bit binary fraction of a second. */
  function UsToFrac(us: u64): u32
  {
    Wrap32(Div1m(Wrap64(us * TWO32)))
  }

  /**
   * A sub-second microsecond count maps onto the 32-bit fraction at most 4
   * units (about one nanosecond) below the exact value `us * 2^32 / 10^6`.
   */
  lemma UsToFracApprox(us: u64)
    requires us < MICROSECONDS
    ensures us * TWO32 / MICROSECONDS - 4 <= UsToFrac(us) <= us * TWO32 / MICROSECONDS
  {
    Div1mApprox(us * TWO32);
  }

  /** A 16.16 fixed-point duration to microseconds; the result is a `uint32_t`. */
  function Frac16ToUs(frac: u64): u32
  {
    Wrap32(Wrap64(frac * MICROSECONDS) / TWO16)
  }

  /**
   * Up to 281474976 (about 4295 seconds) the conversion is the exact floor;
   * beyond that the `uint32_t` result wraps.
   */
  lemma Frac16ToUsExact(frac: u64)
    requires frac <= 281474976
    ensures Frac16ToUs(frac) == frac * MICROSECONDS / TWO16
    ensures frac < TWO16 ==> Frac16ToUs(frac) < MICROSECONDS
  {
  }

  // ---------------------------------------------------------------------
  // Packet fields
  // ---------------------------------------------------------------------

  /**
   * The leap indicator: with the compiler's LSB-first bitfields, `mode` takes
   * bits 0-2 of byte 0, `ver` bits 3-5 and `LI` the top two bits.
   */
  function LeapIndicator(b0: byte): (li: int)
    ensures 0 <= li < 4
    ensures li * 64 <= b0 < li * 64 + 64
  {
    b0 / 64
  }

  /** The NTP timestamp at `at`: 32-bit seconds, then 32-bit fraction. */
  function Timestamp(pkt: seq<byte>, at: nat): (t: u64)
    requires at + 8 <= |pkt|
  {
    Be32(pkt[at..at + 4]) * TWO32 + Be32(pkt[at + 4..at + 8])
  }

  // ---------------------------------------------------------------------
  // make_ts
  // ---------------------------------------------------------------------

  /**
   * The 8-byte request timestamp for the Unix time `sec`.`usec`, which the
   * Lua layer also keeps as the cookie.  Both Lua integers are narrowed to
   * `uint32_t`.
   */
  function MakeTs(sec: int, usec: int): (ts: seq<byte>)
    ensures |ts| == COOKIE_LEN
    ensures Be32(ts[..4]) == Wrap32(sec + NTP_TO_UNIX_EPOCH)
    ensures Be32(ts[4..]) == UsToFrac(Wrap32(usec))
  {
    var s := Wrap32(sec + NTP_TO_UNIX_EPOCH);
    var f := UsToFrac(Wrap32(usec));
    Be32RoundTrip(s);
    Be32RoundTrip(f);
    Be32Bytes(s) + Be32Bytes(f)
  }

  // ---------------------------------------------------------------------
  // proc_pkt
  // ---------------------------------------------------------------------

  /** The `sntppkt.resp` userdata. */
  datatype Response = Response(
    delta: i64,
    cachedDelay: u32,
    txsec: u32,
    delayFrac: u32,
    rootDelay: u32,
    rootDispersion: u32,
    li: int,
    stratum: byte)

  /** What `proc_pkt` leaves on the Lua stack. */
  datatype ProcResult =
    | Raised(message: string)        // luaL_error
    | Unsolicited                    // origin differs from the cookie: nothing returned
    | KissOfDeath(refid: seq<byte>)  // LI == 3: the four reference-id bytes
    | Reply(resp: Response)

  /** The destination timestamp: local receipt time in NTP format. */
  function DestTimestamp(nowSec: u32, nowUsec: u32): u64
  {
    Wrap64(Wrap64((nowSec + NTP_TO_UNIX_EPOCH) * TWO32) + UsToFrac(nowUsec))
  }

  /**
   * The clock offset as sntppkt.c computes it: both differences and both
   * halvings are unsigned 64-bit operations (the `int64_t` cast on the left
   * operand is undone by the usual arithmetic conversions), and the sum is
   * stored into an `int64_t`.
   */
  function Delta(origin: u64, recv: u64, xmit: u64, dest: u64): i64
  {
    Signed64(Wrap64(Wrap64(recv - origin) / 2 + Wrap64(xmit - dest) / 2))
  }

  /** Round-trip delay minus server time, bits 16..47 of the 64-bit sum. */
  function DelayFrac(origin: u64, recv: u64, xmit: u64, dest: u64): u32
  {
    Wrap32(Wrap64(dest - origin - xmit + recv) / TWO16)
  }

  /** The selection metric `root_delay * 2 + delay_frac` in `uint32_t`. */
  function CachedDelay(rootDelay: u32, delayFrac: u32): u32
  {
    Wrap32(rootDelay * 2 + delayFrac)
  }

  /** The response record built from an accepted 48-byte packet. */
  function Decode(pkt: seq<byte>, nowSec: u32, nowUsec: u32): (r: Response)
    requires |pkt| == PACKET_LEN
    ensures r.li == LeapIndicator(pkt[0]) && r.stratum == pkt[1]
    ensures r.rootDelay == Be32(pkt[ROOT_DELAY_AT..ROOT_DELAY_AT + 4])
    ensures r.rootDispersion == Be32(pkt[ROOT_DISPERSION_AT..ROOT_DISPERSION_AT + 4])
    ensures r.txsec == Wrap32(Be32(pkt[XMIT_AT..XMIT_AT + 4]) - NTP_TO_UNIX_EPOCH)
    ensures r.cachedDelay == CachedDelay(r.rootDelay, r.delayFrac)
    ensures var origin, recv, xmit, dest :=
              Timestamp(pkt, ORIGIN_AT), Timestamp(pkt, RECV_AT), Timestamp(pkt, XMIT_AT), DestTimestamp(nowSec, nowUsec);
            r.delta == Delta(origin, recv, xmit, dest) && r.delayFrac == DelayFrac(origin, recv, xmit, dest)
  {
    var origin := Timestamp(pkt, ORIGIN_AT);
    var recv := Timestamp(pkt, RECV_AT);
    var xmit := Timestamp(pkt, XMIT_AT);
    var dest := DestTimestamp(nowSec, nowUsec);
    var rootDelay := Be32(pkt[ROOT_DELAY_AT..ROOT_DELAY_AT + 4]);
    var delayFrac := DelayFrac(origin, recv, xmit, dest);
    Response(
      Delta(origin, recv, xmit, dest),
      CachedDelay(rootDelay, delayFrac),
      Wrap32(Be32(pkt[XMIT_AT..XMIT_AT + 4]) - NTP_TO_UNIX_EPOCH),
      delayFrac,
      rootDelay,
      Be32(pkt[ROOT_DISPERSION_AT..ROOT_DISPERSION_AT + 4]),
      LeapIndicator(pkt[0]),
      pkt[1])
  }

  /**
   * `sntppkt.proc_pkt(packet, cookie, now_sec, now_usec)`.  The cookie length
   * is checked first, then the packet length; the origin field is compared
   * with the cookie byte for byte, before any byte swapping.
   */
  function ProcPkt(pkt: seq<byte>, cookie: seq<byte>, nowSec: int, nowUsec: int): (r: ProcResult)
    ensures r.Raised? <==> |cookie| != COOKIE_LEN || |pkt| != PACKET_LEN
    ensures |cookie| != COOKIE_LEN ==> r == Raised("Bad cookie")
    ensures |cookie| == COOKIE_LEN && |pkt| != PACKET_LEN ==> r == Raised("Bad packet length")
    ensures !r.Raised? ==> (r.Unsolicited? <==> pkt[ORIGIN_AT..ORIGIN_AT + 8] != cookie)
    ensures r.KissOfDeath? || r.Reply? ==> pkt[ORIGIN_AT..ORIGIN_AT + 8] == cookie
    ensures r.KissOfDeath? <==> !r.Raised? && !r.Unsolicited? && LeapIndicator(pkt[0]) == 3
    ensures r.KissOfDeath? ==> r.refid == pkt[REFID_AT..REFID_AT + 4]
    ensures r.Reply? ==> r.resp == Decode(pkt, Wrap32(nowSec), Wrap32(nowUsec))
  {
    if |cookie| != COOKIE_LEN then Raised("Bad cookie")
    else if |pkt| != PACKET_LEN then Raised("Bad packet length")
    else if pkt[ORIGIN_AT..ORIGIN_AT + 8] != cookie then Unsolicited
    else if LeapIndicator(pkt[0]) == 3 then KissOfDeath(pkt[REFID_AT..REFID_AT + 4])
    else Reply(Decode(pkt, Wrap32(nowSec), Wrap32(nowUsec)))
  }

  /**
   * A reply that echoes the timestamp `make_ts` produced is never
   * discarded as unsolicited, and its origin field decodes to the request's
   * seconds and fraction.
   */
  lemma CookieRoundTrip(sec: int, usec: int, pkt: seq<byte>, nowSec: int, nowUsec: int)
    requires |pkt| == PACKET_LEN && pkt[ORIGIN_AT..ORIGIN_AT + 8] == MakeTs(sec, usec)
    ensures !ProcPkt(pkt, MakeTs(sec, usec), nowSec, nowUsec).Raised?
    ensures !ProcPkt(pkt, MakeTs(sec, usec), nowSec, nowUsec).Unsolicited?
    ensures Timestamp(pkt, ORIGIN_AT) == Wrap32(sec + NTP_TO_UNIX_EPOCH) * TWO32 + UsToFrac(Wrap32(usec))
  {
    var ts := MakeTs(sec, usec);
    assert pkt[ORIGIN_AT..ORIGIN_AT + 4] == ts[..4];
    assert pkt[ORIGIN_AT + 4..ORIGIN_AT + 8] == ts[4..];
  }

  // ---------------------------------------------------------------------
  // The offset estimate
  // ---------------------------------------------------------------------

  /**
   * When both differences `recv - origin` and `xmit - dest` have the same
   * sign, the unsigned halvings agree with the signed RFC 4330 offset
   * `((T2 - T1) + (T3 - T4)) / 2`, each half rounded down.
   */
  lemma DeltaSameSign(origin: u64, recv: u64, xmit: u64, dest: u64)
    requires (recv >= origin) == (xmit >= dest)
    requires -TWO63 <= (recv - origin) / 2 + (xmit - dest) / 2 < TWO63
    ensures Delta(origin, recv, xmit, dest) == (recv - origin) / 2 + (xmit - dest) / 2
  {
    var d1, d2 := recv - origin, xmit - dest;
    if d1 >= 0 {
      Signed64OfWrap(d1 / 2 + d2 / 2);
    } else {
      Wrap64OfNegative(d1);
      Wrap64OfNegative(d2);
      assert (d1 + TWO64) / 2 == d1 / 2 + TWO63;
      assert (d2 + TWO64) / 2 == d2 / 2 + TWO63;
    }
  }

  /**
   * When exactly one difference is negative, the unsigned halving of that
   * difference adds 2^63, so the reported offset is off by half the 64-bit
   * range.
   */
  lemma DeltaMixedSign(origin: u64, recv: u64, xmit: u64, dest: u64)
    requires (recv >= origin) != (xmit >= dest)
    ensures Wrap64(Delta(origin, recv, xmit, dest) - ((recv - origin) / 2 + (xmit - dest) / 2)) == TWO63
  {
    var d1, d2 := recv - origin, xmit - dest;
    if d1 >= 0 {
      Wrap64OfNegative(d2);
      assert (d2 + TWO64) / 2 == d2 / 2 + TWO63;
    } else {
      Wrap64OfNegative(d1);
      assert (d1 + TWO64) / 2 == d1 / 2 + TWO63;
    }
  }

  /**
   * A reply with a symmetric 0.1 s path delay (T1 = 1000.0 s,
   * T2 = T3 = T1 + 0.1 s, T4 = T2 + 0.1 s): the true offset is 0, yet the
   * as-written computation yields the most negative `int64_t`.
   */
  lemma DeltaSymmetricDelayCounterexample()
    ensures var t1 := 1000 * TWO32;
            var tenth := 429496730;
            Delta(t1, t1 + tenth, t1 + tenth, t1 + 2 * tenth) == -TWO63
  {
  }

  /**
   * The offset with signed differences and signed halvings, as the earlier
   * implementation kept in app/modules/sntp.c computes it.
   */
  function SignedDelta(origin: u64, recv: u64, xmit: u64, dest: u64): i64
  {
    Signed64(Wrap64(CDiv(Signed64(Wrap64(recv - origin)), 2) + CDiv(Signed64(Wrap64(xmit - dest)), 2)))
  }

  /**
   * Whenever both differences fit an `int64_t`, whatever their signs, the
   * signed computation is the RFC 4330 offset with each half rounded
   * toward zero.
   */
  lemma SignedDeltaIsOffset(origin: u64, recv: u64, xmit: u64, dest: u64)
    requires -TWO63 <= recv - origin < TWO63 && -TWO63 <= xmit - dest < TWO63
    ensures SignedDelta(origin, recv, xmit, dest) == CDiv(recv - origin, 2) + CDiv(xmit - dest, 2)
  {
    var d1, d2 := recv - origin, xmit - dest;
    Signed64OfWrap(d1);
    Signed64OfWrap(d2);
    Signed64OfWrap(CDiv(d1, 2) + CDiv(d2, 2));
  }

  /**
   * The delay term: when the RFC 4330 round-trip delay `(T4 - T1) - (T3 - T2)`
   * lies in [0, 2^48), `delay_frac` is that delay in 16.16 fixed point.
   */
  lemma DelayFracIsRoundTrip(origin: u64, recv: u64, xmit: u64, dest: u64)
    requires 0 <= (dest - origin) - (xmit - recv) < 0x1_0000_0000_0000
    ensures DelayFrac(origin, recv, xmit, dest) == ((dest - origin) - (xmit - recv)) / TWO16
  {
  }

  // ---------------------------------------------------------------------
  // pick_resp
  // ---------------------------------------------------------------------

  /**
   * `sntppkt.pick_resp(a, b, biased)`: whether the second response is
   * preferred.  The biased test multiplies in `uint32_t`.
   */
  function PickResp(a: Response, b: Response, biased: bool): bool
  {
    if biased then Wrap32(a.cachedDelay * 3) > Wrap32(b.cachedDelay * 4)
    else a.cachedDelay > b.cachedDelay
  }

  /**
   * Without wrap-around (delays below 2^30, about 16384 s in 16.16), the
   * biased selector prefers the second response exactly when its delay is
   * below three quarters of the first's, and the unbiased one exactly when
   * it is strictly smaller; so equal delays never switch.
   */
  lemma PickRespPrefersSmaller(a: Response, b: Response)
    requires a.cachedDelay < 0x4000_0000 && b.cachedDelay < 0x4000_0000
    ensures PickResp(a, b, true) <==> 4 * b.cachedDelay < 3 * a.cachedDelay
    ensures PickResp(a, b, false) <==> b.cachedDelay < a.cachedDelay
    ensures a.cachedDelay == b.cachedDelay ==> !PickResp(a, b, true) && !PickResp(a, b, false)
  {
  }

  /** With a delay of 2^30 on both sides, `b * 4` wraps to 0 and the tie switches. */
  lemma PickRespWrapCounterexample(a: Response)
    requires a.cachedDelay == 0x4000_0000
    ensures PickResp(a, a, true)
  {
  }

  /** The biased comparison carried out without wrap-around. */
  function PickRespWide(a: Response, b: Response, biased: bool): bool
  {
    if biased then a.cachedDelay * 3 > b.cachedDelay * 4
    else a.cachedDelay > b.cachedDelay
  }

  /** For every pair of delays, ties keep the first response. */
  lemma PickRespWideKeepsTies(a: Response, b: Response, biased: bool)
    requires a.cachedDelay == b.cachedDelay
    ensures !PickRespWide(a, b, biased)
  {
  }

  // ---------------------------------------------------------------------
  // read_resp
  // ---------------------------------------------------------------------

  /** The offset field of the Lua table: whole seconds or microseconds. */
  datatype Offset = OffsetSeconds(s: int) | OffsetMicros(us: int)

  /**
   * Offsets of 2^40 units (256 s) or more in magnitude are reported in
   * whole seconds (arithmetic shift by 32); smaller ones in microseconds.
   */
  function ReportOffset(delta: i64): (o: Offset)
    ensures o.OffsetMicros? <==> -TWO40 <= delta < TWO40
    ensures o.OffsetSeconds? ==> o.s == delta / TWO32 && (o.s >= 256 || o.s < -256)
    ensures o.OffsetMicros? ==> -256 * MICROSECONDS <= o.us < 256 * MICROSECONDS
    ensures o.OffsetMicros? ==> o.us * TWO32 <= delta * MICROSECONDS < (o.us + 1) * TWO32
  {
    var d40 := delta / TWO40;
    if d40 != 0 && d40 != -1 then OffsetSeconds(delta / TWO32)
    else OffsetMicros(delta * MICROSECONDS / TWO32)
  }

  /** A whole number of seconds below 256 in magnitude is reported exactly in microseconds. */
  lemma ReportOffsetWholeSeconds(s: int)
    requires -256 <= s < 256
    ensures ReportOffset(s * TWO32) == OffsetMicros(s * MICROSECONDS)
  {
  }

  /** The Lua table built by `read_resp`. */
  datatype Reading = Reading(
    offset: Offset,
    delayUs: u32,
    rootDelayUs: u32,
    rootDispersion: u32,
    leapind: int,
    stratum: int)

  /** `sntppkt.read_resp(resp)`. */
  function ReadResp(r: Response): (t: Reading)
    ensures t.offset.OffsetMicros? <==> -TWO40 <= r.delta < TWO40
    ensures t.leapind == r.li && t.stratum == r.stratum
    ensures t.offset == ReportOffset(r.delta)
    ensures t.delayUs == Frac16ToUs(r.delayFrac) && t.rootDelayUs == Frac16ToUs(r.rootDelay)
    ensures t.rootDispersion == r.rootDispersion
  {
    Reading(ReportOffset(r.delta), Frac16ToUs(r.delayFrac), Frac16ToUs(r.rootDelay),
            r.rootDispersion, r.li, r.stratum)
  }
}
