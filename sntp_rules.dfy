/**
 * Rules of the earlier SNTP client that app/modules/sntp.c keeps inside
 * `#if 0` (lines 553-964).  None of this is compiled into the firmware: the
 * block refers to a `state` structure that no longer exists.  It is the only
 * place the file states how the best server is chosen, how Kiss-o'-Death
 * replies are handled and how a pending leap second is applied, so those
 * rules are modelled here on their own.
 *
 * The per-server state the block reaches through `state->` and the globals
 * `serverp`, `the_offset`, `pending_LI`, `using_offset` and `next_midnight`
 * are the fields of `ClientState`.  The fields of `state->best` take the
 * types of the live `sntp_best`, the only declaration of them.
 */
module SntpRules {
  import opened Bits
  import SntpPkt
  import Sntp

  const SECONDS_PER_DAY: int := 86400

  /**
   * `NTP_ANYCAST_ADDR` (224.0.1.1) as the `ip_addr_t` word: network byte
   * order in memory, read on a little-endian core.
   */
  const ANYCAST_ADDR: u32 := 0x0101_00E0

  /** The Kiss-o'-Death code that asks a client to stop: ASCII "DENY". */
  const DENY: seq<byte> := [0x44, 0x45, 0x4E, 0x59]

  /** Days from 1 March of year 0 to 1 January 1970, as update_offset spells it out. */
  const EPOCH_DAY: int := 1970 * 365 + 1970 / 4 - 19 + 4 - 31 - 28

  lemma EpochDayValue()
    ensures EPOCH_DAY == 719468
  {
  }

  // ---------------------------------------------------------------------
  // record_result
  // ---------------------------------------------------------------------

  /**
   * The selection metric of `record_result`: `root_delay * 2 + delay_frac`
   * computed in `uint32_t` and stored in an `int`, less a quarter (an
   * arithmetic shift) for the server that was best last time.
   */
  function Metric(rootDelay: u32, delayFrac: u32, sameAsLast: bool): (m: int)
    ensures -0x8000_0000 <= m < 0x8000_0000
    ensures !sameAsLast ==> m == Signed32(SntpPkt.CachedDelay(rootDelay, delayFrac))
  {
    var d := Signed32(Wrap32(rootDelay * 2 + delayFrac));
    if sameAsLast then d - d / 4 else d
  }

  /**
   * For a metric below 2^31 the bonus takes off a quarter rounded down:
   * what remains is between three quarters of the delay and the delay.
   */
  lemma MetricBonus(rootDelay: u32, delayFrac: u32)
    requires SntpPkt.CachedDelay(rootDelay, delayFrac) < 0x8000_0000
    ensures var d := SntpPkt.CachedDelay(rootDelay, delayFrac);
            var m := Metric(rootDelay, delayFrac, true);
            0 <= m <= d && 3 * d <= 4 * m < 3 * d + 4
  {
  }

  /**
   * Whether a reply with metric `metric` replaces the best so far: when
   * there is none (stratum 0), or when the metric, compared as `uint32_t`
   * with the stored delay, is strictly smaller.
   */
  predicate Replaces(best: Sntp.Best, metric: int)
  {
    best.stratum == 0 || Wrap32(metric) < best.delay
  }

  /**
   * The record `record_result` stores when it replaces the best.  Once
   * stored, it is displaced by a later reply exactly when that reply's
   * metric is smaller as `uint32_t`, or by any reply when its stratum
   * narrows to 0.
   */
  function Recorded(serverPos: int, addr: u32, delta: i64, stratum: int, li: int, delayFrac: u32,
                    rootMaxerr: u32, rootDispersion: u32, rootDelay: u32, metric: int, now: u32): (b: Sntp.Best)
    ensures forall later :: Replaces(b, later) <==> stratum % 256 == 0 || Wrap32(later) < Wrap32(metric)
  {
    Sntp.Best(delta, addr, Wrap32(metric), delayFrac, rootMaxerr, rootDelay, rootDispersion,
              Signed32(now), Wrap16(serverPos), Wrap8(li), Wrap8(stratum))
  }

  /**
   * With non-negative metrics, an equal delay never displaces the earlier
   * result: the first server to reach a delay keeps the place.
   */
  lemma TiesKeepEarlier(best: Sntp.Best, metric: int)
    requires best.stratum != 0 && 0 <= metric < TWO32 && metric == best.delay
    ensures !Replaces(best, metric)
  {
  }

  /**
   * With non-negative metrics and a best present, replacement is exactly
   * "strictly smaller delay".
   */
  lemma ReplacesIffSmaller(best: Sntp.Best, metric: int)
    requires best.stratum != 0 && 0 <= metric < TWO32
    ensures Replaces(best, metric) <==> metric < best.delay
  {
  }

  /**
   * The bonus can reverse a choice: a best of delay 90 from another server
   * is displaced by the last best server answering with raw delay 100
   * (metric 75), and would not be without the bonus.
   */
  lemma BonusReversesChoice(best: Sntp.Best)
    requires best.stratum != 0 && best.delay == 90
    ensures Replaces(best, Metric(50, 0, true))
    ensures !Replaces(best, Metric(50, 0, false))
  {
    assert Metric(50, 0, true) == 75;
  }

  /**
   * A recorded reply whose stratum field is 0 (or a multiple of 256) leaves
   * the "no best" marker set, so the next reply replaces it whatever its
   * delay.
   */
  lemma StratumZeroIsForgotten(serverPos: int, addr: u32, delta: i64, li: int, delayFrac: u32,
                               rootMaxerr: u32, rootDispersion: u32, rootDelay: u32, metric: int, now: u32,
                               later: int)
    ensures Replaces(Recorded(serverPos, addr, delta, 0, li, delayFrac, rootMaxerr, rootDispersion, rootDelay, metric, now), later)
  {
  }

  // ---------------------------------------------------------------------
  // The calendar of update_offset
  // ---------------------------------------------------------------------

  /**
   * A day number split as update_offset splits it: 400-year era quarters
   * (`century`), years within the century, months counted from March
   * (10 and 11 are January and February of the next year) and the day of
   * the month, all from 0.
   */
  datatype Civil = Civil(century: int, year: int, month: int, day: int)

  /** The day number a split stands for; the partner of `CivilFromDays`. */
  function DaysFromCivil(c: Civil): int
  {
    c.century * 146097 / 4 + c.year * 1461 / 4 + (153 * c.month + 2) / 5 + c.day
  }

  /** A remainder bound for one stage of the split. */
  lemma StageBounds(d: int, x: int, k: int)
    requires k == 146097 || k == 1461
    requires x <= 4 * d + 3 < x + k
    ensures 0 <= d - x / 4 <= (k - 1) / 4
  {
  }

  lemma MonthBounds(d: int, x: int)
    requires x <= 5 * d + 2 < x + 153
    ensures 0 <= d - (x + 2) / 5 <= 30
  {
  }

  /**
   * The civil-from-days computation of update_offset for a day number
   * counted from 1 March of year 0.  Every part is in range, and the parts
   * add back up to the day number.
   */
  function CivilFromDays(n: nat): (c: Civil)
    ensures 0 <= c.century && 0 <= c.year < 100 && 0 <= c.month < 12 && 0 <= c.day < 31
    ensures DaysFromCivil(c) == n
  {
    var century := (4 * n + 3) / 146097;
    StageBounds(n, century * 146097, 146097);
    var d1 := n - century * 146097 / 4;
    var year := (4 * d1 + 3) / 1461;
    StageBounds(d1, year * 1461, 1461);
    var d2 := d1 - year * 1461 / 4;
    var month := (5 * d2 + 2) / 153;
    MonthBounds(d2, 153 * month);
    var d3 := d2 - (153 * month + 2) / 5;
    Civil(century, year, month, d3)
  }

  /** Evaluates `CivilFromDays` at one day number, stage by stage. */
  lemma CivilFromDaysAt(n: nat, century: int, year: int, month: int, day: int)
    requires (4 * n + 3) / 146097 == century
    requires var d1 := n - century * 146097 / 4;
             (4 * d1 + 3) / 1461 == year &&
             var d2 := d1 - year * 1461 / 4;
             (5 * d2 + 2) / 153 == month && d2 - (153 * month + 2) / 5 == day
    ensures CivilFromDays(n) == Civil(century, year, month, day)
  {
  }

  /** The day number update_offset derives from a time since the epoch. */
  function DayNumber(t: int): int
  {
    CDiv(t, SECONDS_PER_DAY) + EPOCH_DAY
  }

  /** 1 January 1970 is day 0 of January (month 10) of year 69 of the 20th century quarter. */
  lemma EpochIsFirstOfJanuary()
    ensures CivilFromDays(DayNumber(0)) == Civil(19, 69, 10, 0)
  {
    EpochDayValue();
    assert DayNumber(0) == 719468;
    CivilFromDaysAt(719468, 19, 69, 10, 0);
  }

  /**
   * The leap second at the end of 2016: midnight on 1 January 2017 is the
   * first of a month, so a pending leap second is applied then.
   */
  lemma NewYear2017()
    ensures CivilFromDays(DayNumber(1483228800)).day == 0
  {
    EpochDayValue();
    assert CDiv(1483228800, SECONDS_PER_DAY) == 17167;
    assert (4 * 736635 + 3) / 146097 == 20 && 20 * 146097 / 4 == 730485;
    assert (4 * 6150 + 3) / 1461 == 16 && 16 * 1461 / 4 == 5844;
    assert (5 * 306 + 2) / 153 == 10 && (153 * 10 + 2) / 5 == 306;
    CivilFromDaysAt(736635, 20, 16, 10, 0);
  }

  /** Midnight on 31 December 2016 is day 30 of its month: nothing is applied then. */
  lemma NewYearsEve2016()
    ensures CivilFromDays(DayNumber(1483142400)).day == 30
  {
    EpochDayValue();
    assert CDiv(1483142400, SECONDS_PER_DAY) == 17166;
    assert (4 * 736634 + 3) / 146097 == 20 && 20 * 146097 / 4 == 730485;
    assert (4 * 6149 + 3) / 1461 == 16 && 16 * 1461 / 4 == 5844;
    assert (5 * 305 + 2) / 153 == 9 && (153 * 9 + 2) / 5 == 275;
    CivilFromDaysAt(736634, 20, 16, 9, 30);
  }

  // ---------------------------------------------------------------------
  // get_next_midnight
  // ---------------------------------------------------------------------

  /**
   * `get_next_midnight(now)`: the next midnight in offset time, computed with
   * C's truncating `%`.
   */
  function GetNextMidnight(now: int, offset: int): int
  {
    now + SECONDS_PER_DAY - offset - CRem(now - offset, SECONDS_PER_DAY)
  }

  /**
   * For a non-negative offset time the result is the smallest multiple of
   * 86400 strictly greater than it.
   */
  lemma NextMidnightIsNext(now: int, offset: int)
    requires now - offset >= 0
    ensures var m := GetNextMidnight(now, offset);
            m % SECONDS_PER_DAY == 0 && now - offset < m <= now - offset + SECONDS_PER_DAY
  {
    var t := now - offset;
    assert t == (t / SECONDS_PER_DAY) * SECONDS_PER_DAY + t % SECONDS_PER_DAY;
    assert GetNextMidnight(now, offset) == (t / SECONDS_PER_DAY + 1) * SECONDS_PER_DAY;
  }

  /**
   * Before the epoch the truncating remainder skips a midnight: one second
   * before 1970 the "next" midnight is a day late.
   */
  lemma NextMidnightBeforeEpoch()
    ensures GetNextMidnight(-1, 0) == SECONDS_PER_DAY
  {
  }

  // ---------------------------------------------------------------------
  // update_offset
  // ---------------------------------------------------------------------

  /** `the_offset`, `next_midnight` and `pending_LI`: what update_offset reads and writes. */
  datatype LeapState = LeapState(offset: int, nextMidnight: int, pendingLI: int)

  /**
   * `update_offset` at RTC time `tvSec`; `active` is "RTC build and an
   * offset in use".  With a leap second pending: a `next_midnight` below
   * 100000 is only scheduled; once offset time has reached it, the next one
   * is scheduled, the offset moves by one second (forward for LI 1, back
   * otherwise) if the day is the first of a month, and the pending
   * indicator is cleared whatever the day.
   */
  function OffsetStep(active: bool, s: LeapState, tvSec: int): (r: LeapState)
    ensures !(active && s.pendingLI != 0) ==> r == s
    ensures active && s.pendingLI != 0 && s.nextMidnight < 100000 ==>
              r == s.(nextMidnight := GetNextMidnight(tvSec, s.offset))
    ensures active && s.pendingLI != 0 && 100000 <= s.nextMidnight <= tvSec - s.offset ==>
              r.nextMidnight == GetNextMidnight(tvSec, s.offset) && r.pendingLI == 0 &&
              r.offset == s.offset + (if CivilFromDays(DayNumber(tvSec - s.offset)).day != 0 then 0
                                      else if s.pendingLI == 1 then 1 else -1)
    ensures active && s.pendingLI != 0 && 100000 <= s.nextMidnight && tvSec - s.offset < s.nextMidnight ==> r == s
  {
    if !(active && s.pendingLI != 0) then s
    else if s.nextMidnight < 100000 then s.(nextMidnight := GetNextMidnight(tvSec, s.offset))
    else if tvSec - s.offset >= s.nextMidnight then
      var c := CivilFromDays(DayNumber(tvSec - s.offset));
      LeapState(if c.day != 0 then s.offset else if s.pendingLI == 1 then s.offset + 1 else s.offset - 1,
                GetNextMidnight(tvSec, s.offset), 0)
    else s
  }

  /**
   * A leap second is applied at most once: after the step that clears the
   * pending indicator, later steps change nothing until a reply sets it
   * again, and no step moves the offset by more than a second.
   */
  lemma LeapAppliedOnce(active: bool, s: LeapState, t1: int, t2: int)
    ensures -1 <= OffsetStep(active, s, t1).offset - s.offset <= 1
    ensures OffsetStep(active, s, t1).pendingLI == 0 ==>
              OffsetStep(active, OffsetStep(active, s, t1), t2) == OffsetStep(active, s, t1)
  {
  }

  /**
   * A positive leap second is applied at the first midnight of a month: the
   * offset gains a second, the following midnight is scheduled and the
   * indicator is cleared.
   */
  lemma LeapSecondApplied(s: LeapState, t: int)
    requires s.pendingLI == 1 && 100000 <= s.nextMidnight <= t - s.offset
    requires CivilFromDays(DayNumber(t - s.offset)).day == 0
    ensures OffsetStep(true, s, t) == LeapState(s.offset + 1, GetNextMidnight(t, s.offset), 0)
  {
  }

  /**
   * The leap second at the end of 2016: with a positive leap pending and
   * midnight scheduled, reaching midnight of 1 January 2017 adds the
   * second, schedules the following midnight and clears the indicator.
   */
  lemma LeapSecondAtNewYear2017(t: int)
    requires t == 1483228800
    ensures OffsetStep(true, LeapState(0, t, 1), t) == LeapState(1, t + SECONDS_PER_DAY, 0)
  {
    assert CivilFromDays(DayNumber(t - 0)).day == 0 by { NewYear2017(); }
    assert GetNextMidnight(t, 0) == t + SECONDS_PER_DAY by { assert CRem(t, SECONDS_PER_DAY) == 0; }
    LeapSecondApplied(LeapState(0, t, 1), t);
  }

  // ---------------------------------------------------------------------
  // on_recv screening
  // ---------------------------------------------------------------------

  /** How on_recv disposes of a datagram before touching any state but `kodbits`. */
  datatype Screen =
    | TooShort               // shorter than an NTP frame
    | UnknownSender          // neither the current server nor anycast
    | Unsolicited            // origin is not the cookie
    | Unsynchronised(deny: bool) // LI == 3; `deny` when the refid is "DENY"
    | Clean

  /**
   * The checks of on_recv in their order: length, sender, cookie (raw
   * bytes, before byte swapping), then the leap indicator.
   */
  function ScreenReply(pkt: seq<byte>, from: u32, serverAddr: u32, cookie: seq<byte>): (s: Screen)
    ensures s == TooShort <==> |pkt| < SntpPkt.PACKET_LEN
    ensures s == UnknownSender <==>
              |pkt| >= SntpPkt.PACKET_LEN && serverAddr != ANYCAST_ADDR && serverAddr != from
    ensures s == Unsolicited <==>
              |pkt| >= SntpPkt.PACKET_LEN && (serverAddr == ANYCAST_ADDR || serverAddr == from) &&
              pkt[SntpPkt.ORIGIN_AT..SntpPkt.ORIGIN_AT + 8] != cookie
    ensures s.Unsynchronised? || s.Clean? ==>
              |pkt| >= SntpPkt.PACKET_LEN && (serverAddr == ANYCAST_ADDR || serverAddr == from) &&
              pkt[SntpPkt.ORIGIN_AT..SntpPkt.ORIGIN_AT + 8] == cookie
    ensures s.Unsynchronised? <==> !s.TooShort? && !s.UnknownSender? && !s.Unsolicited? && SntpPkt.LeapIndicator(pkt[0]) == 3
    ensures s.Unsynchronised? ==> (s.deny <==> pkt[SntpPkt.REFID_AT..SntpPkt.REFID_AT + 4] == DENY)
  {
    if |pkt| < SntpPkt.PACKET_LEN then TooShort
    else if serverAddr != ANYCAST_ADDR && serverAddr != from then UnknownSender
    else if pkt[SntpPkt.ORIGIN_AT..SntpPkt.ORIGIN_AT + 8] != cookie then Unsolicited
    else if SntpPkt.LeapIndicator(pkt[0]) == 3 then Unsynchronised(pkt[SntpPkt.REFID_AT..SntpPkt.REFID_AT + 4] == DENY)
    else Clean
  }

  /** `1 << pos` in a 32-bit word. */
  function Bit(pos: nat): (b: bv32)
    requires pos < 32
    ensures b != 0
  {
    (1 as bv32) << pos
  }

  /**
   * The Kiss-o'-Death rule: the first "DENY" marks the server, a second one
   * while it is marked drops its address.
   */
  function KodStep(kodbits: bv32, addrs: seq<u32>, pos: nat): (r: (bv32, seq<u32>))
    requires pos < 32 && pos < |addrs|
    ensures |r.1| == |addrs|
  {
    if kodbits & Bit(pos) != 0 then (kodbits, addrs[pos := 0])
    else (kodbits | Bit(pos), addrs)
  }

  /** A clean reply clears the server's mark and no other. */
  function ClearKod(kodbits: bv32, pos: nat): (r: bv32)
    requires pos < 32
    ensures r & Bit(pos) == 0
  {
    kodbits & !Bit(pos)
  }

  /**
   * Two "DENY" replies in a row from an unmarked server: the first only
   * marks it, the second removes its address.
   */
  lemma KodTwiceRemoves(kodbits: bv32, addrs: seq<u32>, pos: nat)
    requires pos < 32 && pos < |addrs|
    requires kodbits & Bit(pos) == 0
    ensures KodStep(kodbits, addrs, pos).1 == addrs
    ensures KodStep(kodbits, addrs, pos).0 & Bit(pos) != 0
    ensures var (b1, a1) := KodStep(kodbits, addrs, pos);
            KodStep(b1, a1, pos).1 == addrs[pos := 0]
  {
    var y := Bit(pos);
    OrThenAnd(kodbits, y);
  }

  lemma OrThenAnd(x: bv32, y: bv32)
    requires y != 0
    ensures (x | y) & y == y && (x | y) & y != 0
  {
  }

  /**
   * A clean reply between two "DENY" replies forgives the first: the second
   * only marks the server again.
   */
  lemma KodForgiven(kodbits: bv32, addrs: seq<u32>, pos: nat)
    requires pos < 32 && pos < |addrs|
    ensures KodStep(ClearKod(kodbits, pos), addrs, pos).1 == addrs
  {
  }

  /** `dest` of the RTC build: the local clock, shifted by the leap offset. */
  function RtcDest(tvSec: int, tvUsec: int, offset: int): u64
  {
    Wrap32(tvSec + SntpPkt.NTP_TO_UNIX_EPOCH - offset) * TWO32 + Wrap32(SntpPkt.UsToFrac(Wrap64(tvUsec)))
  }

  /**
   * The delay argument of the RTC build: a signed shift of the signed
   * 64-bit round-trip delay, narrowed to `uint32_t`.
   */
  function RtcDelayFrac(origin: u64, recv: u64, xmit: u64, dest: u64): u32
  {
    Wrap32(Signed64(Wrap64(dest - origin - Wrap64(xmit - recv))) / TWO16)
  }

  /**
   * The signed shift keeps the same 32 bits as the unsigned one of
   * sntppkt.c: both builds report bits 16..47 of the round-trip delay.
   */
  lemma RtcDelayFracAgrees(origin: u64, recv: u64, xmit: u64, dest: u64)
    ensures RtcDelayFrac(origin, recv, xmit, dest) == SntpPkt.DelayFrac(origin, recv, xmit, dest)
  {
    var v := Wrap64(dest - origin - Wrap64(xmit - recv));
    assert v == Wrap64(dest - origin - xmit + recv);
    var s := Signed64(v);
    if s < 0 {
      assert s == v - TWO64;
      assert s / TWO16 == v / TWO16 - 0x1_0000_0000_0000;
    }
  }

  /** The reading on_recv hands on for a clean reply. */
  datatype Candidate = Candidate(
    sameAsLast: bool,
    addr: u32,
    delta: i64,
    stratum: int,
    li: int,
    delayFrac: u32,
    rootMaxerr: u32,
    rootDispersion: u32,
    rootDelay: u32)

  /** The verdict on a datagram. */
  datatype Verdict = Ignored(screen: Screen) | Accepted(candidate: Candidate)

  /**
   * The reading on_recv computes from an accepted frame.  The RTC build
   * uses the four timestamps, with the local clock shifted by the leap
   * offset as destination; the other build reports the server's transmit
   * time as the offset and the time since the request, read from the
   * system timer, as the delay.
   */
  function CandidateOf(pkt: seq<byte>, from: u32, sameAsLast: bool, withRtctime: bool,
                       tvSec: int, tvUsec: int, offset: int, sysNow: u32): (c: Candidate)
    requires |pkt| >= SntpPkt.PACKET_LEN
    ensures c.sameAsLast == sameAsLast && c.addr == from
    ensures c.li == SntpPkt.LeapIndicator(pkt[0]) && c.stratum == pkt[1]
    ensures c.rootDelay == Be32(pkt[SntpPkt.ROOT_DELAY_AT..SntpPkt.ROOT_DELAY_AT + 4])
    ensures c.rootDispersion == Be32(pkt[SntpPkt.ROOT_DISPERSION_AT..SntpPkt.ROOT_DISPERSION_AT + 4])
    ensures withRtctime ==>
              var origin := SntpPkt.Timestamp(pkt, SntpPkt.ORIGIN_AT);
              var recv := SntpPkt.Timestamp(pkt, SntpPkt.RECV_AT);
              var xmit := SntpPkt.Timestamp(pkt, SntpPkt.XMIT_AT);
              var dest := RtcDest(tvSec, tvUsec, offset);
              c.delta == SntpPkt.SignedDelta(origin, recv, xmit, dest) &&
              c.delayFrac == SntpPkt.DelayFrac(origin, recv, xmit, dest)
    ensures !withRtctime ==>
              var xmitSec := Be32(pkt[SntpPkt.XMIT_AT..SntpPkt.XMIT_AT + 4]);
              SntpPkt.NTP_TO_UNIX_EPOCH <= xmitSec < SntpPkt.NTP_TO_UNIX_EPOCH + 0x8000_0000 ==>
                c.delta == (xmitSec - SntpPkt.NTP_TO_UNIX_EPOCH) * TWO32 + Be32(pkt[SntpPkt.XMIT_AT + 4..SntpPkt.XMIT_AT + 8])
  {
    var origin := SntpPkt.Timestamp(pkt, SntpPkt.ORIGIN_AT);
    var recv := SntpPkt.Timestamp(pkt, SntpPkt.RECV_AT);
    var xmit := SntpPkt.Timestamp(pkt, SntpPkt.XMIT_AT);
    var rootDelay := Be32(pkt[SntpPkt.ROOT_DELAY_AT..SntpPkt.ROOT_DELAY_AT + 4]);
    var rootDispersion := Be32(pkt[SntpPkt.ROOT_DISPERSION_AT..SntpPkt.ROOT_DISPERSION_AT + 4]);
    var rootMaxerr := Wrap32(rootDispersion as int + rootDelay / 2);
    if withRtctime then
      var dest := RtcDest(tvSec, tvUsec, offset);
      RtcDelayFracAgrees(origin, recv, xmit, dest);
      Candidate(sameAsLast, from, SntpPkt.SignedDelta(origin, recv, xmit, dest), pkt[1], SntpPkt.LeapIndicator(pkt[0]),
                RtcDelayFrac(origin, recv, xmit, dest), rootMaxerr, rootDispersion, rootDelay)
    else
      var xmitSec := Be32(pkt[SntpPkt.XMIT_AT..SntpPkt.XMIT_AT + 4]);
      var xmitFrac := Be32(pkt[SntpPkt.XMIT_AT + 4..SntpPkt.XMIT_AT + 8]);
      var originFrac := Be32(pkt[SntpPkt.ORIGIN_AT + 4..SntpPkt.ORIGIN_AT + 8]);
      var delta := Signed64(Wrap64(Wrap64(Wrap64(xmitSec - SntpPkt.NTP_TO_UNIX_EPOCH) * TWO32) + xmitFrac));
      Candidate(sameAsLast, from, delta, pkt[1], SntpPkt.LeapIndicator(pkt[0]),
                Wrap32(Wrap32(sysNow - originFrac) * TWO16 / SntpPkt.MICROSECONDS), rootMaxerr, rootDispersion, rootDelay)
  }

  // ---------------------------------------------------------------------
  // The client state
  // ---------------------------------------------------------------------

  class ClientState {
    /** Build option `LUA_USE_MODULES_RTCTIME`. */
    const withRtctime: bool

    var addrs: seq<u32>       // serverp[].addr; 0 marks a dropped server
    var serverPos: int
    var lastServerPos: int
    var kodbits: bv32
    var cookie: seq<byte>     // the request's transmit timestamp, as sent
    var timerArmed: bool
    var best: Sntp.Best
    var pendingLI: int
    var offset: int           // the_offset
    var usingOffset: bool
    var nextMidnight: int

    /** The state update_offset works on. */
    ghost function Leap(): LeapState
      reads this
    {
      LeapState(offset, nextMidnight, pendingLI)
    }

    constructor (withRtctime: bool, addrs: seq<u32>)
      ensures this.withRtctime == withRtctime && this.addrs == addrs
      ensures serverPos == -1 && lastServerPos == -1 && kodbits == 0 && best.stratum == 0
      ensures pendingLI == 0 && !usingOffset
    {
      this.withRtctime := withRtctime;
      this.addrs := addrs;
      serverPos, lastServerPos := -1, -1;
      kodbits := 0;
      cookie := [0, 0, 0, 0, 0, 0, 0, 0];
      timerArmed := false;
      best := Sntp.Best(0, 0, 0, 0, 0, 0, 0, 0, 0, 0, 0);
      pendingLI := 0;
      offset := 0;
      usingOffset := false;
      nextMidnight := 0;
    }

    /**
     * `record_result`: keep the new reading when there is no best yet or
     * its metric is strictly smaller, otherwise keep the old best.  `now`
     * is `system_get_time()`.
     */
    method RecordResult(serverPos: int, addr: u32, delta: i64, stratum: int, li: int, delayFrac: u32,
                        rootMaxerr: u32, rootDispersion: u32, rootDelay: u32, now: u32)
      modifies this`best
      ensures var m := Metric(rootDelay, delayFrac, lastServerPos == serverPos);
              best == if Replaces(old(best), m)
                      then Recorded(serverPos, addr, delta, stratum, li, delayFrac, rootMaxerr, rootDispersion, rootDelay, m, now)
                      else old(best)
    {
      var delay := Signed32(Wrap32(rootDelay * 2 + delayFrac));
      if lastServerPos == serverPos {
        delay := delay - delay / 4;
      }
      if best.stratum == 0 || Wrap32(delay) < best.delay {
        best := Sntp.Best(delta, addr, Wrap32(delay), delayFrac, rootMaxerr, rootDelay, rootDispersion,
                          Signed32(now), Wrap16(serverPos), Wrap8(li), Wrap8(stratum));
      }
    }

    /**
     * `update_offset` (RTC build): with a leap second pending and an offset
     * in use, schedule the next midnight; once it has passed, apply the
     * leap second if today is the first of a month and clear the pending
     * indicator.  `tvSec` is the RTC clock.
     */
    method UpdateOffset(tvSec: int)
      modifies this`nextMidnight, this`offset, this`pendingLI
      ensures Leap() == OffsetStep(withRtctime && usingOffset, old(Leap()), tvSec)
    {
      if withRtctime && pendingLI != 0 && usingOffset {
        if nextMidnight < 100000 {
          nextMidnight := GetNextMidnight(tvSec, offset);
        } else if tvSec - offset >= nextMidnight {
          nextMidnight := GetNextMidnight(tvSec, offset);
          var c := CivilFromDays(DayNumber(tvSec - offset));
          if c.day == 0 {
            if pendingLI == 1 {
              offset := offset + 1;
            } else {
              offset := offset - 1;
            }
          }
          pendingLI := 0;
        }
      }
    }

    /**
     * `on_recv` up to the reading it hands to `record_result`.  `tvSec`,
     * `tvUsec` are the RTC clock (already replaced by the system timer when
     * it reads 0) and `sysNow` is `system_get_time()`.
     */
    method OnRecv(pkt: seq<byte>, from: u32, tvSec: int, tvUsec: int, sysNow: u32) returns (v: Verdict)
      requires 0 <= serverPos < 32 && serverPos < |addrs|
      modifies this`kodbits, this`addrs, this`timerArmed, this`pendingLI, this`nextMidnight, this`offset
      ensures var s := ScreenReply(pkt, from, old(addrs)[serverPos], cookie);
              (v.Ignored? <==> !s.Clean?) && (v.Ignored? ==> v.screen == s)
      ensures v.Ignored? && v.screen.Unsynchronised? && v.screen.deny ==>
                (kodbits, addrs) == KodStep(old(kodbits), old(addrs), serverPos)
      ensures v.Ignored? && !(v.screen.Unsynchronised? && v.screen.deny) ==>
                kodbits == old(kodbits) && addrs == old(addrs)
      ensures v.Ignored? ==>
                (timerArmed == old(timerArmed) && pendingLI == old(pendingLI) &&
                 offset == old(offset) && nextMidnight == old(nextMidnight))
      ensures v.Accepted? ==> kodbits == ClearKod(old(kodbits), serverPos) && addrs == old(addrs) && !timerArmed
      ensures v.Accepted? ==>
                v.candidate == CandidateOf(pkt, from, serverPos == lastServerPos, withRtctime, tvSec, tvUsec, offset, sysNow)
      ensures v.Accepted? ==> Leap() == OffsetStep(withRtctime && usingOffset,
                                     old(Leap()).(pendingLI := if SntpPkt.LeapIndicator(pkt[0]) != 0
                                                               then SntpPkt.LeapIndicator(pkt[0]) else old(pendingLI)),
                                     tvSec)
    {
      var s := ScreenReply(pkt, from, addrs[serverPos], cookie);
      if !s.Clean? {
        RejectReply(s);
        return Ignored(s);
      }
      var c := AcceptReply(pkt, from, tvSec, tvUsec, sysNow);
      return Accepted(c);
    }

    /** A screened-out reply: only a "DENY" one touches the Kiss-o'-Death state. */
    method RejectReply(s: Screen)
      requires 0 <= serverPos < 32 && serverPos < |addrs|
      modifies this`kodbits, this`addrs
      ensures s.Unsynchronised? && s.deny ==> (kodbits, addrs) == KodStep(old(kodbits), old(addrs), serverPos)
      ensures !(s.Unsynchronised? && s.deny) ==> kodbits == old(kodbits) && addrs == old(addrs)
    {
      if s.Unsynchronised? && s.deny {
        var r := KodStep(kodbits, addrs, serverPos);
        kodbits, addrs := r.0, r.1;
      }
    }

    /**
     * A clean reply: clear the server's mark, stop the retry timer, note a
     * pending leap second, run `update_offset` and compute the reading.
     */
    method AcceptReply(pkt: seq<byte>, from: u32, tvSec: int, tvUsec: int, sysNow: u32) returns (c: Candidate)
      requires |pkt| >= SntpPkt.PACKET_LEN && 0 <= serverPos < 32
      modifies this`kodbits, this`timerArmed, this`pendingLI, this`nextMidnight, this`offset
      ensures kodbits == ClearKod(old(kodbits), serverPos) && !timerArmed
      ensures c == CandidateOf(pkt, from, serverPos == lastServerPos, withRtctime, tvSec, tvUsec, offset, sysNow)
      ensures Leap() == OffsetStep(withRtctime && usingOffset,
                                     old(Leap()).(pendingLI := if SntpPkt.LeapIndicator(pkt[0]) != 0
                                                               then SntpPkt.LeapIndicator(pkt[0]) else old(pendingLI)),
                                     tvSec)
    {
      kodbits := ClearKod(kodbits, serverPos);
      timerArmed := false;
      var li := SntpPkt.LeapIndicator(pkt[0]);
      if li != 0 {
        pendingLI := li;
      }
      UpdateOffset(tvSec);
      c := CandidateOf(pkt, from, serverPos == lastServerPos, withRtctime, tvSec, tvUsec, offset, sysNow);
    }

    /** `sntp.setoffset(n)`: set the offset and, when the clock is set, schedule the next midnight. */
    method SetOffset(n: int, tvSec: int)
      modifies this`offset, this`nextMidnight, this`usingOffset
      ensures offset == n && usingOffset
      ensures tvSec != 0 ==> nextMidnight == GetNextMidnight(tvSec, n)
      ensures tvSec == 0 ==> nextMidnight == old(nextMidnight)
    {
      offset := n;
      if tvSec != 0 {
        nextMidnight := GetNextMidnight(tvSec, offset);
      }
      usingOffset := true;
    }
  }
}
