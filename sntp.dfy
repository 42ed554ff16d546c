/**
 * The live synchronisation engine of app/modules/sntp.c.
 *
 * The C file keeps its state in globals (the server table and callbacks, the
 * LwIP handles, the loop counters and `sntp_best`).  Here they are the fields
 * of one `SntpEngine` object, and each C function that updates them is a
 * method.  Name resolution, datagram sending, the OS timer, task posting and
 * the Lua callbacks are outside the model: the engine records each request it
 * makes of them as an `Effect` appended to `effects`, and their completions
 * arrive as calls of the event methods (`OnTimeout`, `OnResolve`, `OnRecv`,
 * `TaskBody`).  Clock readings are parameters.
 */
module Sntp {
  import opened Bits
  import opened Wrappers
  import SntpPkt

  const MAX_ATTEMPTS: int := 5
  const MAX_SERVERS: int := 32
  const MAX_HOSTNAME: int := 128
  const MICROSECONDS: int := 1000000

  /** Error codes of the Lua API. */
  const NTP_DNS_ERR: int := 1
  const NTP_MEM_ERR: int := 2
  const NTP_SEND_ERR: int := 3
  const NTP_TIMEOUT_ERR: int := 4

  /** `os_timer_arm` periods, in milliseconds. */
  const REPEAT_PERIOD_MS: int := 1000 * 1000
  const PREFLIGHT_RETRY_MS: int := 30 * 1000

  /** Loop-filter gains: `PLL_A` = 2^21 and `PLL_B` = 2^19, applied as `(delta * G) >> 32`. */
  const PLL_A: int := 0x20_0000
  const PLL_B: int := 0x8_0000

  /** `SNTP_FLAG_PENDING_LI` in `sntp_flags`. */
  const FLAG_PENDING_LI: int := 2

  /** The function the OS timer calls when it fires. */
  datatype TimerFn = DoRepeatFn

  datatype Timer = Disarmed | Armed(periodMs: int, recurring: bool, fn: TimerFn)

  /** The payload of the success callback (`sntp_handle_success`). */
  datatype SuccessReport = SuccessReport(
    sec: int,
    usec: int,
    server: u32,
    offset: Option<SntpPkt.Offset>,
    delayUs: Option<int>,
    rootDelayUs: int,
    rootDispersionUs: int,
    rootMaxerrUs: int,
    stratum: int,
    leap: int,
    pendingLeap: bool)

  /** A request the engine makes of a collaborator outside the model. */
  datatype Effect =
    | Resolve(hostname: Option<string>)  // sntp_server_resolve on the string held in sntp_dns_ref
    | PostEndOfPass                      // task_post_high(sntp_task, 0)
    | StartPass                          // sntp_pass_start, which the source never defines
    | ReportError(err: int, server: int) // sntp_handle_error; server 0 stands for nil
    | SetClock(sec: int, usec: int)      // rtctime_settimeofday
    | AdjustRate(rate: int)              // rtctime_adjust_rate((int32_t) f)
    | ReportSuccess(report: SuccessReport)

  /**
   * The best result of a pass (`sntp_best`).  `stratum == 0` is the only
   * "no best yet" marker.
   */
  datatype Best = Best(
    delta: i64,
    server: u32,
    delay: u32,
    delayFrac: u32,
    rootMaxerr: u32,
    rootDelay: u32,
    rootDispersion: u32,
    when: int,
    serverIndex: u16,
    li: int,
    stratum: u8)

  /** The first argument of `sntp.sync`. */
  datatype ServerArg = NoServers | ServerTable(hosts: seq<string>) | Hostname(name: string)

  // ---------------------------------------------------------------------
  // The pass counters as values
  // ---------------------------------------------------------------------

  /** `sntp_servers`, `sntp_server_index` and `sntp_attempts`, all `uint8_t`. */
  datatype PassCounters = PassCounters(servers: u8, index: u8, attempts: u8)

  /** The counters after `sntp_pass_reset`. */
  function Start(servers: u8): PassCounters
  {
    PassCounters(servers, 1, MAX_ATTEMPTS)
  }

  /** Whether a `sntp_server_next` call from `c` posts the end of the pass. */
  predicate PostsEnd(c: PassCounters)
  {
    Wrap8(c.attempts - 1) == 0 && c.servers < Wrap8(c.index + 1)
  }

  /** The counters after one `sntp_server_next` call. */
  function Next(c: PassCounters): PassCounters
  {
    var a := Wrap8(c.attempts - 1);
    if a != 0 then c.(attempts := a)
    else
      var i := Wrap8(c.index + 1);
      if c.servers < i then PassCounters(c.servers, i, a)
      else PassCounters(c.servers, i, MAX_ATTEMPTS)
  }

  /**
   * A call with no attempts left, as a name resolution completing after its
   * pass has ended makes, wraps the `uint8_t` counter to 255 instead of
   * moving on.
   */
  lemma LateCompletionWraps(servers: u8, index: u8)
    ensures Next(PassCounters(servers, index, 0)) == PassCounters(servers, index, 255)
  {
  }

  /** The counters after `k` calls of `sntp_server_next`. */
  function Steps(c: PassCounters, k: nat): PassCounters
    decreases k
  {
    if k == 0 then c else Next(Steps(c, k - 1))
  }

  /** The number of calls after which a pass over `servers` servers ends. */
  function PassLength(servers: u8): int
  {
    if servers == 0 then MAX_ATTEMPTS else MAX_ATTEMPTS * servers
  }

  /**
   * Within a pass each server is tried for exactly `MAX_ATTEMPTS`
   * consecutive calls, in list order: after `k` calls the current server is
   * number `1 + k / 5` and `5 - k % 5` attempts remain (never more than 5).
   */
  lemma {:induction false} PassSchedule(servers: u8, k: nat)
    requires servers <= MAX_SERVERS
    requires k < PassLength(servers)
    ensures Steps(Start(servers), k) == PassCounters(servers, 1 + k / MAX_ATTEMPTS, MAX_ATTEMPTS - k % MAX_ATTEMPTS)
    ensures 1 <= Steps(Start(servers), k).attempts <= MAX_ATTEMPTS
  {
    if k > 0 {
      PassSchedule(servers, k - 1);
      var c := Steps(Start(servers), k - 1);
      if (k - 1) % MAX_ATTEMPTS == MAX_ATTEMPTS - 1 {
        assert k % MAX_ATTEMPTS == 0 && k / MAX_ATTEMPTS == (k - 1) / MAX_ATTEMPTS + 1;
      } else {
        assert k % MAX_ATTEMPTS == (k - 1) % MAX_ATTEMPTS + 1 && k / MAX_ATTEMPTS == (k - 1) / MAX_ATTEMPTS;
      }
    }
  }

  /**
   * The end of the pass is posted by call number `PassLength(servers)` and
   * by no earlier call: every server in the list is tried before the pass
   * ends.
   */
  lemma PassEnds(servers: u8, k: nat)
    requires servers <= MAX_SERVERS
    requires k < PassLength(servers)
    ensures PostsEnd(Steps(Start(servers), k)) <==> k == PassLength(servers) - 1
  {
    PassSchedule(servers, k);
    if k == PassLength(servers) - 1 {
      assert k % MAX_ATTEMPTS == MAX_ATTEMPTS - 1;
      assert servers == 0 || 1 + k / MAX_ATTEMPTS == servers;
    } else if k % MAX_ATTEMPTS == MAX_ATTEMPTS - 1 {
      assert 1 + k / MAX_ATTEMPTS < servers;
    }
  }

  // ---------------------------------------------------------------------
  // Server list checks of sntp_sync
  // ---------------------------------------------------------------------

  /**
   * The number of servers `sntp_sync` keeps from a table of `len` entries:
   * `lua_objlen` is stored into the `uint8_t` `sntp_servers` before the
   * truncation loop.
   */
  function ServerCount(len: nat): (n: u8)
    ensures n <= MAX_SERVERS
    ensures len <= MAX_SERVERS ==> n == len
    ensures n <= len
  {
    if Wrap8(len) > MAX_SERVERS then MAX_SERVERS else Wrap8(len)
  }

  /** Tables of 33 to 255 entries are cut to their first 32 servers. */
  lemma ServerCountTruncates(len: nat)
    requires MAX_SERVERS < len < 0x100
    ensures ServerCount(len) == MAX_SERVERS
  {
  }

  /** A table of exactly 256 entries leaves no server at all, because the count wraps to 0. */
  lemma ServerCountWraps()
    ensures ServerCount(0x100) == 0
  {
  }

  /**
   * The truncation loop of `sntp_sync`: starting from the narrowed length,
   * it sets entries 33, 34, ... of the caller's table to nil (counting down)
   * until 32 remain.  Returns the server count and the table afterwards.
   */
  method TruncateServerTable(hosts: seq<string>) returns (n: u8, table: seq<Option<string>>)
    ensures n == ServerCount(|hosts|)
    ensures |table| == |hosts|
    ensures forall i :: 0 <= i < |hosts| ==>
              table[i] == if n <= i < Wrap8(|hosts|) then None else Some(hosts[i])
  {
    n := Wrap8(|hosts|);
    table := seq(|hosts|, i requires 0 <= i < |hosts| => Some(hosts[i]));
    while n > MAX_SERVERS
      invariant MAX_SERVERS <= n <= Wrap8(|hosts|) || n == Wrap8(|hosts|) <= MAX_SERVERS
      invariant |table| == |hosts|
      invariant forall i :: 0 <= i < |hosts| ==>
                  table[i] == if n <= i < Wrap8(|hosts|) then None else Some(hosts[i])
    {
      table := table[n - 1 := None];
      n := n - 1;
    }
  }

  /** A server name is accepted when it is at most 128 characters long. */
  predicate HostnameOk(name: string)
  {
    |name| <= MAX_HOSTNAME
  }

  // ---------------------------------------------------------------------
  // Clock arithmetic of sntp_handle_success
  // ---------------------------------------------------------------------

  /**
   * The carry loops of `sntp_handle_success`: while the microseconds reach
   * one second, move a second over.  The time is unchanged, and for a
   * non-negative microsecond count the result is its quotient and remainder.
   */
  method NormaliseUsec(sec: int, usec: int) returns (s: int, u: int)
    ensures s * MICROSECONDS + u == sec * MICROSECONDS + usec
    ensures u < MICROSECONDS
    ensures usec >= 0 ==> 0 <= u && s == sec + usec / MICROSECONDS && u == usec % MICROSECONDS
    ensures usec < MICROSECONDS ==> s == sec && u == usec
  {
    s, u := sec, usec;
    while u >= MICROSECONDS
      invariant s * MICROSECONDS + u == sec * MICROSECONDS + usec
      invariant usec >= 0 ==> 0 <= u && s - sec == (usec - u) / MICROSECONDS && (usec - u) % MICROSECONDS == 0
      invariant usec < MICROSECONDS ==> s == sec && u == usec
      decreases u
    {
      u := u - MICROSECONDS;
      s := s + 1;
    }
  }

  /** `SUS_TO_FRAC(us)`: signed microseconds to 32.32 fixed point, C division. */
  function SusToFrac(us: int): int
  {
    CDiv(us * TWO32, MICROSECONDS)
  }

  /** The window `SUS_TO_FRAC(-200000) < delta < SUS_TO_FRAC(200000)` (200 ms either way). */
  predicate InPllWindow(delta: i64)
  {
    SusToFrac(-200000) < delta < SusToFrac(200000)
  }

  lemma PllWindowBounds(delta: i64)
    ensures InPllWindow(delta) <==> -858993459 < delta < 858993459
  {
    assert SusToFrac(200000) == 858993459;
    assert SusToFrac(-200000) == -858993459;
  }

  /**
   * Inside the window the two loop-filter terms are `delta / 2^11` and
   * `delta / 2^13` (floors), both well inside 32 bits, so the frequency
   * handed to `rtctime_adjust_rate` is the integral term plus `delta / 2^11`.
   */
  lemma PllTerms(delta: i64)
    requires InPllWindow(delta)
    ensures delta * PLL_A / TWO32 == delta / 0x800
    ensures delta * PLL_B / TWO32 == delta / 0x2000
    ensures -0x8_0000 < delta / 0x800 < 0x8_0000
  {
    PllWindowBounds(delta);
    var q, r := delta / 0x800, delta % 0x800;
    assert delta * PLL_A == q * TWO32 + r * PLL_A;
    FloorOf(delta * PLL_A, q, r * PLL_A);
    var q2, r2 := delta / 0x2000, delta % 0x2000;
    assert delta * PLL_B == q2 * TWO32 + r2 * PLL_B;
    FloorOf(delta * PLL_B, q2, r2 * PLL_B);
  }

  /** Division by 2^32 is determined by any quotient and in-range remainder. */
  lemma FloorOf(x: int, q: int, r: int)
    requires x == q * TWO32 + r && 0 <= r < TWO32
    ensures x / TWO32 == q
  {
  }

  /**
   * The clock reading `sntp_handle_success` starts from: the RTC, or the
   * system timer split into seconds and microseconds when the RTC reads 0
   * (`sntp_get_zero_base_timeofday`).
   */
  function ClockBase(tvSec: int, tvUsec: int, sysNow: u32): (int, int)
  {
    if tvSec == 0 then (sysNow / MICROSECONDS, sysNow % MICROSECONDS) else (tvSec, tvUsec)
  }

  /** The seconds and microseconds the clock is stepped to, before the carry. */
  function SteppedSeconds(sec: int, delta: i64): int
  {
    sec + delta / TWO32
  }

  function SteppedMicros(usec: int, delta: i64): int
  {
    usec + MICROSECONDS * (delta % TWO32) / TWO32
  }

  /** `FRAC16_TO_US` of sntp.c: 16.16 to microseconds in `uint64_t`, no narrowing. */
  function Frac16ToUsWide(frac: u64): u64
  {
    Wrap64(frac * MICROSECONDS) / TWO16
  }

  // ---------------------------------------------------------------------
  // The engine
  // ---------------------------------------------------------------------

  /** The two requests `sntp_handle_result` may make of the RTC. */
  predicate IsClockEffect(e: Effect)
  {
    e.SetClock? || e.AdjustRate?
  }

  /**
   * The clock effect of `sntp_handle_result` in the RTC build, for the best
   * result `b`, the PLL increment `pll` before it and the clock reading:
   * inside the PLL window the rate `((delta * PLL_A) >> 32) + pll_increment`
   * narrowed to 32 bits; outside it the reading stepped by `delta`, with
   * the microseconds carried below 10^6.
   */
  predicate IsClockStep(e: Effect, b: Best, pll: u64, tvSec: int, tvUsec: int, sysNow: u32)
  {
    if InPllWindow(b.delta) then
      e == AdjustRate(Signed32(Wrap32(Signed64(Wrap64(b.delta * PLL_A / TWO32 + pll)))))
    else
      var (s0, u0) := ClockBase(tvSec, tvUsec, sysNow);
      e.SetClock? && e.usec < MICROSECONDS && (u0 >= 0 ==> 0 <= e.usec) &&
      e.sec * MICROSECONDS + e.usec == SteppedSeconds(s0, b.delta) * MICROSECONDS + SteppedMicros(u0, b.delta)
  }

  class SntpEngine {
    /** Build option `LUA_USE_MODULES_RTCTIME`. */
    const withRtctime: bool

    // Held by sntp_sync
    var serverList: seq<string>
    var repeat: bool
    var syncCb: Callback
    var errCb: Callback

    // Allocated in preflight
    var hasPcb: bool
    var hasPbuf: bool

    // Loop state
    var servers: u8
    var serverIndex: u8
    var attempts: u8
    var dnsRef: Option<string>
    var best: Best
    var lastServerIndex: u8
    var cookieSec: u32
    var cookieFrac: u32
    var flags: u8
    var pllIncrement: u64
    var timer: Timer

    /** Every request made of the outside world, oldest first. */
    var effects: seq<Effect>

    ghost predicate Valid()
      reads this
    {
      servers <= MAX_SERVERS && servers <= |serverList|
    }

    /** A pass is under way: some server is current and has attempts left. */
    ghost predicate Running()
      reads this
    {
      Valid() && 1 <= attempts <= MAX_ATTEMPTS && 1 <= serverIndex && (serverIndex <= servers || serverIndex == 1)
    }

    ghost function Counters(): PassCounters
      reads this
    {
      PassCounters(servers, serverIndex, attempts)
    }

    /**
     * The state `sntp_server_next` leaves behind, given the counters `c`,
     * the effects `e` and the name `d` it started from.  When the last
     * attempt of a server is used up the name is released; past the end of
     * the list the end of the pass is posted, otherwise the next server's
     * name is taken and resolved.  With attempts left the same name is
     * resolved again.
     */
    ghost predicate Advanced(c: PassCounters, e: seq<Effect>, d: Option<string>)
      reads this
    {
      Valid() && Counters() == Next(c)
      && (PostsEnd(c) ==> effects == e + [PostEndOfPass] && attempts == 0 && dnsRef == None)
      && (!PostsEnd(c) ==> Running() && |effects| == |e| + 1 && effects[..|e|] == e)
      && (!PostsEnd(c) && attempts == MAX_ATTEMPTS ==>
            1 <= serverIndex <= servers && dnsRef == Some(serverList[serverIndex - 1]) && effects[|e|] == Resolve(dnsRef))
      && (!PostsEnd(c) && attempts < MAX_ATTEMPTS ==> dnsRef == d && effects[|e|] == Resolve(dnsRef))
    }

    /**
     * `sntp_open`: the default table of four pool servers.  `sntp_servers`
     * stays 0 until `sntp.sync` is given a server argument.
     */
    constructor (withRtctime: bool)
      ensures Valid() && this.withRtctime == withRtctime
      ensures serverList == ["0.nodemcu.pool.ntp.org", "1.nodemcu.pool.ntp.org", "2.nodemcu.pool.ntp.org", "3.nodemcu.pool.ntp.org"]
      ensures servers == 0 && !repeat && syncCb == NoRef && errCb == NoRef
      ensures !hasPcb && !hasPbuf && timer == Disarmed && effects == []
    {
      this.withRtctime := withRtctime;
      serverList := ["0.nodemcu.pool.ntp.org", "1.nodemcu.pool.ntp.org", "2.nodemcu.pool.ntp.org", "3.nodemcu.pool.ntp.org"];
      repeat := false;
      syncCb, errCb := NoRef, NoRef;
      hasPcb, hasPbuf := false, false;
      servers, serverIndex, attempts := 0, 0, 0;
      dnsRef := None;
      best := Best(0, 0, 0, 0, 0, 0, 0, 0, 0, 0, 0);
      lastServerIndex := 0;
      cookieSec, cookieFrac := 0, 0;
      flags := 0;
      pllIncrement := 0;
      timer := Disarmed;
      effects := [];
    }

    /** `sntp_pass_reset`, at the end of every pass and at the start of `sntp.sync`. */
    method PassReset()
      requires Valid()
      modifies this`timer, this`serverIndex, this`attempts, this`best, this`cookieSec, this`cookieFrac
      ensures Running()
      ensures timer == Disarmed
      ensures Counters() == Start(servers)
      ensures best == old(best).(stratum := 0) && cookieSec == 0 && cookieFrac == 0
    {
      timer := Disarmed;
      serverIndex := 1;
      attempts := MAX_ATTEMPTS;
      best := best.(stratum := 0);
      cookieSec, cookieFrac := 0, 0;
    }

    /** `sntp_cleanup`: release the callbacks and the name being resolved. */
    method Cleanup()
      requires Valid()
      modifies this`syncCb, this`errCb, this`dnsRef, this`lastServerIndex, this`servers
      ensures Valid()
      ensures syncCb == NoRef && errCb == NoRef && dnsRef == None
      ensures lastServerIndex == 0 && servers == 0
    {
      syncCb, errCb := NoRef, NoRef;
      dnsRef := None;
      lastServerIndex := 0;
      servers := 0;
    }

    /**
     * `sntp_server_next`: one attempt on the current server is used up.
     * When none remain, the next server becomes current with five attempts,
     * or, past the end of the list, the end of the pass is posted.
     */
    method ServerNext()
      requires Running()
      modifies this`attempts, this`serverIndex, this`dnsRef, this`effects
      ensures Advanced(old(Counters()), old(effects), old(dnsRef))
    {
      attempts := Wrap8(attempts - 1);
      if attempts == 0 {
        dnsRef := None;
        serverIndex := Wrap8(serverIndex + 1);
        if servers < serverIndex {
          effects := effects + [PostEndOfPass];
        } else {
          attempts := MAX_ATTEMPTS;
          dnsRef := Some(serverList[serverIndex - 1]);
          effects := effects + [Resolve(dnsRef)];
        }
      } else {
        effects := effects + [Resolve(dnsRef)];
      }
    }

    /** `sntp_server_timeout`: the per-attempt timer fired. */
    method OnTimeout()
      requires Running()
      modifies this`attempts, this`serverIndex, this`dnsRef, this`effects
      ensures Advanced(old(Counters()), old(effects), old(dnsRef))
    {
      ServerNext();
    }

    /** `sntp_server_recv`: a datagram arrived; the live code only advances. */
    method OnRecv()
      requires Running()
      modifies this`attempts, this`serverIndex, this`dnsRef, this`effects
      ensures Advanced(old(Counters()), old(effects), old(dnsRef))
    {
      ServerNext();
    }

    /**
     * `sntp_onresolve`: a failed resolution counts as a used attempt; a
     * successful one goes to `sntp_dosend`, whose body is empty.
     */
    method OnResolve(addr: Option<u32>)
      requires Running()
      modifies this`attempts, this`serverIndex, this`dnsRef, this`effects
      ensures Valid()
      ensures addr.None? ==> Advanced(old(Counters()), old(effects), old(dnsRef))
      ensures addr.Some? ==> Counters() == old(Counters()) && effects == old(effects) && dnsRef == old(dnsRef)
    {
      if addr.None? {
        ServerNext();
      }
    }

    /**
     * `sntp_pass_preflight`: obtain the UDP control block and the packet
     * buffer that are missing.  All or nothing: on failure whatever this
     * call obtained is released again and the engine is unchanged.
     * `pcbAvailable` and `pbufAvailable` say whether `udp_new` and
     * `pbuf_alloc` would succeed.
     */
    method PassPreflight(pcbAvailable: bool, pbufAvailable: bool) returns (rc: int)
      modifies this`hasPcb, this`hasPbuf
      ensures rc == 0 || rc == -1
      ensures rc == 0 <==> (old(hasPcb) || pcbAvailable) && (old(hasPbuf) || pbufAvailable)
      ensures rc == 0 ==> hasPcb && hasPbuf
      ensures rc != 0 ==> hasPcb == old(hasPcb) && hasPbuf == old(hasPbuf)
    {
      var newPcb, newPbuf := false, false;
      if !hasPcb {
        if !pcbAvailable {
          return -1;
        }
        newPcb := true;
      }
      if !hasPbuf {
        if !pbufAvailable {
          // udp_remove(pcb) releases the block obtained above, if any
          newPcb := false;
          return -1;
        }
        newPbuf := true;
      }
      if newPcb {
        hasPcb := true;
      }
      if newPbuf {
        hasPbuf := true;
      }
      return 0;
    }

    /**
     * The payload of the success callback and the clock effect, given the
     * clock reading `tvSec`.`tvUsec` (RTC build) or the microsecond system
     * timer `sysNow` (other builds).
     */
    method HandleSuccess(tvSec: int, tvUsec: int, sysNow: u32)
      requires Valid()
      modifies this`lastServerIndex, this`pllIncrement, this`effects
      ensures lastServerIndex == Wrap8(old(best.serverIndex))
      ensures withRtctime && InPllWindow(best.delta) ==>
                pllIncrement == Wrap64(old(pllIncrement) + best.delta * PLL_B / TWO32)
      ensures !(withRtctime && InPllWindow(best.delta)) ==> pllIncrement == old(pllIncrement)
      ensures |effects| >= |old(effects)| && effects[..|old(effects)|] == old(effects)
      ensures forall e :: e in effects[|old(effects)|..] ==> !e.ReportError? && !e.PostEndOfPass?
      ensures withRtctime ==>
                (|effects| > |old(effects)| && (InPllWindow(best.delta) <==> effects[|old(effects)|].AdjustRate?))
      ensures withRtctime ==> IsClockStep(effects[|old(effects)|], best, old(pllIncrement), tvSec, tvUsec, sysNow)
      ensures forall i :: |old(effects)| + (if withRtctime then 1 else 0) <= i < |effects| ==> !IsClockEffect(effects[i])
      ensures (syncCb != NoRef) <==> exists e :: e in effects[|old(effects)|..] && e.ReportSuccess?
    {
      lastServerIndex := Wrap8(best.serverIndex);
      var sec, usec, added := StepClock(tvSec, tvUsec, sysNow);
      if syncCb != NoRef {
        var report := SuccessReport(
          sec, usec, best.server,
          if withRtctime then Some(SntpPkt.ReportOffset(best.delta)) else None,
          if best.delayFrac > 0 then Some(Frac16ToUsWide(best.delayFrac)) else None,
          Frac16ToUsWide(best.rootDelay),
          Frac16ToUsWide(best.rootDispersion),
          Frac16ToUsWide(Wrap32(best.rootMaxerr + best.delayFrac / 2)),
          best.stratum, best.li, (flags / FLAG_PENDING_LI) % 2 == 1);
        added := added + [ReportSuccess(report)];
        assert added[|added| - 1].ReportSuccess?;
      }
      effects := effects + added;
      assert effects[|old(effects)|..] == added;
    }

    /**
     * The clock part of `sntp_handle_result` (RTC build): slew through the
     * PLL when the offset is inside its window, otherwise step the clock.
     * Also the time reported, which the build without the RTC takes from
     * the system timer.
     */
    method StepClock(tvSec: int, tvUsec: int, sysNow: u32) returns (sec: int, usec: int, added: seq<Effect>)
      modifies this`pllIncrement
      ensures withRtctime && InPllWindow(best.delta) ==>
                pllIncrement == Wrap64(old(pllIncrement) + best.delta * PLL_B / TWO32)
      ensures !(withRtctime && InPllWindow(best.delta)) ==> pllIncrement == old(pllIncrement)
      ensures forall e :: e in added ==> !e.ReportError? && !e.PostEndOfPass? && !e.ReportSuccess?
      ensures withRtctime ==> |added| == 1 && (InPllWindow(best.delta) <==> added[0].AdjustRate?)
      ensures withRtctime && InPllWindow(best.delta) ==>
                added == [AdjustRate(Signed32(Wrap32(Signed64(Wrap64(best.delta * PLL_A / TWO32 + old(pllIncrement))))))]
      ensures withRtctime && !InPllWindow(best.delta) ==> added == [SetClock(sec, usec)]
      ensures withRtctime ==>
                var (s0, u0) := ClockBase(tvSec, tvUsec, sysNow);
                usec < MICROSECONDS &&
                sec * MICROSECONDS + usec == SteppedSeconds(s0, best.delta) * MICROSECONDS + SteppedMicros(u0, best.delta) &&
                (u0 >= 0 ==> 0 <= usec)
      ensures !withRtctime ==> added == []
      ensures !withRtctime ==>
                usec < MICROSECONDS &&
                sec * MICROSECONDS + usec == (best.delta / TWO32) * MICROSECONDS +
                  (best.delta % TWO32) * MICROSECONDS / TWO32 + Signed32(Wrap32(sysNow - best.when))
    {
      added := [];
      if withRtctime {
        var (s0, u0) := ClockBase(tvSec, tvUsec, sysNow);
        sec, usec := NormaliseUsec(SteppedSeconds(s0, best.delta), SteppedMicros(u0, best.delta));
        if InPllWindow(best.delta) {
          var f := Signed64(Wrap64(best.delta * PLL_A / TWO32 + pllIncrement));
          pllIncrement := Wrap64(pllIncrement + best.delta * PLL_B / TWO32);
          added := [AdjustRate(Signed32(Wrap32(f)))];
        } else {
          added := [SetClock(sec, usec)];
        }
      } else {
        var adjustUs := Signed32(Wrap32(sysNow - best.when));
        sec, usec := NormaliseUsec(best.delta / TWO32, (best.delta % TWO32) * MICROSECONDS / TWO32 + adjustUs);
      }
    }

    /**
     * `sntp_pass_fini`: report the pass (an error when there is no best
     * result, success otherwise), reset the counters, then either re-arm
     * the repeat timer or drop the configuration.
     */
    method PassFini(tvSec: int, tvUsec: int, sysNow: u32)
      requires Valid()
      modifies this`serverIndex, this`attempts, this`lastServerIndex, this`pllIncrement, this`effects
      modifies this`timer, this`best, this`cookieSec, this`cookieFrac
      modifies this`syncCb, this`errCb, this`dnsRef, this`servers
      ensures Running()
      ensures Counters() == Start(servers) && best == old(best).(stratum := 0) && cookieSec == 0 && cookieFrac == 0
      ensures |effects| >= |old(effects)| && effects[..|old(effects)|] == old(effects)
      ensures old(best.stratum) == 0 ==> effects == old(effects) + [ReportError(NTP_TIMEOUT_ERR, 0)]
      ensures old(best.stratum) != 0 ==> forall e :: e in effects[|old(effects)|..] ==> !e.ReportError?
      ensures old(best.stratum) != 0 && old(syncCb) != NoRef ==>
                exists e :: e in effects[|old(effects)|..] && e.ReportSuccess?
      ensures old(best.stratum) != 0 && withRtctime ==>
                |effects| > |old(effects)| &&
                IsClockStep(effects[|old(effects)|], old(best), old(pllIncrement), tvSec, tvUsec, sysNow)
      ensures old(best.stratum) != 0 ==>
                forall i :: |old(effects)| + (if withRtctime then 1 else 0) <= i < |effects| ==> !IsClockEffect(effects[i])
      ensures pllIncrement == if old(best.stratum) != 0 && withRtctime && InPllWindow(old(best.delta))
                              then Wrap64(old(pllIncrement) + old(best.delta) * PLL_B / TWO32) else old(pllIncrement)
      ensures repeat ==> timer == Armed(REPEAT_PERIOD_MS, true, DoRepeatFn)
      ensures repeat ==> syncCb == old(syncCb) && errCb == old(errCb) && servers == old(servers) && dnsRef == old(dnsRef)
      ensures repeat ==> lastServerIndex == if old(best.stratum) != 0 then Wrap8(old(best.serverIndex)) else old(lastServerIndex)
      ensures !repeat ==> timer == Disarmed && syncCb == NoRef && errCb == NoRef && dnsRef == None
      ensures !repeat ==> servers == 0 && lastServerIndex == 0
    {
      ReportPass(tvSec, tvUsec, sysNow);
      PassReset();
      if repeat {
        timer := Armed(REPEAT_PERIOD_MS, true, DoRepeatFn);
      } else {
        Cleanup();
      }
    }

    /**
     * The reporting half of `sntp_dofinal`: a pass that kept no reply reports
     * a timeout, any other pass is handled as a success.
     */
    method ReportPass(tvSec: int, tvUsec: int, sysNow: u32)
      requires Valid()
      modifies this`serverIndex, this`lastServerIndex, this`pllIncrement, this`effects
      ensures Valid()
      ensures |effects| >= |old(effects)| && effects[..|old(effects)|] == old(effects)
      ensures best.stratum == 0 ==> effects == old(effects) + [ReportError(NTP_TIMEOUT_ERR, 0)]
      ensures best.stratum != 0 ==> forall e :: e in effects[|old(effects)|..] ==> !e.ReportError?
      ensures best.stratum != 0 && syncCb != NoRef ==>
                exists e :: e in effects[|old(effects)|..] && e.ReportSuccess?
      ensures best.stratum != 0 && withRtctime ==>
                |effects| > |old(effects)| && IsClockStep(effects[|old(effects)|], best, old(pllIncrement), tvSec, tvUsec, sysNow)
      ensures best.stratum != 0 ==>
                forall i :: |old(effects)| + (if withRtctime then 1 else 0) <= i < |effects| ==> !IsClockEffect(effects[i])
      ensures best.stratum == 0 ==> serverIndex == 0 && lastServerIndex == old(lastServerIndex)
      ensures best.stratum != 0 ==> serverIndex == old(serverIndex) && lastServerIndex == Wrap8(best.serverIndex)
      ensures pllIncrement == if best.stratum != 0 && withRtctime && InPllWindow(best.delta)
                              then Wrap64(old(pllIncrement) + best.delta * PLL_B / TWO32) else old(pllIncrement)
    {
      if best.stratum == 0 {
        serverIndex := 0;
        effects := effects + [ReportError(NTP_TIMEOUT_ERR, 0)];
      } else {
        HandleSuccess(tvSec, tvUsec, sysNow);
      }
    }

    /**
     * `sntp_task_body`, run by the posted end-of-pass task: release the LwIP
     * handles, then finish the pass.
     */
    method TaskBody(tvSec: int, tvUsec: int, sysNow: u32)
      requires Valid()
      modifies this`hasPcb, this`hasPbuf
      modifies this`serverIndex, this`attempts, this`lastServerIndex, this`pllIncrement, this`effects
      modifies this`timer, this`best, this`cookieSec, this`cookieFrac
      modifies this`syncCb, this`errCb, this`dnsRef, this`servers
      ensures Running() && !hasPcb && !hasPbuf
      ensures Counters() == Start(servers) && best == old(best).(stratum := 0) && cookieSec == 0 && cookieFrac == 0
      ensures |effects| >= |old(effects)| && effects[..|old(effects)|] == old(effects)
      ensures old(best.stratum) == 0 ==> effects == old(effects) + [ReportError(NTP_TIMEOUT_ERR, 0)]
      ensures old(best.stratum) != 0 ==> forall e :: e in effects[|old(effects)|..] ==> !e.ReportError?
      ensures old(best.stratum) != 0 && old(syncCb) != NoRef ==>
                exists e :: e in effects[|old(effects)|..] && e.ReportSuccess?
      ensures old(best.stratum) != 0 && withRtctime ==>
                |effects| > |old(effects)| &&
                IsClockStep(effects[|old(effects)|], old(best), old(pllIncrement), tvSec, tvUsec, sysNow)
      ensures old(best.stratum) != 0 ==>
                forall i :: |old(effects)| + (if withRtctime then 1 else 0) <= i < |effects| ==> !IsClockEffect(effects[i])
      ensures pllIncrement == if old(best.stratum) != 0 && withRtctime && InPllWindow(old(best.delta))
                              then Wrap64(old(pllIncrement) + old(best.delta) * PLL_B / TWO32) else old(pllIncrement)
      ensures repeat ==> timer == Armed(REPEAT_PERIOD_MS, true, DoRepeatFn)
      ensures repeat ==> syncCb == old(syncCb) && errCb == old(errCb) && servers == old(servers) && dnsRef == old(dnsRef)
      ensures repeat ==> lastServerIndex == if old(best.stratum) != 0 then Wrap8(old(best.serverIndex)) else old(lastServerIndex)
      ensures !repeat ==> timer == Disarmed && syncCb == NoRef && errCb == NoRef && dnsRef == None
      ensures !repeat ==> servers == 0 && lastServerIndex == 0
    {
      hasPcb, hasPbuf := false, false;
      PassFini(tvSec, tvUsec, sysNow);
    }

    /**
     * `sntp_do_repeat`, run by the repeat timer: a failed preflight re-arms
     * the timer for 30 s; otherwise the next pass starts.
     */
    method DoRepeat(pcbAvailable: bool, pbufAvailable: bool)
      requires Valid()
      modifies this`hasPcb, this`hasPbuf, this`timer, this`effects
      ensures Valid()
      ensures (old(hasPcb) || pcbAvailable) && (old(hasPbuf) || pbufAvailable) ==>
                hasPcb && hasPbuf && effects == old(effects) + [StartPass] && timer == old(timer)
      ensures !((old(hasPcb) || pcbAvailable) && (old(hasPbuf) || pbufAvailable)) ==>
                effects == old(effects) && timer == Armed(PREFLIGHT_RETRY_MS, true, DoRepeatFn) &&
                hasPcb == old(hasPcb) && hasPbuf == old(hasPbuf)
    {
      var rc := PassPreflight(pcbAvailable, pbufAvailable);
      if rc != 0 {
        timer := Armed(PREFLIGHT_RETRY_MS, true, DoRepeatFn);
        return;
      }
      effects := effects + [StartPass];
    }

    /**
     * The server argument of `sntp.sync`: nil keeps the stored table (with
     * the count `sntp_cleanup` has just set to 0), a table is truncated, a
     * string becomes a one-entry table unless it is too long.
     */
    method ReplaceServers(arg: ServerArg) returns (ok: bool)
      requires Valid()
      modifies this`serverList, this`servers
      ensures Valid()
      ensures ok <==> !(arg.Hostname? && !HostnameOk(arg.name))
      ensures !ok ==> serverList == old(serverList) && servers == old(servers)
      ensures arg.NoServers? ==> servers == old(servers) && serverList == old(serverList)
      ensures arg.ServerTable? ==> servers == ServerCount(|arg.hosts|) && serverList == arg.hosts[..servers]
      ensures ok && arg.Hostname? ==> servers == 1 && serverList == [arg.name]
    {
      match arg {
        case NoServers =>
        case ServerTable(hosts) =>
          var n, _ := TruncateServerTable(hosts);
          serverList := hosts[..n];
          servers := n;
        case Hostname(name) =>
          if !HostnameOk(name) {
            return false;
          }
          serverList := [name];
          servers := 1;
      }
      return true;
    }

    /**
     * `sntp.sync(servers, syncfn, errfn, repeat)`.  The preflight runs
     * first, so its failure leaves the previous configuration, possibly a
     * working repeat, untouched.  After it the old pass is reset and
     * cleaned up before the arguments are read, so a bad hostname is
     * reported with the old configuration already gone.
     */
    method Sync(arg: ServerArg, syncFn: Option<int>, errFn: Option<int>, repeatArg: bool,
                pcbAvailable: bool, pbufAvailable: bool) returns (err: Option<string>)
      requires Valid()
      modifies this`hasPcb, this`hasPbuf
      modifies this`timer, this`serverIndex, this`attempts, this`best, this`cookieSec, this`cookieFrac
      modifies this`syncCb, this`errCb, this`dnsRef, this`lastServerIndex, this`servers, this`serverList
      modifies this`repeat, this`effects
      ensures Valid()
      ensures !((old(hasPcb) || pcbAvailable) && (old(hasPbuf) || pbufAvailable)) ==>
                err == Some("SNTP preflight failed") && unchanged(this)
      ensures (old(hasPcb) || pcbAvailable) && (old(hasPbuf) || pbufAvailable) ==>
                Running() && Counters() == Start(servers) && hasPcb && hasPbuf && timer == Disarmed
      ensures (old(hasPcb) || pcbAvailable) && (old(hasPbuf) || pbufAvailable) ==>
                lastServerIndex == 0 && dnsRef == None && best == old(best).(stratum := 0) && cookieSec == 0 && cookieFrac == 0
      ensures err == Some("Bad hostname") <==>
                (old(hasPcb) || pcbAvailable) && (old(hasPbuf) || pbufAvailable) && arg.Hostname? && !HostnameOk(arg.name)
      ensures err == Some("Bad hostname") ==>
                servers == 0 && syncCb == NoRef && errCb == NoRef && effects == old(effects)
      ensures err.None? <==>
                (old(hasPcb) || pcbAvailable) && (old(hasPbuf) || pbufAvailable) && !(arg.Hostname? && !HostnameOk(arg.name))
      ensures err.None? ==> effects == old(effects) + [StartPass]
      ensures err.None? ==> repeat == (old(repeat) || repeatArg)
      ensures err.None? ==> syncCb == (if syncFn.Some? then Ref(syncFn.value) else NoRef)
      ensures err.None? ==> errCb == (if errFn.Some? then Ref(errFn.value) else NoRef)
      ensures err.None? && arg.NoServers? ==> servers == 0 && serverList == old(serverList)
      ensures err.None? && arg.ServerTable? ==>
                servers == ServerCount(|arg.hosts|) && serverList == arg.hosts[..servers]
      ensures err.None? && arg.Hostname? ==> servers == 1 && serverList == [arg.name]
    {
      var pfc := PassPreflight(pcbAvailable, pbufAvailable);
      if pfc != 0 {
        return Some("SNTP preflight failed");
      }
      err := Restart(arg, syncFn, errFn, repeatArg);
    }

    /**
     * `sntp_sync` once the preflight has succeeded: reset the pass, drop the
     * old callbacks and servers, take the new ones and start the pass.
     */
    method Restart(arg: ServerArg, syncFn: Option<int>, errFn: Option<int>, repeatArg: bool) returns (err: Option<string>)
      requires Valid() && hasPcb && hasPbuf
      modifies this`timer, this`serverIndex, this`attempts, this`best, this`cookieSec, this`cookieFrac
      modifies this`syncCb, this`errCb, this`dnsRef, this`lastServerIndex, this`servers, this`serverList
      modifies this`repeat, this`effects
      ensures Valid() && hasPcb && hasPbuf && timer == Disarmed
      ensures Running() && Counters() == Start(servers)
      ensures lastServerIndex == 0 && dnsRef == None && best == old(best).(stratum := 0) && cookieSec == 0 && cookieFrac == 0
      ensures err.Some? ==> err == Some("Bad hostname")
      ensures err.Some? <==> arg.Hostname? && !HostnameOk(arg.name)
      ensures err.Some? ==> servers == 0 && syncCb == NoRef && errCb == NoRef && effects == old(effects)
      ensures err.None? ==> effects == old(effects) + [StartPass]
      ensures err.None? ==> repeat == (old(repeat) || repeatArg)
      ensures err.None? ==> syncCb == (if syncFn.Some? then Ref(syncFn.value) else NoRef)
      ensures err.None? ==> errCb == (if errFn.Some? then Ref(errFn.value) else NoRef)
      ensures err.None? && arg.NoServers? ==> servers == 0 && serverList == old(serverList)
      ensures err.None? && arg.ServerTable? ==>
                servers == ServerCount(|arg.hosts|) && serverList == arg.hosts[..servers]
      ensures err.None? && arg.Hostname? ==> servers == 1 && serverList == [arg.name]
    {
      PassReset();
      Cleanup();
      var ok := ReplaceServers(arg);
      if !ok {
        return Some("Bad hostname");
      }
      TakeCallbacks(syncFn, errFn, repeatArg);
      return None;
    }

    /** The callbacks and the repeat flag of `sntp.sync`, then the start of the pass. */
    method TakeCallbacks(syncFn: Option<int>, errFn: Option<int>, repeatArg: bool)
      requires syncCb == NoRef && errCb == NoRef
      modifies this`syncCb, this`errCb, this`repeat, this`effects
      ensures effects == old(effects) + [StartPass]
      ensures repeat == (old(repeat) || repeatArg)
      ensures syncCb == (if syncFn.Some? then Ref(syncFn.value) else NoRef)
      ensures errCb == (if errFn.Some? then Ref(errFn.value) else NoRef)
    {
      if syncFn.Some? {
        syncCb := Ref(syncFn.value);
      }
      if errFn.Some? {
        errCb := Ref(errFn.value);
      }
      if repeatArg {
        repeat := true;
      }
      effects := effects + [StartPass];
    }
  }
}
