# SNTP and TLS certificate-page core of the NodeMCU firmware, in Dafny

This project models three pieces of logic of the NodeMCU firmware (C on a
32-bit little-endian core) and proves properties about them.

- **`sntppkt.c`, the SNTP packet codec** (`sntppkt.dfy`, module `SntpPkt`).
  It builds the request timestamp (`make_ts`) and checks a reply (`proc_pkt`):
  lengths, the cookie, and Kiss-o'-Death.
  It computes the clock offset `delta`, `delay_frac` and `cached_delay`.
  It picks between two replies (`pick_resp`) and reports one (`read_resp`).
  The wire layout is section 4 of RFC 4330, and the estimates follow section 5.
  Every computation is a pure function in wrapping 64- and 32-bit arithmetic,
  spelled out in `bits.dfy` (module `Bits`).
- **`sntp.c`, the SNTP pass engine** (`sntp.dfy`, module `Sntp`).
  The live code's globals are the fields of class `SntpEngine`.
  Each C function that updates them is a method:
  - the pass counters (`sntp_pass_reset`, `sntp_server_next`, `sntp_pass_fini`);
  - the all-or-nothing `sntp_pass_preflight`;
  - the server-list truncation and hostname check of `sntp.sync`;
  - the step-or-slew decision of `sntp_handle_success`, with its loops that
    carry microseconds into seconds.

  Requests made of the outside world (name resolution, task posting, Lua
  callbacks, clock setting) are appended to an `effects` log. Their completions
  arrive as calls of the event methods.
- **The compiled-out rules of `sntp.c`** (`sntp_rules.dfy`, module `SntpRules`).
  These sit in the `#if 0` block at lines 553-964, which is not compiled. The
  model covers:
  - best-server selection with the 25 % bonus (`record_result`);
  - the reply screening and Kiss-o'-Death bookkeeping of `on_recv`;
  - `get_next_midnight`;
  - the leap-second staging of `update_offset`, with its civil-from-days
    calendar.

  These rules are modelled separately, with class `ClientState` holding the
  state they update.
- **`tls.c`, the certificate-page builder** (`tls.dfy`, module `Tls`).
  `append_pem_blob` is a method over an `array` of bytes:
  - it finds the `-----BEGIN <type>` header;
  - it decodes base64 (section 4 of RFC 4648, framed as in section 2 of RFC 7468);
  - it checks the END marker and the leftover bits;
  - it writes a 34-byte header (NUL-padded name, 16-bit little-endian length)
    in front of the data.

  It is proved against `ParsePem`, a function that follows the C loop byte by
  byte. That function is in turn proved against an independent base64
  encoder: an armoured encoding parses back to exactly its data.
  `fill_page_with_pem` concatenates the records and pads the sector with 0xFF.
  The socket tear-down rules are class `TlsSocket`: the callback choice of
  `tls_socket_last_call` and the `refcount` gate of `tls_socket_cleanup`.

`wrappers.dfy` holds `Option` and the Lua registry reference `Callback`.

Behaviours the proofs make explicit:
- At sntppkt.c:219-220 the casts make both halvings unsigned. When exactly one
  of the two differences is negative, the offset is off by 2^63 (see Findings).
- `sntp.sync` stores `lua_objlen` in a `uint8_t` before truncating. A table of
  256 servers therefore leaves none (`Sntp.ServerCountWraps`).
- `get_next_midnight` uses C's truncating `%`. Before the epoch it skips a
  midnight (`SntpRules.NextMidnightBeforeEpoch`).
- The fill of `unb64` is proved to give exactly the RFC 4648 decoding table
  (`Tls.BuildTable`).

## Model

| member | source | states |
|---|---|---|
| Bits.Be32RoundTrip | app/modules/sntppkt.c:133-135 | decoding the four bytes `htonl` writes gives back the 32-bit value |
| Bits.Be32BytesInjective | app/modules/sntppkt.c:133-135 | two different values never have the same wire bytes |
| Bits.Signed64OfWrap | app/modules/sntppkt.c:219-220 | storing a value that fits an `int64_t` through `uint64_t` gives the value back |
| SntpPkt.Div1mApprox | app/modules/sntppkt.c:97-109 | below 2^52 the shift-and-add quotient is never above `n / 10^6` and at most 4 below it (`sntp_div1m` at app/modules/sntp.c:224-236 is the same computation) |
| SntpPkt.Div1m | app/modules/sntppkt.c:97-109 | the shift-and-add quotient stays below 2^44; its accuracy is `Div1mApprox` |
| SntpPkt.UsToFrac | app/modules/sntppkt.c:111-114 | `div1m(us << 32)` narrowed to 32 bits; its accuracy is `UsToFracApprox` |
| SntpPkt.Frac16ToUs | app/modules/sntppkt.c:116-121 | `(frac * 10^6) >> 16` narrowed to 32 bits; its exactness is `Frac16ToUsExact` |
| SntpPkt.UsToFracApprox | app/modules/sntppkt.c:111-114 | a sub-second microsecond count maps to the 32-bit fraction at most 4 units below `us * 2^32 / 10^6` |
| SntpPkt.Frac16ToUsExact | app/modules/sntppkt.c:118-121 | up to 281474976 the 16.16-to-microsecond conversion is the exact floor, and a fraction below one second gives under 10^6 |
| SntpPkt.LeapIndicator | app/modules/sntppkt.c:69-73 | with LSB-first bitfields, LI is the top two bits of byte 0 |
| SntpPkt.Timestamp | app/modules/sntppkt.c:201-215 | a timestamp field, byte-swapped, as seconds times 2^32 plus fraction |
| SntpPkt.MakeTs | app/modules/sntppkt.c:128-139 | 8 bytes: big-endian `sec + 2208988800 mod 2^32`, then big-endian `us_to_frac(usec)` |
| SntpPkt.ProcPkt | app/modules/sntppkt.c:146-227 | "Bad cookie" unless the cookie is 8 bytes, then "Bad packet length" unless the packet is 48; nothing when the raw origin bytes differ from the cookie; the refid bytes 12-15 when LI is 3; otherwise the decoded response |
| SntpPkt.DestTimestamp | app/modules/sntppkt.c:216-217 | the local receipt time in NTP format, `now_sec + 2208988800` and `us_to_frac(now_usec)`, in 64 bits |
| SntpPkt.Delta | app/modules/sntppkt.c:219-220 | the offset with unsigned differences and halvings; its behaviour is `DeltaSameSign` and `DeltaMixedSign` |
| SntpPkt.DelayFrac | app/modules/sntppkt.c:222 | bits 16..47 of the round-trip delay; its meaning is `DelayFracIsRoundTrip` |
| SntpPkt.CachedDelay | app/modules/sntppkt.c:224 | `root_delay * 2 + delay_frac` in `uint32_t` |
| SntpPkt.Decode | app/modules/sntppkt.c:190-224 | LI and stratum copied; root delay and dispersion are big-endian bytes 4-7 and 8-11; `txsec` is the transmit seconds minus 2208988800 mod 2^32; `delta` and `delay_frac` are those of the origin, receive and transmit timestamps and the local receipt time; `cached_delay` is `root_delay * 2 + delay_frac` mod 2^32 |
| SntpPkt.CookieRoundTrip | app/modules/sntppkt.c:179-182 | a reply that echoes `make_ts`'s bytes as its origin passes the cookie check, and its origin decodes to the request's seconds and fraction |
| SntpPkt.DeltaSameSign | app/modules/sntppkt.c:210-220 | when both differences have the same sign, `delta` is the RFC 4330 offset `(T2-T1)/2 + (T3-T4)/2` |
| SntpPkt.DeltaMixedSign | app/modules/sntppkt.c:219-220 | when exactly one difference is negative, `delta` differs from that offset by 2^63 modulo 2^64 |
| SntpPkt.DeltaSymmetricDelayCounterexample | app/modules/sntppkt.c:219-220 | a reply with true offset 0 and 0.1 s delay each way yields the most negative `int64_t` |
| SntpPkt.SignedDelta | app/modules/sntp.c:797-798 | the offset with signed differences and halvings rounded toward zero; its meaning is `SignedDeltaIsOffset` |
| SntpPkt.SignedDeltaIsOffset | app/modules/sntp.c:797-798 | signed differences and signed halvings give the RFC 4330 offset for every sign, each half rounded toward zero |
| SntpPkt.DelayFracIsRoundTrip | app/modules/sntppkt.c:222 | when the round-trip delay `(T4-T1)-(T3-T2)` lies in [0, 2^48), `delay_frac` is that delay in 16.16 |
| SntpPkt.PickResp | app/modules/sntppkt.c:238-257 | whether the second response is preferred, with the `uint32_t` products; its behaviour is `PickRespPrefersSmaller` |
| SntpPkt.PickRespWide | app/modules/sntppkt.c:252-256 | the same comparison without wrap-around |
| SntpPkt.PickRespPrefersSmaller | app/modules/sntppkt.c:252-256 | below 2^30, biased prefers the second iff `4*b < 3*a`, unbiased iff `b < a`; equal delays never switch |
| SntpPkt.PickRespWrapCounterexample | app/modules/sntppkt.c:253 | with both delays 2^30, `b * 4` wraps to 0 and the biased selector switches on a tie |
| SntpPkt.PickRespWideKeepsTies | app/modules/sntppkt.c:247-251 | the comparison without wrap-around keeps the first response on every tie |
| SntpPkt.ReportOffset | app/modules/sntppkt.c:276-281 | microseconds exactly when `delta >> 40` is 0 or -1, then the floor of `delta * 10^6 / 2^32`, within ±256 s; otherwise whole seconds `delta >> 32`, at least 256 in magnitude |
| SntpPkt.ReportOffsetWholeSeconds | app/modules/sntppkt.c:280 | a whole number of seconds below 256 is reported exactly in microseconds |
| SntpPkt.ReadResp | app/modules/sntppkt.c:269-290 | the offset is `ReportOffset(delta)` (microseconds iff within 2^40); `delay_us` and `root_delay_us` are the 16.16 values in microseconds; root dispersion, leapind and stratum are copied |
| Sntp.SntpEngine.constructor | app/modules/sntp.c:1112-1134 | the default table of the four `N.nodemcu.pool.ntp.org` servers, no callbacks, no LwIP handles |
| Sntp.SntpEngine.PassReset | app/modules/sntp.c:249-261 | timer disarmed, index 1, 5 attempts, stratum 0 ("no best"), cookie 0 |
| Sntp.SntpEngine.Cleanup | app/modules/sntp.c:267-283 | callbacks and the name being resolved released; last index and server count 0 |
| Sntp.SntpEngine.ServerNext | app/modules/sntp.c:444-468 | leaves the state `Advanced` describes: the counters step as `Next`; at zero attempts the name is released and either the end of the pass is posted or the next server's name is taken and resolved with 5 attempts; otherwise the same name is resolved again |
| Sntp.SntpEngine.Advanced | app/modules/sntp.c:449-466 | the counters, the single new effect (end post or `Resolve`) and the name held after one `sntp_server_next` |
| Sntp.Next | app/modules/sntp.c:444-468 | the counters after one `sntp_server_next` with `uint8_t` arithmetic; `PassSchedule` says what a pass of them does |
| Sntp.PostsEnd | app/modules/sntp.c:449-455 | whether the call posts the end of the pass |
| Sntp.LateCompletionWraps | app/modules/sntp.c:449 | a call with no attempts left wraps the counter to 255 and moves nowhere |
| Sntp.PassSchedule | app/modules/sntp.c:444-468 | after k calls in a pass, server `1 + k/5` is current with `5 - k%5` attempts left, never more than 5 |
| Sntp.PassEnds | app/modules/sntp.c:455-456 | the end of the pass is posted by call number `5 * servers` (5 with no servers) and by no earlier call |
| Sntp.SntpEngine.OnTimeout | app/modules/sntp.c:471-476 | a timeout is one `sntp_server_next`: counters, effect and name as `Advanced` states |
| Sntp.SntpEngine.OnRecv | app/modules/sntp.c:479-486 | a received datagram is only one `sntp_server_next`: counters, effect and name as `Advanced` states |
| Sntp.SntpEngine.OnResolve | app/modules/sntp.c:497-509 | a failed resolution is one `sntp_server_next` as `Advanced` states; a successful one leaves counters, effects and name unchanged |
| Sntp.SntpEngine.PassPreflight | app/modules/sntp.c:966-1000 | succeeds iff each missing handle can be obtained, and then both are held; on failure neither handle changes |
| Sntp.SntpEngine.DoRepeat | app/modules/sntp.c:1002-1015 | a failed preflight re-arms the timer for 30 s and starts nothing; otherwise both LwIP handles are held and the next pass starts; nothing else changes |
| Sntp.SntpEngine.ReportPass | app/modules/sntp.c:425-432 | no best: exactly one timeout error for server 0, server index 0; otherwise no error, with the RTC first the clock effect `IsClockStep` of the best and the old PLL increment and no other clock effect, a success report when a callback is registered, the best server's index remembered and the PLL increment updated as in `StepClock` |
| Sntp.SntpEngine.PassFini | app/modules/sntp.c:420-441 | exactly one of the error and success paths, the success path with the clock effect `IsClockStep` first and no other; then the counters of `sntp_pass_reset` with the rest of the best kept; with repeat the timer is re-armed for 1000 s and the configuration kept; otherwise callbacks, name, last index and servers are dropped; the PLL increment and the last index follow the success path; the server list, repeat flag and LwIP handles never change |
| Sntp.SntpEngine.TaskBody | app/modules/sntp.c:1085-1110 | the LwIP handles are released, then the pass is finished with every outcome `PassFini` states, the clock effect included |
| Sntp.SntpEngine.HandleSuccess | app/modules/sntp.c:326-417 | the last index is remembered; with the RTC the first new effect is the clock effect `IsClockStep` (the rate inside ±200 ms, else `SetClock` of the stepped time) and no later one is a clock effect; without it there is none; a success report iff a callback is registered; no error |
| Sntp.SntpEngine.StepClock | app/modules/sntp.c:338-363 | from the RTC reading (or the system timer when it reads 0), the stepped time carried into microseconds below 10^6 and equal to the reading plus `delta`; inside ±200 ms the rate `((delta * PLL_A) >> 32) + pll_increment` narrowed to 32 bits is set and the increment grows by `(delta * PLL_B) >> 32`; outside it the clock is set to the stepped time; without the RTC the transmit time plus the time since the reply |
| Sntp.IsClockStep | app/modules/sntp.c:338-362 | the rate value inside the PLL window, otherwise `SetClock` of the reading stepped by `delta` with microseconds below 10^6 |
| Sntp.ClockBase | app/modules/sntp.c:338-343 | the RTC reading, or the system timer split into seconds and microseconds when the RTC reads 0 |
| Sntp.SteppedSeconds | app/modules/sntp.c:344 | the seconds plus `delta >> 32` |
| Sntp.SteppedMicros | app/modules/sntp.c:345 | the microseconds plus `(10^6 * (delta & 0xffffffff)) >> 32` |
| Sntp.SusToFrac | app/modules/sntp.c:113 | `SUS_TO_FRAC`: signed microseconds to 32.32 with C's truncating division |
| Sntp.InPllWindow | app/modules/sntp.c:352 | the slew window; its bounds are `PllWindowBounds` |
| Sntp.Frac16ToUsWide | app/modules/sntp.c:114 | `FRAC16_TO_US` in `uint64_t`, without narrowing |
| Sntp.PllWindowBounds | app/modules/sntp.c:352 | the `SUS_TO_FRAC(±200000)` window is ±858993459 in 32.32 |
| Sntp.PllTerms | app/modules/sntp.c:356-357 | inside the window the loop-filter terms are `delta / 2^11` and `delta / 2^13`, well inside 32 bits |
| Sntp.NormaliseUsec | app/modules/sntp.c:346-349 | the carry loop keeps the time unchanged and leaves microseconds below 10^6; for non-negative input they are the quotient and remainder (the build without the RTC repeats the loop at lines 389-392) |
| Sntp.ServerCount | app/modules/sntp.c:1043-1048 | at most 32 servers, exactly the table length up to 32, never more than the table length |
| Sntp.ServerCountTruncates | app/modules/sntp.c:1045-1048 | tables of 33 to 255 entries keep 32 servers |
| Sntp.ServerCountWraps | app/modules/sntp.c:1043 | a table of 256 entries keeps none, because the count is stored in a `uint8_t` |
| Sntp.TruncateServerTable | app/modules/sntp.c:1043-1048 | the loop stops at `ServerCount` and sets to nil exactly the entries from there to the narrowed length |
| Sntp.HostnameOk | app/modules/sntp.c:1056-1057 | a name of at most 128 characters |
| Sntp.SntpEngine.ReplaceServers | app/modules/sntp.c:1039-1066 | nil keeps the stored table; a table is truncated; a hostname over 128 characters is refused, any other becomes a one-entry table |
| Sntp.SntpEngine.Sync | app/modules/sntp.c:1018-1083 | a failed preflight returns "SNTP preflight failed" and changes nothing; otherwise the pass is reset and cleaned up (last index 0, name released, no best, cookie 0); no error iff the preflight succeeds and the name, if one is given, is short enough, "Bad hostname" iff it is too long; then the new callbacks and repeat flag are taken and a pass starts; the PLL increment and flags never change |
| Sntp.SntpEngine.Restart | app/modules/sntp.c:1036-1082 | the part of `sntp_sync` after the preflight, with the same outcomes and the same reset state |
| Sntp.SntpEngine.TakeCallbacks | app/modules/sntp.c:1068-1082 | each non-nil callback is referenced, a given repeat argument sets repeat, and the pass starts |
| SntpRules.EpochDayValue | app/modules/sntp.c:648 | the spelled-out epoch day number is 719468 |
| SntpRules.Metric | app/modules/sntp.c:677-680 | the metric is an `int`; without the bonus it is `cached_delay` read as signed |
| SntpRules.MetricBonus | app/modules/sntp.c:678-680 | for the last best server the metric lies between three quarters of the delay and the delay |
| SntpRules.Replaces | app/modules/sntp.c:682 | no best yet, or a metric below the stored delay as `uint32_t`; its behaviour is `TiesKeepEarlier` and `ReplacesIffSmaller` |
| SntpRules.Recorded | app/modules/sntp.c:682-694 | once stored, a record is displaced by a later reply exactly when that reply's metric is smaller as `uint32_t`, or by any reply when the stratum narrows to 0 |
| SntpRules.TiesKeepEarlier | app/modules/sntp.c:682 | an equal metric never displaces the best so far |
| SntpRules.ReplacesIffSmaller | app/modules/sntp.c:682 | with a best present, replacement happens exactly when the metric is strictly smaller |
| SntpRules.BonusReversesChoice | app/modules/sntp.c:676-682 | the bonus lets the last best server displace a best it would not displace without it |
| SntpRules.StratumZeroIsForgotten | app/modules/sntp.c:682-692 | a recorded stratum of 0 leaves the "no best" marker, so any later reply replaces it |
| SntpRules.ClientState.RecordResult | app/modules/sntp.c:673-698 | the best becomes the new reading iff there is no best or the metric is strictly smaller; otherwise it is unchanged |
| SntpRules.CivilFromDays | app/modules/sntp.c:650-655 | every part of the split is in range and the parts add back up to the day number |
| SntpRules.DayNumber | app/modules/sntp.c:648 | days since 1 March of year 0, with C's truncating division |
| SntpRules.EpochIsFirstOfJanuary | app/modules/sntp.c:642-655 | 1 January 1970 splits as day 0 of January (month 10) |
| SntpRules.NewYear2017 | app/modules/sntp.c:648-660 | midnight of 1 January 2017 is day 0 of its month, so a pending leap second is applied |
| SntpRules.NewYearsEve2016 | app/modules/sntp.c:648-660 | midnight of 31 December 2016 is day 30, so nothing is applied |
| SntpRules.NextMidnightIsNext | app/modules/sntp.c:623-625 | for a non-negative offset time, the next midnight is the smallest multiple of 86400 strictly after it |
| SntpRules.NextMidnightBeforeEpoch | app/modules/sntp.c:624 | one second before 1970 the truncating `%` makes the "next" midnight a day late |
| SntpRules.GetNextMidnight | app/modules/sntp.c:623-625 | `now + 86400 - offset - (now - offset) % 86400` with the truncating `%`; its meaning is `NextMidnightIsNext` |
| SntpRules.OffsetStep | app/modules/sntp.c:627-671 | with a leap pending and active: a small `next_midnight` is only scheduled; once offset time reaches it, the next midnight is scheduled, the offset moves by +1 (LI 1) or -1 on the first of a month, and the pending LI is cleared; otherwise nothing changes |
| SntpRules.LeapAppliedOnce | app/modules/sntp.c:659-668 | one step moves the offset by at most a second, and after the step that clears the indicator later steps change nothing |
| SntpRules.LeapSecondApplied | app/modules/sntp.c:639-668 | a positive leap at the first midnight of a month adds a second, schedules the next midnight and clears the indicator |
| SntpRules.LeapSecondAtNewYear2017 | app/modules/sntp.c:639-668 | at midnight of 1 January 2017 a pending positive leap second is applied and midnight moves on a day |
| SntpRules.ClientState.UpdateOffset | app/modules/sntp.c:627-671 | offset, next midnight and pending LI become `OffsetStep` of their old values, active only in the RTC build with an offset in use |
| SntpRules.ClientState.SetOffset | app/modules/sntp.c:811-824 | the offset is set and in use; the next midnight is scheduled when the clock is set |
| SntpRules.ScreenReply | app/modules/sntp.c:725-758 | in order: too short, unknown sender (neither the server nor anycast), origin not the cookie, LI 3 (noting a "DENY" refid), clean |
| SntpRules.KodStep | app/modules/sntp.c:748-755 | the first "DENY" sets the server's bit, a second zeroes its address; the table keeps its length |
| SntpRules.KodTwiceRemoves | app/modules/sntp.c:747-756 | a first "DENY" marks the server, a second one zeroes its address |
| SntpRules.KodForgiven | app/modules/sntp.c:750-761 | a clean reply between two "DENY" replies makes the second one only mark the server |
| SntpRules.ClearKod | app/modules/sntp.c:761 | a clean reply clears the server's mark |
| SntpRules.RtcDelayFracAgrees | app/modules/sntp.c:800 | the signed shift of the RTC build keeps the same 32 bits as `delay_frac` of sntppkt.c |
| SntpRules.RtcDest | app/modules/sntp.c:788-795 | the destination timestamp from the RTC, shifted back by the leap offset |
| SntpRules.RtcDelayFrac | app/modules/sntp.c:800 | the signed 64-bit round-trip delay shifted right by 16 and narrowed; `RtcDelayFracAgrees` relates it to sntppkt.c |
| SntpRules.CandidateOf | app/modules/sntp.c:778-804 | LI, stratum, root delay and dispersion from the frame; with the RTC the signed offset and the round-trip delay; without it, the transmit time as offset |
| SntpRules.ClientState.OnRecv | app/modules/sntp.c:700-808 | a screened-out reply changes nothing but the Kiss-o'-Death state, and that only for "DENY"; a clean reply clears the mark, stops the timer, notes a non-zero LI as pending, takes the `OffsetStep` of the leap state, and yields its reading |
| SntpRules.ClientState.RejectReply | app/modules/sntp.c:747-757 | only an LI-3 "DENY" reply updates the marks and addresses |
| SntpRules.ClientState.AcceptReply | app/modules/sntp.c:760-805 | mark cleared, timer stopped, a non-zero LI noted as pending, then offset, next midnight and pending LI become their `OffsetStep`, then the reading |
| SntpRules.ClientState.constructor | app/modules/sntp.c:887-910 | no current or last server position (-1), no marks, no best |
| Tls.SextetDecodes | app/modules/tls.c:450-455 | every alphabet character decodes to its position and is none of NUL, newline, '=', '-' or space |
| Tls.Unb64Sextet | app/modules/tls.c:450-455 | only alphabet characters decode, each to its own position |
| Tls.Unb64 | app/modules/tls.c:450-455 | the table lookup: 0xFF or a sextet below 64; `Unb64Sextet` and `BuildTable` say which |
| Tls.BuildTable | app/modules/tls.c:450-455 | the table holds each character's position in the alphabet and 0xFF for every other byte |
| Tls.CString | app/modules/tls.c:462-486 | `pem` read as a C string: a prefix without NUL, stopped by NUL when shorter |
| Tls.Find | app/modules/tls.c:462-471 | `strstr`/`strchr`: a position at or after the start where the pattern occurs |
| Tls.FindIsFirst | app/modules/tls.c:462-473 | the position found is the first occurrence, and no position comes back exactly when the pattern occurs nowhere, so the NULL checks fire exactly then |
| Tls.At | app/modules/tls.c:467 | `strncmp(p + i, pat, strlen(pat)) == 0` |
| Tls.Scan | app/modules/tls.c:486-508 | the data loop from a position; its behaviour is `ScanStops`, `ScanGrows`, `ScanBits` and `ScanEncoded` |
| Tls.ScanByte | app/modules/tls.c:487-509 | one pass of the loop body: skip white space, clear the bits on '=', stop on '-', fail on any other non-alphabet byte, else decode |
| Tls.Push | app/modules/tls.c:503-504 | `accumulator = (accumulator << 6) + val` in 32 bits |
| Tls.Emit | app/modules/tls.c:505-507 | the byte `bitcount` bits up the accumulator, as the `uint8_t` store keeps it |
| Tls.ScanStops | app/modules/tls.c:486-500 | when the data loop does not fail on an invalid character, it stops only at the end of the string, with the buffer full, or on a `-` |
| Tls.ScanGrows | app/modules/tls.c:502-508 | the loop only appends to the decoded bytes, never beyond the room |
| Tls.ScanBits | app/modules/tls.c:503-508 | the pending bit count stays even and below 8 |
| Tls.ScanEncoded | app/modules/tls.c:486-508 | an encoding followed by a line break and '-' is read to the '-', with no bits pending, giving exactly the encoded data |
| Tls.ParsePem | app/modules/tls.c:457-513 | a stored record is at least the header and ends before the limit |
| Tls.ParseData | app/modules/tls.c:511-519 | a record only when the buffer is not full, the END marker and type follow, and no bits are pending |
| Tls.RecordHeaderRoundTrip | app/modules/tls.c:514-519 | the header gives back the name as a C string and the length from its two little-endian bytes |
| Tls.RecordHeader | app/modules/tls.c:516-519 | the 34-byte header: the name, NUL padding, the length's low and high bytes |
| Tls.DecodeData | app/modules/tls.c:481-510 | the loop over the buffer stops where `Scan` stops and has written exactly its output after the header space; nothing else changes |
| Tls.StoreHeader | app/modules/tls.c:514-520 | the 34 header bytes are written in front of the decoded data; nothing else changes |
| Tls.DecodeAndStore | app/modules/tls.c:481-521 | the loop, the post-checks and the header, with the outcome `ParseData` gives |
| Tls.AppendPemBlob | app/modules/tls.c:449-522 | the error `ParsePem` gives, with the pointer unmoved, or the record stored at the pointer and the pointer advanced past it; only the data area can change on an error |
| Tls.ParseFramed | app/modules/tls.c:461-513 | a block whose text the loop decodes to the END line is stored as the record of that output |
| Tls.ParseArmor | app/modules/tls.c:449-522 | round trip: an armoured base64 encoding of `data` is stored as the record of exactly `data`, whenever it fits |
| Tls.FillStop | app/modules/tls.c:535-539 | the first failing argument fails the whole page with its message |
| Tls.FillStep | app/modules/tls.c:532-540 | a parsed argument's record is appended and the next argument follows |
| Tls.Fill | app/modules/tls.c:532-540 | the argument loop from argument k: the page only grows, within the sector |
| Tls.FillArg | app/modules/tls.c:533-539 | one argument: its error, or its record appended and the loop continued |
| Tls.FillOfRecords | app/modules/tls.c:532-540 | arguments that each parse to their data fill the page with their records back to back |
| Tls.FillOfArmor | app/modules/tls.c:524-542 | round trip for the page: armoured blocks that fit are stored one after the other, each as the record of its data |
| Tls.Page | app/modules/tls.c:542 | the sector is the records followed by 0xFF to its end |
| Tls.AppendArg | app/modules/tls.c:532-540 | one loop turn: the error of argument k, or its record appended with the earlier records kept |
| Tls.PadSector | app/modules/tls.c:542 | the buffer becomes the page of the records written so far |
| Tls.FillPageWithPem | app/modules/tls.c:524-561 | the first argument error, with no erase; otherwise the padded page, erased and written only when it differs from the flash, with the erase and write failures reported |
| Tls.LastCallTarget | app/modules/tls.c:107-111 | the reconnection callback iff there is an error string and one is registered, otherwise the disconnection callback |
| Tls.TlsSocket.Cleanup | app/modules/tls.c:82-97 | nothing while the refcount is non-zero; otherwise the TCP state is freed and the self reference is released |
| Tls.TlsSocket.LastCall | app/modules/tls.c:107-130 | the chosen callback, if any, gets the self reference as it was and the error string; the socket is cleaned up either way |

## Left out

- Lua bindings: argument checking, the stack, the registry, metatables and module maps. Callbacks are opaque `Callback` handles, and Lua errors are results.
- `sntp_handle_error` dispatches only when the error callback is nil, an inverted test at app/modules/sntp.c:300. It is Lua glue, so the model records the request as a `ReportError` effect.
- LwIP UDP and DNS, and the espconn TLS socket code (app/modules/tls.c:132-446). Resolution, sending and receiving are completion events. `sntp_dosend` is empty, and `sntp_pass_start` is never defined, so it is the `StartPass` effect.
- `sntp_server_resolve` (app/modules/sntp.c:512-551) does not compile, so a resolution is the `Resolve` effect.
- The compiled-out `sntp_dosend`, `sntp_dolookups`, `state_init`, `set_repeat_mode` and `on_long_timeout` (app/modules/sntp.c:555-614, 835-963) are about sending, lookups and timers. Only the rules of the block are modelled.
- At app/modules/sntp.c:800 `record_result` receives `same_as_last` as its `server_pos`. `ClientState.OnRecv` stops at the reading it would record, and `RecordResult` is modelled on its own parameters; the two are not reconciled.
- Timers, task posting and the IRQ/task split: a timer is a `Timer` field, and a post is an effect. Concurrency is not modelled. `ServerNext`, `OnTimeout`, `OnRecv` and `OnResolve` require a pass in progress; a resolution completing after its pass ended, which the source does not guard against (app/modules/sntp.c:526-533), would wrap the attempt counter to 255 (`Sntp.LateCompletionWraps`).
- Sntp.SntpEngine.ReplaceServers: the truncation loop sets entries of the caller's Lua table to nil in place (app/modules/sntp.c:1045-1048); the model keeps the truncated copy and does not model the change the caller sees.
- Clock sources (`rtctime_*`, `system_get_time`) are method parameters. So are the successes of `udp_new` and `pbuf_alloc`.
- Flash erase and write are the `eraseOk`/`writeOk` parameters of `FillPageWithPem`. The flash address checks of `tls_cert_auth`/`tls_cert_verify`, their Lua wrappers, and the mbedtls debug threshold are foreign calls.
- The NTP era rollover of 2036 is not guarded: all arithmetic stays modular, as in C.
- Tls.Scan: `accumulator` is a C `int` shifted left without bound, which overflows. The model keeps its low 32 bits, and only the low bits reach the stored bytes.
- Tls.ParsePem: the type string is taken as given. C compares only up to its NUL, and every caller passes a C string.
- SntpPkt.Div1mApprox: the error bound is proved only below 2^52, which covers every input `us_to_frac` receives for a sub-second count.
- SntpPkt.Frac16ToUsExact: exactness is proved only up to 281474976; above that the `uint32_t` result wraps.
- Sntp.SntpEngine.HandleSuccess: the contract states which effects are produced, not every field of the success report, which the body computes from `best`.
- Sntp.SntpEngine.PassFini: on the success path it states that no error is reported and that a report is made when a callback is registered, not the report's contents.
- Sntp.SntpEngine.TaskBody: as for PassFini, the contents of the success report are not stated.
- Sntp.SntpEngine.ReportPass: as for PassFini, the contents of the success report are not stated.
- Tls.ParseArmor: the round trip is proved for an encoding on a single line. Line breaks inside the body are skipped by the same whitespace rule, but that is not proved.
- Sntp: `pll_increment` is named `sntp_pll_increment` where it is declared, so the RTC build does not compile as written. The model uses the one field.

## Findings

| source | as written | input that shows it | evidently intended | confidence | as-written member | corrected member |
|---|---|---|---|---|---|---|
| app/modules/sntppkt.c:219-220 | `((int64_t) recv - origin) / 2`: the usual conversions make the difference and the halving unsigned | T1 = 1000 s, T2 = T3 = T1 + 0.1 s, T4 = T2 + 0.1 s: the true offset is 0, the result is -2^63 | signed differences and signed halvings (RFC 4330 section 5), as the earlier code at app/modules/sntp.c:798 writes it | high, not executed | SntpPkt.DeltaSymmetricDelayCounterexample | SntpPkt.SignedDeltaIsOffset |
| app/modules/sntppkt.c:253 | `a->cached_delay * 3 > b->cached_delay * 4` in `uint32_t` | both delays 2^30: `b * 4` wraps to 0 and the second response is preferred on a tie | the comparison without wrap-around, which never switches on a tie | low (delays of 16384 s), not executed | SntpPkt.PickRespWrapCounterexample | SntpPkt.PickRespWideKeepsTies |
