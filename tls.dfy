/**
 * The certificate-page builder and the socket tear-down rules of the TLS
 * module (app/modules/tls.c).
 *
 * `append_pem_blob` finds a PEM block ("-----BEGIN <type>" ... "-----END
 * <type>", as framed in section 2 of RFC 7468), decodes its base64 body
 * (section 4 of RFC 4648) and stores it behind a 34-byte header in a caller
 * buffer; `fill_page_with_pem` concatenates such records into one flash
 * sector.  The decoder is specified by the function `Scan`, which follows the
 * C loop character by character, and is proved against an independent
 * encoder: decoding an armoured encoding gives the data back.
 */
module Tls {
  import opened Bits
  import opened Wrappers

  /** `INTERNAL_FLASH_SECTOR_SIZE`; both callers refuse to run unless it is 0x1000. */
  const SECTOR_SIZE: int := 0x1000
  /** Bytes reserved for the NUL-padded record name. */
  const NAME_FIELD: int := 32
  /** Name plus the two length bytes: the data of a record starts here. */
  const HEADER_LEN: int := 34

  const NUL: byte := 0
  const NEWLINE: byte := 10
  const DASH: byte := 45
  const EQUALS: byte := 61

  /** "-----BEGIN " */
  const BEGIN: seq<byte> := [45, 45, 45, 45, 45, 66, 69, 71, 73, 78, 32]
  /** "-----END " */
  const END: seq<byte> := [45, 45, 45, 45, 45, 69, 78, 68, 32]
  /** "-----" */
  const DASHES: seq<byte> := [45, 45, 45, 45, 45]

  /** The errors `append_pem_blob` and `fill_page_with_pem` report. */
  datatype Fault =
    | NoBlob | NoHeader | WrongType | NoNewline | InvalidChar | InvalidData
    | EraseFailed | WriteFailed

  /** The message returned for each error. */
  function Message(f: Fault): string
  {
    match f
    case NoBlob => "No PEM blob"
    case NoHeader => "No PEM header"
    case WrongType => "Wrong PEM type"
    case NoNewline => "Incorrect PEM format"
    case InvalidChar => "Invalid character in PEM"
    case InvalidData => "Invalid PEM format data"
    case EraseFailed => "Failed to erase sector"
    case WriteFailed => "Failed to write sector"
  }

  // ---------------------------------------------------------------------
  // C string primitives
  // ---------------------------------------------------------------------

  /** The C string stored at the start of `s`: everything before the first NUL. */
  function CString(s: seq<byte>): (c: seq<byte>)
    ensures c <= s
    ensures NUL !in c
    ensures |c| < |s| ==> s[|c|] == NUL
  {
    if |s| == 0 || s[0] == NUL then [] else [s[0]] + CString(s[1..])
  }

  /**
   * `strncmp(p + i, pat, strlen(pat)) == 0` for a C string `p` and a pattern
   * without NUL: the pattern occurs at position `i`.  Past the end of `p`
   * the comparison meets `p`'s terminator, which differs from every pattern
   * byte, so a pattern that does not fit does not match.
   */
  predicate At(p: seq<byte>, i: nat, pat: seq<byte>)
  {
    i + |pat| <= |p| && p[i..i + |pat|] == pat
  }

  /**
   * The first occurrence of `pat` in `p` at or after `from`: `strstr` when
   * `pat` is a string, `strchr` when it is one character.
   */
  function Find(p: seq<byte>, pat: seq<byte>, from: nat): (r: Option<nat>)
    requires from <= |p|
    ensures r.Some? ==> from <= r.value <= |p| && At(p, r.value, pat)
    decreases |p| - from
  {
    if At(p, from, pat) then Some(from)
    else if from == |p| then None
    else Find(p, pat, from + 1)
  }

  /** `isspace` in the C locale: space, tab, newline, vertical tab, form feed, return. */
  predicate IsSpace(c: byte)
  {
    c == 32 || 9 <= c <= 13
  }

  // ---------------------------------------------------------------------
  // The base64 alphabet
  // ---------------------------------------------------------------------

  /** The alphabet character for a 6-bit value (Table 1 of RFC 4648). */
  function Sextet(v: int): (c: byte)
    requires 0 <= v < 64
  {
    if v < 26 then 65 + v
    else if v < 52 then 71 + v
    else if v < 62 then v - 4
    else if v == 62 then 43
    else 47
  }

  /**
   * The decoding table `unb64`: the value of an alphabet character, 0xFF for
   * every other byte.
   */
  function Unb64(c: byte): (v: int)
    ensures v == 0xFF || 0 <= v < 64
  {
    if 65 <= c <= 90 then c - 65
    else if 97 <= c <= 122 then c - 71
    else if 48 <= c <= 57 then c + 4
    else if c == 43 then 62
    else if c == 47 then 63
    else 0xFF
  }

  /** Every alphabet character decodes to its position, and none is a byte the loop treats specially. */
  lemma SextetDecodes(v: int)
    requires 0 <= v < 64
    ensures Unb64(Sextet(v)) == v
    ensures Sextet(v) != NUL && Sextet(v) != NEWLINE && Sextet(v) != EQUALS && Sextet(v) != DASH && !IsSpace(Sextet(v))
  {
  }

  /** Only alphabet characters decode, each to its own position. */
  lemma Unb64Sextet(c: byte)
    requires Unb64(c) < 64
    ensures Sextet(Unb64(c)) == c
  {
  }

  /**
   * Builds `unb64` as the C code does: fill with 0xFF, then store each
   * position of the alphabet string "A..Za..z0..9+/" at its character.
   */
  method BuildTable() returns (t: array<int>)
    ensures fresh(t) && t.Length == 0x100
    ensures forall c :: 0 <= c < 0x100 ==> t[c] == Unb64(c)
  {
    t := new int[0x100](_ => 0xFF);
    var i := 0;
    while i < 64
      invariant 0 <= i <= 64
      invariant forall c :: 0 <= c < 0x100 ==> t[c] == (if Unb64(c) < i then Unb64(c) else 0xFF)
    {
      forall c | 0 <= c < 0x100 && Unb64(c) < 64
        ensures Sextet(Unb64(c)) == c
      {
        Unb64Sextet(c);
      }
      SextetDecodes(i);
      t[Sextet(i)] := i;
      i := i + 1;
    }
  }

  // ---------------------------------------------------------------------
  // The accumulator
  // ---------------------------------------------------------------------

  /**
   * `*dest++ = accumulator >> bitcount`: the byte lying `bitcount` bits up
   * the 32-bit accumulator.  After the subtraction of 8 the count is 0, 2
   * or 4.  The C `int` shifts arithmetically, but the bits kept by the
   * `uint8_t` store are the same for the signed reading and the unsigned
   * pattern `acc`.
   */
  function Emit(acc: u32, bitcount: int): (b: byte)
    requires bitcount == 0 || bitcount == 2 || bitcount == 4
  {
    if bitcount == 0 then acc % 0x100
    else if bitcount == 2 then (acc / 4) % 0x100
    else (acc / 16) % 0x100
  }

  /** One alphabet character shifted in: `accumulator = (accumulator << 6) + val`. */
  function Push(acc: u32, v: int): u32
  {
    Wrap32(acc * 64 + v)
  }

  lemma Mod16Bits(x: int, q: int, r: int)
    requires x == q * 0x1_0000 + r && 0 <= r < 0x1_0000
    ensures x % 0x1_0000 == r
  {
  }

  lemma Mod10Bits(x: int, q: int, r: int)
    requires x == q * 0x400 + r && 0 <= r < 0x400
    ensures x % 0x400 == r
  {
  }

  lemma Mod4Bits(x: int, q: int, r: int)
    requires x == q * 16 + r && 0 <= r < 16
    ensures x % 16 == r
  {
  }

  lemma Mod8Bits(x: int, q: int, r: int)
    requires x == q * 0x100 + r && 0 <= r < 0x100
    ensures x % 0x100 == r
  {
  }

  lemma DivBy(x: int, d: int, q: int, r: int)
    requires d == 1 || d == 4 || d == 16 || d == 64
    requires x == q * d + r && 0 <= r < d
    ensures x / d == q
  {
  }

  /** After a push the low 16 bits hold the old low 10 bits and the new value. */
  lemma PushLow(acc: int, v: int)
    requires 0 <= v < 64
    ensures Wrap32(acc * 64 + v) % 0x1_0000 == (acc % 0x400) * 64 + v
  {
    var x := acc * 64 + v;
    var r := Wrap32(x);
    var k := (x - r) / TWO32;
    assert x == r + k * TWO32;
    var a := acc / 0x400;
    assert acc == a * 0x400 + acc % 0x400;
    assert r == (a - k * 0x1_0000) * 0x1_0000 + ((acc % 0x400) * 64 + v);
    Mod16Bits(r, a - k * 0x1_0000, (acc % 0x400) * 64 + v);
  }

  /** An emitted byte depends only on the low 16 bits of the accumulator. */
  lemma EmitLow(acc: u32, bc: nat)
    requires bc == 0 || bc == 2 || bc == 4
    ensures bc == 0 ==> Emit(acc, bc) == (acc % 0x1_0000) % 0x100
    ensures bc == 2 ==> Emit(acc, bc) == ((acc % 0x1_0000) / 4) % 0x100
    ensures bc == 4 ==> Emit(acc, bc) == ((acc % 0x1_0000) / 16) % 0x100
  {
    var h, l := acc / 0x1_0000, acc % 0x1_0000;
    assert acc == h * 0x1_0000 + l;
    if bc == 0 {
      Mod8Bits(acc, h * 0x100 + l / 0x100, l % 0x100);
    } else if bc == 2 {
      var y := l / 4;
      DivBy(acc, 4, h * 0x4000 + y, l % 4);
      Mod8Bits(acc / 4, h * 0x40 + y / 0x100, y % 0x100);
    } else {
      var y := l / 16;
      DivBy(acc, 16, h * 0x1000 + y, l % 16);
      Mod8Bits(acc / 16, h * 0x10 + y / 0x100, y % 0x100);
    }
  }

  lemma Low1(a: int, b: int, v: int)
    requires 0 <= v < 64
    requires b == (a % 0x400) * 64 + v
    ensures b % 0x400 == (a % 16) * 64 + v
  {
    var q := a % 0x400 / 16;
    assert a % 0x400 == q * 16 + a % 16;
    Mod10Bits(b, q, (a % 16) * 64 + v);
  }

  lemma LowMod(a: int)
    ensures a % 0x400 == (a % 0x1_0000) % 0x400
    ensures a % 16 == (a % 0x1_0000) % 16
  {
    var h, l := a / 0x1_0000, a % 0x1_0000;
    assert a == h * 0x1_0000 + l;
    Mod10Bits(a, h * 64 + l / 0x400, l % 0x400);
    Mod4Bits(a, h * 0x1000 + l / 16, l % 16);
  }

  /** After a push, the low 4 bits of the accumulator are those of the pushed value. */
  lemma PushLow4(acc: int, v: int)
    requires 0 <= v < 64
    ensures Wrap32(acc * 64 + v) % 16 == v % 16
  {
    PushLow(acc, v);
    LowMod(Wrap32(acc * 64 + v));
    Mod4Bits(Wrap32(acc * 64 + v) % 0x1_0000, (acc % 0x400) * 4 + v / 16, v % 16);
  }

  /** First byte of a group: emitted on the second character, 4 bits stay pending. */
  lemma GroupByte0(acc: u32, v0: int, v1: int)
    requires 0 <= v0 < 64 && 0 <= v1 < 64
    ensures Emit(Push(Push(acc, v0), v1), 4) == v0 * 4 + v1 / 16
  {
    var a1 := Push(acc, v0);
    var a2 := Push(a1, v1);
    PushLow(acc, v0);
    PushLow(a1, v1);
    LowMod(a1);
    Low1(acc, a1 % 0x1_0000, v0);
    var m := acc % 16;
    var l2 := a2 % 0x1_0000;
    assert l2 == (m * 64 + v0) * 64 + v1;
    DivBy(l2, 16, m * 256 + v0 * 4 + v1 / 16, v1 % 16);
    Mod8Bits(l2 / 16, m, v0 * 4 + v1 / 16);
    EmitLow(a2, 4);
  }

  /** Second byte of a group: emitted on the third character, 2 bits stay pending. */
  lemma GroupByte1(a1: u32, v1: int, v2: int)
    requires 0 <= v1 < 64 && 0 <= v2 < 64
    ensures Emit(Push(Push(a1, v1), v2), 2) == (v1 % 16) * 16 + v2 / 4
  {
    var a2 := Push(a1, v1);
    var a3 := Push(a2, v2);
    PushLow(a1, v1);
    PushLow(a2, v2);
    LowMod(a2);
    Low1(a1, a2 % 0x1_0000, v1);
    var m := a1 % 16;
    var l3 := a3 % 0x1_0000;
    assert l3 == (m * 64 + v1) * 64 + v2;
    var hi := m * 64 + v1;
    assert hi == (m * 4 + v1 / 16) * 16 + v1 % 16;
    assert l3 == ((m * 4 + v1 / 16) * 256 + (v1 % 16) * 16 + v2 / 4) * 4 + v2 % 4;
    DivBy(l3, 4, (m * 4 + v1 / 16) * 256 + (v1 % 16) * 16 + v2 / 4, v2 % 4);
    Mod8Bits(l3 / 4, m * 4 + v1 / 16, (v1 % 16) * 16 + v2 / 4);
    EmitLow(a3, 2);
  }

  /** Third byte of a group: emitted on the fourth character, no bits stay pending. */
  lemma GroupByte2(a2: u32, v2: int, v3: int)
    requires 0 <= v2 < 64 && 0 <= v3 < 64
    ensures Emit(Push(Push(a2, v2), v3), 0) == (v2 % 4) * 64 + v3
  {
    var a3 := Push(a2, v2);
    var a4 := Push(a3, v3);
    PushLow(a2, v2);
    PushLow(a3, v3);
    LowMod(a3);
    Low1(a2, a3 % 0x1_0000, v2);
    var m := a2 % 16;
    var l4 := a4 % 0x1_0000;
    assert l4 == (m * 64 + v2) * 64 + v3;
    assert v2 == (v2 / 4) * 4 + v2 % 4;
    assert (m * 64 + v2) * 64 == m * 4096 + v2 * 64;
    assert v2 * 64 == (v2 / 4) * 256 + (v2 % 4) * 64;
    assert l4 == (m * 16 + v2 / 4) * 256 + (v2 % 4) * 64 + v3;
    Mod8Bits(l4, m * 16 + v2 / 4, (v2 % 4) * 64 + v3);
    EmitLow(a4, 0);
  }

  // ---------------------------------------------------------------------
  // The data loop of append_pem_blob
  // ---------------------------------------------------------------------

  /** How the data loop ends: a stray byte, or a stop position with what it decoded. */
  datatype ScanEnd = BadChar | Stopped(at: nat, bitcount: int, out: seq<byte>)

  /**
   * The data loop from `p[i]` on, with `room` bytes of output allowed: the
   * loop test `*pem && dest < limit`.
   */
  function Scan(p: seq<byte>, i: nat, room: int, bitcount: int, acc: u32, out: seq<byte>): (r: ScanEnd)
    requires i <= |p|
    requires 0 <= bitcount < 8 && bitcount % 2 == 0
    decreases |p| - i, 1
  {
    if i == |p| || |out| >= room then Stopped(i, bitcount, out)
    else ScanByte(p, i, room, bitcount, acc, out)
  }

  /** The loop body on `p[i]`, then the rest of the loop. */
  function ScanByte(p: seq<byte>, i: nat, room: int, bitcount: int, acc: u32, out: seq<byte>): (r: ScanEnd)
    requires i < |p|
    requires 0 <= bitcount < 8 && bitcount % 2 == 0
    decreases |p| - i, 0
  {
    var c := p[i];
    var v := Unb64(c);
    if v >= 64 then
      if IsSpace(c) then Scan(p, i + 1, room, bitcount, acc, out)
      else if c == EQUALS then Scan(p, i + 1, room, 0, acc, out)
      else if c == DASH then Stopped(i, bitcount, out)
      else BadChar
    else
      var a := Push(acc, v);
      if bitcount + 6 >= 8 then Scan(p, i + 1, room, bitcount - 2, a, out + [Emit(a, bitcount - 2)])
      else Scan(p, i + 1, room, bitcount + 6, a, out)
  }

  /**
   * Where the data loop can stop: at the end of the string, with the buffer
   * full, or on a '-'.
   */
  lemma {:induction false} ScanStops(p: seq<byte>, i: nat, room: int, bitcount: int, acc: u32, out: seq<byte>)
    requires i <= |p|
    requires 0 <= bitcount < 8 && bitcount % 2 == 0
    ensures var r := Scan(p, i, room, bitcount, acc, out);
      r.Stopped? ==> i <= r.at <= |p| && (r.at == |p| || |r.out| >= room || p[r.at] == DASH)
    decreases |p| - i, 1
  {
    if i < |p| && |out| < room {
      ScanStopsByte(p, i, room, bitcount, acc, out);
    }
  }

  /** ScanStops, for one pass of the loop body. */
  lemma {:induction false} ScanStopsByte(p: seq<byte>, i: nat, room: int, bitcount: int, acc: u32, out: seq<byte>)
    requires i < |p|
    requires 0 <= bitcount < 8 && bitcount % 2 == 0
    ensures var r := ScanByte(p, i, room, bitcount, acc, out);
      r.Stopped? ==> i <= r.at <= |p| && (r.at == |p| || |r.out| >= room || p[r.at] == DASH)
    decreases |p| - i, 0
  {
    var c := p[i];
    var v := Unb64(c);
    if v >= 64 {
      if IsSpace(c) {
        ScanStops(p, i + 1, room, bitcount, acc, out);
      } else if c == EQUALS {
        ScanStops(p, i + 1, room, 0, acc, out);
      }
    } else {
      var a := Push(acc, v);
      if bitcount + 6 >= 8 {
        ScanStops(p, i + 1, room, bitcount - 2, a, out + [Emit(a, bitcount - 2)]);
      } else {
        ScanStops(p, i + 1, room, bitcount + 6, a, out);
      }
    }
  }

  /**
   * The data loop only appends to what it has decoded, and never beyond the
   * room.
   */
  lemma {:induction false} ScanGrows(p: seq<byte>, i: nat, room: int, bitcount: int, acc: u32, out: seq<byte>)
    requires i <= |p|
    requires 0 <= bitcount < 8 && bitcount % 2 == 0
    ensures var r := Scan(p, i, room, bitcount, acc, out);
      r.Stopped? ==> out <= r.out && (|r.out| == |out| || |r.out| <= room)
    decreases |p| - i, 1
  {
    if i < |p| && |out| < room {
      ScanGrowsByte(p, i, room, bitcount, acc, out);
    }
  }

  /** ScanGrows, for one pass of the loop body. */
  lemma {:induction false} ScanGrowsByte(p: seq<byte>, i: nat, room: int, bitcount: int, acc: u32, out: seq<byte>)
    requires i < |p| && |out| < room
    requires 0 <= bitcount < 8 && bitcount % 2 == 0
    ensures var r := ScanByte(p, i, room, bitcount, acc, out);
      r.Stopped? ==> out <= r.out && (|r.out| == |out| || |r.out| <= room)
    decreases |p| - i, 0
  {
    var c := p[i];
    var v := Unb64(c);
    if v >= 64 {
      if IsSpace(c) {
        ScanGrows(p, i + 1, room, bitcount, acc, out);
      } else if c == EQUALS {
        ScanGrows(p, i + 1, room, 0, acc, out);
      }
    } else {
      var a := Push(acc, v);
      if bitcount + 6 >= 8 {
        ScanGrows(p, i + 1, room, bitcount - 2, a, out + [Emit(a, bitcount - 2)]);
      } else {
        ScanGrows(p, i + 1, room, bitcount + 6, a, out);
      }
    }
  }

  /** The data loop keeps an even count of pending bits, below 8. */
  lemma {:induction false} ScanBits(p: seq<byte>, i: nat, room: int, bitcount: int, acc: u32, out: seq<byte>)
    requires i <= |p|
    requires 0 <= bitcount < 8 && bitcount % 2 == 0
    ensures var r := Scan(p, i, room, bitcount, acc, out);
      r.Stopped? ==> 0 <= r.bitcount < 8 && r.bitcount % 2 == 0
    decreases |p| - i, 1
  {
    if i < |p| && |out| < room {
      ScanBitsByte(p, i, room, bitcount, acc, out);
    }
  }

  /** ScanBits, for one pass of the loop body. */
  lemma {:induction false} ScanBitsByte(p: seq<byte>, i: nat, room: int, bitcount: int, acc: u32, out: seq<byte>)
    requires i < |p|
    requires 0 <= bitcount < 8 && bitcount % 2 == 0
    ensures var r := ScanByte(p, i, room, bitcount, acc, out);
      r.Stopped? ==> 0 <= r.bitcount < 8 && r.bitcount % 2 == 0
    decreases |p| - i, 0
  {
    var c := p[i];
    var v := Unb64(c);
    if v >= 64 {
      if IsSpace(c) {
        ScanBits(p, i + 1, room, bitcount, acc, out);
      } else if c == EQUALS {
        ScanBits(p, i + 1, room, 0, acc, out);
      }
    } else {
      var a := Push(acc, v);
      if bitcount + 6 >= 8 {
        ScanBits(p, i + 1, room, bitcount - 2, a, out + [Emit(a, bitcount - 2)]);
      } else {
        ScanBits(p, i + 1, room, bitcount + 6, a, out);
      }
    }
  }

  // ---------------------------------------------------------------------
  // Records
  // ---------------------------------------------------------------------

  /** A record name that fits its field: a C string shorter than 32 bytes. */
  predicate ValidName(name: seq<byte>)
  {
    |name| < NAME_FIELD && NUL !in name
  }

  /** `n` NUL bytes: the `memset` of the unused end of the name field. */
  function Zeros(n: nat): (z: seq<byte>)
    ensures |z| == n
  {
    if n == 0 then [] else [NUL] + Zeros(n - 1)
  }

  /**
   * The 34-byte record header: the name, NUL-padded to 32 bytes, then the
   * data length least significant byte first (`len & 0xff`, `(len >> 8) & 0xff`).
   */
  function RecordHeader(name: seq<byte>, len: nat): (h: seq<byte>)
    requires ValidName(name)
    ensures |h| == HEADER_LEN
  {
    name + Zeros(NAME_FIELD - |name|) + [len % 0x100, (len / 0x100) % 0x100]
  }

  /** A header gives back its name (read as a C string) and a length below 65536. */
  lemma RecordHeaderRoundTrip(name: seq<byte>, len: nat)
    requires ValidName(name) && len < 0x1_0000
    ensures CString(RecordHeader(name, len)[..NAME_FIELD]) == name
    ensures RecordHeader(name, len)[32] as int + 0x100 * RecordHeader(name, len)[33] as int == len
  {
    var h := RecordHeader(name, len);
    var pad := Zeros(NAME_FIELD - |name|);
    assert h[..NAME_FIELD] == name + pad;
    CStringOfTerminated(name, pad);
  }

  datatype PemOutcome = PemError(fault: Fault) | PemRecord(bytes: seq<byte>)

  /**
   * What `append_pem_blob` makes of the PEM text `pem` (None for a NULL
   * pointer) when `room` bytes remain between `*buffer_p` and `buffer_limit`:
   * the error message, or the record it stores.  The checks come in the C
   * order.
   */
  function ParsePem(pem: Option<seq<byte>>, typ: seq<byte>, name: seq<byte>, room: int): (r: PemOutcome)
    requires ValidName(name)
    ensures r.PemRecord? ==> HEADER_LEN <= |r.bytes| < room
  {
    if pem.None? then PemError(NoBlob)
    else
      var p := CString(pem.value);
      match Find(p, BEGIN, 0)
      case None => PemError(NoHeader)
      case Some(h) =>
        if !At(p, h + |BEGIN|, typ) then PemError(WrongType)
        else
          match Find(p, [NEWLINE], h)
          case None => PemError(NoNewline)
          case Some(nl) => ParseData(p, typ, name, room, Scan(p, nl, room - HEADER_LEN, 0, 0, []))
  }

  /** The checks after the data loop, given how the loop ended. */
  function ParseData(p: seq<byte>, typ: seq<byte>, name: seq<byte>, room: int, scan: ScanEnd): (r: PemOutcome)
    requires ValidName(name)
    ensures r.PemRecord? ==> HEADER_LEN <= |r.bytes| < room
  {
    match scan
    case BadChar => PemError(InvalidChar)
    case Stopped(i, bitcount, out) =>
      if |out| >= room - HEADER_LEN || !At(p, i, END) || !At(p, i + |END|, typ) || bitcount != 0 then
        PemError(InvalidData)
      else
        PemRecord(RecordHeader(name, |out|) + out)
  }

  /**
   * The data loop of `append_pem_blob`, reading the C string `p` from `from`
   * with the decoding table `table` and writing through `dest` from `first`
   * up to `limit`.  Returns whether a stray byte ended it, and otherwise
   * where it stopped, the pending bit count and the final `dest`.
   */
  method DecodeData(p: seq<byte>, from: nat, table: array<int>, buf: array<byte>, first: nat, limit: nat)
    returns (bad: bool, i: nat, bitcount: int, dest: nat)
    requires from <= |p| && first <= limit <= buf.Length
    requires table.Length == 0x100 && forall c :: 0 <= c < 0x100 ==> table[c] == Unb64(c)
    modifies buf
    ensures bad <==> Scan(p, from, limit - first, 0, 0, []) == BadChar
    ensures first <= dest <= limit
    ensures !bad ==> Scan(p, from, limit - first, 0, 0, []) == Stopped(i, bitcount, buf[first..dest])
    ensures forall k :: 0 <= k < buf.Length && !(first <= k < dest) ==> buf[k] == old(buf[k])
  {
    ghost var room := limit - first;
    ghost var out: seq<byte> := [];
    i := from;
    dest := first;
    bitcount := 0;
    var acc: u32 := 0;
    while i < |p| && dest < limit
      invariant from <= i <= |p|
      invariant 0 <= bitcount < 8 && bitcount % 2 == 0
      invariant dest == first + |out| && dest <= limit
      invariant forall k :: 0 <= k < |out| ==> buf[first + k] == out[k]
      invariant forall k :: 0 <= k < buf.Length && !(first <= k < dest) ==> buf[k] == old(buf[k])
      invariant Scan(p, i, room, bitcount, acc, out) == Scan(p, from, room, 0, 0, [])
      decreases |p| - i
    {
      var c := p[i];
      var v := table[c];
      if v >= 64 {
        if IsSpace(c) {
          i := i + 1;
        } else if c == EQUALS {
          bitcount := 0;
          i := i + 1;
        } else if c == DASH {
          break;
        } else {
          return true, i, bitcount, dest;
        }
      } else {
        bitcount := bitcount + 6;
        acc := Push(acc, v);
        if bitcount >= 8 {
          bitcount := bitcount - 8;
          buf[dest] := Emit(acc, bitcount);
          out := out + [Emit(acc, bitcount)];
          dest := dest + 1;
        }
        i := i + 1;
      }
    }
    assert buf[first..dest] == out;
    bad := false;
  }

  /**
   * `append_pem_blob(pem, typ, &buffer, buf + limit, name)` with `*buffer_p`
   * at `buf + start`.  Returns the error message, or None and the advanced
   * pointer.  On an error the pointer stays at `start`, but the data area
   * between `start + 34` and `limit` may already have been written.
   */
  method AppendPemBlob(pem: Option<seq<byte>>, typ: seq<byte>, buf: array<byte>, start: nat, limit: nat, name: seq<byte>)
    returns (err: Option<Fault>, next: nat)
    requires start <= limit <= buf.Length
    requires ValidName(name)
    modifies buf
    ensures ParsePem(pem, typ, name, limit - start).PemError? ==>
      err == Some(ParsePem(pem, typ, name, limit - start).fault) && next == start
    ensures ParsePem(pem, typ, name, limit - start).PemRecord? ==>
      err == None && next == start + |ParsePem(pem, typ, name, limit - start).bytes| &&
      buf[start..next] == ParsePem(pem, typ, name, limit - start).bytes
    ensures forall k :: 0 <= k < buf.Length && !(start + HEADER_LEN <= k < limit) && !(err == None && start <= k < next) ==>
      buf[k] == old(buf[k])
    ensures err == None ==> forall k :: next <= k < buf.Length ==> buf[k] == old(buf[k])
  {
    var table := BuildTable();
    ghost var r := ParsePem(pem, typ, name, limit - start);
    if pem.None? {
      return Some(NoBlob), start;
    }
    var p := CString(pem.value);
    var begin := Find(p, BEGIN, 0);
    if begin.None? {
      assert r == PemError(NoHeader);
      return Some(NoHeader), start;
    }
    if !At(p, begin.value + |BEGIN|, typ) {
      assert r == PemError(WrongType);
      return Some(WrongType), start;
    }
    var nl := Find(p, [NEWLINE], begin.value);
    if nl.None? {
      assert r == PemError(NoNewline);
      return Some(NoNewline), start;
    }
    ghost var scan := Scan(p, nl.value, limit - start - HEADER_LEN, 0, 0, []);
    assert r == ParseData(p, typ, name, limit - start, scan);
    var first := start + HEADER_LEN;
    if limit < first {
      // No room even for the header: the loop does not run and `dest >= buffer_limit`.
      assert scan == Stopped(nl.value, 0, []);
      return Some(InvalidData), start;
    }
    err, next := DecodeAndStore(p, nl.value, typ, table, buf, start, limit, name);
  }

  /**
   * The rest of `append_pem_blob` once the BEGIN line is read: the data
   * loop from the line break, the checks after it, and the header.
   */
  method DecodeAndStore(p: seq<byte>, nl: nat, typ: seq<byte>, table: array<int>, buf: array<byte>,
                        start: nat, limit: nat, name: seq<byte>)
    returns (err: Option<Fault>, next: nat)
    requires nl <= |p| && start + HEADER_LEN <= limit <= buf.Length && ValidName(name)
    requires table.Length == 0x100 && forall c :: 0 <= c < 0x100 ==> table[c] == Unb64(c)
    modifies buf
    ensures var r := ParseData(p, typ, name, limit - start, Scan(p, nl, limit - start - HEADER_LEN, 0, 0, []));
      && (r.PemError? ==> err == Some(r.fault) && next == start)
      && (r.PemRecord? ==> err == None && next == start + |r.bytes| && buf[start..next] == r.bytes)
    ensures forall k :: 0 <= k < buf.Length && !(start + HEADER_LEN <= k < limit) && !(err == None && start <= k < next) ==>
      buf[k] == old(buf[k])
    ensures err == None ==> forall k :: next <= k < buf.Length ==> buf[k] == old(buf[k])
  {
    var bad, i, bitcount, dest := DecodeData(p, nl, table, buf, start + HEADER_LEN, limit);
    if bad {
      return Some(InvalidChar), start;
    }
    if dest >= limit || !At(p, i, END) || !At(p, i + |END|, typ) || bitcount != 0 {
      return Some(InvalidData), start;
    }
    StoreHeader(buf, start, dest, name);
    return None, dest;
  }

  /**
   * The success path of `append_pem_blob`: clear the name field, copy the
   * name and store the data length in front of the data already decoded.
   */
  method StoreHeader(buf: array<byte>, start: nat, dest: nat, name: seq<byte>)
    requires start + HEADER_LEN <= dest <= buf.Length && ValidName(name)
    modifies buf
    ensures buf[start..dest] == RecordHeader(name, dest - start - HEADER_LEN) + old(buf[start + HEADER_LEN..dest])
    ensures forall k :: 0 <= k < buf.Length && !(start <= k < start + HEADER_LEN) ==> buf[k] == old(buf[k])
  {
    var header := RecordHeader(name, dest - start - HEADER_LEN);
    forall k | start <= k < start + HEADER_LEN {
      buf[k] := header[k - start];
    }
    assert buf[start..dest] == header + old(buf[start + HEADER_LEN..dest]);
  }

  // ---------------------------------------------------------------------
  // The encoder the decoder is proved against
  // ---------------------------------------------------------------------

  /** The four characters that carry three bytes. */
  function Quad(d0: byte, d1: byte, d2: byte): seq<byte>
  {
    [Sextet(d0 / 4), Sextet((d0 % 4) * 16 + d1 / 16), Sextet((d1 % 16) * 4 + d2 / 64), Sextet(d2 % 64)]
  }

  /** Base64 encoding with '=' padding (section 4 of RFC 4648). */
  function Encode(data: seq<byte>): (e: seq<byte>)
    ensures |e| == 4 * ((|data| + 2) / 3)
    decreases |data|, 1
  {
    if |data| < 3 then LastGroup(data) else Groups(data)
  }

  /** Three bytes or more: their first group, then the encoding of the rest. */
  function Groups(data: seq<byte>): (e: seq<byte>)
    requires |data| >= 3
    ensures |e| == 4 * ((|data| + 2) / 3)
    decreases |data|, 0
  {
    Quad(data[0], data[1], data[2]) + Encode(data[3..])
  }

  /** The padded final group of fewer than three bytes. */
  function LastGroup(data: seq<byte>): (e: seq<byte>)
    requires |data| < 3
    ensures |e| == 4 * ((|data| + 2) / 3)
  {
    if |data| == 0 then []
    else if |data| == 1 then
      [Sextet(data[0] / 4), Sextet((data[0] % 4) * 16), EQUALS, EQUALS]
    else
      [Sextet(data[0] / 4), Sextet((data[0] % 4) * 16 + data[1] / 16), Sextet((data[1] % 16) * 4), EQUALS]
  }

  /** An encoding holds no NUL, no line break and no '-'. */
  lemma {:induction false} EncodePlain(data: seq<byte>)
    ensures NUL !in Encode(data) && NEWLINE !in Encode(data) && DASH !in Encode(data)
    decreases |data|
  {
    var e := Encode(data);
    if |data| >= 1 {
      SextetDecodes(data[0] / 4);
    }
    if |data| == 1 {
      SextetDecodes((data[0] % 4) * 16);
    } else if |data| == 2 {
      SextetDecodes((data[0] % 4) * 16 + data[1] / 16);
      SextetDecodes((data[1] % 16) * 4);
    } else if |data| >= 3 {
      SextetDecodes((data[0] % 4) * 16 + data[1] / 16);
      SextetDecodes((data[1] % 16) * 4 + data[2] / 64);
      SextetDecodes(data[2] % 64);
      EncodePlain(data[3..]);
      assert e == Quad(data[0], data[1], data[2]) + Encode(data[3..]);
    }
  }

  /** An alphabet character read by the data loop with room to spare. */
  lemma ScanSextet(p: seq<byte>, i: nat, room: int, bitcount: int, acc: u32, out: seq<byte>, v: int)
    requires i < |p| && 0 <= v < 64 && p[i] == Sextet(v) && |out| < room
    requires 0 <= bitcount < 8 && bitcount % 2 == 0
    ensures bitcount + 6 >= 8 ==>
      (Scan(p, i, room, bitcount, acc, out) ==
       Scan(p, i + 1, room, bitcount - 2, Push(acc, v), out + [Emit(Push(acc, v), bitcount - 2)]))
    ensures bitcount + 6 < 8 ==>
      (Scan(p, i, room, bitcount, acc, out) == Scan(p, i + 1, room, bitcount + 6, Push(acc, v), out))
  {
    SextetDecodes(v);
  }

  /** A padding character read by the data loop with room to spare. */
  lemma ScanPad(p: seq<byte>, i: nat, room: int, bitcount: int, acc: u32, out: seq<byte>)
    requires i < |p| && p[i] == EQUALS && |out| < room
    requires 0 <= bitcount < 8 && bitcount % 2 == 0
    ensures Scan(p, i, room, bitcount, acc, out) == Scan(p, i + 1, room, 0, acc, out)
  {
  }

  /** The first two characters of a group leave the first byte decoded and 4 bits pending. */
  lemma ScanPair(p: seq<byte>, i: nat, room: int, acc: u32, out: seq<byte>, v0: int, v1: int, b: byte)
    requires i + 2 <= |p| && |out| < room
    requires 0 <= v0 < 64 && 0 <= v1 < 64 && p[i] == Sextet(v0) && p[i + 1] == Sextet(v1)
    requires b == v0 * 4 + v1 / 16
    ensures Scan(p, i, room, 0, acc, out) == Scan(p, i + 2, room, 4, Push(Push(acc, v0), v1), out + [b])
  {
    ScanSextet(p, i, room, 0, acc, out, v0);
    ScanSextet(p, i + 1, room, 6, Push(acc, v0), out, v1);
    GroupByte0(acc, v0, v1);
  }

  /** The third character of a group decodes the second byte, leaving 2 bits pending. */
  lemma ScanThird(p: seq<byte>, i: nat, room: int, a1: u32, v1: int, out: seq<byte>, v2: int, b: byte)
    requires i < |p| && |out| < room
    requires 0 <= v1 < 64 && 0 <= v2 < 64 && p[i] == Sextet(v2)
    requires b == (v1 % 16) * 16 + v2 / 4
    ensures Scan(p, i, room, 4, Push(a1, v1), out) == Scan(p, i + 1, room, 2, Push(Push(a1, v1), v2), out + [b])
  {
    ScanSextet(p, i, room, 4, Push(a1, v1), out, v2);
    GroupByte1(a1, v1, v2);
  }

  /** The fourth character of a group decodes the third byte, leaving no bits pending. */
  lemma ScanFourth(p: seq<byte>, i: nat, room: int, a2: u32, v2: int, out: seq<byte>, v3: int, b: byte)
    requires i < |p| && |out| < room
    requires 0 <= v2 < 64 && 0 <= v3 < 64 && p[i] == Sextet(v3)
    requires b == (v2 % 4) * 64 + v3
    ensures Scan(p, i, room, 2, Push(a2, v2), out) == Scan(p, i + 1, room, 0, Push(Push(a2, v2), v3), out + [b])
  {
    ScanSextet(p, i, room, 2, Push(a2, v2), out, v3);
    GroupByte2(a2, v2, v3);
  }

  /** The accumulator after a full group. */
  function QuadAcc(acc: u32, d0: byte, d1: byte, d2: byte): u32
  {
    Push(Push(Push(Push(acc, d0 / 4), (d0 % 4) * 16 + d1 / 16), (d1 % 16) * 4 + d2 / 64), d2 % 64)
  }

  /** The first byte of a group, put back together from its sextets. */
  lemma FirstByte(d0: byte, d1: byte)
    ensures (d0 / 4) * 4 + ((d0 % 4) * 16 + d1 / 16) / 16 == d0
  {
    DivBy((d0 % 4) * 16 + d1 / 16, 16, d0 % 4, d1 / 16);
  }

  /** The second byte of a group, put back together from its sextets. */
  lemma SecondByte(d0: byte, d1: byte, d2: byte)
    ensures (((d0 % 4) * 16 + d1 / 16) % 16) * 16 + ((d1 % 16) * 4 + d2 / 64) / 4 == d1
  {
    Mod4Bits((d0 % 4) * 16 + d1 / 16, d0 % 4, d1 / 16);
    DivBy((d1 % 16) * 4 + d2 / 64, 4, d1 % 16, d2 / 64);
  }

  /** The third byte of a group, put back together from its sextets. */
  lemma ThirdByte(d1: byte, d2: byte)
    ensures (((d1 % 16) * 4 + d2 / 64) % 4) * 64 + d2 % 64 == d2
  {
    DivBy((d1 % 16) * 4 + d2 / 64, 4, d1 % 16, d2 / 64);
    assert ((d1 % 16) * 4 + d2 / 64) % 4 == d2 / 64;
  }

  /** The first two characters of a group give back its first byte. */
  lemma GroupFirst(p: seq<byte>, i: nat, room: int, acc: u32, out: seq<byte>, d0: byte, d1: byte)
    requires i + 2 <= |p| && |out| < room
    requires p[i] == Sextet(d0 / 4) && p[i + 1] == Sextet((d0 % 4) * 16 + d1 / 16)
    ensures Scan(p, i, room, 0, acc, out) ==
      Scan(p, i + 2, room, 4, Push(Push(acc, d0 / 4), (d0 % 4) * 16 + d1 / 16), out + [d0])
  {
    FirstByte(d0, d1);
    ScanPair(p, i, room, acc, out, d0 / 4, (d0 % 4) * 16 + d1 / 16, d0);
  }

  /** The third character of a group gives back its second byte. */
  lemma GroupSecond(p: seq<byte>, i: nat, room: int, a1: u32, out: seq<byte>, d0: byte, d1: byte, d2: byte)
    requires i < |p| && |out| < room
    requires p[i] == Sextet((d1 % 16) * 4 + d2 / 64)
    ensures Scan(p, i, room, 4, Push(a1, (d0 % 4) * 16 + d1 / 16), out) ==
      Scan(p, i + 1, room, 2, Push(Push(a1, (d0 % 4) * 16 + d1 / 16), (d1 % 16) * 4 + d2 / 64), out + [d1])
  {
    SecondByte(d0, d1, d2);
    ScanThird(p, i, room, a1, (d0 % 4) * 16 + d1 / 16, out, (d1 % 16) * 4 + d2 / 64, d1);
  }

  /** The fourth character of a group gives back its third byte. */
  lemma GroupThird(p: seq<byte>, i: nat, room: int, a2: u32, out: seq<byte>, d1: byte, d2: byte)
    requires i < |p| && |out| < room
    requires p[i] == Sextet(d2 % 64)
    ensures Scan(p, i, room, 2, Push(a2, (d1 % 16) * 4 + d2 / 64), out) ==
      Scan(p, i + 1, room, 0, Push(Push(a2, (d1 % 16) * 4 + d2 / 64), d2 % 64), out + [d2])
  {
    ThirdByte(d1, d2);
    ScanFourth(p, i, room, a2, (d1 % 16) * 4 + d2 / 64, out, d2 % 64, d2);
  }

  /** One full group of four characters decodes to its three bytes. */
  lemma ScanQuad(p: seq<byte>, i: nat, room: int, acc: u32, out: seq<byte>, d0: byte, d1: byte, d2: byte)
    requires i + 4 <= |p| && |out| + 3 < room
    requires p[i] == Sextet(d0 / 4) && p[i + 1] == Sextet((d0 % 4) * 16 + d1 / 16)
    requires p[i + 2] == Sextet((d1 % 16) * 4 + d2 / 64) && p[i + 3] == Sextet(d2 % 64)
    ensures Scan(p, i, room, 0, acc, out) == Scan(p, i + 4, room, 0, QuadAcc(acc, d0, d1, d2), out + [d0, d1, d2])
  {
    var a1 := Push(acc, d0 / 4);
    var a2 := Push(a1, (d0 % 4) * 16 + d1 / 16);
    GroupFirst(p, i, room, acc, out, d0, d1);
    GroupSecond(p, i + 2, room, a1, out + [d0], d0, d1, d2);
    GroupThird(p, i + 3, room, a2, out + [d0] + [d1], d1, d2);
    assert out + [d0] + [d1] + [d2] == out + [d0, d1, d2];
  }

  /** A line break and a '-' end the data loop where it stands. */
  lemma ScanTail(p: seq<byte>, i: nat, room: int, acc: u32, out: seq<byte>)
    requires i + 1 < |p| && p[i] == NEWLINE && p[i + 1] == DASH && |out| < room
    ensures Scan(p, i, room, 0, acc, out) == Stopped(i + 1, 0, out)
  {
    assert Scan(p, i, room, 0, acc, out) == Scan(p, i + 1, room, 0, acc, out);
  }

  /** A final group holding one byte: two characters and two '='. */
  lemma ScanLast1(p: seq<byte>, i: nat, room: int, acc: u32, out: seq<byte>, d0: byte)
    requires i + 6 <= |p| && |out| + 1 < room
    requires p[i] == Sextet(d0 / 4) && p[i + 1] == Sextet((d0 % 4) * 16) && p[i + 2] == EQUALS && p[i + 3] == EQUALS
    requires p[i + 4] == NEWLINE && p[i + 5] == DASH
    ensures Scan(p, i, room, 0, acc, out) == Stopped(i + 5, 0, out + [d0])
  {
    var a2 := Push(Push(acc, d0 / 4), (d0 % 4) * 16);
    GroupFirst(p, i, room, acc, out, d0, 0);
    ScanPad(p, i + 2, room, 4, a2, out + [d0]);
    ScanPad(p, i + 3, room, 0, a2, out + [d0]);
    ScanTail(p, i + 4, room, a2, out + [d0]);
  }

  /** A final group holding two bytes: three characters and one '='. */
  lemma ScanLast2(p: seq<byte>, i: nat, room: int, acc: u32, out: seq<byte>, d0: byte, d1: byte)
    requires i + 6 <= |p| && |out| + 2 < room
    requires p[i] == Sextet(d0 / 4) && p[i + 1] == Sextet((d0 % 4) * 16 + d1 / 16)
    requires p[i + 2] == Sextet((d1 % 16) * 4) && p[i + 3] == EQUALS
    requires p[i + 4] == NEWLINE && p[i + 5] == DASH
    ensures Scan(p, i, room, 0, acc, out) == Stopped(i + 5, 0, out + [d0, d1])
  {
    var a1 := Push(acc, d0 / 4);
    var a3 := Push(Push(a1, (d0 % 4) * 16 + d1 / 16), (d1 % 16) * 4);
    GroupFirst(p, i, room, acc, out, d0, d1);
    GroupSecond(p, i + 2, room, a1, out + [d0], d0, d1, 0);
    assert out + [d0] + [d1] == out + [d0, d1];
    ScanPad(p, i + 3, room, 2, a3, out + [d0, d1]);
    ScanTail(p, i + 4, room, a3, out + [d0, d1]);
  }

  /** The data loop on the encoding of one byte. */
  lemma ScanOne(p: seq<byte>, i: nat, room: int, acc: u32, out: seq<byte>, data: seq<byte>)
    requires |data| == 1 && i + 5 < |p|
    requires p[i..i + 4] == Encode(data)
    requires p[i + 4] == NEWLINE && p[i + 5] == DASH
    requires |out| + 1 < room
    ensures Scan(p, i, room, 0, acc, out) == Stopped(i + 5, 0, out + data)
  {
    var e := Encode(data);
    assert p[i] == e[0] && p[i + 1] == e[1] && p[i + 2] == e[2] && p[i + 3] == e[3];
    ScanLast1(p, i, room, acc, out, data[0]);
    assert [data[0]] == data;
  }

  /** The data loop on the encoding of two bytes. */
  lemma ScanTwo(p: seq<byte>, i: nat, room: int, acc: u32, out: seq<byte>, data: seq<byte>)
    requires |data| == 2 && i + 5 < |p|
    requires p[i..i + 4] == Encode(data)
    requires p[i + 4] == NEWLINE && p[i + 5] == DASH
    requires |out| + 2 < room
    ensures Scan(p, i, room, 0, acc, out) == Stopped(i + 5, 0, out + data)
  {
    var e := Encode(data);
    assert p[i] == e[0] && p[i + 1] == e[1] && p[i + 2] == e[2] && p[i + 3] == e[3];
    ScanLast2(p, i, room, acc, out, data[0], data[1]);
    assert [data[0], data[1]] == data;
  }

  /** A full group put back in front of the rest of the data. */
  lemma GroupConcat(out: seq<byte>, data: seq<byte>)
    requires |data| >= 3
    ensures out + [data[0], data[1], data[2]] + data[3..] == out + data
  {
    assert data == [data[0], data[1], data[2]] + data[3..];
  }

  /** An encoding of three bytes or more starts with their group. */
  lemma EncodedGroup(p: seq<byte>, i: nat, data: seq<byte>)
    requires |data| >= 3 && i + |Encode(data)| <= |p|
    requires p[i..i + |Encode(data)|] == Encode(data)
    ensures p[i] == Sextet(data[0] / 4) && p[i + 1] == Sextet((data[0] % 4) * 16 + data[1] / 16)
    ensures p[i + 2] == Sextet((data[1] % 16) * 4 + data[2] / 64) && p[i + 3] == Sextet(data[2] % 64)
    ensures |Encode(data)| == 4 + |Encode(data[3..])|
    ensures p[i + 4..i + 4 + |Encode(data[3..])|] == Encode(data[3..])
  {
    var q := Quad(data[0], data[1], data[2]);
    assert Encode(data) == q + Encode(data[3..]);
    FourThen(p, i, q, Encode(data[3..]));
  }

  /** Text holding four characters and then `r` at `p[i]`, read character by character. */
  lemma FourThen(p: seq<byte>, i: nat, q: seq<byte>, r: seq<byte>)
    requires |q| == 4 && i + 4 + |r| <= |p| && p[i..i + 4 + |r|] == q + r
    ensures p[i] == q[0] && p[i + 1] == q[1] && p[i + 2] == q[2] && p[i + 3] == q[3]
    ensures p[i + 4..i + 4 + |r|] == r
  {
    assert p[i..i + 4 + |r|][4..] == p[i + 4..i + 4 + |r|];
    assert (q + r)[4..] == r;
  }

  /**
   * The data loop reads an encoding followed by a line break and the END
   * marker: it stops at the marker with no bits pending, having decoded
   * exactly the data.
   */
  lemma {:induction false} ScanEncoded(p: seq<byte>, i: nat, room: int, acc: u32, out: seq<byte>, data: seq<byte>)
    requires i + |Encode(data)| + 1 < |p|
    requires p[i..i + |Encode(data)|] == Encode(data)
    requires p[i + |Encode(data)|] == NEWLINE && p[i + |Encode(data)| + 1] == DASH
    requires |out| + |data| < room
    ensures Scan(p, i, room, 0, acc, out) == Stopped(i + |Encode(data)| + 1, 0, out + data)
    decreases |data|
  {
    var e := Encode(data);
    if |data| == 0 {
      ScanTail(p, i, room, acc, out);
    } else if |data| == 1 {
      ScanOne(p, i, room, acc, out, data);
    } else if |data| == 2 {
      ScanTwo(p, i, room, acc, out, data);
    } else {
      EncodedGroup(p, i, data);
      ScanEncoded(p, i + 4, room, QuadAcc(acc, data[0], data[1], data[2]), out + data[..3], data[3..]);
      ScanGroupThen(p, i, room, acc, out, data);
    }
  }

  /**
   * A whole group at `p[i]` decodes to the first three bytes of `data`, and
   * the loop goes on after it.
   */
  lemma ScanGroupThen(p: seq<byte>, i: nat, room: int, acc: u32, out: seq<byte>, data: seq<byte>)
    requires |data| >= 3 && i + 4 <= |p| && |out| + 3 < room
    requires p[i] == Sextet(data[0] / 4) && p[i + 1] == Sextet((data[0] % 4) * 16 + data[1] / 16)
    requires p[i + 2] == Sextet((data[1] % 16) * 4 + data[2] / 64) && p[i + 3] == Sextet(data[2] % 64)
    ensures Scan(p, i, room, 0, acc, out) ==
      Scan(p, i + 4, room, 0, QuadAcc(acc, data[0], data[1], data[2]), out + data[..3])
    ensures out + data[..3] + data[3..] == out + data
  {
    ScanQuad(p, i, room, acc, out, data[0], data[1], data[2]);
    assert data[..3] == [data[0], data[1], data[2]];
    GroupConcat(out, data);
  }

  /** The BEGIN line of a PEM block, without its line break. */
  function BeginLine(typ: seq<byte>): seq<byte>
  {
    BEGIN + typ + DASHES
  }

  /** The END line of a PEM block. */
  function EndLine(typ: seq<byte>): seq<byte>
  {
    END + typ + DASHES + [NEWLINE]
  }

  /** A PEM block of type `typ` around the text `e`. */
  function Framed(typ: seq<byte>, e: seq<byte>): seq<byte>
  {
    BeginLine(typ) + [NEWLINE] + e + [NEWLINE] + EndLine(typ)
  }

  /** A PEM block of type `typ` around the encoding of `data`. */
  function Armor(typ: seq<byte>, data: seq<byte>): seq<byte>
  {
    Framed(typ, Encode(data))
  }

  /** The framing lines hold no NUL, and the BEGIN line no line break. */
  lemma FramePlain(typ: seq<byte>)
    requires NUL !in typ && NEWLINE !in typ
    ensures NUL !in BeginLine(typ) && NEWLINE !in BeginLine(typ) && NUL !in EndLine(typ)
    ensures At(BeginLine(typ), 0, BEGIN) && At(BeginLine(typ), |BEGIN|, typ)
    ensures EndLine(typ)[0] == DASH && At(EndLine(typ), 0, END) && At(EndLine(typ), |END|, typ)
  {
    var h, t := BeginLine(typ), EndLine(typ);
    assert h[..|BEGIN|] == BEGIN;
    assert h[|BEGIN|..|BEGIN| + |typ|] == typ;
    assert t[..|END|] == END;
    assert t[|END|..|END| + |typ|] == typ;
  }

  /** A match inside `a` is a match inside `a + b`. */
  lemma AtLeft(a: seq<byte>, b: seq<byte>, i: nat, pat: seq<byte>)
    requires At(a, i, pat)
    ensures At(a + b, i, pat)
  {
    assert (a + b)[i..i + |pat|] == a[i..i + |pat|];
  }

  /** A match inside `b` is a match inside `a + b`, shifted by `|a|`. */
  lemma AtRight(a: seq<byte>, b: seq<byte>, i: nat, pat: seq<byte>)
    requires At(b, i, pat)
    ensures At(a + b, |a| + i, pat)
  {
    assert (a + b)[|a| + i..|a| + i + |pat|] == b[i..i + |pat|];
  }

  /** Where the line breaks of a block `head`, break, `e`, break, `tail` lie. */
  lemma Lines(head: seq<byte>, e: seq<byte>, tail: seq<byte>)
    requires NEWLINE !in head
    ensures var p, nl := head + [NEWLINE] + e + [NEWLINE] + tail, |head|;
      && (forall j :: 0 <= j < nl ==> !At(p, j, [NEWLINE])) && At(p, nl, [NEWLINE])
      && p[nl] == NEWLINE && p[nl + 1..nl + 1 + |e|] == e && p[nl + 1 + |e|] == NEWLINE
  {
    var p, nl := head + [NEWLINE] + e + [NEWLINE] + tail, |head|;
    forall j | 0 <= j < nl
      ensures !At(p, j, [NEWLINE])
    {
      assert p[j..j + 1] == [head[j]];
    }
    assert p[nl..nl + 1] == [NEWLINE];
    assert p[nl + 1..nl + 1 + |e|] == e;
  }

  /** The first BEGIN marker of a block opens it, followed by the block's type. */
  lemma FramedBegin(typ: seq<byte>, e: seq<byte>)
    requires NUL !in typ && NEWLINE !in typ
    ensures Find(Framed(typ, e), BEGIN, 0) == Some(0) && At(Framed(typ, e), |BEGIN|, typ)
  {
    FramePlain(typ);
    var rest := [NEWLINE] + e + [NEWLINE] + EndLine(typ);
    assert Framed(typ, e) == BeginLine(typ) + rest;
    HeaderFirst(BeginLine(typ), rest, typ);
  }

  /** The first line break of a block ends its BEGIN line. */
  lemma FramedBreak(typ: seq<byte>, e: seq<byte>)
    requires NUL !in typ && NEWLINE !in typ
    ensures Find(Framed(typ, e), [NEWLINE], 0) == Some(|BeginLine(typ)|)
  {
    FramePlain(typ);
    Lines(BeginLine(typ), e, EndLine(typ));
    FindFirst(Framed(typ, e), [NEWLINE], 0, |BeginLine(typ)|);
  }

  /** A block holds no NUL, so it is its own C string. */
  lemma FramedText(typ: seq<byte>, e: seq<byte>)
    requires NUL !in typ && NEWLINE !in typ && NUL !in e
    ensures CString(Framed(typ, e)) == Framed(typ, e)
  {
    FramePlain(typ);
    CStringOfPlain(Framed(typ, e));
  }

  /** A text that starts with the BEGIN marker and a type has its first BEGIN at 0. */
  lemma HeaderFirst(head: seq<byte>, rest: seq<byte>, typ: seq<byte>)
    requires At(head, 0, BEGIN) && At(head, |BEGIN|, typ)
    ensures Find(head + rest, BEGIN, 0) == Some(0) && At(head + rest, |BEGIN|, typ)
  {
    AtLeft(head, rest, 0, BEGIN);
    AtLeft(head, rest, |BEGIN|, typ);
    FindFirst(head + rest, BEGIN, 0, 0);
  }

  /** After the first line break: `e`, a line break, and the END line. */
  lemma FramedTail(typ: seq<byte>, e: seq<byte>)
    requires NUL !in typ && NEWLINE !in typ
    ensures var p, nl := Framed(typ, e), |BeginLine(typ)|;
      && nl + 1 + |e| + 1 < |p| && p[nl] == NEWLINE
      && p[nl + 1..nl + 1 + |e|] == e && p[nl + 1 + |e|] == NEWLINE && p[nl + 1 + |e| + 1] == DASH
      && At(p, nl + 1 + |e| + 1, END) && At(p, nl + 1 + |e| + 1 + |END|, typ)
  {
    var head, tail := BeginLine(typ), EndLine(typ);
    var front := head + [NEWLINE] + e + [NEWLINE];
    FramePlain(typ);
    Lines(head, e, tail);
    AtRight(front, tail, 0, END);
    AtRight(front, tail, |END|, typ);
  }

  /** The order of checks in `ParsePem`, on a text whose every check passes. */
  lemma ParsePemAccepts(x: seq<byte>, typ: seq<byte>, name: seq<byte>, room: int, h: nat, nl: nat, stop: nat, out: seq<byte>)
    requires ValidName(name) && CString(x) == x
    requires Find(x, BEGIN, 0) == Some(h) && At(x, h + |BEGIN|, typ)
    requires Find(x, [NEWLINE], h) == Some(nl)
    requires Scan(x, nl, room - HEADER_LEN, 0, 0, []) == Stopped(stop, 0, out)
    requires |out| < room - HEADER_LEN && At(x, stop, END) && At(x, stop + |END|, typ)
    ensures ParsePem(Some(x), typ, name, room) == PemRecord(RecordHeader(name, |out|) + out)
  {
  }

  /** The first occurrence is the one with none before it. */
  /**
   * What `strstr` and `strchr` promise: the position found is the first
   * occurrence at or after `from`, and NULL comes back exactly when there
   * is none.
   */
  lemma {:induction false} FindIsFirst(p: seq<byte>, pat: seq<byte>, from: nat)
    requires from <= |p|
    ensures Find(p, pat, from).Some? ==> forall j :: from <= j < Find(p, pat, from).value ==> !At(p, j, pat)
    ensures Find(p, pat, from).None? <==> forall j :: from <= j <= |p| ==> !At(p, j, pat)
    decreases |p| - from
  {
    if !At(p, from, pat) && from < |p| {
      FindIsFirst(p, pat, from + 1);
    }
  }

  lemma FindFirst(p: seq<byte>, pat: seq<byte>, from: nat, k: nat)
    requires from <= k <= |p| && At(p, k, pat)
    requires forall j :: from <= j < k ==> !At(p, j, pat)
    ensures Find(p, pat, from) == Some(k)
    decreases k - from
  {
    if from < k {
      FindFirst(p, pat, from + 1, k);
    }
  }

  /** Where the parser finds the lines of a framed block, and what its data loop reads. */
  lemma FramedLayout(typ: seq<byte>, e: seq<byte>, room: int, out: seq<byte>)
    requires NUL !in typ && NEWLINE !in typ && NUL !in e
    requires var p, nl := Framed(typ, e), |BeginLine(typ)|;
      Scan(p, nl + 1, room - HEADER_LEN, 0, 0, []) == Stopped(nl + 1 + |e| + 1, 0, out)
    ensures var p, nl, stop := Framed(typ, e), |BeginLine(typ)|, |BeginLine(typ)| + 1 + |e| + 1;
      && CString(p) == p
      && Find(p, BEGIN, 0) == Some(0) && At(p, |BEGIN|, typ)
      && Find(p, [NEWLINE], 0) == Some(nl)
      && Scan(p, nl, room - HEADER_LEN, 0, 0, []) == Stopped(stop, 0, out)
      && At(p, stop, END) && At(p, stop + |END|, typ)
  {
    FramedText(typ, e);
    FramedBegin(typ, e);
    FramedBreak(typ, e);
    FramedTail(typ, e);
    ScanNewline(Framed(typ, e), |BeginLine(typ)|, room - HEADER_LEN);
  }

  /** The data loop skips the newline that ends the BEGIN line. */
  lemma ScanNewline(p: seq<byte>, i: nat, room: int)
    requires i < |p| && p[i] == NEWLINE && 0 < room
    ensures Scan(p, i, room, 0, 0, []) == Scan(p, i + 1, room, 0, 0, [])
  {
  }

  /**
   * A block whose text the data loop decodes to `out`, stopping at the END
   * line, is stored as the record of `out`.
   */
  lemma ParseFramed(typ: seq<byte>, e: seq<byte>, name: seq<byte>, room: int, out: seq<byte>)
    requires ValidName(name) && NUL !in typ && NEWLINE !in typ && NUL !in e
    requires HEADER_LEN + |out| < room
    requires var p, nl := Framed(typ, e), |BeginLine(typ)|;
      Scan(p, nl + 1, room - HEADER_LEN, 0, 0, []) == Stopped(nl + 1 + |e| + 1, 0, out)
    ensures ParsePem(Some(Framed(typ, e)), typ, name, room) == PemRecord(RecordHeader(name, |out|) + out)
  {
    FramedLayout(typ, e, room, out);
    ParsePemAccepts(Framed(typ, e), typ, name, room, 0, |BeginLine(typ)|, |BeginLine(typ)| + 1 + |e| + 1, out);
  }

  /**
   * Round trip: `append_pem_blob` stores an armoured block as the record of
   * exactly the encoded data, whenever the record fits before the limit.
   */
  lemma ParseArmor(typ: seq<byte>, data: seq<byte>, name: seq<byte>, room: int)
    requires ValidName(name) && NUL !in typ && NEWLINE !in typ
    requires HEADER_LEN + |data| < room
    ensures ParsePem(Some(Armor(typ, data)), typ, name, room) == PemRecord(RecordHeader(name, |data|) + data)
  {
    var e := Encode(data);
    var p, nl := Framed(typ, e), |BeginLine(typ)|;
    EncodePlain(data);
    FramedTail(typ, e);
    ScanEncoded(p, nl + 1, room - HEADER_LEN, 0, [], data);
    ParseFramed(typ, e, name, room, data);
  }

  /** A C string ends at its first NUL. */
  lemma {:induction false} CStringOfTerminated(a: seq<byte>, b: seq<byte>)
    requires NUL !in a && |b| > 0 && b[0] == NUL
    ensures CString(a + b) == a
    decreases |a|
  {
    if |a| > 0 {
      assert (a + b)[1..] == a[1..] + b;
      CStringOfTerminated(a[1..], b);
      assert CString(a + b) == [a[0]] + a[1..];
    } else {
      assert (a + b)[0] == NUL;
    }
  }

  /** A byte string without NUL is its own C string. */
  lemma {:induction false} CStringOfPlain(s: seq<byte>)
    requires NUL !in s
    ensures CString(s) == s
    decreases |s|
  {
    if |s| > 0 {
      CStringOfPlain(s[1..]);
      assert s == [s[0]] + s[1..];
    }
  }

  // ---------------------------------------------------------------------
  // fill_page_with_pem
  // ---------------------------------------------------------------------

  /** The parallel `types` and `names` tables a caller passes. */
  predicate ValidTables(types: seq<seq<byte>>, names: seq<seq<byte>>)
  {
    |types| <= |names| && forall k :: 0 <= k < |types| ==> ValidName(names[k])
  }

  /**
   * The page after arguments `k` onwards are appended to the records `page`
   * already stored: one record per argument while both an argument and a
   * type remain, stopping at the first error.
   */
  function Fill(args: seq<Option<seq<byte>>>, types: seq<seq<byte>>, names: seq<seq<byte>>, k: nat, page: seq<byte>): (r: PemOutcome)
    requires ValidTables(types, names) && |page| <= SECTOR_SIZE
    ensures r.PemRecord? ==> page <= r.bytes && |r.bytes| <= SECTOR_SIZE
    decreases |args| - k, 1
  {
    if k >= |args| || k >= |types| then PemRecord(page)
    else FillArg(args, types, names, k, page)
  }

  /** The loop body on argument `k`, then the rest of the loop. */
  function FillArg(args: seq<Option<seq<byte>>>, types: seq<seq<byte>>, names: seq<seq<byte>>, k: nat, page: seq<byte>): (r: PemOutcome)
    requires ValidTables(types, names) && |page| <= SECTOR_SIZE && k < |args| && k < |types|
    ensures r.PemRecord? ==> page <= r.bytes && |r.bytes| <= SECTOR_SIZE
    decreases |args| - k, 0
  {
    match ParsePem(args[k], types[k], names[k], SECTOR_SIZE - |page|)
    case PemError(m) => PemError(m)
    case PemRecord(rec) => Fill(args, types, names, k + 1, page + rec)
  }

  /** The sector image: the records, then 0xFF up to the end of the sector. */
  function Page(records: seq<byte>): (page: seq<byte>)
    requires |records| <= SECTOR_SIZE
    ensures |page| == SECTOR_SIZE && page[..|records|] == records
    ensures forall k :: |records| <= k < SECTOR_SIZE ==> page[k] == 0xFF
  {
    records + seq(SECTOR_SIZE - |records|, _ => 0xFF)
  }

  /** Room taken by the records of `datas[k..]`, headers included. */
  function Sum(datas: seq<seq<byte>>, k: nat): nat
    decreases |datas| - k
  {
    if k >= |datas| then 0 else HEADER_LEN + |datas[k]| + Sum(datas, k + 1)
  }

  /** The records of `datas[k..]` under their names, back to back. */
  function Stored(datas: seq<seq<byte>>, names: seq<seq<byte>>, k: nat): seq<byte>
    requires |datas| <= |names| && forall j :: 0 <= j < |datas| ==> ValidName(names[j])
    decreases |datas| - k
  {
    if k >= |datas| then [] else RecordHeader(names[k], |datas[k]|) + datas[k] + Stored(datas, names, k + 1)
  }

  /** `pem` is stored as the record of `data` under `name` whenever that record fits. */
  ghost predicate Accepts(pem: Option<seq<byte>>, typ: seq<byte>, name: seq<byte>, data: seq<byte>)
    requires ValidName(name)
  {
    forall room :: HEADER_LEN + |data| < room ==>
      ParsePem(pem, typ, name, room) == PemRecord(RecordHeader(name, |data|) + data)
  }

  /** Every argument is stored as the record of its data, under its name, whenever that record fits. */
  ghost predicate AllAccept(args: seq<Option<seq<byte>>>, datas: seq<seq<byte>>, types: seq<seq<byte>>, names: seq<seq<byte>>)
  {
    && ValidTables(types, names) && |args| == |datas| == |types|
    && forall j :: 0 <= j < |args| ==> Accepts(args[j], types[j], names[j], datas[j])
  }

  /** An argument that parses to the record of its data, with room to spare, is stored as that record. */
  lemma FillRecord(args: seq<Option<seq<byte>>>, datas: seq<seq<byte>>, types: seq<seq<byte>>,
                   names: seq<seq<byte>>, k: nat, page: seq<byte>) returns (rec: seq<byte>)
    requires AllAccept(args, datas, types, names) && k < |types|
    requires |page| + Sum(datas, k) < SECTOR_SIZE
    ensures rec == RecordHeader(names[k], |datas[k]|) + datas[k]
    ensures |page + rec| + Sum(datas, k + 1) < SECTOR_SIZE
    ensures Fill(args, types, names, k, page) == Fill(args, types, names, k + 1, page + rec)
  {
    assert Accepts(args[k], types[k], names[k], datas[k]);
    rec := FillStep(args, types, names, k, page);
  }

  /** The stored records of `datas[k..]`: the record of `datas[k]`, then the rest. */
  lemma StoredStep(datas: seq<seq<byte>>, names: seq<seq<byte>>, k: nat, page: seq<byte>)
    requires |datas| <= |names| && forall j :: 0 <= j < |datas| ==> ValidName(names[j])
    requires k < |datas|
    ensures page + (RecordHeader(names[k], |datas[k]|) + datas[k]) + Stored(datas, names, k + 1) == page + Stored(datas, names, k)
  {
  }

  /**
   * Arguments each parsing to the record of its data, whenever that record
   * fits, fill the page with those records one after the other.
   */
  lemma {:induction false} FillOfRecords(args: seq<Option<seq<byte>>>, datas: seq<seq<byte>>, types: seq<seq<byte>>,
                                         names: seq<seq<byte>>, k: nat, page: seq<byte>)
    requires AllAccept(args, datas, types, names) && k <= |types|
    requires |page| + Sum(datas, k) < SECTOR_SIZE
    ensures Fill(args, types, names, k, page) == PemRecord(page + Stored(datas, names, k))
    decreases |args| - k
  {
    if k < |args| {
      var rec := FillRecord(args, datas, types, names, k, page);
      FillOfRecords(args, datas, types, names, k + 1, page + rec);
      StoredStep(datas, names, k, page);
    } else {
      assert page + Stored(datas, names, k) == page;
    }
  }

  /**
   * Round trip for the page: armoured blocks whose records all fit are
   * stored one after the other, each as the record of its data.
   */
  lemma FillOfArmor(args: seq<Option<seq<byte>>>, datas: seq<seq<byte>>, types: seq<seq<byte>>, names: seq<seq<byte>>)
    requires ValidTables(types, names) && |args| == |datas| == |types|
    requires forall j :: 0 <= j < |args| ==> args[j] == Some(Armor(types[j], datas[j]))
    requires forall j :: 0 <= j < |types| ==> NUL !in types[j] && NEWLINE !in types[j]
    requires Sum(datas, 0) < SECTOR_SIZE
    ensures Fill(args, types, names, 0, []) == PemRecord(Stored(datas, names, 0))
  {
    forall j | 0 <= j < |args|
      ensures Accepts(args[j], types[j], names[j], datas[j])
    {
      forall room | HEADER_LEN + |datas[j]| < room
        ensures ParsePem(args[j], types[j], names[j], room) == PemRecord(RecordHeader(names[j], |datas[j]|) + datas[j])
      {
        ParseArmor(types[j], datas[j], names[j], room);
      }
    }
    FillOfRecords(args, datas, types, names, 0, []);
    assert [] + Stored(datas, names, 0) == Stored(datas, names, 0);
  }

  /**
   * `fill_page_with_pem` with the Lua arguments `args` (None where
   * `lua_tostring` gives NULL) and the sector's current contents `flash`.
   * The erase and write calls are hardware I/O; their success is given as
   * `eraseOk` and `writeOk`.  Returns the error message, whether the sector
   * was erased, and the image handed to the flash write, if any.
   */
  method FillPageWithPem(args: seq<Option<seq<byte>>>, types: seq<seq<byte>>, names: seq<seq<byte>>,
                         flash: seq<byte>, eraseOk: bool, writeOk: bool)
    returns (err: Option<Fault>, erased: bool, written: Option<seq<byte>>)
    requires ValidTables(types, names) && |flash| == SECTOR_SIZE
    ensures Fill(args, types, names, 0, []).PemError? ==>
      err == Some(Fill(args, types, names, 0, []).fault) && !erased && written == None
    ensures Fill(args, types, names, 0, []).PemRecord? ==>
      var image := Page(Fill(args, types, names, 0, []).bytes);
      && (erased <==> image != flash)
      && written == (if erased && eraseOk then Some(image) else None)
      && err == (if image == flash then None
                 else if !eraseOk then Some(EraseFailed)
                 else if !writeOk then Some(WriteFailed)
                 else None)
  {
    var buffer := new byte[SECTOR_SIZE];
    var pos: nat := 0;
    var argno := 0;
    while argno < |args| && argno < |types|
      invariant 0 <= argno && pos <= SECTOR_SIZE
      invariant Fill(args, types, names, argno, buffer[..pos]) == Fill(args, types, names, 0, [])
      decreases |args| - argno
    {
      var e, next := AppendArg(args, types, names, argno, buffer, pos);
      if e.Some? {
        return e, false, None;
      }
      pos := next;
      argno := argno + 1;
    }
    PadSector(buffer, pos);
    if buffer[..] == flash {
      return None, false, None;
    }
    if !eraseOk {
      return Some(EraseFailed), true, None;
    }
    if !writeOk {
      return Some(WriteFailed), true, Some(buffer[..]);
    }
    return None, true, Some(buffer[..]);
  }

  /** One turn of the loop of `fill_page_with_pem`: argument `k` appended at `pos`. */
  method AppendArg(args: seq<Option<seq<byte>>>, types: seq<seq<byte>>, names: seq<seq<byte>>, k: nat,
                   buffer: array<byte>, pos: nat)
    returns (e: Option<Fault>, next: nat)
    requires ValidTables(types, names) && k < |args| && k < |types|
    requires buffer.Length == SECTOR_SIZE && pos <= SECTOR_SIZE
    modifies buffer
    ensures e.Some? ==> Fill(args, types, names, k, old(buffer[..pos])) == PemError(e.value)
    ensures e.None? ==> pos <= next <= SECTOR_SIZE && buffer[..pos] == old(buffer[..pos])
    ensures e.None? ==> Fill(args, types, names, k, old(buffer[..pos])) == Fill(args, types, names, k + 1, buffer[..next])
  {
    ghost var before := buffer[..pos];
    e, next := AppendPemBlob(args[k], types[k], buffer, pos, SECTOR_SIZE, names[k]);
    if e.Some? {
      FillStop(args, types, names, k, before);
      return;
    }
    ghost var rec := FillStep(args, types, names, k, before);
    assert buffer[..next] == before + rec;
  }

  /** `memset(buffer, 0xff, buffer_limit - buffer)`: pad the sector after the records. */
  method PadSector(buffer: array<byte>, pos: nat)
    requires buffer.Length == SECTOR_SIZE && pos <= SECTOR_SIZE
    modifies buffer
    ensures buffer[..] == Page(old(buffer[..pos]))
  {
    forall k | pos <= k < SECTOR_SIZE {
      buffer[k] := 0xFF;
    }
    assert buffer[..] == buffer[..pos] + buffer[pos..];
  }

  /** A failing argument makes the whole page fail with its message. */
  lemma FillStop(args: seq<Option<seq<byte>>>, types: seq<seq<byte>>, names: seq<seq<byte>>, k: nat, page: seq<byte>)
    requires ValidTables(types, names) && |page| <= SECTOR_SIZE && k < |args| && k < |types|
    requires ParsePem(args[k], types[k], names[k], SECTOR_SIZE - |page|).PemError?
    ensures Fill(args, types, names, k, page) == ParsePem(args[k], types[k], names[k], SECTOR_SIZE - |page|)
  {
  }

  /** A record that parses is appended, and the remaining arguments follow. */
  lemma FillStep(args: seq<Option<seq<byte>>>, types: seq<seq<byte>>, names: seq<seq<byte>>, k: nat, page: seq<byte>)
    returns (rec: seq<byte>)
    requires ValidTables(types, names) && |page| <= SECTOR_SIZE && k < |args| && k < |types|
    requires ParsePem(args[k], types[k], names[k], SECTOR_SIZE - |page|).PemRecord?
    ensures rec == ParsePem(args[k], types[k], names[k], SECTOR_SIZE - |page|).bytes
    ensures |page + rec| <= SECTOR_SIZE
    ensures Fill(args, types, names, k, page) == Fill(args, types, names, k + 1, page + rec)
  {
    rec := ParsePem(args[k], types[k], names[k], SECTOR_SIZE - |page|).bytes;
  }

  // ---------------------------------------------------------------------
  // Socket tear-down
  // ---------------------------------------------------------------------

  /**
   * The callback `tls_socket_last_call` fires: like the `net` module,
   * "disconnection" gets every event unless a "reconnection" callback is
   * registered, in which case "disconnection" gets only the ordinary events,
   * those without an error string.
   */
  function LastCallTarget(hasError: bool, disconnect: Callback, reconnect: Callback): (cb: Callback)
    ensures reconnect == NoRef ==> cb == disconnect
    ensures !hasError ==> cb == disconnect
    ensures hasError && reconnect != NoRef ==> cb == reconnect
  {
    if hasError && reconnect != NoRef then reconnect else disconnect
  }

  /** A Lua call made by `tls_socket_last_call`: the callback, the socket, the error string or nil. */
  datatype LastGasp = LastGasp(fn: int, socket: Callback, errstr: Option<string>)

  class TlsSocket {
    /** References still held by C code (DNS lookup, espconn). */
    var refcount: nat
    /** Whether `pesp_conn.proto.tcp` is allocated. */
    var hasTcp: bool
    /** The registry reference that keeps the socket alive while connected. */
    var selfRef: Callback
    var disconnectCb: Callback
    var reconnectCb: Callback

    constructor (disconnect: Callback, reconnect: Callback)
      ensures refcount == 0 && !hasTcp && selfRef == NoRef
      ensures disconnectCb == disconnect && reconnectCb == reconnect
    {
      refcount := 0;
      hasTcp := false;
      selfRef := NoRef;
      disconnectCb := disconnect;
      reconnectCb := reconnect;
    }

    /**
     * `tls_socket_cleanup`: nothing while C still holds references;
     * otherwise free the TCP state and drop the self reference.  Returns the
     * reference handed to `luaL_unref`, if the cleanup ran.
     */
    method Cleanup() returns (released: Option<Callback>)
      modifies this`hasTcp, this`selfRef
      ensures old(refcount) != 0 ==> released == None && hasTcp == old(hasTcp) && selfRef == old(selfRef)
      ensures old(refcount) == 0 ==> released == Some(old(selfRef)) && !hasTcp && selfRef == NoRef
    {
      if refcount != 0 {
        return None;
      }
      if hasTcp {
        hasTcp := false;
      }
      released := Some(selfRef);
      selfRef := NoRef;
    }

    /**
     * `tls_socket_last_call(ud, errstr)`: the chosen callback receives the
     * socket's self reference as it was on entry and the error string, but
     * only after `Cleanup` has run, so the callback sees the torn-down socket.
     */
    method LastCall(errstr: Option<string>) returns (call: Option<LastGasp>, released: Option<Callback>)
      modifies this`hasTcp, this`selfRef
      ensures var cb := LastCallTarget(errstr.Some?, disconnectCb, reconnectCb);
        call == (if cb.Ref? then Some(LastGasp(cb.id, old(selfRef), errstr)) else None)
      ensures old(refcount) != 0 ==> released == None && hasTcp == old(hasTcp) && selfRef == old(selfRef)
      ensures old(refcount) == 0 ==> released == Some(old(selfRef)) && !hasTcp && selfRef == NoRef
    {
      var cb := disconnectCb;
      if errstr.Some? && reconnectCb != NoRef {
        cb := reconnectCb;
      }
      if cb != NoRef {
        var self := selfRef;
        released := Cleanup();
        call := Some(LastGasp(cb.id, self, errstr));
      } else {
        released := Cleanup();
        call := None;
      }
    }
  }
}
