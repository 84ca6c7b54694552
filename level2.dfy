/**
 * The decoding primitives of NEXRAD Level II data: the per-gate moment
 * decoders, the byte swapping of the big-endian volume title and digital
 * radar data header, and the bookkeeping that appends sweeps and rays to a
 * volume.
 */
module LevelII {

  newtype byte = x: int | 0 <= x < 256

  /** The value a decoder writes for a gate with no usable data. */
  const Missing: real := -999.0

  /** A multiple of one half: every decoded moment is one. */
  predicate HalfStep(v: real)
  {
    (2.0 * v).Floor as real == 2.0 * v
  }

  // ---------------------------------------------------------------- moments

  /**
   * Reflectivity (dBZ) of one gate: codes 0 (below threshold) and 1 (range
   * folded) are missing, code b >= 2 is (b - 2) / 2 - 32, in half-dBZ steps.
   */
  function RefValue(code: byte): (v: real)
    ensures code < 2 <==> v == Missing
    ensures code >= 2 ==> -32.0 <= v <= 94.5
    ensures code >= 2 ==> 2.0 * (v + 32.0) == (code - 2) as real
  {
    if code == 0 then Missing
    else if code == 1 then Missing
    else ((code as real - 2.0) / 2.0) - 32.0
  }

  /**
   * Radial velocity (m/s) of one gate: codes 0 and 1 are missing; with
   * resolution code 2 the step is 0.5 m/s from -63.5, with any other
   * resolution code the step is 1 m/s from -127.
   */
  function VelValue(code: byte, velRes: int): (v: real)
    ensures code < 2 <==> v == Missing
    ensures code >= 2 ==> -127.0 <= v <= 126.0
    ensures code >= 2 && velRes == 2 ==> 2.0 * (v + 63.5) == (code - 2) as real
    ensures code >= 2 && velRes != 2 ==> v + 127.0 == (code - 2) as real
  {
    if code == 0 then Missing
    else if code == 1 then Missing
    else if velRes == 2 then ((code as real - 2.0) / 2.0) - 63.5
    else (code as real - 2.0) - 127.0
  }

  /** Spectrum width (m/s) of one gate: codes 0 and 1 are missing, code b >= 2 is (b - 2) / 2 - 63.5. */
  function SwValue(code: byte): (v: real)
    ensures code < 2 <==> v == Missing
    ensures code >= 2 ==> -63.5 <= v <= 63.0
    ensures code >= 2 ==> 2.0 * (v + 63.5) == (code - 2) as real
  {
    if code == 0 then Missing
    else if code == 1 then Missing
    else ((code as real - 2.0) / 2.0) - 63.5
  }

  /** Every decoded value is a multiple of one half. */
  lemma DecodedHalfSteps(code: byte, velRes: int)
    ensures HalfStep(RefValue(code)) && HalfStep(VelValue(code, velRes)) && HalfStep(SwValue(code))
  {
    var r, v, w := RefValue(code), VelValue(code, velRes), SwValue(code);
    if code >= 2 {
      WholeHalves(r, code as int - 66);
      WholeHalves(w, code as int - 129);
      if velRes == 2 {
        WholeHalves(v, code as int - 129);
      } else {
        WholeHalves(v, 2 * code as int - 258);
      }
    } else {
      WholeHalves(r, -1998);
      WholeHalves(v, -1998);
      WholeHalves(w, -1998);
    }
  }

  /** A value whose double is a whole number is a multiple of one half. */
  lemma WholeHalves(v: real, n: int)
    requires 2.0 * v == n as real
    ensures HalfStep(v)
  {
  }

  /** Higher codes never decode lower, and distinct codes >= 2 decode to distinct values. */
  lemma DecodersIncreasing(c1: byte, c2: byte, velRes: int)
    requires 2 <= c1 < c2
    ensures RefValue(c1) < RefValue(c2)
    ensures VelValue(c1, velRes) < VelValue(c2, velRes)
    ensures SwValue(c1) < SwValue(c2)
  {
  }

  /**
   * decode_ref: a fresh array of numGates reflectivities, gate i decoded from
   * byte i of the buffer.
   */
  method DecodeRef(buffer: array<byte>, numGates: int) returns (refArray: array<real>)
    requires 0 <= numGates <= buffer.Length
    ensures fresh(refArray) && refArray.Length == numGates
    ensures forall i :: 0 <= i < numGates ==> refArray[i] == RefValue(buffer[i])
  {
    refArray := new real[numGates];
    var i := 0;
    while i <= numGates - 1
      invariant 0 <= i <= numGates
      invariant forall k :: 0 <= k < i ==> refArray[k] == RefValue(buffer[k])
    {
      var encoded := buffer[i];
      if encoded == 0 {
        refArray[i] := Missing;
      } else if encoded == 1 {
        // range folded: treated as missing
        refArray[i] := Missing;
      } else {
        refArray[i] := ((encoded as real - 2.0) / 2.0) - 32.0;
      }
      i := i + 1;
    }
  }

  /** decode_vel: a fresh array of numGates velocities at the given resolution code. */
  method DecodeVel(buffer: array<byte>, numGates: int, velRes: int) returns (velArray: array<real>)
    requires 0 <= numGates <= buffer.Length
    ensures fresh(velArray) && velArray.Length == numGates
    ensures forall i :: 0 <= i < numGates ==> velArray[i] == VelValue(buffer[i], velRes)
  {
    velArray := new real[numGates];
    var i := 0;
    while i <= numGates - 1
      invariant 0 <= i <= numGates
      invariant forall k :: 0 <= k < i ==> velArray[k] == VelValue(buffer[k], velRes)
    {
      var encoded := buffer[i];
      if encoded == 0 {
        velArray[i] := Missing;
      } else if encoded == 1 {
        velArray[i] := Missing;
      } else if velRes == 2 {
        velArray[i] := ((encoded as real - 2.0) / 2.0) - 63.5;
      } else {
        velArray[i] := (encoded as real - 2.0) - 127.0;
      }
      i := i + 1;
    }
  }

  /** decode_sw: a fresh array of numGates spectrum widths. */
  method DecodeSw(buffer: array<byte>, numGates: int) returns (swArray: array<real>)
    requires 0 <= numGates <= buffer.Length
    ensures fresh(swArray) && swArray.Length == numGates
    ensures forall i :: 0 <= i < numGates ==> swArray[i] == SwValue(buffer[i])
  {
    swArray := new real[numGates];
    var i := 0;
    while i <= numGates - 1
      invariant 0 <= i <= numGates
      invariant forall k :: 0 <= k < i ==> swArray[k] == SwValue(buffer[k])
    {
      var encoded := buffer[i];
      if encoded == 0 {
        swArray[i] := Missing;
      } else if encoded == 1 {
        swArray[i] := Missing;
      } else {
        swArray[i] := ((encoded as real - 2.0) / 2.0) - 63.5;
      }
      i := i + 1;
    }
  }

  // ------------------------------------------------------------ byte order

  /** The unsigned value of bytes stored most significant first (the order on tape). */
  function BigEndian(s: seq<byte>): nat
  {
    if s == [] then 0 else BigEndian(s[..|s| - 1]) * 256 + s[|s| - 1] as nat
  }

  /** The unsigned value of bytes stored least significant first (the host's order). */
  function LittleEndian(s: seq<byte>): nat
  {
    if s == [] then 0 else s[0] as nat + 256 * LittleEndian(s[1..])
  }

  function Reverse(s: seq<byte>): (r: seq<byte>)
    ensures |r| == |s|
    ensures forall i :: 0 <= i < |s| ==> r[i] == s[|s| - 1 - i]
  {
    if s == [] then [] else [s[|s| - 1]] + Reverse(s[..|s| - 1])
  }

  /** Reversing the bytes turns a big-endian image into the little-endian image of the same number. */
  lemma {:induction false} LittleEndianOfReverse(s: seq<byte>)
    ensures LittleEndian(Reverse(s)) == BigEndian(s)
  {
    if s != [] {
      var r := Reverse(s);
      assert r[1..] == Reverse(s[..|s| - 1]);
      LittleEndianOfReverse(s[..|s| - 1]);
    }
  }

  lemma ReverseReverse(s: seq<byte>)
    ensures Reverse(Reverse(s)) == s
  {
  }

  /**
   * swap2: the two bytes at the address in the opposite order, so that a
   * big-endian 16-bit field reads as the same number on a little-endian host.
   */
  function Swap2(ov: seq<byte>): (nv: seq<byte>)
    requires |ov| >= 2
    ensures |nv| == 2 && LittleEndian(nv) == BigEndian(ov[..2])
  {
    LittleEndianOfReverse(ov[..2]);
    Reverse(ov[..2])
  }

  /** swap4: the four bytes at the address in the opposite order (for a 4-byte long). */
  function Swap4(ov: seq<byte>): (nv: seq<byte>)
    requires |ov| >= 4
    ensures |nv| == 4 && LittleEndian(nv) == BigEndian(ov[..4])
  {
    LittleEndianOfReverse(ov[..4]);
    Reverse(ov[..4])
  }

  /** Swapping twice gives the original bytes back. */
  lemma SwapsInvolutive(ov: seq<byte>)
    requires |ov| >= 4
    ensures Swap2(Swap2(ov)) == ov[..2]
    ensures Swap4(Swap4(ov)) == ov[..4]
  {
    ReverseReverse(ov[..2]);
    ReverseReverse(ov[..4]);
    assert Swap2(ov)[..2] == Swap2(ov);
    assert Swap4(ov)[..4] == Swap4(ov);
  }

  /** swab(3) over an even count: each adjacent pair of bytes exchanged. */
  function Swab(s: seq<byte>): (r: seq<byte>)
    requires |s| % 2 == 0
    ensures |r| == |s|
  {
    if s == [] then [] else [s[1], s[0]] + Swab(s[2..])
  }

  /** Byte i of a swab'd run is byte i + 1 or i - 1 of the original, within its pair. */
  lemma {:induction false} SwabAt(s: seq<byte>, i: int)
    requires |s| % 2 == 0 && 0 <= i < |s|
    ensures Swab(s)[i] == (if i % 2 == 0 then s[i + 1] else s[i - 1])
  {
    if i >= 2 {
      SwabAt(s[2..], i - 2);
      assert Swab(s)[i] == Swab(s[2..])[i - 2];
    }
  }

  lemma {:induction false} SwabTwice(s: seq<byte>)
    requires |s| % 2 == 0
    ensures Swab(Swab(s)) == s
  {
    var r := Swab(s);
    forall i | 0 <= i < |s| ensures Swab(r)[i] == s[i] {
      SwabAt(r, i);
      if i % 2 == 0 {
        SwabAt(s, i + 1);
        assert Swab(r)[i] == r[i + 1] == s[i];
      } else {
        SwabAt(s, i - 1);
        assert Swab(r)[i] == r[i - 1] == s[i];
      }
    }
  }

  /** On two bytes swab is swap2. */
  lemma SwabTwoIsSwap2(s: seq<byte>)
    requires |s| == 2
    ensures Swab(s) == Swap2(s)
  {
    SwabAt(s, 0);
    SwabAt(s, 1);
  }

  /**
   * On four bytes swab exchanges the two halves' bytes but keeps the halves in
   * place: the 32-bit number then reads as the big-endian first halfword plus
   * 65536 times the big-endian second halfword, which is not what swap4 gives.
   */
  lemma SwabFour(s: seq<byte>)
    requires |s| == 4
    ensures LittleEndian(Swab(s)) == BigEndian(s[..2]) + 65536 * BigEndian(s[2..])
  {
    var r := Swab(s);
    SwabAt(s, 0); SwabAt(s, 1); SwabAt(s, 2); SwabAt(s, 3);
    assert r == [s[1], s[0], s[3], s[2]];
    LittleEndianFour(r);
    BigEndianTwo(s[..2]);
    BigEndianTwo(s[2..]);
  }

  lemma LittleEndianFour(r: seq<byte>)
    requires |r| == 4
    ensures LittleEndian(r) == r[0] as nat + 256 * r[1] as nat + 65536 * r[2] as nat + 16777216 * r[3] as nat
  {
    var r1, r2, r3 := r[1..], r[2..], r[3..];
    assert r1[1..] == r2 && r2[1..] == r3 && r3[1..] == [];
    assert LittleEndian(r3) == r[3] as nat;
    assert LittleEndian(r2) == r[2] as nat + 256 * r[3] as nat;
    assert LittleEndian(r1) == r[1] as nat + 256 * LittleEndian(r2);
  }

  lemma BigEndianTwo(s: seq<byte>)
    requires |s| == 2
    ensures BigEndian(s) == 256 * s[0] as nat + s[1] as nat
  {
    assert s[..1][..0] == [];
    assert BigEndian(s[..1]) == s[0] as nat;
  }

  /** Swab over four bytes is not swap4: the bytes of 1 stored big-endian show it. */
  lemma SwabFourIsNotSwap4()
    ensures Swab([0, 0, 0, 1]) == [0, 0, 1, 0]
    ensures Swap4([0, 0, 0, 1]) == [1, 0, 0, 0]
  {
    var z: seq<byte> := [0, 0, 0, 1];
    SwabAt(z, 0); SwabAt(z, 1); SwabAt(z, 2); SwabAt(z, 3);
  }

  /** swab over the n bytes from off, on an array, as the C library does it. */
  method SwabInPlace(a: array<byte>, off: nat, n: nat)
    requires off + n <= a.Length && n % 2 == 0
    modifies a
    ensures a[off..off + n] == Swab(old(a[off..off + n]))
    ensures a[..off] == old(a[..off]) && a[off + n..] == old(a[off + n..])
  {
    ghost var before := a[..];
    var i := 0;
    while i < n
      invariant 0 <= i <= n && i % 2 == 0
      invariant SwappedUpTo(before, a[..], off, i, n)
    {
      ghost var mid := a[..];
      a[off + i], a[off + i + 1] := a[off + i + 1], a[off + i];
      assert a[..] == mid[off + i := mid[off + i + 1]][off + i + 1 := mid[off + i]];
      SwapPairStep(before, mid, off, i, n);
      i := i + 2;
    }
    SwabbedRun(before, a[..], off, n);
  }

  /** The pairs of the run of n bytes from off are exchanged below off + i, and nothing else has changed. */
  ghost predicate SwappedUpTo(before: seq<byte>, after: seq<byte>, off: nat, i: nat, n: nat)
  {
    |after| == |before| && i <= n && i % 2 == 0 && n % 2 == 0 && off + n <= |before| &&
    (forall k :: off <= k < off + i ==>
      after[k] == (if (k - off) % 2 == 0 then before[k + 1] else before[k - 1])) &&
    (forall k :: 0 <= k < off || off + i <= k < |after| ==> after[k] == before[k])
  }

  /** Exchanging the next pair extends the swapped part by two bytes. */
  lemma SwapPairStep(before: seq<byte>, mid: seq<byte>, off: nat, i: nat, n: nat)
    requires SwappedUpTo(before, mid, off, i, n) && i < n
    ensures SwappedUpTo(before, mid[off + i := mid[off + i + 1]][off + i + 1 := mid[off + i]], off, i + 2, n)
  {
  }

  /** A run whose pairs are all exchanged, and nothing else changed, is swab of the old run. */
  lemma SwabbedRun(before: seq<byte>, after: seq<byte>, off: nat, n: nat)
    requires SwappedUpTo(before, after, off, n, n)
    ensures after[off..off + n] == Swab(before[off..off + n])
    ensures after[..off] == before[..off] && after[off + n..] == before[off + n..]
  {
    var s := before[off..off + n];
    forall k | 0 <= k < n ensures after[off..off + n][k] == Swab(s)[k] {
      SwabAt(s, k);
      assert after[off..off + n][k] == after[off + k];
    }
  }

  // ---------------------------------------------------------- the headers

  /**
   * The digital radar data header as bytes: ICD halfwords 15 to 47 of
   * Message Type 1, halfword n at byte 2 * (n - 15).
   */
  const RadarHeaderSize: nat := 66

  function HalfwordOffset(n: int): int
  {
    2 * (n - 15)
  }

  /**
   * The halfwords swapped one by one: 17 to 30, 33 to 37 and 42 to 47.
   * Halfwords 15-16 are swapped as one 32-bit number; 31-32 (the system gain
   * calibration constant) and 38-41 (simulator reserved) are left alone.
   */
  predicate SwabbedHalfword(n: int)
  {
    17 <= n <= 30 || 33 <= n <= 37 || 42 <= n <= 47
  }

  /** The byte of the original header that ends up at position k. */
  function RadarHeaderSource(k: nat): (j: nat)
    ensures k < RadarHeaderSize ==> j < RadarHeaderSize
  {
    if k < 4 then 3 - k
    else if k < RadarHeaderSize && SwabbedHalfword(k / 2 + 15) then (if k % 2 == 0 then k + 1 else k - 1)
    else k
  }

  /** The header after swapRadarHeader. */
  function SwappedRadarHeader(h: seq<byte>): (r: seq<byte>)
    requires |h| == RadarHeaderSize
    ensures |r| == RadarHeaderSize
  {
    seq(RadarHeaderSize, k requires 0 <= k < RadarHeaderSize => h[RadarHeaderSource(k)])
  }

  /**
   * After the swap every listed halfword reads, on a little-endian host, as
   * the big-endian value it held on tape; the milliseconds reads as its
   * 32-bit value; the unlisted bytes are unchanged.
   */
  lemma RadarHeaderFields(h: seq<byte>, n: int)
    requires |h| == RadarHeaderSize
    ensures SwabbedHalfword(n) ==>
      var o := HalfwordOffset(n);
      LittleEndian(SwappedRadarHeader(h)[o..o + 2]) == BigEndian(h[o..o + 2])
    ensures LittleEndian(SwappedRadarHeader(h)[..4]) == BigEndian(h[..4])
    ensures forall k :: 32 <= k < 36 || 46 <= k < 54 ==> SwappedRadarHeader(h)[k] == h[k]
  {
    if SwabbedHalfword(n) {
      RadarHalfwordField(h, n);
    }
    RadarMillisecondsField(h);
  }

  /** One listed halfword of the swapped header reads as its big-endian value. */
  lemma RadarHalfwordField(h: seq<byte>, n: int)
    requires |h| == RadarHeaderSize && SwabbedHalfword(n)
    ensures var o := HalfwordOffset(n);
      LittleEndian(SwappedRadarHeader(h)[o..o + 2]) == BigEndian(h[o..o + 2])
  {
    var r, o := SwappedRadarHeader(h), HalfwordOffset(n);
    assert o / 2 + 15 == n && (o + 1) / 2 + 15 == n && o % 2 == 0 && (o + 1) % 2 == 1;
    assert r[o] == h[o + 1] && r[o + 1] == h[o];
    assert r[o..o + 2] == Reverse(h[o..o + 2]);
    LittleEndianOfReverse(h[o..o + 2]);
  }

  /** The milliseconds of the swapped header reads as its 32-bit big-endian value. */
  lemma RadarMillisecondsField(h: seq<byte>)
    requires |h| == RadarHeaderSize
    ensures LittleEndian(SwappedRadarHeader(h)[..4]) == BigEndian(h[..4])
  {
    var r := SwappedRadarHeader(h);
    assert r[0] == h[3] && r[1] == h[2] && r[2] == h[1] && r[3] == h[0];
    assert r[..4] == Reverse(h[..4]);
    LittleEndianOfReverse(h[..4]);
  }

  /** Swapping the header twice restores it. */
  lemma SwappedRadarHeaderTwice(h: seq<byte>)
    requires |h| == RadarHeaderSize
    ensures SwappedRadarHeader(SwappedRadarHeader(h)) == h
  {
    forall k | 0 <= k < RadarHeaderSize
      ensures RadarHeaderSource(RadarHeaderSource(k)) == k
    {
      if 4 <= k && SwabbedHalfword(k / 2 + 15) {
        var j := RadarHeaderSource(k);
        assert j / 2 == k / 2;
      }
    }
  }

  /** The header image with halfword n's two bytes exchanged. */
  function SwabField(s: seq<byte>, n: int): (r: seq<byte>)
    requires |s| == RadarHeaderSize && 15 <= n <= 47
    ensures |r| == RadarHeaderSize
  {
    var o := HalfwordOffset(n);
    s[o := s[o + 1]][o + 1 := s[o]]
  }

  /** Swap the halfword n of the header image in place, as one swab call on that field. */
  method SwabHalfword(a: array<byte>, n: int)
    requires a.Length == RadarHeaderSize && 15 <= n <= 47
    modifies a
    ensures a[..] == SwabField(old(a[..]), n)
  {
    var o := HalfwordOffset(n);
    ghost var s := a[o..o + 2];
    SwabInPlace(a, o, 2);
    SwabAt(s, 0);
    SwabAt(s, 1);
    assert a[o] == a[o..o + 2][0] && a[o + 1] == a[o..o + 2][1];
    forall k | 0 <= k < a.Length && k != o && k != o + 1 ensures a[k] == old(a[k]) {
      if k < o { assert a[k] == a[..o][k]; assert old(a[k]) == old(a[..o])[k]; }
      else { assert a[k] == a[o + 2..][k - o - 2]; assert old(a[k]) == old(a[o + 2..])[k - o - 2]; }
    }
  }

  /** The header with the milliseconds reversed and the listed halfwords below n swapped. */
  ghost predicate SwappedBelow(s: seq<byte>, h: seq<byte>, n: int)
    requires |s| == |h| == RadarHeaderSize
  {
    forall k :: 0 <= k < RadarHeaderSize ==>
      s[k] == h[if k < 4 || (k / 2 + 15 < n && SwabbedHalfword(k / 2 + 15)) then RadarHeaderSource(k) else k]
  }

  /** Swapping the next listed halfword extends the swapped part by one halfword. */
  lemma SwappedBelowStep(s: seq<byte>, h: seq<byte>, n: int)
    requires |s| == |h| == RadarHeaderSize && SwabbedHalfword(n)
    requires SwappedBelow(s, h, n)
    ensures SwappedBelow(SwabField(s, n), h, n + 1)
  {
  }

  /** A 32-bit field at the start of the header replaced by swap4 of itself. */
  method SetSwap4(a: array<byte>)
    requires a.Length >= 4
    modifies a
    ensures a[..] == Swap4(old(a[..])) + old(a[4..])
  {
    var v := Swap4(a[..4]);
    a[0], a[1], a[2], a[3] := v[0], v[1], v[2], v[3];
    assert a[..] == a[..4] + a[4..];
    assert a[..4] == v;
  }

  /** The milliseconds reversed and nothing else swapped yet. */
  lemma SwappedBelowStart(s: seq<byte>, h: seq<byte>)
    requires |h| == RadarHeaderSize && s == Swap4(h) + h[4..]
    ensures SwappedBelow(s, h, 17)
  {
  }

  /** Once every listed halfword is swapped, the header is the swapped header. */
  lemma SwappedBelowAll(s: seq<byte>, h: seq<byte>)
    requires |s| == |h| == RadarHeaderSize
    requires SwappedBelow(s, h, 48)
    ensures s == SwappedRadarHeader(h)
  {
  }

  /** The unlisted halfwords 31-32 and 38-41 need no swapping. */
  lemma SwappedBelowSkip(s: seq<byte>, h: seq<byte>, m: int, n: int)
    requires |s| == |h| == RadarHeaderSize
    requires (m, n) == (31, 33) || (m, n) == (38, 42)
    requires SwappedBelow(s, h, m)
    ensures SwappedBelow(s, h, n)
  {
  }

  /**
   * swapRadarHeader: the milliseconds (halfwords 15-16) through swap4, then
   * each listed halfword through swab, one after another in header order.
   */
  method SwapRadarHeader(a: array<byte>)
    requires a.Length == RadarHeaderSize
    modifies a
    ensures a[..] == SwappedRadarHeader(old(a[..]))
  {
    ghost var h := a[..];
    SetSwap4(a); // milliseconds_past_midnight
    ghost var g := a[..];
    SwappedBelowStart(g, h);
    SwabHalfword(a, 17); // julian_date
    SwappedBelowStep(g, h, 17); g := a[..];
    SwabHalfword(a, 18); // unamb_range_x10
    SwappedBelowStep(g, h, 18); g := a[..];
    SwabHalfword(a, 19); // azimuth
    SwappedBelowStep(g, h, 19); g := a[..];
    SwabHalfword(a, 20); // radial_num
    SwappedBelowStep(g, h, 20); g := a[..];
    SwabHalfword(a, 21); // radial_status
    SwappedBelowStep(g, h, 21); g := a[..];
    SwabHalfword(a, 22); // elevation
    SwappedBelowStep(g, h, 22); g := a[..];
    SwabHalfword(a, 23); // elev_num
    SwappedBelowStep(g, h, 23); g := a[..];
    SwabHalfword(a, 24); // ref_gate1
    SwappedBelowStep(g, h, 24); g := a[..];
    SwabHalfword(a, 25); // vel_gate1
    SwappedBelowStep(g, h, 25); g := a[..];
    SwabHalfword(a, 26); // ref_gate_width
    SwappedBelowStep(g, h, 26); g := a[..];
    SwabHalfword(a, 27); // vel_gate_width
    SwappedBelowStep(g, h, 27); g := a[..];
    SwabHalfword(a, 28); // ref_num_gates
    SwappedBelowStep(g, h, 28); g := a[..];
    SwabHalfword(a, 29); // vel_num_gates
    SwappedBelowStep(g, h, 29); g := a[..];
    SwabHalfword(a, 30); // sector_num
    SwappedBelowStep(g, h, 30); g := a[..];
    // 31-32: the system gain calibration constant is not swapped
    SwappedBelowSkip(g, h, 31, 33);
    SwabHalfword(a, 33); // ref_ptr
    SwappedBelowStep(g, h, 33); g := a[..];
    SwabHalfword(a, 34); // vel_ptr
    SwappedBelowStep(g, h, 34); g := a[..];
    SwabHalfword(a, 35); // sw_ptr
    SwappedBelowStep(g, h, 35); g := a[..];
    SwabHalfword(a, 36); // velocity_resolution
    SwappedBelowStep(g, h, 36); g := a[..];
    SwabHalfword(a, 37); // vol_coverage_pattern
    SwappedBelowStep(g, h, 37); g := a[..];
    // 38-41: the simulator reserved halfwords are not swapped
    SwappedBelowSkip(g, h, 38, 42);
    SwabHalfword(a, 42); // ref_data_playback
    SwappedBelowStep(g, h, 42); g := a[..];
    SwabHalfword(a, 43); // vel_data_playback
    SwappedBelowStep(g, h, 43); g := a[..];
    SwabHalfword(a, 44); // sw_data_playback
    SwappedBelowStep(g, h, 44); g := a[..];
    SwabHalfword(a, 45); // nyquist_vel_x100
    SwappedBelowStep(g, h, 45); g := a[..];
    SwabHalfword(a, 46); // atmos_atten_factor_x1000
    SwappedBelowStep(g, h, 46); g := a[..];
    SwabHalfword(a, 47); // threshold_parameter
    SwappedBelowStep(g, h, 47); g := a[..];
    SwappedBelowAll(g, h);
  }

  /**
   * The volume title as bytes: the 9-byte tape name, the 3-byte extension,
   * the 4-byte Julian date, the 4-byte milliseconds of the day and 4 spare bytes.
   */
  const VolTitleSize: nat := 24
  const VolDateOffset: nat := 12
  const VolTimeOffset: nat := 16

  /** The title after swapVolHeader: the date and time fields each swab'd over four bytes. */
  function SwappedVolTitle(t: seq<byte>): (r: seq<byte>)
    requires |t| == VolTitleSize
    ensures |r| == VolTitleSize
    ensures r[..VolDateOffset] == t[..VolDateOffset] && r[VolTimeOffset + 4..] == t[VolTimeOffset + 4..]
  {
    t[..VolDateOffset] + Swab(t[VolDateOffset..VolTimeOffset]) + Swab(t[VolTimeOffset..VolTimeOffset + 4])
      + t[VolTimeOffset + 4..]
  }

  /**
   * What swapVolHeader makes of the date and time: each field keeps its
   * halfwords in tape order, so a little-endian host reads the first
   * halfword's value plus 65536 times the second's.
   */
  lemma VolTitleFields(t: seq<byte>)
    requires |t| == VolTitleSize
    ensures var r := SwappedVolTitle(t);
      LittleEndian(r[12..16]) == BigEndian(t[12..14]) + 65536 * BigEndian(t[14..16]) &&
      LittleEndian(r[16..20]) == BigEndian(t[16..18]) + 65536 * BigEndian(t[18..20])
  {
    var r := SwappedVolTitle(t);
    assert r[12..16] == Swab(t[12..16]);
    assert r[16..20] == Swab(t[16..20]);
    SwabFour(t[12..16]);
    SwabFour(t[16..20]);
    assert t[12..16][..2] == t[12..14] && t[12..16][2..] == t[14..16];
    assert t[16..20][..2] == t[16..18] && t[16..20][2..] == t[18..20];
  }

  /** swapVolHeader: swab over the four bytes of the Julian date, then of the milliseconds. */
  method SwapVolHeader(a: array<byte>)
    requires a.Length == VolTitleSize
    modifies a
    ensures a[..] == SwappedVolTitle(old(a[..]))
  {
    ghost var t := a[..];
    SwabInPlace(a, VolDateOffset, 4);
    ghost var t1 := a[..];
    SwabInPlace(a, VolTimeOffset, 4);
    assert t1[..VolTimeOffset] == t[..VolDateOffset] + Swab(t[VolDateOffset..VolTimeOffset]) by {
      assert t1[..VolTimeOffset] == t1[..VolDateOffset] + t1[VolDateOffset..VolTimeOffset];
    }
    assert a[..] == a[..VolTimeOffset] + a[VolTimeOffset..VolTimeOffset + 4] + a[VolTimeOffset + 4..];
    assert a[..VolTimeOffset] == t1[..VolTimeOffset];
    assert t1[VolTimeOffset..VolTimeOffset + 4] == t[VolTimeOffset..VolTimeOffset + 4];
    assert a[VolTimeOffset + 4..] == t1[VolTimeOffset + 4..] == t[VolTimeOffset + 4..];
  }

  // ------------------------------------------------------ sweeps and rays

  /** Binary angles count in steps of 180/4096 degree. */
  const NexFixedAngle: real := 180.0 / 4096.0

  /** C's integer division, which truncates toward zero. */
  function TruncDiv(x: int, d: nat): (q: int)
    requires d > 0
    ensures x >= 0 ==> q == x / d
    ensures q * d <= x < q * d + d || q * d - d < x <= q * d
  {
    if x >= 0 then x / d else -((-x) / d)
  }

  /** The fields of the current digital radar data header the volume reads, already in host order. */
  datatype RadarHeader = RadarHeader(
    millisecondsPastMidnight: int, julianDate: int, unambRangeX10: int,
    azimuth: int, radialNum: int, elevation: int,
    refGate1: int, velGate1: int, refGateWidth: int, velGateWidth: int,
    refNumGates: int, velNumGates: int,
    velocityResolution: int, volCoveragePattern: int, nyquistVelX100: int)

  /** What addSweep records on a sweep. */
  datatype Sweep = Sweep(
    sweepIndex: int, firstRay: int, elevation: real, unambigRange: real, nyquistVel: real,
    firstRefGate: int, firstVelGate: int, refGatesp: int, velGatesp: int,
    refNumgates: int, velNumgates: int, vcp: int)

  /** What addRay records on a ray. */
  datatype Ray = Ray(
    sweepIndex: int, time: int, date: int, azimuth: real, elevation: real,
    velResolution: int, rayIndex: int,
    refData: seq<real>, velData: seq<real>, swData: seq<real>,
    unambigRange: real, nyquistVel: real,
    firstRefGate: int, firstVelGate: int, refGatesp: int, velGatesp: int,
    refNumgates: int, velNumgates: int, vcp: int)

  /** addSweep's Nyquist velocity: the integer quotient of the x100 field, converted afterwards. */
  function SweepNyquist(h: RadarHeader): real
  {
    TruncDiv(h.nyquistVelX100, 100) as real
  }

  /** addRay's Nyquist velocity: the x100 field divided as a float. */
  function RayNyquist(h: RadarHeader): real
  {
    h.nyquistVelX100 as real / 100.0
  }

  /** A sweep and a ray read from the same header agree on the Nyquist velocity exactly when it is a whole number of m/s. */
  lemma NyquistAgreement(h: RadarHeader)
    ensures SweepNyquist(h) == RayNyquist(h) <==> h.nyquistVelX100 % 100 == 0
    ensures h.nyquistVelX100 >= 0 ==> 0.0 <= RayNyquist(h) - SweepNyquist(h) < 1.0
  {
    var x := h.nyquistVelX100;
    var q := TruncDiv(x, 100);
    assert RayNyquist(h) * 100.0 == x as real;
    if SweepNyquist(h) == RayNyquist(h) {
      assert (q * 100) as real == q as real * 100.0 == x as real;
      assert x == q * 100;
    }
    if x % 100 == 0 {
      assert x == (x / 100) * 100;
      if x < 0 {
        assert -x == (-(x / 100)) * 100;
        assert (-x) / 100 == -(x / 100);
      }
      assert q * 100 == x;
    }
  }

  /** The sweep addSweep fills in: numbered from 1, starting at the next ray. */
  function NewSweep(h: RadarHeader, numSweeps: int, numRays: int): Sweep
  {
    Sweep(numSweeps + 1, numRays, h.elevation as real * NexFixedAngle,
          h.unambRangeX10 as real / 10.0, SweepNyquist(h),
          h.refGate1, h.velGate1, h.refGateWidth, h.velGateWidth,
          h.refNumGates, h.velNumGates, h.volCoveragePattern)
  }

  /** The ray addRay fills in: the 0-based index of the latest sweep, the header's geometry and the current gate data. */
  function NewRay(h: RadarHeader, numSweeps: int, refData: seq<real>, velData: seq<real>, swData: seq<real>): Ray
  {
    Ray(numSweeps - 1, h.millisecondsPastMidnight, h.julianDate,
        h.azimuth as real * NexFixedAngle, h.elevation as real * NexFixedAngle,
        h.velocityResolution, h.radialNum, refData, velData, swData,
        h.unambRangeX10 as real / 10.0, RayNyquist(h),
        h.refGate1, h.velGate1, h.refGateWidth, h.velGateWidth,
        h.refNumGates, h.velNumGates, h.volCoveragePattern)
  }

  const MaxSweeps: nat := 20
  const MaxRays: nat := 7500

  /**
   * A Level II volume being assembled: the sweeps and rays added so far
   * (bounded by the 20 and 7500 slots allocated), the current header and
   * the current gate data.
   */
  class Volume {
    var numSweeps: int
    var numRays: int
    var sweeps: seq<Sweep>
    var rays: seq<Ray>
    var header: RadarHeader
    var refData: seq<real>
    var velData: seq<real>
    var swData: seq<real>

    /**
     * The counters count the records; sweep k is numbered k + 1; the rays
     * are grouped by sweep: ray j carries 0-based sweep index k or more
     * exactly when it was added at or after sweep k's first ray.
     */
    ghost predicate Valid()
      reads this
    {
      numSweeps == |sweeps| <= MaxSweeps && numRays == |rays| <= MaxRays &&
      (forall k :: 0 <= k < |sweeps| ==> sweeps[k].sweepIndex == k + 1 && 0 <= sweeps[k].firstRay <= |rays|) &&
      (forall j :: 0 <= j < |rays| ==> -1 <= rays[j].sweepIndex < |sweeps|) &&
      (forall j, k :: 0 <= j < |rays| && 0 <= k < |sweeps| ==>
         (k <= rays[j].sweepIndex <==> sweeps[k].firstRay <= j))
    }

    /** An empty volume; the header and gate data are filled in as records are read. */
    constructor (h: RadarHeader)
      ensures Valid() && numSweeps == 0 && numRays == 0 && header == h
      ensures refData == [] && velData == [] && swData == []
    {
      numSweeps := 0;
      numRays := 0;
      sweeps := [];
      rays := [];
      header := h;
      refData := [];
      velData := [];
      swData := [];
    }

    /** addSweep: count the sweep and record it with the header's geometry. */
    method AddSweep()
      requires Valid() && numSweeps < MaxSweeps
      modifies this
      ensures Valid()
      ensures numSweeps == old(numSweeps) + 1 && numRays == old(numRays)
      ensures sweeps == old(sweeps) + [NewSweep(header, old(numSweeps), numRays)]
      ensures rays == old(rays) && header == old(header)
      ensures refData == old(refData) && velData == old(velData) && swData == old(swData)
    {
      numSweeps := numSweeps + 1;
      sweeps := sweeps + [NewSweep(header, numSweeps - 1, numRays)];
    }

    /** addRay: count the ray and record it under the latest sweep with the header's geometry and the current gate data. */
    method AddRay()
      requires Valid() && numRays < MaxRays
      modifies this
      ensures Valid()
      ensures numRays == old(numRays) + 1 && numSweeps == old(numSweeps)
      ensures rays == old(rays) + [NewRay(header, numSweeps, refData, velData, swData)]
      ensures sweeps == old(sweeps) && header == old(header)
      ensures refData == old(refData) && velData == old(velData) && swData == old(swData)
    {
      numRays := numRays + 1;
      rays := rays + [NewRay(header, numSweeps, refData, velData, swData)];
    }
  }

  /** In a valid volume each ray lies in the sweep whose first ray is the last one at or before it. */
  lemma RayInItsSweep(sweeps: seq<Sweep>, rays: seq<Ray>, j: int)
    requires forall k :: 0 <= k < |sweeps| ==> 0 <= sweeps[k].firstRay <= |rays|
    requires forall j, k :: 0 <= j < |rays| && 0 <= k < |sweeps| ==>
      (k <= rays[j].sweepIndex <==> sweeps[k].firstRay <= j)
    requires forall j :: 0 <= j < |rays| ==> -1 <= rays[j].sweepIndex < |sweeps|
    requires 0 <= j < |rays| && rays[j].sweepIndex >= 0
    ensures var k := rays[j].sweepIndex;
      sweeps[k].firstRay <= j && (k + 1 < |sweeps| ==> j < sweeps[k + 1].firstRay)
  {
  }
}
