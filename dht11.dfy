/** src/dht11.rs: the DHT11 temperature and humidity sensor driver. The pin
    and the clock are abstracted: a wait for a level polls a sequence of
    samples (the level read and the microseconds elapsed since the wait
    began), and a measured pulse width is `Some(us)`, or `None` when one of
    the two waits around it timed out. */
module Dht11 {
  import opened Common

  datatype Dh11Error = TimeOut | ChecksumError | TimeAnomaly

  // ----- Waiting for a level -----

  /** One poll of the data line: the level read, then the time elapsed
      since the wait began. */
  datatype Sample = Sample(high: bool, elapsed: nat)

  /** A poll that ends the wait: the level is reached, or the time is up. */
  predicate Stops(s: Sample, target: bool, timeoutUs: nat)
  {
    s.high == target || s.elapsed > timeoutUs
  }

  /** `wait_for_level`: poll until the line is at `target` (Ok) or more than
      `timeoutUs` microseconds have elapsed (TimeOut); the level is checked
      before the clock. `polls` is the number of samples consumed. The
      requirement says the wait ends: the clock keeps running. */
  method WaitForLevel(samples: seq<Sample>, target: bool, timeoutUs: nat) returns (r: Result<(), Dh11Error>, polls: nat)
    requires exists i :: 0 <= i < |samples| && Stops(samples[i], target, timeoutUs)
    ensures 1 <= polls <= |samples|
    ensures forall i :: 0 <= i < polls - 1 ==> !Stops(samples[i], target, timeoutUs)
    ensures Stops(samples[polls - 1], target, timeoutUs)
    ensures r.Ok? <==> samples[polls - 1].high == target
    ensures r.Err? ==> r.error == TimeOut
  {
    polls := 0;
    while true
      invariant polls < |samples|
      invariant forall i :: 0 <= i < polls ==> !Stops(samples[i], target, timeoutUs)
      decreases |samples| - polls
    {
      var s := samples[polls];
      polls := polls + 1;
      if s.high == target {
        return Ok(()), polls;
      }
      if s.elapsed > timeoutUs {
        return Err(TimeOut), polls;
      }
    }
  }

  // ----- The response handshake -----

  /** The accepted width of each response pulse, in microseconds. */
  predicate InResponseWindow(pulse: nat)
  {
    20 <= pulse <= 100
  }

  /** `check_sensor_response`, given the widths of the low and the high
      response pulses. The high pulse is only looked at once the low one
      has passed. */
  function CheckSensorResponse(low: Option<nat>, high: Option<nat>): (r: Result<(), Dh11Error>)
    ensures r.Ok? <==> low.Some? && InResponseWindow(low.value) && high.Some? && InResponseWindow(high.value)
    ensures r == Err(TimeOut) <==> low.None? || (InResponseWindow(low.value) && high.None?)
    ensures r == Err(TimeAnomaly) <==>
              low.Some? && (!InResponseWindow(low.value) || (high.Some? && !InResponseWindow(high.value)))
    ensures r.Err? ==> r.error != ChecksumError
  {
    match low
    case None => Err(TimeOut)
    case Some(lowPulse) =>
      if !InResponseWindow(lowPulse) then Err(TimeAnomaly)
      else
        match high
        case None => Err(TimeOut)
        case Some(highPulse) =>
          if !InResponseWindow(highPulse) then Err(TimeAnomaly) else Ok(())
  }

  /** When the low pulse fails, the outcome does not depend on the high
      pulse: it is never measured. */
  lemma ResponseLowFirst(low: Option<nat>, high: Option<nat>, high': Option<nat>)
    requires low.None? || !InResponseWindow(low.value)
    ensures CheckSensorResponse(low, high) == CheckSensorResponse(low, high')
    ensures CheckSensorResponse(low, high).Err?
  {
  }

  // ----- The 40-bit frame -----

  /** A data bit is 1 exactly when its high pulse lasts more than 30 us. */
  function BitOf(pulse: nat): (b: nat)
    ensures b < 2
    ensures b == 1 <==> pulse > 30
  {
    if pulse > 30 then 1 else 0
  }

  /** The width of the k-th data pulse; a pulse beyond the end of the
      measurements is a timeout. */
  function PulseAt(pulses: seq<Option<nat>>, k: nat): Option<nat>
  {
    if k < |pulses| then pulses[k] else None
  }

  predicate AllMeasured(pulses: seq<Option<nat>>, k: nat)
  {
    forall i :: 0 <= i < k ==> PulseAt(pulses, i).Some?
  }

  /** The bits of the first `k` pulses, in arrival order. */
  function Bits(pulses: seq<Option<nat>>, k: nat): (bs: seq<nat>)
    requires AllMeasured(pulses, k)
    ensures |bs| == k
    ensures forall i :: 0 <= i < k ==> bs[i] == BitOf(PulseAt(pulses, i).value)
  {
    if k == 0 then [] else Bits(pulses, k - 1) + [BitOf(PulseAt(pulses, k - 1).value)]
  }

  predicate IsBits(bs: seq<nat>)
  {
    forall i :: 0 <= i < |bs| ==> bs[i] < 2
  }

  /** The value of a bit string read most significant bit first. */
  function ByteValue(bs: seq<nat>): (v: nat)
    requires IsBits(bs)
    ensures v < Pow2(|bs|)
  {
    if bs == [] then 0 else 2 * ByteValue(bs[..|bs| - 1]) + bs[|bs| - 1]
  }

  lemma {:induction false} Pow2Monotone(a: nat, b: nat)
    requires a <= b
    ensures Pow2(a) <= Pow2(b)
  {
    if a < b {
      Pow2Monotone(a, b - 1);
    }
  }

  /** The bits that belong to byte `j` among those received so far. */
  function ByteSlice(bs: seq<nat>, j: nat): (s: seq<nat>)
    ensures |s| <= 8
  {
    var lo := if 8 * j < |bs| then 8 * j else |bs|;
    var hi := if 8 * j + 8 < |bs| then 8 * j + 8 else |bs|;
    bs[lo..hi]
  }

  /** Byte `j` after the bits `bs` have been shifted in. */
  function Partial(bs: seq<nat>, j: nat): (b: Byte)
    requires IsBits(bs)
  {
    var s := ByteSlice(bs, j);
    Pow2Monotone(|s|, 8);
    ByteValue(s)
  }

  /** The five bytes after the bits `bs` have been shifted in. */
  function PartialFrame(bs: seq<nat>): (f: seq<Byte>)
    requires IsBits(bs)
    ensures |f| == 5 && forall j :: 0 <= j < 5 ==> f[j] == Partial(bs, j)
  {
    [Partial(bs, 0), Partial(bs, 1), Partial(bs, 2), Partial(bs, 3), Partial(bs, 4)]
  }

  /** Forty bits make five bytes, each from eight consecutive bits, most
      significant first. */
  function Frame(bits: seq<nat>): (f: seq<Byte>)
    requires |bits| == 40 && IsBits(bits)
    ensures |f| == 5
  {
    PartialFrame(bits)
  }

  /** Byte `j` of a frame is the value of bits `8j .. 8j + 8`. */
  lemma FrameMsbFirst(bits: seq<nat>, j: nat)
    requires |bits| == 40 && IsBits(bits) && j < 5
    ensures Frame(bits)[j] == ByteValue(bits[8 * j..8 * j + 8])
  {
  }

  /** `b <<= 1` on a `u8`: the top bit falls off. */
  function ShiftLeft(b: Byte): (r: Byte)
    ensures r % 2 == 0
    ensures b < 128 ==> r == 2 * b
  {
    (b * 2) % 256
  }

  /** `b |= bit` for a single bit. */
  function OrBit(b: Byte, bit: nat): (r: Byte)
    requires bit < 2
    ensures b % 2 == 0 ==> r == b + bit
    ensures bit == 0 ==> r == b
  {
    if bit == 1 && b % 2 == 0 then b + 1 else b
  }

  /** Shifting one more bit in changes only the byte it belongs to. */
  lemma ShiftInByte(bs: seq<nat>, bit: nat, j: nat)
    requires IsBits(bs) && bit < 2 && |bs| < 40
    ensures IsBits(bs + [bit])
    ensures Partial(bs + [bit], j) ==
              if j == |bs| / 8 then OrBit(ShiftLeft(Partial(bs, j)), bit) else Partial(bs, j)
  {
    var bs' := bs + [bit];
    var k := |bs|;
    if j == k / 8 {
      var s := ByteSlice(bs, j);
      assert ByteSlice(bs', j) == s + [bit];
      assert (s + [bit])[..|s|] == s;
      assert |s| == k - 8 * j < 8;
      Pow2Monotone(|s|, 7);
    } else if j < k / 8 {
      assert ByteSlice(bs', j) == ByteSlice(bs, j);
    } else {
      assert ByteSlice(bs', j) == [] == ByteSlice(bs, j);
    }
  }

  /** The whole frame after one more bit. */
  lemma ShiftIn(bs: seq<nat>, bit: nat)
    requires IsBits(bs) && bit < 2 && |bs| < 40
    ensures IsBits(bs + [bit])
    ensures PartialFrame(bs + [bit]) ==
              PartialFrame(bs)[|bs| / 8 := OrBit(ShiftLeft(PartialFrame(bs)[|bs| / 8]), bit)]
  {
    var j0 := |bs| / 8;
    var f := PartialFrame(bs);
    var g := f[j0 := OrBit(ShiftLeft(f[j0]), bit)];
    var h := PartialFrame(bs + [bit]);
    forall j | 0 <= j < 5
      ensures h[j] == g[j]
    {
      ShiftInByte(bs, bit, j);
    }
  }

  /** The checksum byte is the low byte of the sum of the other four. */
  predicate ChecksumOk(bytes: seq<Byte>)
    requires |bytes| == 5
  {
    (bytes[0] as int + bytes[1] + bytes[2] + bytes[3]) % 256 == bytes[4]
  }

  /** What `dh11_read` computes from the measured data pulses: TimeOut as
      soon as one of the forty is missing, otherwise the packed frame,
      refused with ChecksumError when its checksum does not match. */
  function Decode(pulses: seq<Option<nat>>): (r: Result<seq<Byte>, Dh11Error>)
  {
    if !AllMeasured(pulses, 40) then Err(TimeOut)
    else
      var bytes := Frame(Bits(pulses, 40));
      if !ChecksumOk(bytes) then Err(ChecksumError) else Ok(bytes)
  }

  /** The outcomes of a read: a timeout exactly when a pulse is missing, a
      checksum error exactly when all forty arrived and the checksum does
      not match, and otherwise five bytes whose checksum holds. */
  lemma DecodeOutcomes(pulses: seq<Option<nat>>)
    ensures Decode(pulses) == Err(TimeOut) <==> exists k :: 0 <= k < 40 && PulseAt(pulses, k).None?
    ensures Decode(pulses) == Err(ChecksumError) <==>
              AllMeasured(pulses, 40) && !ChecksumOk(Frame(Bits(pulses, 40)))
    ensures Decode(pulses).Ok? ==>
              && AllMeasured(pulses, 40)
              && Decode(pulses).value == Frame(Bits(pulses, 40))
              && ChecksumOk(Decode(pulses).value)
    ensures Decode(pulses) != Err(TimeAnomaly)
  {
  }

  /** The five bytes after the bits `bs` have been shifted in one at a
      time into byte `k / 8` by `<<= 1` and `|= bit`. */
  function ShiftedIn(bs: seq<nat>): (f: seq<Byte>)
    requires IsBits(bs) && |bs| <= 40
    ensures |f| == 5
  {
    if bs == [] then [0, 0, 0, 0, 0]
    else
      var k := |bs| - 1;
      var f := ShiftedIn(bs[..k]);
      f[k / 8 := OrBit(ShiftLeft(f[k / 8]), bs[k])]
  }

  /** Shifting bits in one at a time packs them MSB-first: byte `j` holds
      the value of the bits that belong to it. */
  lemma {:induction false} ShiftedInMsbFirst(bs: seq<nat>)
    requires IsBits(bs) && |bs| <= 40
    ensures ShiftedIn(bs) == PartialFrame(bs)
  {
    if bs != [] {
      var k := |bs| - 1;
      ShiftedInMsbFirst(bs[..k]);
      ShiftIn(bs[..k], bs[k]);
      assert bs[..k] + [bs[k]] == bs;
    }
  }

  /** One pass of the loop in `dh11_read`: `bytes[bit_index / 8] <<= 1;
      bytes[bit_index / 8] |= bit`. */
  method ShiftBitIn(bytes: array<Byte>, bitIndex: nat, bit: nat, ghost bits: seq<nat>)
    requires bytes.Length == 5 && IsBits(bits) && |bits| == bitIndex < 40 && bit < 2
    requires bytes[..] == ShiftedIn(bits)
    modifies bytes
    ensures IsBits(bits + [bit])
    ensures bytes[..] == ShiftedIn(bits + [bit])
  {
    assert (bits + [bit])[..bitIndex] == bits;
    bytes[bitIndex / 8] := ShiftLeft(bytes[bitIndex / 8]);
    bytes[bitIndex / 8] := OrBit(bytes[bitIndex / 8], bit);
  }

  /** The bits read so far are those of the first pulses. */
  ghost predicate BitsOf(pulses: seq<Option<nat>>, bits: seq<nat>)
  {
    && IsBits(bits)
    && forall i :: 0 <= i < |bits| ==> PulseAt(pulses, i).Some? && bits[i] == BitOf(PulseAt(pulses, i).value)
  }

  /** A measured pulse adds its bit to those read so far. */
  lemma BitsOfSnoc(pulses: seq<Option<nat>>, bits: seq<nat>, pulse: nat)
    requires BitsOf(pulses, bits) && PulseAt(pulses, |bits|) == Some(pulse)
    ensures BitsOf(pulses, bits + [BitOf(pulse)])
  {
    var bits' := bits + [BitOf(pulse)];
    forall i | 0 <= i < |bits'|
      ensures PulseAt(pulses, i).Some? && bits'[i] == BitOf(PulseAt(pulses, i).value)
    {
      if i < |bits| {
        assert bits'[i] == bits[i];
      }
    }
  }

  /** The checksum test at the end of `dh11_read`, on the `u16` sum of the
      first four bytes. */
  method CheckFrameSum(frame: seq<Byte>) returns (r: Result<seq<Byte>, Dh11Error>)
    requires |frame| == 5
    ensures r == if ChecksumOk(frame) then Ok(frame) else Err(ChecksumError)
  {
    var sum: U16 := frame[0] as int + frame[1] + frame[2] + frame[3];
    if sum % 256 != frame[4] {
      return Err(ChecksumError);
    }
    return Ok(frame);
  }

  /** A missing pulse among the forty makes the read time out. */
  lemma DecodeMissing(pulses: seq<Option<nat>>, k: nat)
    requires k < 40 && PulseAt(pulses, k).None?
    ensures Decode(pulses) == Err(TimeOut)
  {
  }

  /** Once all forty bits are in, the read is their frame, checked. */
  lemma DecodeComplete(pulses: seq<Option<nat>>, bits: seq<nat>)
    requires |bits| == 40 && BitsOf(pulses, bits)
    ensures AllMeasured(pulses, 40) && Bits(pulses, 40) == bits
    ensures Decode(pulses) == if ChecksumOk(ShiftedIn(bits)) then Ok(ShiftedIn(bits)) else Err(ChecksumError)
  {
    ShiftedInMsbFirst(bits);
    assert AllMeasured(pulses, 40);
    assert Bits(pulses, 40) == bits;
  }

  /** `dh11_read`: forty pulses shifted MSB-first into five bytes, with
      `bytes[bit_index / 8] <<= 1; bytes[bit_index / 8] |= bit`, then the
      checksum. A timeout on any bit aborts the read with no partial
      result. */
  method Dh11Read(pulses: seq<Option<nat>>) returns (r: Result<seq<Byte>, Dh11Error>)
    ensures r == Decode(pulses)
  {
    var bytes := new Byte[5] [0, 0, 0, 0, 0];
    ghost var bits: seq<nat> := [];
    for bitIndex := 0 to 40
      invariant |bits| == bitIndex && BitsOf(pulses, bits)
      invariant bytes[..] == ShiftedIn(bits)
    {
      var pulse := PulseAt(pulses, bitIndex);
      if pulse.None? {
        DecodeMissing(pulses, bitIndex);
        return Err(TimeOut);
      }
      var bit := BitOf(pulse.value);
      ShiftBitIn(bytes, bitIndex, bit, bits);
      BitsOfSnoc(pulses, bits, pulse.value);
      bits := bits + [bit];
    }
    DecodeComplete(pulses, bits);
    r := CheckFrameSum(bytes[..]);
  }

  // ----- A reference encoder: what a sensor sends for a frame -----

  /** The eight bits of a byte, most significant first. */
  function ByteBits(v: nat, w: nat): (bs: seq<nat>)
    ensures |bs| == w && IsBits(bs)
  {
    if w == 0 then [] else ByteBits(v / 2, w - 1) + [v % 2]
  }

  lemma {:induction false} ByteBitsValue(v: nat, w: nat)
    requires v < Pow2(w)
    ensures ByteValue(ByteBits(v, w)) == v
  {
    if w > 0 {
      var bs := ByteBits(v, w);
      assert bs[..w - 1] == ByteBits(v / 2, w - 1);
      ByteBitsValue(v / 2, w - 1);
    }
  }

  /** The bits a sensor sends for a sequence of bytes, each byte most
      significant bit first. */
  function FrameBits(bytes: seq<Byte>): (bits: seq<nat>)
    ensures |bits| == 8 * |bytes| && IsBits(bits)
  {
    if bytes == [] then [] else FrameBits(bytes[..|bytes| - 1]) + ByteBits(bytes[|bytes| - 1], 8)
  }

  /** Bits `8j .. 8j + 8` of the sent bits are those of byte `j`. */
  lemma {:induction false} FrameBitsAt(bytes: seq<Byte>, j: nat)
    requires j < |bytes|
    ensures FrameBits(bytes)[8 * j..8 * j + 8] == ByteBits(bytes[j], 8)
  {
    var n := |bytes| - 1;
    var init := FrameBits(bytes[..n]);
    assert FrameBits(bytes) == init + ByteBits(bytes[n], 8);
    if j < n {
      FrameBitsAt(bytes[..n], j);
      assert FrameBits(bytes)[8 * j..8 * j + 8] == init[8 * j..8 * j + 8];
    } else {
      assert FrameBits(bytes)[8 * j..8 * j + 8] == FrameBits(bytes)[|init|..];
    }
  }

  /** The pulse widths from the DHT11 datasheet: about 70 us for a 1 and
      26 us for a 0. */
  function PulsesFor(bits: seq<nat>): (ps: seq<Option<nat>>)
    ensures |ps| == |bits|
    ensures forall i :: 0 <= i < |bits| ==> ps[i] == Some(if bits[i] == 1 then 70 else 26)
  {
    if bits == [] then [] else PulsesFor(bits[..|bits| - 1]) + [Some(if bits[|bits| - 1] == 1 then 70 else 26)]
  }

  /** The sensor's pulses are all measured and read back as its bits. */
  lemma PulsesForBits(bits: seq<nat>)
    requires IsBits(bits)
    ensures AllMeasured(PulsesFor(bits), |bits|)
    ensures Bits(PulsesFor(bits), |bits|) == bits
  {
    var ps := PulsesFor(bits);
    assert AllMeasured(ps, |bits|);
    var bs := Bits(ps, |bits|);
    forall i | 0 <= i < |bits|
      ensures bs[i] == bits[i]
    {
      assert PulseAt(ps, i) == ps[i];
    }
  }

  /** The frame of a sensor's bits is the bytes it sent. */
  lemma FrameOfBits(bytes: seq<Byte>)
    requires |bytes| == 5
    ensures Frame(FrameBits(bytes)) == bytes
  {
    var bits := FrameBits(bytes);
    assert Pow2(8) == 256;
    forall j | 0 <= j < 5
      ensures Frame(bits)[j] == bytes[j]
    {
      FrameMsbFirst(bits, j);
      FrameBitsAt(bytes, j);
      ByteBitsValue(bytes[j], 8);
    }
  }

  /** A frame sent with the right checksum is read back as sent; one with
      a wrong checksum is refused. */
  lemma DecodeSent(bytes: seq<Byte>)
    requires |bytes| == 5
    ensures ChecksumOk(bytes) ==> Decode(PulsesFor(FrameBits(bytes))) == Ok(bytes)
    ensures !ChecksumOk(bytes) ==> Decode(PulsesFor(FrameBits(bytes))) == Err(ChecksumError)
  {
    PulsesForBits(FrameBits(bytes));
    FrameOfBits(bytes);
  }
}
