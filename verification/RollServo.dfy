/** The roll servo interface of src/devices/rollservo.c: fin angle to pulse ticks, and the 7-byte servo command. */
module RollServo {
  import opened Bytes

  const MAX_CANARD_ANGLE := 15.0
  const MIN_CANARD_ANGLE := -15.0

  const PWM_TICKS_MAX := 56000
  const PWM_US_MAX := 3333
  const MAX_SERVO_POSITION_US := 1900
  const MIN_SERVO_POSITION_US := 1100
  // Integer division, as in the macros.
  const MAX_SERVO_POSITION_TICKS := MAX_SERVO_POSITION_US * PWM_TICKS_MAX / PWM_US_MAX
  const MIN_SERVO_POSITION_TICKS := MIN_SERVO_POSITION_US * PWM_TICKS_MAX / PWM_US_MAX

  const PWM_TICKS_PER_DEGREE :=
    (MAX_SERVO_POSITION_TICKS - MIN_SERVO_POSITION_TICKS) as real / (MAX_CANARD_ANGLE - MIN_CANARD_ANGLE)
  const PWM_TICKS_CENTER := MIN_SERVO_POSITION_TICKS as real - PWM_TICKS_PER_DEGREE * MIN_CANARD_ANGLE

  datatype RollServoData = RollServoData(angle: real, disable: bool)

  function ClampAngle(degrees: real): (r: real)
    ensures MIN_CANARD_ANGLE <= r <= MAX_CANARD_ANGLE
    ensures MIN_CANARD_ANGLE <= degrees <= MAX_CANARD_ANGLE ==> r == degrees
  {
    if degrees < MIN_CANARD_ANGLE then MIN_CANARD_ANGLE
    else if degrees > MAX_CANARD_ANGLE then MAX_CANARD_ANGLE
    else degrees
  }

  function RawTicks(angle: real): real {
    PWM_TICKS_PER_DEGREE * angle + PWM_TICKS_CENTER
  }

  /** Angles whose raw ticks a 16-bit unsigned integer can hold after truncation. */
  predicate Convertible(angle: real) {
    0.0 <= RawTicks(angle) < 65536.0
  }

  /** Truncation of a double to uint16_t, then CLAMP. */
  function Ticks(angle: real): (ticks: int)
    requires Convertible(angle)
    ensures MIN_SERVO_POSITION_TICKS <= ticks <= MAX_SERVO_POSITION_TICKS
  {
    var ticks := RawTicks(angle).Floor;
    if ticks < MIN_SERVO_POSITION_TICKS then MIN_SERVO_POSITION_TICKS
    else if ticks > MAX_SERVO_POSITION_TICKS then MAX_SERVO_POSITION_TICKS
    else ticks
  }

  /** The pulse limits in ticks, and the exact line through them. */
  lemma TickScale()
    ensures MIN_SERVO_POSITION_TICKS == 18481 && MAX_SERVO_POSITION_TICKS == 31923
    ensures PWM_TICKS_CENTER == 25202.0 && PWM_TICKS_PER_DEGREE * 15.0 == 6721.0
  {
  }

  /** A clamped angle is always convertible, and its ticks never need clamping: both limits are met exactly. */
  lemma ClampedAngleConverts(degrees: real)
    ensures var angle := ClampAngle(degrees);
            Convertible(angle) && Ticks(angle) == RawTicks(angle).Floor
    ensures Ticks(MIN_CANARD_ANGLE) == MIN_SERVO_POSITION_TICKS && Ticks(MAX_CANARD_ANGLE) == MAX_SERVO_POSITION_TICKS
  {
    TickScale();
  }

  /** Over the whole range the ticks are 25202 plus the angle's share of 6721 ticks for 15 degrees, rounded down. */
  lemma TicksAre(angle: real)
    requires -15.0 <= angle <= 15.0
    ensures Convertible(angle) && Ticks(angle) == (25202.0 + 6721.0 * angle / 15.0).Floor
  {
    TickScale();
    ClampedAngleConverts(angle);
    assert RawTicks(angle) == 25202.0 + 6721.0 * angle / 15.0;
  }

  lemma TicksMonotone(a: real, b: real)
    requires Convertible(a) && Convertible(b) && a <= b
    ensures Ticks(a) <= Ticks(b)
  {
    TickScale();
    assert RawTicks(a) <= RawTicks(b);
  }

  lemma ClampMonotone(a: real, b: real)
    requires a <= b
    ensures ClampAngle(a) <= ClampAngle(b)
  {
  }

  // ---------------------------------------------------------------- the command

  /** Sequence number, ticks and disable flag as sent to the servo board. */
  function EncodeCommand(seqNo: nat, ticks: nat, disable: bool): (bs: seq<byte>)
    ensures |bs| == 7
  {
    BigEndian(seqNo, 4) + BigEndian(ticks, 2) + [if disable then 1 else 0]
  }

  datatype Command = Command(seqNo: nat, ticks: nat, disable: bool)

  function DecodeCommand(bs: seq<byte>): Command
    requires |bs| == 7
  {
    Command(FromBigEndian(bs[..4]), FromBigEndian(bs[4..6]), bs[6] != 0)
  }

  lemma CommandRoundTrip(seqNo: nat, ticks: nat, disable: bool)
    requires seqNo < TWO_32 && ticks < TWO_16
    ensures DecodeCommand(EncodeCommand(seqNo, ticks, disable)) == Command(seqNo, ticks, disable)
  {
    hide BigEndian, FromBigEndian;
    var bs := EncodeCommand(seqNo, ticks, disable);
    assert bs[..4] == BigEndian(seqNo, 4) && bs[4..6] == BigEndian(ticks, 2);
    DecodeEncode(seqNo, 4);
    DecodeEncode(ticks, 2);
    Widths();
  }

  /** The k-th command of a run. */
  function NthCommand(k: nat, adj: RollServoData): Command
    requires Convertible(adj.angle)
  {
    TickScale();
    Command(k % TWO_32, Ticks(adj.angle), adj.disable)
  }

  class RollServo {
    var seqNo: nat
    /** The datagrams written to the servo board. */
    var written: seq<seq<byte>>
    /** What they were written for. */
    ghost var adjusted: seq<RollServoData>

    /** The k-th datagram decodes to the number k mod 2^32 and the ticks and flag of the k-th adjustment. */
    ghost predicate Valid()
      reads this
    {
      && seqNo == |written| % TWO_32 && |adjusted| == |written|
      && forall k :: 0 <= k < |written| ==>
           && Convertible(adjusted[k].angle) && |written[k]| == 7
           && DecodeCommand(written[k]) == NthCommand(k, adjusted[k])
    }

    constructor ()
      ensures Valid() && written == []
    {
      seqNo, written, adjusted := 0, [], [];
    }

    /** The tick value for an angle: truncated to a 16-bit integer, then clamped. */
    method ToTicks(angle: real) returns (ticks: nat)
      requires Convertible(angle)
      ensures ticks == Ticks(angle) && ticks < TWO_16
    {
      TickScale();
      var raw := RawTicks(angle).Floor;
      ticks := if raw < MIN_SERVO_POSITION_TICKS then MIN_SERVO_POSITION_TICKS
               else if raw > MAX_SERVO_POSITION_TICKS then MAX_SERVO_POSITION_TICKS else raw;
    }

    /** The bytes of a command, most significant first. */
    method ToBytes(number: nat, ticks: nat, disable: bool) returns (data: seq<byte>)
      ensures data == EncodeCommand(number, ticks, disable)
    {
      data := [number / 0x100_0000 % 256, number / 0x1_0000 % 256, number / 0x100 % 256, number % 256,
               ticks / 0x100 % 256, ticks % 256, if disable then 1 else 0];
      CommandBytes(number, ticks, disable);
    }

    method RsReceiveAdj(adj: RollServoData)
      requires Valid() && Convertible(adj.angle)
      modifies this
      ensures Valid() && adjusted == old(adjusted) + [adj]
      ensures |written| == |old(written)| + 1 && written[..|old(written)|] == old(written)
    {
      hide EncodeCommand, DecodeCommand, BigEndian, FromBigEndian, Convertible, NthCommand, Ticks, RawTicks;
      var ticks := ToTicks(adj.angle);
      var data := ToBytes(seqNo, ticks, adj.disable);
      CommandRoundTrip(seqNo, ticks, adj.disable);
      NthIs(|written|, adj);
      written := written + [data];
      adjusted := adjusted + [adj];
      seqNo := (seqNo + 1) % TWO_32;
    }
  }

  lemma NthIs(k: nat, adj: RollServoData)
    requires Convertible(adj.angle)
    ensures Ticks(adj.angle) >= 0 && NthCommand(k, adj) == Command(k % TWO_32, Ticks(adj.angle), adj.disable)
  {
    TickScale();
  }

  lemma CommandBytes(seqNo: nat, ticks: nat, disable: bool)
    ensures EncodeCommand(seqNo, ticks, disable) ==
            [seqNo / 0x100_0000 % 256, seqNo / 0x1_0000 % 256, seqNo / 0x100 % 256, seqNo % 256,
             ticks / 0x100 % 256, ticks % 256, if disable then 1 else 0]
  {
    assert seqNo / 0x100 / 0x100 == seqNo / 0x1_0000;
    assert seqNo / 0x1_0000 / 0x100 == seqNo / 0x100_0000;
    assert BigEndian(seqNo, 4) == BigEndian(seqNo / 0x1_0000, 2) + [seqNo / 0x100 % 256, seqNo % 256] by {
      assert BigEndian(seqNo, 4) == BigEndian(seqNo / 0x100, 3) + [seqNo % 256];
    }
    assert BigEndian(seqNo / 0x1_0000, 2) == [seqNo / 0x100_0000 % 256, seqNo / 0x1_0000 % 256] by {
      assert BigEndian(seqNo / 0x100_0000, 1) == [seqNo / 0x100_0000 % 256];
    }
    assert BigEndian(ticks, 2) == [ticks / 0x100 % 256, ticks % 256] by {
      assert BigEndian(ticks / 0x100, 1) == [ticks / 0x100 % 256];
    }
  }
}
