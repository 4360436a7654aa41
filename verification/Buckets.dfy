/**
 Which frames are counted, and where: by their lengths, their EtherType and the
 protocol number of the packet they carry, on every string of bytes.
 */
module Buckets {
  import opened Prelude
  import opened ProtoManager
  import opened Frame
  import opened KernelRuns

  /** The two bytes behind the hardware addresses. */
  predicate HasEtherType(frame: Bytes, hi: byte, lo: byte) {
    |frame| >= 14 && frame[12] == hi && frame[13] == lo
  }

  /** An Ethernet and the fixed part of an IPv4 header. */
  predicate HoldsIpv4(frame: Bytes) {
    HasEtherType(frame, 0x08, 0x00) && |frame| >= 34
  }

  /** An Ethernet and an IPv6 header. */
  predicate HoldsIpv6(frame: Bytes) {
    HasEtherType(frame, 0x86, 0xDD) && |frame| >= 54
  }

  /** The frame begins a valid IPv4 packet with this protocol number. */
  ghost predicate Carries(frame: Bytes, number: nat) {
    exists p, info :: BeginsPacket(frame, p, info) && p.proto == number
  }

  lemma EtherTypeIs(frame: Bytes, hi: byte, lo: byte)
    requires |frame| >= 14
    ensures FromBe16(frame[12], frame[13]) == FromBe16(hi, lo) <==> HasEtherType(frame, hi, lo)
  {
    Be16OfBytes(frame[12], frame[13]);
    Be16OfBytes(hi, lo);
  }

  /** A frame is counted exactly when it holds an IP header of either version, valid or not. */
  lemma CountedIff(frame: Bytes)
    ensures ParseL4Protocol(frame).Some? <==> HoldsIpv4(frame) || HoldsIpv6(frame)
    ensures ParseL4Protocol(frame) == Some(V6) <==> HoldsIpv6(frame)
  {
    if |frame| >= 14 {
      EtherTypeIs(frame, 0x08, 0x00);
      EtherTypeIs(frame, 0x86, 0xDD);
      assert FromBe16(0x08, 0x00) == 0x0800 && FromBe16(0x86, 0xDD) == 0x86DD;
    }
    hide FromBe16;
  }

  lemma SeenNumber(frame: Bytes)
    ensures ParseL4Protocol(frame).Some? && ParseL4Protocol(frame).value.V4? ==>
              Carries(frame, ParseL4Protocol(frame).value.proto)
    ensures forall number :: Carries(frame, number) ==>
              ParseL4Protocol(frame).Some? && ParseL4Protocol(frame).value.V4?
              && ParseL4Protocol(frame).value.proto == number
  {
    hide ParseL4Protocol, Encode;
    if ParseL4Protocol(frame).Some? && ParseL4Protocol(frame).value.V4? {
      var info := ParseL4Protocol(frame).value;
      V4IsExact(frame, info);
      var p :| BeginsPacket(frame, p, info);
    }
    forall number | Carries(frame, number)
      ensures ParseL4Protocol(frame).Some? && ParseL4Protocol(frame).value.V4?
              && ParseL4Protocol(frame).value.proto == number
    {
      var p, info :| BeginsPacket(frame, p, info) && p.proto == number;
      V4IsExact(frame, info);
    }
  }

  /**
   The buckets: ICMP is protocol 1, TCP is 6, UDP is 17, IPv6 is every frame
   that holds its header, and what is left of IPv4, malformed headers included,
   is other.
   */
  lemma BucketIff(frame: Bytes)
    ensures InBucket(frame, Icmp) <==> Carries(frame, 1)
    ensures InBucket(frame, Tcp) <==> Carries(frame, 6)
    ensures InBucket(frame, Udp) <==> Carries(frame, 17)
    ensures InBucket(frame, Ipv6) <==> HoldsIpv6(frame)
    ensures InBucket(frame, Other) <==>
              HoldsIpv4(frame) && !Carries(frame, 1) && !Carries(frame, 6) && !Carries(frame, 17)
  {
    CountedIff(frame);
    SeenNumber(frame);
    VersionsDiffer(frame);
    hide ParseL4Protocol, Carries, HoldsIpv4, HoldsIpv6;
  }

  lemma VersionsDiffer(frame: Bytes)
    ensures !(HoldsIpv4(frame) && HoldsIpv6(frame))
  {}

  /** No frame is counted in two buckets. */
  lemma OneBucket(frame: Bytes, a: Proto, b: Proto)
    requires InBucket(frame, a) && InBucket(frame, b)
    ensures a == b
  {}
}
