/**
 The wire format of an alert, as far as the receiver correlates by it: the
 label set, and whether the message has an end time.
 */
module Wire {
  import opened Prelude
  import Ip = IpManager
  import Pm = ProtoManager

  type SystemTime = nat
  type Labels = map<string, string>

  datatype AlertmanagerAlert =
    AlertmanagerAlert(labels: Labels, startsAt: SystemTime, endsAt: Option<SystemTime>, generatorUrl: Option<string>)

  // ---- Addresses in dotted form ----

  function Decimal(n: nat): string {
    if n < 10 then ["0123456789"[n]] else Decimal(n / 10) + ["0123456789"[n % 10]]
  }

  /** The number that a string of digits stands for. */
  function Value(s: string): int {
    if s == [] then 0 else 10 * Value(s[..|s| - 1]) + (s[|s| - 1] as int - '0' as int)
  }

  lemma {:induction false} ValueOfDecimal(n: nat)
    ensures Value(Decimal(n)) == n
    ensures '.' !in Decimal(n)
  {
    assert forall d :: 0 <= d < 10 ==> "0123456789"[d] as int - '0' as int == d;
    if n >= 10 {
      ValueOfDecimal(n / 10);
      assert Decimal(n)[..|Decimal(n)| - 1] == Decimal(n / 10);
    } else {
      assert Decimal(n)[..0] == "";
    }
  }

  function Dotted(a: Ipv4Addr): string {
    Decimal(a / 0x100_0000) + ("." + (Decimal(a / 0x1_0000 % 0x100)
      + ("." + (Decimal(a / 0x100 % 0x100) + ("." + Decimal(a % 0x100))))))
  }

  lemma SplitAtDot(x: string, r: string, y: string, s: string)
    requires '.' !in x && '.' !in y && x + ("." + r) == y + ("." + s)
    ensures x == y && r == s
  {
    var l, m := x + ("." + r), y + ("." + s);
    assert l[|x|] == '.' && m[|y|] == '.';
    assert forall i :: 0 <= i < |x| ==> l[i] == x[i];
    assert forall i :: 0 <= i < |y| ==> m[i] == y[i];
    assert |x| == |y|;
    assert x == l[..|x|] && y == m[..|y|];
    assert r == l[|x| + 1..] && s == m[|y| + 1..];
  }

  lemma {:induction false} DecimalIsInjective(a: nat, b: nat)
    requires Decimal(a) == Decimal(b)
    ensures a == b
  {
    ValueOfDecimal(a);
    ValueOfDecimal(b);
  }

  /** Four numbers below 256 make one address. */
  lemma OctetsDetermine(a: Ipv4Addr, b: Ipv4Addr)
    requires a / 0x100_0000 == b / 0x100_0000 && a / 0x1_0000 % 0x100 == b / 0x1_0000 % 0x100
    requires a / 0x100 % 0x100 == b / 0x100 % 0x100 && a % 0x100 == b % 0x100
    ensures a == b
  {
    OctetsRebuild(a);
    OctetsRebuild(b);
  }

  lemma DottedIsInjective(a: Ipv4Addr, b: Ipv4Addr)
    requires Dotted(a) == Dotted(b)
    ensures a == b
  {
    hide Decimal;
    forall n: nat ensures '.' !in Decimal(n) { ValueOfDecimal(n); }
    var a3, a2, a1, a0 := a / 0x100_0000, a / 0x1_0000 % 0x100, a / 0x100 % 0x100, a % 0x100;
    var b3, b2, b1, b0 := b / 0x100_0000, b / 0x1_0000 % 0x100, b / 0x100 % 0x100, b % 0x100;
    var r2, s2 := Decimal(a1) + ("." + Decimal(a0)), Decimal(b1) + ("." + Decimal(b0));
    SplitAtDot(Decimal(a3), Decimal(a2) + ("." + r2), Decimal(b3), Decimal(b2) + ("." + s2));
    SplitAtDot(Decimal(a2), r2, Decimal(b2), s2);
    SplitAtDot(Decimal(a1), Decimal(a0), Decimal(b1), Decimal(b0));
    DecimalIsInjective(a3, b3);
    DecimalIsInjective(a2, b2);
    DecimalIsInjective(a1, b1);
    DecimalIsInjective(a0, b0);
    OctetsDetermine(a, b);
  }

  // ---- Reading a dotted form ----

  /** What comes before the first dot. */
  function Field(s: string): string {
    if s == "" || s[0] == '.' then "" else [s[0]] + Field(s[1..])
  }

  /** What comes after it. */
  function Behind(s: string): string {
    if s == "" then "" else if s[0] == '.' then s[1..] else Behind(s[1..])
  }

  lemma {:induction false} FieldBeforeDot(x: string, r: string)
    requires '.' !in x
    ensures Field(x + ("." + r)) == x && Behind(x + ("." + r)) == r
  {
    var s := x + ("." + r);
    if x == "" {
      assert s == "." + r;
    } else {
      FieldBeforeDot(x[1..], r);
      assert s[1..] == x[1..] + ("." + r);
    }
  }

  lemma {:induction false} FieldWithoutDot(x: string)
    requires '.' !in x
    ensures Field(x) == x
  {
    if x == "" {
    } else {
      FieldWithoutDot(x[1..]);
    }
  }

  /** The number that four decimal fields stand for, the most significant first. */
  function ParseDotted(s: string): int {
    Value(Field(s)) * 0x100_0000 + Value(Field(Behind(s))) * 0x1_0000
    + Value(Field(Behind(Behind(s)))) * 0x100 + Value(Field(Behind(Behind(Behind(s)))))
  }

  /** The dotted form of an address reads back as the address, octet by octet. */
  lemma DottedRoundTrip(a: Ipv4Addr)
    ensures ParseDotted(Dotted(a)) == a
  {
    hide Decimal, Value, Field, Behind;
    forall n: nat ensures Value(Decimal(n)) == n && '.' !in Decimal(n) { ValueOfDecimal(n); }
    var a3, a2, a1, a0 := a / 0x100_0000, a / 0x1_0000 % 0x100, a / 0x100 % 0x100, a % 0x100;
    var r1 := Decimal(a0);
    var r2 := Decimal(a1) + ("." + r1);
    var r3 := Decimal(a2) + ("." + r2);
    assert Dotted(a) == Decimal(a3) + ("." + r3);
    FieldBeforeDot(Decimal(a3), r3);
    FieldBeforeDot(Decimal(a2), r2);
    FieldBeforeDot(Decimal(a1), r1);
    FieldWithoutDot(r1);
    OctetsRebuild(a);
  }

  // ---- Labels ----

  function ProtoLabel(proto: Pm.Proto): string {
    match proto
    case Icmp => "ICMP"
    case Tcp => "TCP"
    case Udp => "UDP"
    case Ipv6 => "IPv6"
    case Other => "OTHER"
  }

  function KindLabel(kind: Pm.Kind): string {
    match kind
    case Spike => "spike"
    case Drop => "drop"
    case Emergency => "emergency"
  }

  function TrafficToWire(alert: Pm.Alert, now: SystemTime, endsAt: Option<SystemTime>,
                         generatorUrl: Option<string>): AlertmanagerAlert
  {
    var labels := map["alertname" := "XdpTrafficAnomaly", "proto" := ProtoLabel(alert.proto),
                      "kind" := KindLabel(alert.kind)];
    AlertmanagerAlert(labels, now, endsAt, generatorUrl)
  }

  function SynFloodToWire(alert: Ip.Alert, now: SystemTime, endsAt: Option<SystemTime>,
                          generatorUrl: Option<string>): AlertmanagerAlert
  {
    var labels := map["alertname" := "XdpSynFlood", "src_ip" := Dotted(alert.srcIp)];
    AlertmanagerAlert(labels, now, endsAt, generatorUrl)
  }

  function PortScanToWire(alert: Ip.Alert, now: SystemTime, endsAt: Option<SystemTime>,
                          generatorUrl: Option<string>): AlertmanagerAlert
  {
    var labels := map["alertname" := "XdpPortScan", "src_ip" := Dotted(alert.srcIp)];
    AlertmanagerAlert(labels, now, endsAt, generatorUrl)
  }

  /** The names by which the receiver routes: one of each kind of message. */
  lemma WireNames(ip: Ipv4Addr)
    ensures LabelsOf(Traffic(Pm.AlertKey(Pm.Icmp, Pm.Spike)))
            == map["alertname" := "XdpTrafficAnomaly", "proto" := "ICMP", "kind" := "spike"]
    ensures LabelsOf(Traffic(Pm.AlertKey(Pm.Tcp, Pm.Drop)))
            == map["alertname" := "XdpTrafficAnomaly", "proto" := "TCP", "kind" := "drop"]
    ensures LabelsOf(Traffic(Pm.AlertKey(Pm.Udp, Pm.Emergency)))
            == map["alertname" := "XdpTrafficAnomaly", "proto" := "UDP", "kind" := "emergency"]
    ensures LabelsOf(Traffic(Pm.AlertKey(Pm.Ipv6, Pm.Spike)))["proto"] == "IPv6"
    ensures LabelsOf(Traffic(Pm.AlertKey(Pm.Other, Pm.Spike)))["proto"] == "OTHER"
    ensures LabelsOf(SynFlood(ip))["alertname"] == "XdpSynFlood"
    ensures LabelsOf(PortScan(ip))["alertname"] == "XdpPortScan"
    ensures "src_ip" in LabelsOf(SynFlood(ip)) && ParseDotted(LabelsOf(SynFlood(ip))["src_ip"]) == ip
    ensures "src_ip" in LabelsOf(PortScan(ip)) && ParseDotted(LabelsOf(PortScan(ip))["src_ip"]) == ip
  {
    hide Dotted, ParseDotted;
    DottedRoundTrip(ip);
  }

  /** What an alert is about, over all three pipelines. */
  datatype AlertId = Traffic(key: Pm.AlertKey) | SynFlood(ip: Ipv4Addr) | PortScan(ip: Ipv4Addr)

  /** The label set under which the receiver knows an alert. */
  function LabelsOf(id: AlertId): Labels {
    match id
    case Traffic(key) => TrafficToWire(Pm.Alert(key.proto, key.kind, Pm.Normal, 0.0), 0, None, None).labels
    case SynFlood(ip) => SynFloodToWire(Ip.Alert(ip, 0.0, 0.0), 0, None, None).labels
    case PortScan(ip) => PortScanToWire(Ip.Alert(ip, 0.0, 0.0), 0, None, None).labels
  }

  /** Labels name the alert and nothing else: level, confidence, rate, ports, times and phase leave them alone. */
  lemma LabelsAreStable(alert: Pm.Alert, ipAlert: Ip.Alert, now: SystemTime, endsAt: Option<SystemTime>,
                        url: Option<string>)
    ensures TrafficToWire(alert, now, endsAt, url).labels == LabelsOf(Traffic(Pm.KeyOfAlert(alert)))
    ensures SynFloodToWire(ipAlert, now, endsAt, url).labels == LabelsOf(SynFlood(ipAlert.srcIp))
    ensures PortScanToWire(ipAlert, now, endsAt, url).labels == LabelsOf(PortScan(ipAlert.srcIp))
  {}

  lemma ProtoLabelIsInjective(a: Pm.Proto, b: Pm.Proto)
    requires ProtoLabel(a) == ProtoLabel(b)
    ensures a == b
  {
    assert ProtoLabel(a)[..2] == ProtoLabel(b)[..2];
    assert "ICMP"[1] == 'C' && "IPv6"[1] == 'P' && "TCP"[0] == 'T' && "UDP"[0] == 'U' && |"OTHER"| == 5;
  }

  lemma KindLabelIsInjective(a: Pm.Kind, b: Pm.Kind)
    requires KindLabel(a) == KindLabel(b)
    ensures a == b
  {
    assert |"spike"| == 5 && |"drop"| == 4 && |"emergency"| == 9;
  }

  /** The three values of `alertname` differ, so the pipelines never share a label set. */
  lemma NamesDiffer(a: AlertId, b: AlertId)
    requires LabelsOf(a)["alertname"] == LabelsOf(b)["alertname"]
    ensures a.Traffic? == b.Traffic? && a.SynFlood? == b.SynFlood?
  {
    assert |"XdpTrafficAnomaly"| == 17 && |"XdpSynFlood"| == 11 && |"XdpPortScan"| == 11;
    assert "XdpSynFlood"[3] == 'S' && "XdpPortScan"[3] == 'P';
  }

  /** No two alerts of the three pipelines share a label set. */
  lemma LabelsAreInjective(a: AlertId, b: AlertId)
    requires LabelsOf(a) == LabelsOf(b)
    ensures a == b
  {
    hide Dotted, ProtoLabel, KindLabel;
    NamesDiffer(a, b);
    match a
    case Traffic(key) =>
      assert LabelsOf(a)["proto"] == ProtoLabel(key.proto) && LabelsOf(b)["proto"] == ProtoLabel(b.key.proto);
      assert LabelsOf(a)["kind"] == KindLabel(key.kind) && LabelsOf(b)["kind"] == KindLabel(b.key.kind);
      ProtoLabelIsInjective(key.proto, b.key.proto);
      KindLabelIsInjective(key.kind, b.key.kind);
    case SynFlood(ip) =>
      assert LabelsOf(a)["src_ip"] == Dotted(ip) && LabelsOf(b)["src_ip"] == Dotted(b.ip);
      DottedIsInjective(ip, b.ip);
    case PortScan(ip) =>
      assert LabelsOf(a)["src_ip"] == Dotted(ip) && LabelsOf(b)["src_ip"] == Dotted(b.ip);
      DottedIsInjective(ip, b.ip);
  }
}
