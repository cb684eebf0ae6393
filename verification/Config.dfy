/** The JSON configuration: validation, canonical DNS names, lease durations and the address plan. */
module Config {
  import opened Basics
  import opened Text

  const REQUIRED_PREFIX := 24
  const MAX_DNS_RECORDS := 64
  const MAX_DNS_NAME_LEN := 253
  const U64_MAX: nat := 0xFFFF_FFFF_FFFF_FFFF

  datatype Subnet = Subnet(ip: Ip, prefix: nat)
  datatype Gateway = Gateway(ip: Ip, subnet: Subnet, staticHost: byte)
  datatype Dhcp = Dhcp(rangeStart: byte, rangeEnd: byte, sticky: string)
  datatype DnsRecord = DnsRecord(name: string, addr: Option<Ip>)
  datatype Dns = Dns(enabled: bool, records: seq<DnsRecord>)
  datatype Cfg = Cfg(
    iface: Option<string>,
    gateway: Gateway,
    dhcp: Dhcp,
    probeTimeoutSecs: nat,
    linkRetrySecs: nat,
    dns: Dns)

  // ----- DNS names -----

  predicate IsAlnum(c: char) {
    IsDigit(c) || 'a' <= c <= 'z' || 'A' <= c <= 'Z'
  }

  function LowerChar(c: char): char {
    if 'A' <= c <= 'Z' then c - 'A' + 'a' else c
  }

  function Lower(s: string): (r: string)
    ensures |r| == |s|
    ensures forall i :: 0 <= i < |s| ==> r[i] == LowerChar(s[i])
  {
    seq(|s|, i requires 0 <= i < |s| => LowerChar(s[i]))
  }

  /** One label of a host name: 1 to 63 letters, digits and inner hyphens. */
  predicate IsLabel(l: string) {
    && 1 <= |l| <= 63
    && l[0] != '-' && l[|l| - 1] != '-'
    && forall c :: c in l ==> IsAlnum(c) || c == '-'
  }

  predicate IsHostname(t: string) {
    && 1 <= |t| <= MAX_DNS_NAME_LEN
    && forall l :: l in Split(t, '.') ==> IsLabel(l)
  }

  /** The part of a record's name that is checked: no outer white space, no trailing dots. */
  function Stripped(name: string): string {
    TrimEndDots(Trim(name))
  }

  /** The one spelling under which a name is stored, compared and rendered; `None` when it is refused. */
  function NormalForm(name: string): Option<string> {
    if IsHostname(Stripped(name)) then Some(Lower(Stripped(name))) else None
  }

  /** The checks on one label, its length counted in bytes as Rust does. */
  method CheckLabel(l: string) returns (ok: bool)
    ensures ok <==> IsLabel(l)
  {
    if l == [] || ByteLen(l) > 63 {
      assert IsLabel(l) ==> forall c :: c in l ==> c as int < 0x80;
      return false;
    }
    if l[0] == '-' || l[|l| - 1] == '-' {
      return false;
    }
    return forall c :: c in l ==> IsAlnum(c) || c == '-';
  }

  /** The split, check and append loop accepts exactly the host names and returns them in lower case. */
  method NormalizeStripped(trimmed: string) returns (r: Result<string>)
    ensures r.Ok? <==> IsHostname(trimmed)
    ensures r.Ok? ==> r.value == Lower(trimmed)
    ensures r.Err? ==> r.error == Error.Config
  {
    if trimmed == [] {
      return Err(Error.Config);
    }
    if ByteLen(trimmed) > MAX_DNS_NAME_LEN {
      LongIsNoHostname(trimmed);
      return Err(Error.Config);
    }
    if '\0' in trimmed || ' ' in trimmed || ',' in trimmed {
      IllegalIsNoHostname(trimmed);
      return Err(Error.Config);
    }
    r := JoinLabels(Split(trimmed, '.'));
    JoinSplit(trimmed, '.');
  }

  /** Check every label and append it in lower case, dots in between. */
  method JoinLabels(labels: seq<string>) returns (r: Result<string>)
    ensures r.Ok? <==> forall l :: l in labels ==> IsLabel(l)
    ensures r.Ok? ==> r.value == Lower(Join(labels, '.'))
    ensures r.Err? ==> r.error == Error.Config
  {
    var out := [];
    for i := 0 to |labels|
      invariant forall l :: l in labels[..i] ==> IsLabel(l)
      invariant out == Lower(Join(labels[..i], '.'))
    {
      var ok := CheckLabel(labels[i]);
      if !ok {
        return Err(Error.Config);
      }
      AppendLabel(labels, i);
      if i > 0 {
        out := out + ".";
      }
      out := out + Lower(labels[i]);
    }
    assert labels[..|labels|] == labels;
    return Ok(out);
  }

  method NormalizeDnsName(name: string) returns (r: Result<string>)
    ensures r.Ok? <==> NormalForm(name).Some?
    ensures r.Ok? ==> r.value == NormalForm(name).value
    ensures r.Err? ==> r.error == Error.Config
  {
    r := NormalizeStripped(TrimEndDots(Trim(name)));
  }

  lemma AppendLabel(labels: seq<string>, i: nat)
    requires i < |labels|
    ensures Lower(Join(labels[..i + 1], '.')) ==
            Lower(Join(labels[..i], '.')) + (if i > 0 then "." else []) + Lower(labels[i])
  {
    assert labels[..i + 1] == labels[..i] + [labels[i]];
    JoinSnoc(labels[..i], labels[i], '.');
  }

  lemma IllegalIsNoHostname(t: string)
    requires '\0' in t || ' ' in t || ',' in t
    ensures !IsHostname(t)
  {
    if IsHostname(t) { HostnameChars(t); }
  }

  lemma LongIsNoHostname(t: string)
    requires ByteLen(t) > MAX_DNS_NAME_LEN
    ensures !IsHostname(t)
  {
    if IsHostname(t) { HostnameChars(t); }
  }

  /** Every character of a host name sits in a label or is a dot. */
  lemma HostnameChars(t: string)
    requires forall l :: l in Split(t, '.') ==> IsLabel(l)
    ensures forall c :: c in t ==> IsAlnum(c) || c == '-' || c == '.'
  {
    forall c | c in t && c != '.'
      ensures IsAlnum(c) || c == '-'
    {
      CharInPiece(t, '.', c);
    }
  }

  lemma {:induction false} CharInPiece(t: string, sep: char, c: char)
    requires c in t && c != sep
    ensures exists l :: l in Split(t, sep) && c in l
  {
    var rest := Split(t[1..], sep);
    if t[0] == c {
      assert c in Split(t, sep)[0];
    } else {
      CharInPiece(t[1..], sep, c);
      var l :| l in rest && c in l;
      if t[0] == sep {
        assert Split(t, sep)[1..] == rest;
      } else if l == rest[0] {
        assert c in Split(t, sep)[0];
      } else {
        var k :| 0 <= k < |rest| && rest[k] == l;
        assert Split(t, sep)[k] == l;
      }
    }
  }

  lemma {:induction false} SplitLower(t: string)
    ensures |Split(Lower(t), '.')| == |Split(t, '.')|
    ensures forall k :: 0 <= k < |Split(t, '.')| ==> Split(Lower(t), '.')[k] == Lower(Split(t, '.')[k])
  {
    if t != [] {
      SplitLower(t[1..]);
      assert Lower(t)[1..] == Lower(t[1..]);
      PrependLower(t[0], Split(t[1..], '.'), Split(Lower(t[1..]), '.'));
    }
  }

  /** One more character before split parts, as `Split` adds it. */
  lemma PrependLower(c: char, a: seq<string>, b: seq<string>)
    requires |a| == |b| >= 1 && forall k :: 0 <= k < |a| ==> b[k] == Lower(a[k])
    ensures c == '.' <==> LowerChar(c) == '.'
    ensures forall k :: 0 <= k <= |a| ==> ([[]] + b)[k] == Lower(([[]] + a)[k])
    ensures forall k :: 0 <= k < |a| ==>
              ([[LowerChar(c)] + b[0]] + b[1..])[k] == Lower(([[c] + a[0]] + a[1..])[k])
  {
    assert Lower([c] + a[0]) == [LowerChar(c)] + b[0];
  }

  lemma LowerLabel(l: string)
    requires IsLabel(l)
    ensures IsLabel(Lower(l)) && Lower(Lower(l)) == Lower(l)
  {}

  /** Normal forms are canonical: already trimmed, lower-case, and normalising again changes nothing. */
  lemma NormalFormIdempotent(name: string)
    requires NormalForm(name).Some?
    ensures NormalForm(NormalForm(name).value) == NormalForm(name)
  {
    StrippedLower(Stripped(name));
    LowerHostname(Stripped(name));
  }

  lemma PlainCharsStay(c: char)
    requires IsAlnum(c) || c == '-' || c == '.'
    ensures !IsSpace(c) && !IsSpace(LowerChar(c))
    ensures LowerChar(c) == '.' <==> c == '.'
  {}

  lemma StrippedLower(t: string)
    requires IsHostname(t) && t[|t| - 1] != '.'
    ensures Stripped(Lower(t)) == Lower(t)
  {
    HostnameChars(t);
    assert t[0] in t && t[|t| - 1] in t;
    PlainCharsStay(t[0]);
    PlainCharsStay(t[|t| - 1]);
  }

  lemma LowerHostname(t: string)
    requires IsHostname(t)
    ensures IsHostname(Lower(t)) && Lower(Lower(t)) == Lower(t)
  {
    SplitLower(t);
    forall l | l in Split(Lower(t), '.') ensures IsLabel(l) {
      var k :| 0 <= k < |Split(Lower(t), '.')| && Split(Lower(t), '.')[k] == l;
      LowerLabel(Split(t, '.')[k]);
    }
  }

  /** Octets of the name on the wire: each label behind its length, then the root label (RFC 1035, section 3.1). */
  function Wire(labels: seq<string>): (w: seq<int>)
  {
    if labels == [] then [0]
    else [|labels[0]|] + seq(|labels[0]|, i requires 0 <= i < |labels[0]| => labels[0][i] as int) + Wire(labels[1..])
  }

  lemma {:induction false} WireLength(labels: seq<string>)
    requires labels != []
    ensures |Wire(labels)| == |Join(labels, '.')| + 2
  {
    if |labels| > 1 { WireLength(labels[1..]); }
  }

  /** RFC 1035, section 2.3.4: labels of at most 63 octets and names of at most 255 octets. */
  lemma WireFits(name: string)
    requires NormalForm(name).Some?
    ensures var labels := Split(NormalForm(name).value, '.');
            && (forall l :: l in labels ==> IsLabel(l) && Lower(l) == l)
            && |Wire(labels)| <= 255
  {
    NormalFormIdempotent(name);
    var out := NormalForm(name).value;
    NormalFormIsLower(name);
    WireLength(Split(out, '.'));
    JoinSplit(out, '.');
  }

  lemma NormalFormIsLower(name: string)
    requires NormalForm(name).Some?
    ensures forall l :: l in Split(NormalForm(name).value, '.') ==> IsLabel(l) && Lower(l) == l
  {
    var t := Stripped(name);
    SplitLower(t);
    forall l | l in Split(Lower(t), '.') ensures IsLabel(l) && Lower(l) == l {
      var k :| 0 <= k < |Split(Lower(t), '.')| && Split(Lower(t), '.')[k] == l;
      LowerLabel(Split(t, '.')[k]);
    }
  }

  /** The normal forms of the record names, in order. */
  function Forms(records: seq<DnsRecord>): (forms: seq<Option<string>>)
    ensures |forms| == |records|
    ensures forall i :: 0 <= i < |records| ==> forms[i] == NormalForm(records[i].name)
  {
    seq(|records|, i requires 0 <= i < |records| => NormalForm(records[i].name))
  }

  predicate AllDistinct(forms: seq<Option<string>>) {
    && (forall i :: 0 <= i < |forms| ==> forms[i].Some?)
    && (forall i, j :: 0 <= i < j < |forms| ==> forms[i] != forms[j])
  }

  /** What the record list must satisfy, whether or not DNS is enabled. */
  predicate DnsValid(records: seq<DnsRecord>) {
    |records| <= MAX_DNS_RECORDS && AllDistinct(Forms(records))
  }

  method ValidateDns(records: seq<DnsRecord>) returns (ok: bool)
    ensures ok <==> DnsValid(records)
  {
    if |records| > MAX_DNS_RECORDS {
      return false;
    }
    ghost var forms := Forms(records);
    var seen: seq<string> := [];
    for i := 0 to |records|
      invariant |seen| == i
      invariant forall k :: 0 <= k < i ==> forms[k] == Some(seen[k])
      invariant forall k, m :: 0 <= k < m < i ==> seen[k] != seen[m]
    {
      var name := NormalizeDnsName(records[i].name);
      if name.Err? {
        assert forms[i].None?;
        return false;
      }
      if name.value in seen {
        ghost var k :| 0 <= k < i && seen[k] == name.value;
        assert forms[k] == forms[i];
        return false;
      }
      seen := seen + [name.value];
    }
    return true;
  }

  // ----- Lease durations -----

  function Unsigned(s: string): string {
    if |s| > 1 && s[0] == '+' then s[1..] else s
  }

  /** `str::parse::<u64>`: an optional '+', then at least one digit, at most `u64::MAX`. */
  function ParseU64(s: string): Option<nat> {
    var digits := Unsigned(s);
    if digits != [] && (forall c :: c in digits ==> IsDigit(c)) && DecValue(digits) <= U64_MAX
    then Some(DecValue(digits)) else None
  }

  function UnitSeconds(u: char): Option<nat> {
    match u
    case 's' => Some(1)
    case 'm' => Some(60)
    case 'h' => Some(3600)
    case 'd' => Some(86400)
    case 'w' => Some(604800)
    case _ => None
  }

  function ParseSticky(text: string): Result<nat> {
    ParseDuration(Trim(text))
  }

  function ParseDuration(s: string): Result<nat> {
    if s == [] then Err(Error.Config)
    else
      var u := UnitSeconds(s[|s| - 1]);
      var num := if u.Some? then s[..|s| - 1] else s;
      Seconds(ParseU64(num), if u.Some? then u.value else 1)
  }

  function Seconds(n: Option<nat>, mul: nat): Result<nat> {
    if n.None? || n.value == 0 || n.value * mul > U64_MAX then Err(Error.Config) else Ok(n.value * mul)
  }

  lemma ParseU64OfDec(n: nat)
    ensures ParseU64(Dec(n)) == if n <= U64_MAX then Some(n) else None
  {
    DecRoundTrip(n);
    assert Dec(n)[0] in Dec(n);
  }

  lemma SecondsOf(n: nat, mul: nat)
    requires mul > 0
    ensures Seconds(if n <= U64_MAX then Some(n) else None, mul) ==
            if 0 < n * mul <= U64_MAX then Ok(n * mul) else Err(Error.Config)
  {}

  /** A printed duration reads back as the number of seconds it means, exactly when those fit in 64 bits. */
  lemma StickyRoundTrip(n: nat, unit: string, mul: nat)
    requires || (unit == "" && mul == 1) || (unit == "s" && mul == 1) || (unit == "m" && mul == 60)
             || (unit == "h" && mul == 3600) || (unit == "d" && mul == 86400) || (unit == "w" && mul == 604800)
    ensures ParseSticky(Dec(n) + unit) ==
            if 0 < n * mul < 0x1_0000_0000_0000_0000 then Ok(n * mul) else Err(Error.Config)
  {
    assert unit == [] || (|unit| == 1 && UnitSeconds(unit[0]) == Some(mul));
    StickyOfUnit(n, unit, mul);
  }

  lemma StickyOfUnit(n: nat, unit: string, mul: nat)
    requires (unit == [] && mul == 1) || (|unit| == 1 && UnitSeconds(unit[0]) == Some(mul))
    ensures ParseSticky(Dec(n) + unit) == if 0 < n * mul <= U64_MAX then Ok(n * mul) else Err(Error.Config)
  {
    DurationIsTrimmed(n, unit);
    if unit == [] {
      assert Dec(n) + unit == Dec(n);
      BareDuration(n);
    } else {
      assert unit == [unit[0]];
      UnitDuration(n, unit[0], mul);
    }
  }

  lemma DurationIsTrimmed(n: nat, unit: string)
    requires unit == [] || (|unit| == 1 && UnitSeconds(unit[0]).Some?)
    ensures Trim(Dec(n) + unit) == Dec(n) + unit
  {
    DecEnds(n);
    TrimNothing(Dec(n) + unit);
  }

  lemma DecEnds(n: nat)
    ensures IsDigit(Dec(n)[0]) && IsDigit(Dec(n)[|Dec(n)| - 1])
  {}

  lemma WithoutUnit(s: string)
    requires s != [] && UnitSeconds(s[|s| - 1]).None?
    ensures ParseDuration(s) == Seconds(ParseU64(s), 1)
  {}

  lemma WithUnit(num: string, u: char)
    requires UnitSeconds(u).Some?
    ensures ParseDuration(num + [u]) == Seconds(ParseU64(num), UnitSeconds(u).value)
  {}

  lemma BareDuration(n: nat)
    ensures ParseDuration(Dec(n)) == if 0 < n <= U64_MAX then Ok(n) else Err(Error.Config)
  {
    DecEnds(n);
    WithoutUnit(Dec(n));
    ParseU64OfDec(n);
    SecondsOf(n, 1);
  }

  lemma UnitDuration(n: nat, u: char, mul: nat)
    requires UnitSeconds(u) == Some(mul)
    ensures ParseDuration(Dec(n) + [u]) == if 0 < n * mul <= U64_MAX then Ok(n * mul) else Err(Error.Config)
  {
    calc {
      ParseDuration(Dec(n) + [u]);
    ==  { WithUnit(Dec(n), u); }
      Seconds(ParseU64(Dec(n)), mul);
    ==  { ParseU64OfDec(n); }
      Seconds(if n <= U64_MAX then Some(n) else None, mul);
    ==  { SecondsOf(n, mul); }
      if 0 < n * mul <= U64_MAX then Ok(n * mul) else Err(Error.Config);
    }
  }

  /** An accepted duration is a positive 64-bit count, and one line of text without a comma. */
  lemma StickyIsPlain(text: string)
    requires ParseSticky(text).Ok?
    ensures 0 < ParseSticky(text).value <= U64_MAX
    ensures '\n' !in Trim(text) && ',' !in Trim(text)
  {
    var s := Trim(text);
    var u := UnitSeconds(s[|s| - 1]);
    var num := if u.Some? then s[..|s| - 1] else s;
    PlainNumber(num);
    SecondsOf(ParseU64(num).value, if u.Some? then u.value else 1);
    assert s == if u.Some? then num + [s[|s| - 1]] else num;
  }

  lemma PlainNumber(num: string)
    requires ParseU64(num).Some?
    ensures '\n' !in num && ',' !in num
    ensures ParseU64(num).value <= U64_MAX
  {
    if |num| > 1 && num[0] == '+' {
      assert num == ['+'] + Unsigned(num);
    } else {
      assert num == Unsigned(num);
    }
  }

  // ----- Validation and the address plan -----

  predicate InSubnet(ip: Ip, net: Subnet)
    requires net.prefix == REQUIRED_PREFIX
  {
    ip.a == net.ip.a && ip.b == net.ip.b && ip.c == net.ip.c
  }

  predicate SimpleName(iface: Option<string>) {
    iface.Some? ==> iface.value != [] && '/' !in iface.value && '\0' !in iface.value
  }

  /** What an accepted configuration guarantees. */
  predicate Valid(cfg: Cfg) {
    && cfg.gateway.subnet.prefix == REQUIRED_PREFIX
    && InSubnet(cfg.gateway.ip, cfg.gateway.subnet)
    && cfg.gateway.staticHost != cfg.gateway.ip.d
    && cfg.dhcp.rangeStart < cfg.dhcp.rangeEnd
    && !(cfg.dhcp.rangeStart <= cfg.gateway.staticHost <= cfg.dhcp.rangeEnd)
    && !(cfg.dhcp.rangeStart <= cfg.gateway.ip.d <= cfg.dhcp.rangeEnd)
    && ParseSticky(cfg.dhcp.sticky).Ok?
    && cfg.probeTimeoutSecs > 0
    && cfg.linkRetrySecs > 0
    && SimpleName(cfg.iface)
    && DnsValid(cfg.dns.records)
  }

  method Validate(cfg: Cfg) returns (r: Result<()>)
    ensures r.Ok? <==> Valid(cfg)
    ensures r.Err? ==> r.error == Error.Config
  {
    if cfg.gateway.subnet.prefix != REQUIRED_PREFIX {
      return Err(Error.Config);
    }
    if !InSubnet(cfg.gateway.ip, cfg.gateway.subnet) {
      return Err(Error.Config);
    }
    var gwHost := cfg.gateway.ip.d;
    if cfg.gateway.staticHost == gwHost {
      return Err(Error.Config);
    }
    if cfg.dhcp.rangeStart >= cfg.dhcp.rangeEnd {
      return Err(Error.Config);
    }
    if cfg.gateway.staticHost >= cfg.dhcp.rangeStart && cfg.gateway.staticHost <= cfg.dhcp.rangeEnd {
      return Err(Error.Config);
    }
    if gwHost >= cfg.dhcp.rangeStart && gwHost <= cfg.dhcp.rangeEnd {
      return Err(Error.Config);
    }
    if ParseSticky(cfg.dhcp.sticky).Err? {
      return Err(Error.Config);
    }
    if cfg.probeTimeoutSecs == 0 || cfg.linkRetrySecs == 0 {
      return Err(Error.Config);
    }
    if cfg.iface.Some? && (cfg.iface.value == [] || '/' in cfg.iface.value || '\0' in cfg.iface.value) {
      return Err(Error.Config);
    }
    var dns := ValidateDns(cfg.dns.records);
    return if dns then Ok(()) else Err(Error.Config);
  }

  /** Host `.N` of the gateway's /24. */
  function HostAddr(cfg: Cfg, host: byte): Ip
    requires cfg.gateway.subnet.prefix == REQUIRED_PREFIX
  {
    var net := cfg.gateway.subnet.ip;
    Ip(net.a, net.b, net.c, host)
  }

  /** Size of the block that an octet with this many network bits stands for. */
  function Block(bits: nat): nat
    requires bits <= 8
  {
    [256, 128, 64, 32, 16, 8, 4, 2, 1][bits]
  }

  /** Network bits in octet `i` of an address. */
  function NetBits(prefix: nat, i: nat): (b: nat)
    ensures b <= 8
  {
    if prefix >= 8 * i + 8 then 8 else if prefix <= 8 * i then 0 else prefix - 8 * i
  }

  function MaskOctet(prefix: nat, i: nat): byte {
    256 - Block(NetBits(prefix, i))
  }

  function Netmask(prefix: nat): Ip {
    Ip(MaskOctet(prefix, 0), MaskOctet(prefix, 1), MaskOctet(prefix, 2), MaskOctet(prefix, 3))
  }

  /** Octet of the network address: the host bits cleared. */
  function NetOctet(o: byte, prefix: nat, i: nat): byte {
    o - o % Block(NetBits(prefix, i))
  }

  /** Last octet replaced in the network address, for any prefix length. */
  function NetworkHost(net: Subnet, host: byte): Ip {
    Ip(NetOctet(net.ip.a, net.prefix, 0), NetOctet(net.ip.b, net.prefix, 1), NetOctet(net.ip.c, net.prefix, 2), host)
  }

  /** On the required /24 that is the host address of the plan, and the mask is 255.255.255.0. */
  lemma NetworkHost24(cfg: Cfg, host: byte)
    requires cfg.gateway.subnet.prefix == REQUIRED_PREFIX
    ensures NetworkHost(cfg.gateway.subnet, host) == HostAddr(cfg, host)
    ensures Netmask(cfg.gateway.subnet.prefix) == Ip(255, 255, 255, 0)
  {}

  function GatewayCidr(cfg: Cfg): Cidr {
    Cidr(cfg.gateway.ip, REQUIRED_PREFIX)
  }

  function StaticCidr(cfg: Cfg): Cidr
    requires cfg.gateway.subnet.prefix == REQUIRED_PREFIX
  {
    Cidr(HostAddr(cfg, cfg.gateway.staticHost), REQUIRED_PREFIX)
  }

  /** Addresses as numbers, most significant octet first. */
  function IpValue(ip: Ip): nat {
    ((ip.a * 256 + ip.b) * 256 + ip.c) * 256 + ip.d
  }

  /** The addresses dnsmasq may lease: everything from the first to the last host of the range. */
  predicate InPool(cfg: Cfg, ip: Ip)
    requires cfg.gateway.subnet.prefix == REQUIRED_PREFIX
  {
    IpValue(HostAddr(cfg, cfg.dhcp.rangeStart)) <= IpValue(ip) <= IpValue(HostAddr(cfg, cfg.dhcp.rangeEnd))
  }

  /** The gateway, the static address and the leased pool never collide and all lie in the subnet. */
  lemma {:induction false} AddressPlan(cfg: Cfg)
    requires Valid(cfg)
    ensures HostAddr(cfg, cfg.gateway.ip.d) == cfg.gateway.ip
    ensures GatewayCidr(cfg) != StaticCidr(cfg)
    ensures !InPool(cfg, cfg.gateway.ip) && !InPool(cfg, StaticCidr(cfg).ip)
    ensures forall ip :: InPool(cfg, ip) <==>
              InSubnet(ip, cfg.gateway.subnet) && cfg.dhcp.rangeStart <= ip.d <= cfg.dhcp.rangeEnd
    ensures forall h: byte, k: byte :: IpValue(HostAddr(cfg, h)) < IpValue(HostAddr(cfg, k)) <==> h < k
  {
    forall ip ensures InPool(cfg, ip) <==>
              InSubnet(ip, cfg.gateway.subnet) && cfg.dhcp.rangeStart <= ip.d <= cfg.dhcp.rangeEnd
    {
      if InPool(cfg, ip) { SameSlash24(HostAddr(cfg, cfg.dhcp.rangeStart), ip, HostAddr(cfg, cfg.dhcp.rangeEnd)); }
    }
  }

  lemma SameSlash24(lo: Ip, ip: Ip, hi: Ip)
    requires IpValue(lo) <= IpValue(ip) <= IpValue(hi)
    requires lo.a == hi.a && lo.b == hi.b && lo.c == hi.c
    ensures ip.a == lo.a && ip.b == lo.b && ip.c == lo.c && lo.d <= ip.d <= hi.d
  {}
}
