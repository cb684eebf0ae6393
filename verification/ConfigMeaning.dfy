/** What the readers of names and durations accept, as grammars that name none of their parts. */
module ConfigMeaning {
  import opened Basics
  import opened Text
  import opened Config

  // ----- White space around a text -----

  predicate Blank(s: string) {
    forall i :: 0 <= i < |s| ==> IsSpace(s[i])
  }

  predicate Dots(s: string) {
    forall i :: 0 <= i < |s| ==> s[i] == '.'
  }

  lemma {:induction false} TrimStartSplits(s: string) returns (a: string)
    ensures Blank(a) && s == a + TrimStart(s)
  {
    if s != [] && IsSpace(s[0]) {
      var b := TrimStartSplits(s[1..]);
      a := [s[0]] + b;
    } else {
      a := [];
    }
  }

  lemma {:induction false} TrimEndSplits(s: string) returns (b: string)
    ensures Blank(b) && s == TrimEnd(s) + b
    decreases |s|
  {
    if s != [] && IsSpace(s[|s| - 1]) {
      var a := TrimEndSplits(s[..|s| - 1]);
      b := a + [s[|s| - 1]];
    } else {
      b := [];
    }
  }

  lemma {:induction false} DotsSplit(s: string) returns (b: string)
    ensures Dots(b) && s == TrimEndDots(s) + b
    decreases |s|
  {
    if s != [] && s[|s| - 1] == '.' {
      var a := DotsSplit(s[..|s| - 1]);
      b := a + ['.'];
    } else {
      b := [];
    }
  }

  lemma {:induction false} TrimStartAll(a: string, m: string)
    requires Blank(a) && m != [] && !IsSpace(m[0])
    ensures TrimStart(a + m) == m
  {
    if a == [] {
      assert a + m == m;
    } else {
      TrimStartAll(a[1..], m);
      assert (a + m)[1..] == a[1..] + m;
    }
  }

  lemma {:induction false} TrimEndAll(m: string, b: string)
    requires Blank(b) && m != [] && !IsSpace(m[|m| - 1])
    ensures TrimEnd(m + b) == m
    decreases |b|
  {
    if b == [] {
      assert m + b == m;
    } else {
      TrimEndAll(m, b[..|b| - 1]);
      assert (m + b)[..|m + b| - 1] == m + b[..|b| - 1];
    }
  }

  lemma {:induction false} DotsAll(m: string, b: string)
    requires Dots(b) && m != [] && m[|m| - 1] != '.'
    ensures TrimEndDots(m + b) == m
    decreases |b|
  {
    if b == [] {
      assert m + b == m;
    } else {
      DotsAll(m, b[..|b| - 1]);
      assert (m + b)[..|m + b| - 1] == m + b[..|b| - 1];
    }
  }

  lemma TrimAround(a: string, m: string, b: string)
    requires Blank(a) && Blank(b) && m != [] && !IsSpace(m[0]) && !IsSpace(m[|m| - 1])
    ensures Trim(a + m + b) == m
  {
    assert a + m + b == a + (m + b);
    TrimStartAll(a, m + b);
    TrimEndAll(m, b);
  }

  lemma TrimSplits(s: string) returns (a: string, b: string)
    ensures Blank(a) && Blank(b) && s == a + Trim(s) + b
  {
    a := TrimStartSplits(s);
    b := TrimEndSplits(TrimStart(s));
  }

  // ----- DNS names -----

  predicate LetterDigit(c: char) {
    '0' <= c <= '9' || 'a' <= c <= 'z' || 'A' <= c <= 'Z'
  }

  /** A label of RFC 1035, section 2.3.1, digits allowed in front (RFC 1123, section 2.1). */
  predicate Label(l: string) {
    && 1 <= |l| <= 63 && LetterDigit(l[0]) && LetterDigit(l[|l| - 1])
    && forall i :: 0 <= i < |l| ==> LetterDigit(l[i]) || l[i] == '-'
  }

  /** The same text with its ASCII capitals in lower case. */
  predicate LowerCaseOf(v: string, t: string) {
    && |v| == |t|
    && forall i :: 0 <= i < |t| ==> if 'A' <= t[i] <= 'Z' then v[i] as int == t[i] as int + 32 else v[i] == t[i]
  }

  /** `name` is white space, labels with dots in between, any number of dots, white space. */
  predicate Spells(name: string, before: string, labels: seq<string>, dots: string, after: string) {
    && name == before + (Join(labels, '.') + dots) + after
    && Blank(before) && Blank(after) && Dots(dots)
    && labels != [] && (forall i :: 0 <= i < |labels| ==> Label(labels[i])) && |Join(labels, '.')| <= 253
  }

  lemma LabelIsLabel(l: string)
    ensures Label(l) <==> IsLabel(l)
  {
    if IsLabel(l) {
      assert l[0] in l && l[|l| - 1] in l;
      forall i | 0 <= i < |l| ensures LetterDigit(l[i]) || l[i] == '-' { assert l[i] in l; }
    }
  }

  lemma {:induction false} SplitJoin(labels: seq<string>)
    requires labels != [] && forall i :: 0 <= i < |labels| ==> '.' !in labels[i]
    ensures Split(Join(labels, '.'), '.') == labels
  {
    if |labels| == 1 {
      SplitNone(labels[0], '.');
    } else {
      SplitJoin(labels[1..]);
      SplitHead(labels[0], Join(labels[1..], '.'), '.');
    }
  }

  lemma {:induction false} JoinEnds(labels: seq<string>)
    requires labels != [] && forall i :: 0 <= i < |labels| ==> Label(labels[i])
    ensures var t := Join(labels, '.'); t != [] && LetterDigit(t[0]) && LetterDigit(t[|t| - 1])
  {
    if |labels| > 1 { JoinEnds(labels[1..]); }
  }

  /** A host name is labels joined by dots. */
  lemma HostnameOfLabels(labels: seq<string>)
    requires labels != [] && (forall i :: 0 <= i < |labels| ==> Label(labels[i])) && |Join(labels, '.')| <= 253
    ensures IsHostname(Join(labels, '.'))
  {
    SplitJoin(labels);
    JoinEnds(labels);
    forall l | l in labels ensures IsLabel(l) { LabelIsLabel(l); }
  }

  lemma LabelsOfHostname(t: string) returns (labels: seq<string>)
    requires IsHostname(t)
    ensures labels != [] && (forall i :: 0 <= i < |labels| ==> Label(labels[i]))
    ensures Join(labels, '.') == t && |t| <= 253
  {
    labels := Split(t, '.');
    JoinSplit(t, '.');
    forall i | 0 <= i < |labels| ensures Label(labels[i]) {
      assert labels[i] in labels;
      LabelIsLabel(labels[i]);
    }
  }

  lemma SpelledIsAccepted(name: string, before: string, labels: seq<string>, dots: string, after: string)
    requires Spells(name, before, labels, dots, after)
    ensures NormalForm(name).Some? && LowerCaseOf(NormalForm(name).value, Join(labels, '.'))
  {
    var t := Join(labels, '.');
    JoinEnds(labels);
    HostnameOfLabels(labels);
    TrimAround(before, t + dots, after);
    DotsAll(t, dots);
    assert Stripped(name) == t;
  }

  lemma AcceptedIsSpelled(name: string)
      returns (before: string, labels: seq<string>, dots: string, after: string)
    requires NormalForm(name).Some?
    ensures Spells(name, before, labels, dots, after)
  {
    before, after := TrimSplits(name);
    dots := DotsSplit(Trim(name));
    labels := LabelsOfHostname(Stripped(name));
  }

  /**
   * The grammar of record names: accepted exactly are labels joined by dots, of at most 253 characters, with
   * any dots behind them and white space around, and the normal form is their join in lower case.
   */
  lemma {:induction false} NameGrammar(name: string, v: string)
    ensures NormalForm(name) == Some(v) <==>
            exists before, labels, dots, after ::
              Spells(name, before, labels, dots, after) && LowerCaseOf(v, Join(labels, '.'))
  {
    if NormalForm(name) == Some(v) {
      var before, labels, dots, after := AcceptedIsSpelled(name);
      SpelledIsAccepted(name, before, labels, dots, after);
    }
    if before, labels, dots, after :|
        Spells(name, before, labels, dots, after) && LowerCaseOf(v, Join(labels, '.')) {
      SpelledIsAccepted(name, before, labels, dots, after);
      SameLowerCase(v, NormalForm(name).value, Join(labels, '.'));
    }
  }

  lemma SameLowerCase(v: string, w: string, t: string)
    requires LowerCaseOf(v, t) && LowerCaseOf(w, t)
    ensures v == w
  {}

  /** Two texts that differ at most in the case of ASCII letters. */
  predicate CaseTwins(a: string, b: string) {
    && |a| == |b|
    && forall i :: 0 <= i < |a| ==>
         || a[i] == b[i]
         || ('A' <= a[i] <= 'Z' && b[i] as int == a[i] as int + 32)
         || ('A' <= b[i] <= 'Z' && a[i] as int == b[i] as int + 32)
  }

  lemma {:induction false} TrimStartLower(s: string)
    ensures TrimStart(Lower(s)) == Lower(TrimStart(s))
  {
    if s != [] && IsSpace(s[0]) {
      TrimStartLower(s[1..]);
      assert Lower(s)[1..] == Lower(s[1..]);
    }
  }

  lemma {:induction false} TrimEndLower(s: string)
    ensures TrimEnd(Lower(s)) == Lower(TrimEnd(s))
    decreases |s|
  {
    if s != [] && IsSpace(s[|s| - 1]) {
      TrimEndLower(s[..|s| - 1]);
      assert Lower(s)[..|s| - 1] == Lower(s[..|s| - 1]);
    }
  }

  lemma {:induction false} DotsLower(s: string)
    ensures TrimEndDots(Lower(s)) == Lower(TrimEndDots(s))
    decreases |s|
  {
    if s != [] && s[|s| - 1] == '.' {
      DotsLower(s[..|s| - 1]);
      assert Lower(s)[..|s| - 1] == Lower(s[..|s| - 1]);
    }
  }

  lemma LabelOfLower(l: string)
    requires IsLabel(Lower(l))
    ensures IsLabel(l)
  {
    forall c | c in l ensures IsAlnum(c) || c == '-' {
      var i :| 0 <= i < |l| && l[i] == c;
      assert Lower(l)[i] in Lower(l);
    }
  }

  lemma HostnameOfLower(t: string)
    ensures IsHostname(Lower(t)) <==> IsHostname(t)
  {
    if IsHostname(t) { LowerHostname(t); }
    if IsHostname(Lower(t)) {
      SplitLower(t);
      forall l | l in Split(t, '.') ensures IsLabel(l) {
        var k :| 0 <= k < |Split(t, '.')| && Split(t, '.')[k] == l;
        assert Split(Lower(t), '.')[k] in Split(Lower(t), '.');
        LabelOfLower(l);
      }
    }
  }

  lemma LowerNormalForm(s: string)
    ensures NormalForm(Lower(s)) == NormalForm(s)
  {
    TrimStartLower(s);
    TrimEndLower(TrimStart(s));
    DotsLower(Trim(s));
    HostnameOfLower(Stripped(s));
    if IsHostname(Stripped(s)) { LowerHostname(Stripped(s)); }
  }

  /** Names that differ only in case are one name, and no capital is left in it. */
  lemma {:induction false} CaseDoesNotCount(a: string, b: string)
    requires CaseTwins(a, b)
    ensures NormalForm(a) == NormalForm(b)
    ensures NormalForm(a).Some? ==> forall c :: c in NormalForm(a).value ==> !('A' <= c <= 'Z')
  {
    LowerNormalForm(a);
    LowerNormalForm(b);
    TwinsLower(a, b);
    NoCapitals(Stripped(a));
  }

  lemma TwinsLower(a: string, b: string)
    requires CaseTwins(a, b)
    ensures Lower(a) == Lower(b)
  {
    forall i | 0 <= i < |a| ensures Lower(a)[i] == Lower(b)[i] { LowerTwin(a[i], b[i]); }
  }

  lemma LowerTwin(c: char, d: char)
    requires c == d || ('A' <= c <= 'Z' && d as int == c as int + 32) || ('A' <= d <= 'Z' && c as int == d as int + 32)
    ensures LowerChar(c) == LowerChar(d)
  {}

  lemma NoCapitals(t: string)
    ensures forall c :: c in Lower(t) ==> !('A' <= c <= 'Z')
  {
    forall c | c in Lower(t) ensures !('A' <= c <= 'Z') {
      var i :| 0 <= i < |t| && Lower(t)[i] == c;
      NoCapital(t[i]);
    }
  }

  lemma NoCapital(c: char)
    ensures !('A' <= LowerChar(c) <= 'Z')
  {}

  // ----- Durations -----

  /** The unit letters and their seconds; a bare number counts seconds. */
  predicate Unit(u: string, seconds: nat) {
    || (u == "" && seconds == 1) || (u == "s" && seconds == 1) || (u == "m" && seconds == 60)
    || (u == "h" && seconds == 3600) || (u == "d" && seconds == 86400) || (u == "w" && seconds == 604800)
  }

  /** `text` is white space, perhaps a plus, decimal digits, a unit, white space, and means `v` seconds. */
  ghost predicate Lasts(text: string, before: string, sign: string, digits: string, unit: string, after: string, v: nat)
  {
    && Blank(before) && Blank(after) && (sign == "" || sign == "+")
    && digits != [] && (forall c :: c in digits ==> IsDigit(c))
    && text == before + (sign + digits + unit) + after
    && exists seconds: nat :: Unit(unit, seconds) && v == DecValue(digits) * seconds
  }

  lemma NumberRead(sign: string, digits: string)
    requires (sign == "" || sign == "+") && digits != [] && forall c :: c in digits ==> IsDigit(c)
    ensures ParseU64(sign + digits) ==
            if DecValue(digits) < 0x1_0000_0000_0000_0000 then Some(DecValue(digits)) else None
  {
    var s := sign + digits;
    if sign == "+" {
      assert s[1..] == digits;
    } else {
      assert s == digits && s[0] in digits;
    }
  }

  lemma NumberSpelled(num: string) returns (sign: string, digits: string)
    requires ParseU64(num).Some?
    ensures (sign == "" || sign == "+") && num == sign + digits
    ensures digits != [] && (forall c :: c in digits ==> IsDigit(c)) && ParseU64(num).value == DecValue(digits)
  {
    digits := Unsigned(num);
    sign := if digits == num then "" else "+";
    if |num| > 1 && num[0] == '+' {
      assert num == "+" + num[1..];
      assert digits != num;
    }
  }

  lemma UnitOfText(num: string, unit: string, seconds: nat)
    requires Unit(unit, seconds) && num != [] && IsDigit(num[|num| - 1])
    ensures ParseDuration(num + unit) == Seconds(ParseU64(num), seconds)
  {
    if unit == "" {
      assert num + unit == num;
      WithoutUnit(num);
    } else {
      assert unit == [unit[0]];
      WithUnit(num, unit[0]);
    }
  }

  lemma SpelledDuration(text: string, before: string, sign: string, digits: string, unit: string, after: string, v: nat)
    requires Lasts(text, before, sign, digits, unit, after, v)
    ensures ParseSticky(text) == if 0 < v < 0x1_0000_0000_0000_0000 then Ok(v) else Err(Error.Config)
  {
    var num := sign + digits;
    assert digits[0] in digits && digits[|digits| - 1] in digits;
    assert num[|num| - 1] == digits[|digits| - 1];
    TrimAround(before, num + unit, after);
    NumberRead(sign, digits);
    var seconds: nat :| Unit(unit, seconds) && v == DecValue(digits) * seconds;
    UnitOfText(num, unit, seconds);
    SecondsOf(DecValue(digits), seconds);
  }

  lemma DurationSpelled(text: string)
      returns (before: string, sign: string, digits: string, unit: string, after: string)
    requires ParseSticky(text).Ok?
    ensures Lasts(text, before, sign, digits, unit, after, ParseSticky(text).value)
  {
    before, after := TrimSplits(text);
    var s := Trim(text);
    var num, seconds;
    num, unit, seconds := UnitSpelled(s);
    sign, digits := NumberSpelled(num);
    assert s == num + unit;
    assert Unit(unit, seconds);
  }

  lemma UnitSpelled(s: string) returns (num: string, unit: string, seconds: nat)
    requires ParseDuration(s).Ok?
    ensures s == num + unit && Unit(unit, seconds) && ParseU64(num).Some?
    ensures ParseDuration(s).value == ParseU64(num).value * seconds
  {
    var u := UnitSeconds(s[|s| - 1]);
    if u.Some? {
      num, unit, seconds := s[..|s| - 1], [s[|s| - 1]], u.value;
    } else {
      num, unit, seconds := s, "", 1;
    }
  }

  /**
   * The grammar of lease times: accepted exactly are digits with an optional plus and unit and white space
   * around, if they mean more than zero seconds and those fit in 64 bits; and that many seconds they are.
   */
  lemma {:induction false} DurationGrammar(text: string, v: nat)
    ensures ParseSticky(text) == Ok(v) <==>
            0 < v < 0x1_0000_0000_0000_0000
            && exists before, sign, digits, unit, after :: Lasts(text, before, sign, digits, unit, after, v)
  {
    if ParseSticky(text) == Ok(v) {
      var before, sign, digits, unit, after := DurationSpelled(text);
      SpelledDuration(text, before, sign, digits, unit, after, v);
    }
    if before, sign, digits, unit, after :| Lasts(text, before, sign, digits, unit, after, v) {
      SpelledDuration(text, before, sign, digits, unit, after, v);
    }
  }

  // ----- Configurations -----

  /** The addresses that a configuration gives out, as numbers. */
  function Number(cfg: Cfg, host: nat): nat {
    ((cfg.gateway.subnet.ip.a * 256 + cfg.gateway.subnet.ip.b) * 256 + cfg.gateway.subnet.ip.c) * 256 + host
  }

  /** Gateway, static address and the pool, which has two addresses or more, share none. */
  predicate NoTwoRoles(cfg: Cfg) {
    var gw, own := IpValue(cfg.gateway.ip), Number(cfg, cfg.gateway.staticHost);
    var first, last := Number(cfg, cfg.dhcp.rangeStart), Number(cfg, cfg.dhcp.rangeEnd);
    && gw != own && first < last
    && (gw < first || last < gw) && (own < first || last < own)
    && Number(cfg, 0) <= gw <= Number(cfg, 255)
  }

  /** Numbers and texts with which the daemon can work. */
  ghost predicate Workable(cfg: Cfg) {
    && cfg.probeTimeoutSecs >= 1 && cfg.linkRetrySecs >= 1
    && (exists v :: ParseSticky(cfg.dhcp.sticky) == Ok(v))
    && (cfg.iface == None || (cfg.iface.value != "" && forall c :: c in cfg.iface.value ==> c != '/' && c as int != 0))
  }

  /** At most 64 records, every name accepted, and no two names with the same normal form. */
  predicate NamesApart(records: seq<DnsRecord>) {
    && |records| <= 64
    && (forall i :: 0 <= i < |records| ==> NormalForm(records[i].name).Some?)
    && forall i, j :: 0 <= i < |records| && 0 <= j < |records| ==>
         NormalForm(records[i].name) == NormalForm(records[j].name) ==> i == j
  }

  lemma DnsValidIsApart(records: seq<DnsRecord>)
    ensures DnsValid(records) <==> NamesApart(records)
  {
    var forms := Forms(records);
    if NamesApart(records) {
      forall i, j | 0 <= i < j < |forms| ensures forms[i] != forms[j] {
        assert NormalForm(records[i].name) == forms[i] && NormalForm(records[j].name) == forms[j];
      }
      forall i | 0 <= i < |forms| ensures forms[i].Some? { assert NormalForm(records[i].name) == forms[i]; }
    }
    if DnsValid(records) {
      forall i | 0 <= i < |records| ensures NormalForm(records[i].name).Some? { assert forms[i].Some?; }
      forall i, j | 0 <= i < |records| && 0 <= j < |records|
                    && NormalForm(records[i].name) == NormalForm(records[j].name)
        ensures i == j
      {
        assert forms[i] == forms[j];
      }
    }
  }

  lemma RolesApart(cfg: Cfg)
    requires cfg.gateway.subnet.prefix == REQUIRED_PREFIX
    ensures NoTwoRoles(cfg) <==>
              && InSubnet(cfg.gateway.ip, cfg.gateway.subnet)
              && cfg.gateway.staticHost != cfg.gateway.ip.d
              && cfg.dhcp.rangeStart < cfg.dhcp.rangeEnd
              && !(cfg.dhcp.rangeStart <= cfg.gateway.staticHost <= cfg.dhcp.rangeEnd)
              && !(cfg.dhcp.rangeStart <= cfg.gateway.ip.d <= cfg.dhcp.rangeEnd)
  {
    var net := cfg.gateway.subnet.ip;
    if Number(cfg, 0) <= IpValue(cfg.gateway.ip) <= Number(cfg, 255) {
      SameSlash24(Ip(net.a, net.b, net.c, 0), cfg.gateway.ip, Ip(net.a, net.b, net.c, 255));
    }
  }

  /** A configuration is accepted exactly if its addresses, texts and names are as described. */
  lemma {:induction false} ValidIsDescribed(cfg: Cfg)
    ensures Valid(cfg) <==>
            cfg.gateway.subnet.prefix == 24 && NoTwoRoles(cfg) && Workable(cfg) && NamesApart(cfg.dns.records)
  {
    DnsValidIsApart(cfg.dns.records);
    if cfg.gateway.subnet.prefix == 24 { RolesApart(cfg); }
  }

  // ----- Netmasks -----

  function Pow2(n: nat): (p: nat)
    ensures p > 0
  {
    if n == 0 then 1 else 2 * Pow2(n - 1)
  }

  lemma BlockIsPower(bits: nat)
    requires bits <= 8
    ensures Block(bits) == Pow2(8 - bits)
  {
    assert Pow2(4) == 16 && Pow2(8) == 256;
  }

  lemma EightMore(n: nat)
    ensures Pow2(n + 8) == 256 * Pow2(n)
  {
    assert Pow2(n + 2) == 4 * Pow2(n);
    assert Pow2(n + 4) == 4 * Pow2(n + 2);
    assert Pow2(n + 6) == 4 * Pow2(n + 4);
    assert Pow2(n + 8) == 4 * Pow2(n + 6);
  }

  /** For every prefix length the mask is the one of that many leading ones. */
  lemma {:induction false} MaskOfPrefix(prefix: nat)
    requires prefix <= 32
    ensures IpValue(Netmask(prefix)) == 0x1_0000_0000 - Pow2(32 - prefix)
  {
    var i := if prefix <= 8 then 0 else if prefix <= 16 then 1 else if prefix <= 24 then 2 else 3;
    BlockIsPower(NetBits(prefix, i));
    MaskPowers(prefix);
  }

  lemma MaskPowers(prefix: nat)
    requires prefix <= 32
    ensures prefix <= 24 ==> Pow2(32 - prefix) == 256 * Pow2(24 - prefix)
    ensures prefix <= 16 ==> Pow2(24 - prefix) == 256 * Pow2(16 - prefix)
    ensures prefix <= 8 ==> Pow2(16 - prefix) == 256 * Pow2(8 - prefix)
  {
    if prefix <= 24 { EightMore(24 - prefix); }
    if prefix <= 16 { EightMore(16 - prefix); }
    if prefix <= 8 { EightMore(8 - prefix); }
  }
}
