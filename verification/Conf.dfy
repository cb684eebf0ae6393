/** Rendering the dnsmasq configuration, and reading its host records back. */
module Conf {
  import opened Basics
  import opened Text
  import opened Config
  import opened Addr

  function DnsRecordIp(cfg: Cfg, rec: DnsRecord): Ip {
    if rec.addr.Some? then rec.addr.value else cfg.gateway.ip
  }

  function HeaderLines(cfg: Cfg, iface: string, leasefile: string, pidfile: string): seq<string>
  {
    var gw := DottedIp(cfg.gateway.ip);
    [ "# generated by micronet \U{2014} do not edit",
      "interface=" + iface,
      "bind-interfaces",
      "listen-address=" + gw,
      "dhcp-range=" + RangeText(cfg),
      "dhcp-option=option:router," + gw,
      "dhcp-option=option:dns-server," + gw,
      "dhcp-leasefile=" + leasefile,
      "pid-file=" + pidfile,
      "dhcp-authoritative" ]
  }

  function RangeText(cfg: Cfg): string
  {
    var net := cfg.gateway.subnet;
    DottedIp(NetworkHost(net, cfg.dhcp.rangeStart)) + "," + DottedIp(NetworkHost(net, cfg.dhcp.rangeEnd)) + ","
    + DottedIp(Netmask(net.prefix)) + "," + Trim(cfg.dhcp.sticky)
  }

  function RecordLine(name: string, ip: Ip): string {
    "host-record=" + name + "," + DottedIp(ip)
  }

  /** Every line ended by a newline. */
  function Unlines(lines: seq<string>): string {
    if lines == [] then [] else lines[0] + "\n" + Unlines(lines[1..])
  }

  /** One line per record whose name normalises; `forms` are the normal forms. */
  function RecordLines(cfg: Cfg, records: seq<DnsRecord>, forms: seq<Option<string>>): seq<string>
    requires |forms| == |records|
  {
    if records == [] then []
    else
      var n := |records| - 1;
      RecordLines(cfg, records[..n], forms[..n]) + LinesFor(cfg, records[n], forms[n])
  }

  function LinesFor(cfg: Cfg, rec: DnsRecord, form: Option<string>): seq<string> {
    if form.Some? then [RecordLine(form.value, DnsRecordIp(cfg, rec))] else []
  }

  lemma RecordLinesSnoc(cfg: Cfg, records: seq<DnsRecord>, forms: seq<Option<string>>, i: nat)
    requires i < |records| == |forms|
    ensures RecordLines(cfg, records[..i + 1], forms[..i + 1]) ==
            RecordLines(cfg, records[..i], forms[..i]) + LinesFor(cfg, records[i], forms[i])
  {
    assert records[..i + 1][..i] == records[..i] && forms[..i + 1][..i] == forms[..i];
  }

  function ConfLines(cfg: Cfg, iface: string, leasefile: string, pidfile: string): seq<string>
  {
    FrontLines(cfg, iface, leasefile, pidfile) + BackLines(cfg)
  }

  function FrontLines(cfg: Cfg, iface: string, leasefile: string, pidfile: string): seq<string>
  {
    HeaderLines(cfg, iface, leasefile, pidfile) + if cfg.dns.enabled then ["local=/lan/"] else []
  }

  function BackLines(cfg: Cfg): seq<string> {
    if cfg.dns.enabled then RecordLines(cfg, cfg.dns.records, Forms(cfg.dns.records)) else []
  }

  lemma {:induction false} UnlinesAppend(a: seq<string>, b: seq<string>)
    ensures Unlines(a + b) == Unlines(a) + Unlines(b)
  {
    if a == [] {
      assert a + b == b;
    } else {
      UnlinesAppend(a[1..], b);
      assert (a + b)[0] == a[0] && (a + b)[1..] == a[1..] + b;
      Regroup(a[0] + "\n", Unlines(a[1..]), Unlines(b));
    }
  }

  lemma UnlinesOne(line: string)
    ensures Unlines([line]) == line + "\n"
  {}

  method RenderConf(cfg: Cfg, iface: string, leasefile: string, pidfile: string) returns (body: string)
    ensures body == Unlines(ConfLines(cfg, iface, leasefile, pidfile))
  {
    var header := HeaderLines(cfg, iface, leasefile, pidfile);
    body := Unlines(header);
    UnlinesAppend(FrontLines(cfg, iface, leasefile, pidfile), BackLines(cfg));
    if cfg.dns.enabled {
      UnlinesAppend(header, ["local=/lan/"]);
      UnlinesOne("local=/lan/");
      body := body + ("local=/lan/" + "\n");
      var records := RenderRecords(cfg);
      body := body + records;
    } else {
      assert header + [] == header;
    }
  }

  method RenderRecords(cfg: Cfg) returns (body: string)
    ensures body == Unlines(RecordLines(cfg, cfg.dns.records, Forms(cfg.dns.records)))
  {
    body := [];
    var records := cfg.dns.records;
    ghost var forms := Forms(records);
    for i := 0 to |records|
      invariant body == Unlines(RecordLines(cfg, records[..i], forms[..i]))
    {
      RecordLinesSnoc(cfg, records, forms, i);
      UnlinesAppend(RecordLines(cfg, records[..i], forms[..i]), LinesFor(cfg, records[i], forms[i]));
      var text := RenderRecord(cfg, records[i]);
      body := body + text;
    }
    assert records[..|records|] == records && forms[..|records|] == forms;
  }

  /** A name that does not normalise would be dropped; validation rules that out. */
  method RenderRecord(cfg: Cfg, rec: DnsRecord) returns (text: string)
    ensures text == Unlines(LinesFor(cfg, rec, NormalForm(rec.name)))
  {
    var name := NormalizeDnsName(rec.name);
    if name.Err? {
      return [];
    }
    var line := RecordLine(name.value, DnsRecordIp(cfg, rec));
    UnlinesOne(line);
    return line + "\n";
  }

  // ----- Reading the host records back -----

  /** How a line of the file is read: `host-record=<name>,<address>`, anything else is something else. */
  function ReadRecord(line: string): Option<(string, string)> {
    if !("host-record=" <= line) then None
    else
      var parts := Split(line[12..], ',');
      if |parts| == 2 then Some((parts[0], parts[1])) else None
  }

  function Collect(lines: seq<string>): seq<(string, string)> {
    if lines == [] then [] else RecordIn(lines[0]) + Collect(lines[1..])
  }

  function RecordIn(line: string): seq<(string, string)> {
    var r := ReadRecord(line);
    if r.Some? then [r.value] else []
  }

  function HostRecords(text: string): seq<(string, string)> {
    Collect(Lines(text))
  }

  lemma Regroup<T>(x: seq<T>, y: seq<T>, z: seq<T>)
    ensures x + (y + z) == (x + y) + z
  {}

  lemma {:induction false} CollectAppend(a: seq<string>, b: seq<string>)
    ensures Collect(a + b) == Collect(a) + Collect(b)
  {
    if a == [] {
      assert a + b == b;
    } else {
      CollectAppend(a[1..], b);
      assert (a + b)[0] == a[0] && (a + b)[1..] == a[1..] + b;
      Regroup(RecordIn(a[0]), Collect(a[1..]), Collect(b));
    }
  }

  function DropCrs(lines: seq<string>): (r: seq<string>)
    ensures |r| == |lines| && forall i :: 0 <= i < |lines| ==> r[i] == DropCr(lines[i])
  {
    seq(|lines|, i requires 0 <= i < |lines| => DropCr(lines[i]))
  }

  lemma {:induction false} LinesUnlines(lines: seq<string>)
    requires forall i :: 0 <= i < |lines| ==> '\n' !in lines[i]
    ensures Lines(Unlines(lines)) == DropCrs(lines)
  {
    if lines != [] {
      LinesUnlines(lines[1..]);
      LinesHead(lines[0], Unlines(lines[1..]));
    }
  }

  /** A line that does not start with an `h` holds no record. */
  predicate Foreign(line: string) {
    line != [] && line[0] != 'h' && '\n' !in line
  }

  lemma {:induction false} ForeignHoldsNone(lines: seq<string>)
    requires forall i :: 0 <= i < |lines| ==> Foreign(lines[i])
    ensures Collect(DropCrs(lines)) == []
  {
    if lines != [] {
      ForeignHoldsNone(lines[1..]);
      assert DropCrs(lines)[1..] == DropCrs(lines[1..]);
      var line := DropCr(lines[0]);
      assert line == [] || line[0] == lines[0][0];
    }
  }

  lemma RecordText(name: string, addr: string)
    requires ',' !in name && ',' !in addr
    ensures ReadRecord("host-record=" + name + "," + addr) == Some((name, addr))
  {
    var line := "host-record=" + name + "," + addr;
    assert line[12..] == name + [','] + addr;
    SplitHead(name, addr, ',');
    SplitNone(addr, ',');
  }

  lemma RecordIsOneLine(name: string, ip: Ip)
    requires '\n' !in name
    ensures '\n' !in RecordLine(name, ip) && DropCr(RecordLine(name, ip)) == RecordLine(name, ip)
  {}

  lemma RecordReadsBack(name: string, ip: Ip)
    requires IsHostname(name)
    ensures '\n' !in RecordLine(name, ip)
    ensures ReadRecord(DropCr(RecordLine(name, ip))) == Some((name, DottedIp(ip)))
  {
    HostnameChars(name);
    DottedChars(ip);
    RecordIsOneLine(name, ip);
    RecordText(name, DottedIp(ip));
  }

  /** What records with these normal names mean: name and printed address, in order. */
  function Meaning(cfg: Cfg, records: seq<DnsRecord>, forms: seq<Option<string>>): seq<(string, string)>
    requires |forms| == |records|
  {
    if records == [] then []
    else
      var n := |records| - 1;
      Meaning(cfg, records[..n], forms[..n]) + MeaningOf(cfg, records[n], forms[n])
  }

  function MeaningOf(cfg: Cfg, rec: DnsRecord, form: Option<string>): seq<(string, string)> {
    if form.Some? then [(form.value, DottedIp(DnsRecordIp(cfg, rec)))] else []
  }

  lemma OneRecord(cfg: Cfg, rec: DnsRecord, form: Option<string>)
    requires form.Some? ==> IsHostname(form.value)
    ensures ReadsAs(LinesFor(cfg, rec, form), MeaningOf(cfg, rec, form))
  {
    if form.Some? {
      var name := form.value;
      RecordReadsBack(name, DnsRecordIp(cfg, rec));
      var lines := DropCrs(LinesFor(cfg, rec, form));
      assert lines == [DropCr(RecordLine(name, DnsRecordIp(cfg, rec)))] && lines[1..] == [];
    }
  }

  lemma NormalIsHostname(name: string)
    requires NormalForm(name).Some?
    ensures IsHostname(NormalForm(name).value)
  {
    LowerHostname(Stripped(name));
  }

  /** All lines are single lines and read back as `m`. */
  predicate ReadsAs(lines: seq<string>, m: seq<(string, string)>) {
    Collect(DropCrs(lines)) == m && forall l :: l in lines ==> '\n' !in l
  }

  lemma ReadsAsAppend(a: seq<string>, b: seq<string>, ma: seq<(string, string)>, mb: seq<(string, string)>)
    requires ReadsAs(a, ma) && ReadsAs(b, mb)
    ensures ReadsAs(a + b, ma + mb)
  {
    assert DropCrs(a + b) == DropCrs(a) + DropCrs(b);
    CollectAppend(DropCrs(a), DropCrs(b));
  }

  lemma {:induction false} AllRecords(cfg: Cfg, records: seq<DnsRecord>, forms: seq<Option<string>>)
    requires |forms| == |records|
    requires forall i :: 0 <= i < |forms| && forms[i].Some? ==> IsHostname(forms[i].value)
    ensures ReadsAs(RecordLines(cfg, records, forms), Meaning(cfg, records, forms))
  {
    if records != [] {
      var n := |records| - 1;
      AllRecords(cfg, records[..n], forms[..n]);
      OneRecord(cfg, records[n], forms[n]);
      ReadsAsAppend(RecordLines(cfg, records[..n], forms[..n]), LinesFor(cfg, records[n], forms[n]),
                    Meaning(cfg, records[..n], forms[..n]), MeaningOf(cfg, records[n], forms[n]));
    }
  }

  lemma ForeignHead(head: string, tail: string)
    requires Foreign(head) && '\n' !in tail
    ensures Foreign(head + tail)
  {}

  lemma TitleIsForeign()
    ensures Foreign("# generated by micronet \U{2014} do not edit")
  {}

  lemma HeadsAreForeign()
    ensures Foreign("interface=") && Foreign("bind-interfaces") && Foreign("listen-address=")
    ensures Foreign("dhcp-range=")
  {}

  lemma MoreHeadsAreForeign()
    ensures Foreign("dhcp-option=option:router,") && Foreign("dhcp-option=option:dns-server,")
    ensures Foreign("dhcp-leasefile=") && Foreign("pid-file=") && Foreign("dhcp-authoritative")
  {}

  lemma RangeTextIsOneLine(cfg: Cfg)
    requires Valid(cfg)
    ensures '\n' !in RangeText(cfg) && '\n' !in DottedIp(cfg.gateway.ip)
  {
    StickyIsPlain(cfg.dhcp.sticky);
    DottedChars(cfg.gateway.ip);
    DottedChars(NetworkHost(cfg.gateway.subnet, cfg.dhcp.rangeStart));
    DottedChars(NetworkHost(cfg.gateway.subnet, cfg.dhcp.rangeEnd));
    DottedChars(Netmask(cfg.gateway.subnet.prefix));
  }

  lemma HeaderIsForeign(cfg: Cfg, iface: string, leasefile: string, pidfile: string)
    requires '\n' !in RangeText(cfg) && '\n' !in DottedIp(cfg.gateway.ip)
    requires '\n' !in iface && '\n' !in leasefile && '\n' !in pidfile
    ensures forall i :: 0 <= i < |HeaderLines(cfg, iface, leasefile, pidfile)| ==>
              Foreign(HeaderLines(cfg, iface, leasefile, pidfile)[i])
  {
    TextsAreForeign(iface, DottedIp(cfg.gateway.ip), RangeText(cfg), leasefile, pidfile);
    var h := HeaderLines(cfg, iface, leasefile, pidfile);
    TenForeign(h[0], h[1], h[2], h[3], h[4], h[5], h[6], h[7], h[8], h[9]);
  }

  lemma TextsAreForeign(iface: string, gw: string, range: string, leasefile: string, pidfile: string)
    requires '\n' !in iface && '\n' !in gw && '\n' !in range && '\n' !in leasefile && '\n' !in pidfile
    ensures Foreign("# generated by micronet \U{2014} do not edit")
    ensures Foreign("interface=" + iface) && Foreign("bind-interfaces") && Foreign("listen-address=" + gw)
    ensures Foreign("dhcp-range=" + range) && Foreign("dhcp-option=option:router," + gw)
    ensures Foreign("dhcp-option=option:dns-server," + gw) && Foreign("dhcp-leasefile=" + leasefile)
    ensures Foreign("pid-file=" + pidfile) && Foreign("dhcp-authoritative")
  {
    TitleIsForeign();
    HeadsAreForeign();
    MoreHeadsAreForeign();
    ForeignHead("interface=", iface);
    ForeignHead("listen-address=", gw);
    ForeignHead("dhcp-range=", range);
    ForeignHead("dhcp-option=option:router,", gw);
    ForeignHead("dhcp-option=option:dns-server,", gw);
    ForeignHead("dhcp-leasefile=", leasefile);
    ForeignHead("pid-file=", pidfile);
  }

  lemma TenForeign(a: string, b: string, c: string, d: string, e: string,
                   f: string, g: string, h: string, i: string, j: string)
    requires Foreign(a) && Foreign(b) && Foreign(c) && Foreign(d) && Foreign(e)
    requires Foreign(f) && Foreign(g) && Foreign(h) && Foreign(i) && Foreign(j)
    ensures forall k :: 0 <= k < 10 ==> Foreign([a, b, c, d, e, f, g, h, i, j][k])
  {}

  /**
   * Round trip: from a validated configuration with newline-free interface and paths, reading the rendered
   * text back gives exactly the configured records, in order, under their normal names; none when DNS is off.
   */
  lemma ConfRoundTrip(cfg: Cfg, iface: string, leasefile: string, pidfile: string)
    requires Valid(cfg)
    requires '\n' !in iface && '\n' !in leasefile && '\n' !in pidfile
    ensures Answer(cfg, HostRecords(Unlines(ConfLines(cfg, iface, leasefile, pidfile))))
  {
    RangeTextIsOneLine(cfg);
    HeaderIsForeign(cfg, iface, leasefile, pidfile);
    BackReads(cfg);
    FrontAndBack(FrontLines(cfg, iface, leasefile, pidfile), BackLines(cfg), BackMeaning(cfg));
    if cfg.dns.enabled { MeaningAt(cfg, cfg.dns.records, Forms(cfg.dns.records)); }
  }

  /**
   * One entry per configured record, in order: its normal name with its own address, or with the gateway's when
   * it has none. No entries when DNS is off.
   */
  predicate Answer(cfg: Cfg, m: seq<(string, string)>) {
    if !cfg.dns.enabled then m == []
    else
      var records := cfg.dns.records;
      && |m| == |records|
      && forall i :: 0 <= i < |records| ==>
           && NormalForm(records[i].name) == Some(m[i].0)
           && (records[i].addr.Some? ==> m[i].1 == DottedIp(records[i].addr.value))
           && (records[i].addr.None? ==> m[i].1 == DottedIp(cfg.gateway.ip))
  }

  /** What clients are served is a map: as many names as configured records, each name once, its own address. */
  lemma {:induction false} ServedNamesAreAMap(cfg: Cfg, iface: string, leasefile: string, pidfile: string)
    requires Valid(cfg) && cfg.dns.enabled
    requires '\n' !in iface && '\n' !in leasefile && '\n' !in pidfile
    ensures var m := HostRecords(Unlines(ConfLines(cfg, iface, leasefile, pidfile)));
            && Answer(cfg, m)
            && (forall i, j :: 0 <= i < j < |m| ==> m[i].0 != m[j].0)
  {
    ConfRoundTrip(cfg, iface, leasefile, pidfile);
    var forms := Forms(cfg.dns.records);
    var m := HostRecords(Unlines(ConfLines(cfg, iface, leasefile, pidfile)));
    forall i, j | 0 <= i < j < |m| ensures m[i].0 != m[j].0 {
      assert forms[i] == Some(m[i].0) && forms[j] == Some(m[j].0);
    }
  }

  function BackMeaning(cfg: Cfg): seq<(string, string)> {
    if cfg.dns.enabled then Meaning(cfg, cfg.dns.records, Forms(cfg.dns.records)) else []
  }

  lemma BackReads(cfg: Cfg)
    ensures ReadsAs(BackLines(cfg), BackMeaning(cfg))
  {
    var forms := Forms(cfg.dns.records);
    forall i | 0 <= i < |forms| && forms[i].Some? ensures IsHostname(forms[i].value) {
      NormalIsHostname(cfg.dns.records[i].name);
    }
    AllRecords(cfg, cfg.dns.records, forms);
  }

  lemma FrontAndBack(front: seq<string>, back: seq<string>, m: seq<(string, string)>)
    requires forall i :: 0 <= i < |front| ==> Foreign(front[i])
    requires ReadsAs(back, m)
    ensures HostRecords(Unlines(front + back)) == m
  {
    ForeignReadsAsNone(front);
    ReadsAsAppend(front, back, [], m);
    AllReadBack(front + back, [] + m);
    assert [] + m == m;
  }

  lemma ForeignReadsAsNone(front: seq<string>)
    requires forall i :: 0 <= i < |front| ==> Foreign(front[i])
    ensures ReadsAs(front, [])
  {
    ForeignHoldsNone(front);
    forall l | l in front ensures '\n' !in l {
      var i :| 0 <= i < |front| && front[i] == l;
    }
  }

  lemma AllReadBack(lines: seq<string>, m: seq<(string, string)>)
    requires ReadsAs(lines, m)
    ensures HostRecords(Unlines(lines)) == m
  {
    forall i | 0 <= i < |lines| ensures '\n' !in lines[i] { assert lines[i] in lines; }
    LinesUnlines(lines);
  }

  lemma {:induction false} MeaningAt(cfg: Cfg, records: seq<DnsRecord>, forms: seq<Option<string>>)
    requires |forms| == |records| && forall i :: 0 <= i < |forms| ==> forms[i].Some?
    ensures var m := Meaning(cfg, records, forms);
            && |m| == |records|
            && forall i :: 0 <= i < |records| ==>
                 m[i] == (forms[i].value, DottedIp(DnsRecordIp(cfg, records[i])))
  {
    if records != [] {
      var n := |records| - 1;
      MeaningAt(cfg, records[..n], forms[..n]);
    }
  }
}
