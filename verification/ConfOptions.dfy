/** Reading the whole dnsmasq configuration back, as options in the order of the file. */
module ConfOptions {
  import opened Basics
  import opened Text
  import opened Config
  import opened Addr
  import opened Conf

  // ----- A reader that knows nothing of the renderer -----

  /** An option line is `key=value` or a bare `key`; the first `=` counts. */
  function ReadOption(line: string): (string, string)
    decreases |line|
  {
    if line == [] then ([], [])
    else if line[0] == '=' then ([], line[1..])
    else
      var rest := ReadOption(line[1..]);
      ([line[0]] + rest.0, rest.1)
  }

  /** Every line that is neither empty nor a comment is an option. */
  function OptionsOf(lines: seq<string>): seq<(string, string)> {
    if lines == [] then []
    else OptionIn(lines[0]) + OptionsOf(lines[1..])
  }

  function OptionIn(line: string): seq<(string, string)> {
    if line == [] || line[0] == '#' then [] else [ReadOption(line)]
  }

  function Options(text: string): seq<(string, string)> {
    OptionsOf(Split(text, '\n'))
  }

  /** The four numbers of a dotted address. */
  predicate Denotes(text: string, ip: Ip) {
    var parts := Split(text, '.');
    && |parts| == 4 && (forall p, c :: p in parts && c in p ==> IsDigit(c))
    && DecValue(parts[0]) == ip.a && DecValue(parts[1]) == ip.b
    && DecValue(parts[2]) == ip.c && DecValue(parts[3]) == ip.d
  }

  // ----- What is wanted -----

  /** Host `.h` of the gateway's /24. */
  function Host24(cfg: Cfg, h: byte): Ip {
    Ip(cfg.gateway.subnet.ip.a, cfg.gateway.subnet.ip.b, cfg.gateway.subnet.ip.c, h)
  }

  /** Listen on this interface only, and lease the pool with ourselves as router and name server. */
  function ServerOptions(cfg: Cfg, iface: string, leasefile: string, pidfile: string): seq<(string, string)> {
    var gw := DottedIp(cfg.gateway.ip);
    var pool := DottedIp(Host24(cfg, cfg.dhcp.rangeStart)) + "," + DottedIp(Host24(cfg, cfg.dhcp.rangeEnd));
    [ ("interface", iface), ("bind-interfaces", ""), ("listen-address", gw),
      ("dhcp-range", pool + "," + DottedIp(Ip(255, 255, 255, 0)) + "," + Trim(cfg.dhcp.sticky)),
      ("dhcp-option", "option:router," + gw), ("dhcp-option", "option:dns-server," + gw),
      ("dhcp-leasefile", leasefile), ("pid-file", pidfile), ("dhcp-authoritative", "") ]
  }

  /** Record `i` as an option: its normal name, then its own address or else the gateway's. */
  function HostRecord(cfg: Cfg, i: nat): (string, string)
    requires Valid(cfg) && i < |cfg.dns.records|
  {
    var rec := cfg.dns.records[i];
    var ip := match rec.addr case Some(own) => own case None => cfg.gateway.ip;
    assert Forms(cfg.dns.records)[i].Some?;
    ("host-record", NormalForm(rec.name).value + "," + DottedIp(ip))
  }

  function NameOptions(cfg: Cfg): seq<(string, string)>
    requires Valid(cfg)
  {
    if !cfg.dns.enabled then []
    else
      [("local", "/lan/")]
      + seq(|cfg.dns.records|, i requires 0 <= i < |cfg.dns.records| => HostRecord(cfg, i))
  }

  // ----- Proof -----

  lemma {:induction false} KeyValue(key: string, value: string)
    requires '=' !in key
    ensures ReadOption(key + "=" + value) == (key, value)
  {
    var line := key + "=" + value;
    if key == [] {
      assert line[1..] == value;
    } else {
      KeyValue(key[1..], value);
      assert line[1..] == key[1..] + "=" + value;
      assert [key[0]] + key[1..] == key;
    }
  }

  lemma {:induction false} BareKey(key: string)
    requires '=' !in key
    ensures ReadOption(key) == (key, "")
  {
    if key != [] {
      BareKey(key[1..]);
      assert [key[0]] + key[1..] == key;
    }
  }

  lemma {:induction false} OptionsAppend(a: seq<string>, b: seq<string>)
    ensures OptionsOf(a + b) == OptionsOf(a) + OptionsOf(b)
  {
    if a == [] {
      assert a + b == b;
    } else {
      OptionsAppend(a[1..], b);
      assert (a + b)[0] == a[0] && (a + b)[1..] == a[1..] + b;
      Regroup(OptionIn(a[0]), OptionsOf(a[1..]), OptionsOf(b));
    }
  }

  lemma {:induction false} SplitUnlines(lines: seq<string>)
    requires forall i :: 0 <= i < |lines| ==> '\n' !in lines[i]
    ensures Split(Unlines(lines), '\n') == lines + [[]]
  {
    if lines == [] {
      assert lines + [[]] == [[]];
    } else {
      SplitUnlines(lines[1..]);
      SplitHead(lines[0], Unlines(lines[1..]), '\n');
      assert [lines[0]] + (lines[1..] + [[]]) == lines + [[]];
    }
  }

  /** A line that is one line of text and one option. */
  predicate Reads(line: string, o: (string, string)) {
    line != [] && line[0] != '#' && '\n' !in line && ReadOption(line) == o
  }

  lemma KeyLine(key: string, value: string)
    requires key != [] && key[0] != '#' && '=' !in key && '\n' !in key && '\n' !in value
    ensures Reads(key + "=" + value, (key, value))
  {
    KeyValue(key, value);
  }

  lemma BareLine(key: string)
    requires key != [] && key[0] != '#' && '=' !in key && '\n' !in key
    ensures Reads(key, (key, ""))
  {
    BareKey(key);
  }

  lemma {:induction false} EachReads(lines: seq<string>, os: seq<(string, string)>)
    requires |lines| == |os| && forall i :: 0 <= i < |lines| ==> Reads(lines[i], os[i])
    ensures OptionsOf(lines) == os
    ensures forall i :: 0 <= i < |lines| ==> '\n' !in lines[i]
  {
    if lines != [] {
      forall i | 0 <= i < |lines| - 1 ensures Reads(lines[1..][i], os[1..][i]) {
        assert Reads(lines[i + 1], os[i + 1]);
      }
      EachReads(lines[1..], os[1..]);
      assert Reads(lines[0], os[0]);
      assert [os[0]] + os[1..] == os;
    }
  }

  /** `head` is the key, the sign and the constant start of the value. */
  predicate Heads(head: string, key: string, first: string) {
    && head == key + "=" + first && '\n' !in head
    && key != [] && key[0] != '#' && '=' !in key
  }

  lemma KeyText(head: string, key: string, first: string, value: string)
    requires Heads(head, key, first) && '\n' !in value
    ensures Reads(head + value, (key, first + value))
  {
    KeyLine(key, first + value);
    assert head + value == key + "=" + (first + value);
  }

  lemma PlainText(head: string, key: string, value: string)
    requires Heads(head, key, []) && '\n' !in value
    ensures Reads(head + value, (key, value))
  {
    KeyText(head, key, [], value);
    assert [] + value == value;
  }

  lemma InterfaceHead()
    ensures Heads("interface=", "interface", [])
  {}

  lemma ListenHead()
    ensures Heads("listen-address=", "listen-address", [])
  {}

  lemma RangeHead()
    ensures Heads("dhcp-range=", "dhcp-range", [])
  {}

  lemma RouterHead()
    ensures Heads("dhcp-option=option:router,", "dhcp-option", "option:router,")
  {}

  lemma DnsHead()
    ensures Heads("dhcp-option=option:dns-server,", "dhcp-option", "option:dns-server,")
  {}

  lemma FileHeads()
    ensures Heads("dhcp-leasefile=", "dhcp-leasefile", []) && Heads("pid-file=", "pid-file", [])
  {}

  lemma NameHeads()
    ensures Heads("host-record=", "host-record", []) && Heads("local=", "local", [])
  {}

  lemma BindReads()
    ensures Reads("bind-interfaces", ("bind-interfaces", ""))
  {
    BareLine("bind-interfaces");
  }

  lemma AuthoritativeReads()
    ensures Reads("dhcp-authoritative", ("dhcp-authoritative", ""))
  {
    BareLine("dhcp-authoritative");
  }

  lemma LocalReads()
    ensures Reads("local=/lan/", ("local", "/lan/"))
  {
    NameHeads();
    PlainText("local=", "local", "/lan/");
    assert "local=" + "/lan/" == "local=/lan/";
  }

  lemma RangeReads(cfg: Cfg)
    requires Valid(cfg)
    ensures RangeText(cfg) ==
            DottedIp(Host24(cfg, cfg.dhcp.rangeStart)) + "," + DottedIp(Host24(cfg, cfg.dhcp.rangeEnd)) + ","
            + DottedIp(Ip(255, 255, 255, 0)) + "," + Trim(cfg.dhcp.sticky)
  {
    NetworkHost24(cfg, cfg.dhcp.rangeStart);
    NetworkHost24(cfg, cfg.dhcp.rangeEnd);
  }

  /** Lines that read as these options, one each. */
  ghost predicate ReadAs(lines: seq<string>, os: seq<(string, string)>) {
    |lines| == |os| && forall i :: 0 <= i < |lines| ==> Reads(lines[i], os[i])
  }

  lemma NineRead(a: string, b: string, c: string, d: string, e: string, f: string, g: string, h: string, i: string,
                 os: seq<(string, string)>)
    requires |os| == 9 && Reads(a, os[0]) && Reads(b, os[1]) && Reads(c, os[2]) && Reads(d, os[3]) && Reads(e, os[4])
    requires Reads(f, os[5]) && Reads(g, os[6]) && Reads(h, os[7]) && Reads(i, os[8])
    ensures ReadAs([a, b, c, d, e, f, g, h, i], os)
  {}

  lemma HeaderReads(cfg: Cfg, iface: string, leasefile: string, pidfile: string)
    requires Valid(cfg) && '\n' !in iface && '\n' !in leasefile && '\n' !in pidfile
    ensures ReadAs(HeaderLines(cfg, iface, leasefile, pidfile)[1..], ServerOptions(cfg, iface, leasefile, pidfile))
  {
    RangeTextIsOneLine(cfg);
    RangeReads(cfg);
    TextsRead(iface, DottedIp(cfg.gateway.ip), RangeText(cfg), leasefile, pidfile);
    var h := HeaderLines(cfg, iface, leasefile, pidfile);
    NineRead(h[1], h[2], h[3], h[4], h[5], h[6], h[7], h[8], h[9], ServerOptions(cfg, iface, leasefile, pidfile));
    assert h[1..] == [h[1], h[2], h[3], h[4], h[5], h[6], h[7], h[8], h[9]];
  }

  lemma TextsRead(iface: string, gw: string, range: string, leasefile: string, pidfile: string)
    requires '\n' !in iface && '\n' !in gw && '\n' !in range && '\n' !in leasefile && '\n' !in pidfile
    ensures Reads("interface=" + iface, ("interface", iface)) && Reads("bind-interfaces", ("bind-interfaces", ""))
    ensures Reads("listen-address=" + gw, ("listen-address", gw)) && Reads("dhcp-range=" + range, ("dhcp-range", range))
    ensures Reads("dhcp-option=option:router," + gw, ("dhcp-option", "option:router," + gw))
    ensures Reads("dhcp-option=option:dns-server," + gw, ("dhcp-option", "option:dns-server," + gw))
    ensures Reads("dhcp-leasefile=" + leasefile, ("dhcp-leasefile", leasefile))
    ensures Reads("pid-file=" + pidfile, ("pid-file", pidfile))
    ensures Reads("dhcp-authoritative", ("dhcp-authoritative", ""))
  {
    assert Reads("interface=" + iface, ("interface", iface)) by {
      InterfaceHead();
      PlainText("interface=", "interface", iface);
    }
    assert Reads("listen-address=" + gw, ("listen-address", gw)) by {
      ListenHead();
      PlainText("listen-address=", "listen-address", gw);
    }
    assert Reads("dhcp-range=" + range, ("dhcp-range", range)) by {
      RangeHead();
      PlainText("dhcp-range=", "dhcp-range", range);
    }
    assert Reads("dhcp-option=option:router," + gw, ("dhcp-option", "option:router," + gw)) by {
      RouterHead();
      KeyText("dhcp-option=option:router,", "dhcp-option", "option:router,", gw);
    }
    assert Reads("dhcp-option=option:dns-server," + gw, ("dhcp-option", "option:dns-server," + gw)) by {
      DnsHead();
      KeyText("dhcp-option=option:dns-server,", "dhcp-option", "option:dns-server,", gw);
    }
    assert Reads("dhcp-leasefile=" + leasefile, ("dhcp-leasefile", leasefile))
        && Reads("pid-file=" + pidfile, ("pid-file", pidfile)) by {
      FileHeads();
      PlainText("dhcp-leasefile=", "dhcp-leasefile", leasefile);
      PlainText("pid-file=", "pid-file", pidfile);
    }
    BindReads();
    AuthoritativeReads();
  }

  lemma {:induction false} RecordLinesAt(cfg: Cfg, records: seq<DnsRecord>, forms: seq<Option<string>>)
    requires |forms| == |records| && forall i :: 0 <= i < |forms| ==> forms[i].Some?
    ensures var lines := RecordLines(cfg, records, forms);
            && |lines| == |records|
            && forall i :: 0 <= i < |records| ==> lines[i] == RecordLine(forms[i].value, DnsRecordIp(cfg, records[i]))
  {
    if records != [] {
      var n := |records| - 1;
      RecordLinesAt(cfg, records[..n], forms[..n]);
    }
  }

  lemma RecordReads(name: string, ip: Ip)
    requires IsHostname(name)
    ensures Reads(RecordLine(name, ip), ("host-record", name + "," + DottedIp(ip)))
  {
    HostnameChars(name);
    DottedChars(ip);
    NameHeads();
    PlainText("host-record=", "host-record", name + "," + DottedIp(ip));
    Comma("host-record=", name, DottedIp(ip));
  }

  lemma Comma(head: string, name: string, ip: string)
    ensures head + name + "," + ip == head + (name + "," + ip)
  {}

  lemma OneHostRecord(cfg: Cfg, i: nat, form: Option<string>)
    requires Valid(cfg) && i < |cfg.dns.records| && form == NormalForm(cfg.dns.records[i].name) && form.Some?
    ensures Reads(RecordLine(form.value, DnsRecordIp(cfg, cfg.dns.records[i])), HostRecord(cfg, i))
  {
    NormalIsHostname(cfg.dns.records[i].name);
    RecordReads(form.value, DnsRecordIp(cfg, cfg.dns.records[i]));
  }

  lemma HostRecordsRead(cfg: Cfg)
    requires Valid(cfg) && cfg.dns.enabled
    ensures ReadAs(RecordLines(cfg, cfg.dns.records, Forms(cfg.dns.records)), NameOptions(cfg)[1..])
  {
    var records, forms := cfg.dns.records, Forms(cfg.dns.records);
    RecordLinesAt(cfg, records, forms);
    forall i | 0 <= i < |records| ensures Reads(RecordLines(cfg, records, forms)[i], NameOptions(cfg)[1..][i]) {
      OneHostRecord(cfg, i, forms[i]);
    }
  }

  lemma NamesRead(cfg: Cfg)
    requires Valid(cfg) && cfg.dns.enabled
    ensures ReadAs(["local=/lan/"] + BackLines(cfg), NameOptions(cfg))
  {
    HostRecordsRead(cfg);
    LocalReads();
    FirstThen("local=/lan/", BackLines(cfg), ("local", "/lan/"), NameOptions(cfg)[1..]);
    assert NameOptions(cfg) == [("local", "/lan/")] + NameOptions(cfg)[1..];
  }

  lemma FirstThen(line: string, lines: seq<string>, o: (string, string), os: seq<(string, string)>)
    requires Reads(line, o) && ReadAs(lines, os)
    ensures ReadAs([line] + lines, [o] + os)
  {}

  lemma ReadAsAppend(a: seq<string>, b: seq<string>, oa: seq<(string, string)>, ob: seq<(string, string)>)
    requires ReadAs(a, oa) && ReadAs(b, ob)
    ensures ReadAs(a + b, oa + ob)
  {}

  /** Behind a comment, lines that read as options are the options of the file. */
  lemma FileOptions(comment: string, lines: seq<string>, os: seq<(string, string)>)
    requires comment != [] && comment[0] == '#' && '\n' !in comment && ReadAs(lines, os)
    ensures Options(Unlines([comment] + lines)) == os
  {
    EachReads(lines, os);
    var all := [comment] + lines;
    assert all[1..] == lines;
    SplitUnlines(all);
    OptionsAppend(all, [[]]);
    var none: seq<string> := [[]];
    assert none[1..] == [];
    assert OptionsOf(all) == os;
  }

  /**
   * The rendered file read back as a whole: for every valid configuration the options are exactly those of our
   * server and, with DNS on, the local domain and one host record for each configured one, in this order.
   */
  lemma {:induction false} ConfReadsBack(cfg: Cfg, iface: string, leasefile: string, pidfile: string)
    requires Valid(cfg) && '\n' !in iface && '\n' !in leasefile && '\n' !in pidfile
    ensures Options(Unlines(ConfLines(cfg, iface, leasefile, pidfile))) ==
            ServerOptions(cfg, iface, leasefile, pidfile) + NameOptions(cfg)
  {
    var lines := OptionLines(cfg, iface, leasefile, pidfile);
    TitleIsForeign();
    FileOptions("# generated by micronet \U{2014} do not edit", lines,
                ServerOptions(cfg, iface, leasefile, pidfile) + NameOptions(cfg));
  }

  lemma OptionLines(cfg: Cfg, iface: string, leasefile: string, pidfile: string) returns (lines: seq<string>)
    requires Valid(cfg) && '\n' !in iface && '\n' !in leasefile && '\n' !in pidfile
    ensures ConfLines(cfg, iface, leasefile, pidfile) == ["# generated by micronet \U{2014} do not edit"] + lines
    ensures ReadAs(lines, ServerOptions(cfg, iface, leasefile, pidfile) + NameOptions(cfg))
  {
    var h, server := HeaderLines(cfg, iface, leasefile, pidfile), ServerOptions(cfg, iface, leasefile, pidfile);
    var local := LocalLine(cfg);
    HeaderReads(cfg, iface, leasefile, pidfile);
    BackRead(cfg);
    ReadAsAppend(h[1..], local + BackLines(cfg), server, NameOptions(cfg));
    TitleThen(h, local, BackLines(cfg));
    lines := h[1..] + (local + BackLines(cfg));
  }

  function LocalLine(cfg: Cfg): seq<string> {
    if cfg.dns.enabled then ["local=/lan/"] else []
  }

  lemma BackRead(cfg: Cfg)
    requires Valid(cfg)
    ensures ReadAs(LocalLine(cfg) + BackLines(cfg), NameOptions(cfg))
  {
    if cfg.dns.enabled { NamesRead(cfg); }
  }

  lemma TitleThen(h: seq<string>, local: seq<string>, back: seq<string>)
    requires h != []
    ensures h + local + back == [h[0]] + (h[1..] + (local + back))
  {}

  /** The addresses in it are printed as the four numbers that they are. */
  lemma DottedDenotes(ip: Ip)
    ensures Denotes(DottedIp(ip), ip)
  {
    FourParts(Dec(ip.a), Dec(ip.b), Dec(ip.c), Dec(ip.d));
    DecRoundTrip(ip.a);
    DecRoundTrip(ip.b);
    DecRoundTrip(ip.c);
    DecRoundTrip(ip.d);
  }

  lemma FourParts(a: string, b: string, c: string, d: string)
    requires '.' !in a && '.' !in b && '.' !in c && '.' !in d
    ensures Split(a + "." + (b + "." + (c + "." + d)), '.') == [a, b, c, d]
  {
    SplitHead(a, b + "." + (c + "." + d), '.');
    SplitHead(b, c + "." + d, '.');
    SplitHead(c, d, '.');
    SplitNone(d, '.');
  }
}
