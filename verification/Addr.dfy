/** Reading the text of `ip -4 -o addr show`, and when that reading is exact. */
module Addr {
  import opened Basics
  import opened Text

  // ----- Printing -----

  function DottedIp(ip: Ip): string {
    Dec(ip.a) + "." + (Dec(ip.b) + "." + (Dec(ip.c) + "." + Dec(ip.d)))
  }

  function PrintCidr(c: Cidr): string {
    DottedIp(c.ip) + "/" + Dec(c.prefix)
  }

  predicate IsIpChar(c: char) {
    IsDigit(c) || c == '.'
  }

  lemma DottedChars(ip: Ip)
    ensures forall c :: c in DottedIp(ip) ==> IsIpChar(c)
    ensures IsDigit(DottedIp(ip)[0])
  {}

  lemma OctetFirst(m: nat, x: string, n: nat, y: string)
    requires Dec(m) + "." + x == Dec(n) + "." + y
    ensures m == n && x == y
  {
    CutUnique(Dec(m), x, Dec(n), y, '.');
    DecInjective(m, n);
  }

  lemma DottedInjective(x: Ip, y: Ip)
    requires DottedIp(x) == DottedIp(y)
    ensures x == y
  {
    OctetFirst(x.a, Dec(x.b) + "." + (Dec(x.c) + "." + Dec(x.d)), y.a, Dec(y.b) + "." + (Dec(y.c) + "." + Dec(y.d)));
    OctetFirst(x.b, Dec(x.c) + "." + Dec(x.d), y.b, Dec(y.c) + "." + Dec(y.d));
    OctetFirst(x.c, Dec(x.d), y.c, Dec(y.d));
    DecInjective(x.d, y.d);
  }

  /** Dotted decimal followed by a slash is prefix-free: the text prefix decides the address. */
  lemma SlashDecides(ip: Ip, c: Cidr)
    ensures DottedIp(ip) + "/" <= PrintCidr(c) <==> ip == c.ip
  {
    var t := PrintCidr(c);
    if DottedIp(ip) + "/" <= t {
      DottedChars(ip);
      DottedChars(c.ip);
      var rest := t[|DottedIp(ip)| + 1..];
      assert t == DottedIp(ip) + ['/'] + rest;
      assert t == DottedIp(c.ip) + ['/'] + Dec(c.prefix);
      CutUnique(DottedIp(ip), rest, DottedIp(c.ip), Dec(c.prefix), '/');
      DottedInjective(ip, c.ip);
    }
  }

  /** Different addresses print differently, so comparing texts is comparing addresses. */
  lemma PrintCidrInjective(x: Cidr, y: Cidr)
    requires PrintCidr(x) == PrintCidr(y)
    ensures x == y
  {
    DottedChars(x.ip);
    DottedChars(y.ip);
    CutUnique(DottedIp(x.ip), Dec(x.prefix), DottedIp(y.ip), Dec(y.prefix), '/');
    DottedInjective(x.ip, y.ip);
    DecInjective(x.prefix, y.prefix);
  }

  // ----- Reading -----

  /** The word behind the first `inet ` of a line. */
  function Token(line: string): Option<string> {
    var p := SecondPiece(line, "inet ");
    if p.None? then None else FirstWord(p.value)
  }

  /** Some line shows `ip` as a configured address. */
  predicate StdoutHasIpv4(out: string, ip: Ip) {
    exists i :: 0 <= i < |Lines(out)| && TokenShows(Lines(out)[i], ip)
  }

  predicate TokenShows(line: string, ip: Ip) {
    Token(line).Some? && DottedIp(ip) + "/" <= Token(line).value
  }

  /** The tokens that read as a network, in order; `isNet` is the library's network parser. */
  function Tokens(lines: seq<string>, isNet: string -> bool): seq<string> {
    if lines == [] then []
    else
      var rest := Tokens(lines[..|lines| - 1], isNet);
      var t := Token(lines[|lines| - 1]);
      if t.Some? && isNet(t.value) then rest + [t.value] else rest
  }

  /** First token that is not link-local, else the first one. */
  function Preferred(found: seq<string>): Option<string> {
    if found == [] then None
    else if !("169.254." <= found[0]) then Some(found[0])
    else
      var rest := Preferred(found[1..]);
      if rest.Some? && !("169.254." <= rest.value) then rest else Some(found[0])
  }

  lemma LastToken(lines: seq<string>, isNet: string -> bool, line: string)
    requires lines != [] && line == lines[|lines| - 1]
    ensures Tokens(lines, isNet) ==
            Tokens(lines[..|lines| - 1], isNet)
            + if Token(line).Some? && isNet(Token(line).value) then [Token(line).value] else []
  {}

  method ParseFirstInetCidr(out: string, isNet: string -> bool) returns (r: Option<string>)
    ensures r == Preferred(Tokens(Lines(out), isNet))
  {
    var found := [];
    var lines := Lines(out);
    for i := 0 to |lines|
      invariant found == Tokens(lines[..i], isNet)
    {
      assert lines[..i + 1][..i] == lines[..i];
      LastToken(lines[..i + 1], isNet, lines[i]);
      var t := Token(lines[i]);
      if t.None? {
        continue;
      }
      if isNet(t.value) {
        found := found + [t.value];
      }
    }
    assert lines[..|lines|] == lines;
    r := FindPreferred(found);
  }

  method FindPreferred(found: seq<string>) returns (r: Option<string>)
    ensures r == Preferred(found)
  {
    for i := 0 to |found|
      invariant forall k :: 0 <= k < i ==> "169.254." <= found[k]
    {
      if !("169.254." <= found[i]) {
        FirstPlain(found, i);
        return Some(found[i]);
      }
    }
    AllLinkLocal(found);
    return if found == [] then None else Some(found[0]);
  }

  lemma {:induction false} FirstPlain(found: seq<string>, i: nat)
    requires i < |found| && !("169.254." <= found[i])
    requires forall k :: 0 <= k < i ==> "169.254." <= found[k]
    ensures Preferred(found) == Some(found[i])
  {
    if i > 0 { FirstPlain(found[1..], i - 1); }
  }

  lemma {:induction false} AllLinkLocal(found: seq<string>)
    requires forall k :: 0 <= k < |found| ==> "169.254." <= found[k]
    ensures Preferred(found) == if found == [] then None else Some(found[0])
  {
    if found != [] { AllLinkLocal(found[1..]); }
  }

  /** For any text: if the reported address starts with `ip/`, the text test for `ip` is positive too. */
  lemma {:induction false} ReportedIsPresent(out: string, isNet: string -> bool, ip: Ip)
    requires var r := Preferred(Tokens(Lines(out), isNet)); r.Some? && DottedIp(ip) + "/" <= r.value
    ensures StdoutHasIpv4(out, ip)
  {
    var tokens := Tokens(Lines(out), isNet);
    PreferredIsFound(tokens);
    var k := TokenLine(Lines(out), isNet, Preferred(tokens).value);
    assert TokenShows(Lines(out)[k], ip);
  }

  lemma {:induction false} PreferredIsFound(found: seq<string>)
    ensures Preferred(found).Some? ==> Preferred(found).value in found
  {
    if found != [] { PreferredIsFound(found[1..]); }
  }

  lemma {:induction false} TokenLine(lines: seq<string>, isNet: string -> bool, t: string) returns (k: nat)
    requires t in Tokens(lines, isNet)
    ensures k < |lines| && Token(lines[k]) == Some(t)
  {
    var most := lines[..|lines| - 1];
    if t in Tokens(most, isNet) {
      k := TokenLine(most, isNet, t);
    } else {
      k := |lines| - 1;
    }
  }

  // ----- Exactness on printed output -----

  /** One line of the one-line format: index, name, address, and the rest of the line. */
  datatype Entry = Entry(index: nat, name: string, cidr: Cidr, rest: string)

  /** Interface names have no white space, prefixes at most 32 bits; the rest of a line is one line. */
  predicate Printable(e: Entry) {
    (forall c :: c in e.name ==> !IsSpace(c)) && e.cidr.prefix <= 32 && '\n' !in e.rest && '\r' !in e.rest
  }

  function Before(e: Entry): string {
    Dec(e.index) + ": " + e.name + "    "
  }

  function PrintEntry(e: Entry): string {
    Before(e) + "inet " + PrintCidr(e.cidr) + " " + e.rest
  }

  function PrintAll(es: seq<Entry>): string {
    if es == [] then [] else PrintEntry(es[0]) + "\n" + PrintAll(es[1..])
  }

  /** A name that ends in `inet` runs into the separator and hides the address behind it. */
  predicate Hidden(e: Entry) {
    HidesAddress(e.name)
  }

  lemma FindIs(s: string, pat: string, k: nat)
    requires pat != [] && k <= |s| && pat <= s[k..]
    requires forall m :: 0 <= m < k ==> !(pat <= s[m..])
    ensures Find(s, pat) == Some(k)
  {}

  /** Where `inet ` can start before the place it was printed: only at the end of the name. */
  lemma InetOnlyInName(e: Entry, line: string, m: nat)
    requires Printable(e) && Before(e) + "inet " <= line && m < |Before(e)|
    ensures "inet " <= line[m..] <==> Hidden(e) && m == |Before(e)| - 8
  {
    var a, n := |Dec(e.index)|, |e.name|;
    var text := Before(e) + "inet ";
    assert |text| == a + n + 11;
    assert forall p :: 0 <= p < |text| ==> line[p] == text[p];
    assert forall p :: 0 <= p < a ==> IsDigit(text[p]) by {
      forall p | 0 <= p < a ensures IsDigit(text[p]) { assert text[p] == Dec(e.index)[p]; }
    }
    assert text[a] == ':' && text[a + 1] == ' ';
    assert forall p :: 0 <= p < n ==> text[a + 2 + p] == e.name[p];
    assert forall p :: a + 2 + n <= p < a + 6 + n ==> text[p] == ' ';
    assert text[a + 6 + n..] == "inet ";
    InetSpot(e, text, a, n, line, m);
  }

  lemma InetSpot(e: Entry, text: string, a: nat, n: nat, line: string, m: nat)
    requires n == |e.name| && |text| == a + n + 11 && text <= line && m < a + n + 6
    requires forall c :: c in e.name ==> !IsSpace(c)
    requires forall p :: 0 <= p < a ==> IsDigit(text[p])
    requires text[a] == ':' && text[a + 1] == ' '
    requires forall p :: 0 <= p < n ==> text[a + 2 + p] == e.name[p]
    requires forall p :: a + 2 + n <= p < a + 6 + n ==> text[p] == ' '
    requires text[a + 6 + n..] == "inet "
    ensures "inet " <= line[m..] <==> Hidden(e) && m == a + n - 2
  {
    forall p | a + 2 <= p < a + 2 + n ensures text[p] != ' ' {
      assert text[p] == text[a + 2 + (p - a - 2)] == e.name[p - a - 2];
      assert text[p] in e.name;
    }
    forall p | a + 6 + n <= p < a + 10 + n ensures text[p] != ' ' {
      assert text[p] == text[a + 6 + n..][p - (a + 6 + n)];
    }
    if "inet " <= line[m..] {
      assert line[m..][..5] == "inet ";
      assert forall p :: 0 <= p < 5 ==> text[m + p] == "inet "[p];
      assert text[m + 4] == ' ' && text[m + 3] == 't';
      assert m + 4 == a + 2 + n;
      assert n >= 4;
      assert text[m..m + 4] == "inet" by { assert text[m..m + 4] == [text[m], text[m + 1], text[m + 2], text[m + 3]]; }
      assert e.name[n - 4..] == text[m..m + 4];
    }
    if Hidden(e) && m == a + n - 2 {
      assert text[m..m + 4] == e.name[n - 4..];
      assert text[m + 4] == ' ';
      assert line[m..][..5] == "inet ";
    }
  }

  /** What a reader gets out of one printed line. */
  lemma TokenOfEntry(e: Entry)
    requires Printable(e)
    ensures Token(PrintEntry(e)) == if Hidden(e) then None else Some(PrintCidr(e.cidr))
  {
    var line, b := PrintEntry(e), |Before(e)|;
    var tail := PrintCidr(e.cidr) + " " + e.rest;
    assert line == Before(e) + "inet " + tail;
    FirstInet(e, line, tail);
    if Hidden(e) {
      HiddenRest(e, line, tail);
      TokenBehind(line, b - 8, "   inet " + tail);
      SpacesThenInet(tail);
    } else {
      TokenBehind(line, b, tail);
      PlainToken(e.cidr, e.rest);
    }
  }

  lemma HiddenRest(e: Entry, line: string, tail: string)
    requires Hidden(e) && line == Before(e) + "inet " + tail
    ensures line[|Before(e)| - 3..] == "   inet " + tail
  {}

  lemma TokenBehind(line: string, k: nat, rest: string)
    requires Find(line, "inet ") == Some(k) && k + 5 <= |line| && rest == line[k + 5..]
    ensures var j := Find(rest, "inet ");
            Token(line) == FirstWord(if j.Some? then rest[..j.value] else rest)
  {}

  lemma FirstInet(e: Entry, line: string, tail: string)
    requires Printable(e) && line == Before(e) + "inet " + tail
    ensures Find(line, "inet ") == Some(if Hidden(e) then |Before(e)| - 8 else |Before(e)|)
  {
    var b := |Before(e)|;
    assert Before(e) + "inet " <= line;
    forall m | 0 <= m < b ensures "inet " <= line[m..] <==> Hidden(e) && m == b - 8 {
      InetOnlyInName(e, line, m);
    }
    assert line[b..] == "inet " + tail;
    FindIs(line, "inet ", if Hidden(e) then b - 8 else b);
  }

  /** Between the two `inet ` of a hidden entry there is only white space. */
  lemma SpacesThenInet(tail: string)
    ensures var rest := "   inet " + tail;
            Find(rest, "inet ") == Some(3) && FirstWord(rest[..3]) == None
  {
    var rest := "   inet " + tail;
    assert rest[3..] == "inet " + tail;
    forall m | 0 <= m < 3 ensures !("inet " <= rest[m..]) {
      assert rest[m..][0] == ' ';
    }
    FindIs(rest, "inet ", 3);
    assert rest[..3] == "   ";
    OnlySpaces(rest[..3]);
  }

  lemma CidrWord(c: Cidr)
    ensures PrintCidr(c) != [] && forall x :: x in PrintCidr(c) ==> !IsSpace(x) && x != 'i' && x != '\n'
  {}

  /** A further `inet ` cannot start inside the address or at the blank behind it. */
  lemma NextInetIsLater(c: Cidr, tail: string)
    ensures var j := Find(PrintCidr(c) + " " + tail, "inet "); j.Some? ==> j.value > |PrintCidr(c)|
  {
    var rest := PrintCidr(c) + " " + tail;
    CidrWord(c);
    var j := Find(rest, "inet ");
    if j.Some? {
      assert rest[j.value] == rest[j.value..][0] == "inet "[0];
      assert forall p :: 0 <= p < |PrintCidr(c)| ==> rest[p] == PrintCidr(c)[p] && rest[p] in PrintCidr(c);
      assert rest[|PrintCidr(c)|] == ' ';
    }
  }

  lemma WordThenBlank(word: string, piece: string)
    requires word != [] && (forall x :: x in word ==> !IsSpace(x))
    requires word < piece && IsSpace(piece[|word|])
    ensures FirstWord(piece) == Some(word)
  {
    assert piece[0] == word[0] && word[0] in word;
    assert piece == word + piece[|word|..];
    TakeWordUntil(word, piece[|word|..]);
  }

  lemma PlainToken(c: Cidr, tail: string)
    ensures var rest := PrintCidr(c) + " " + tail;
            var j := Find(rest, "inet ");
            FirstWord(if j.Some? then rest[..j.value] else rest) == Some(PrintCidr(c))
  {
    CidrWord(c);
    NextInetIsLater(c, tail);
    WordBeforeCut(PrintCidr(c), tail, Find(PrintCidr(c) + " " + tail, "inet "));
  }

  lemma WordBeforeCut(word: string, tail: string, j: Option<nat>)
    requires word != [] && (forall x :: x in word ==> !IsSpace(x))
    requires j.Some? ==> |word| < j.value <= |word| + 1 + |tail|
    ensures var rest := word + " " + tail;
            FirstWord(if j.Some? then rest[..j.value] else rest) == Some(word)
  {
    var rest := word + " " + tail;
    var piece := if j.Some? then rest[..j.value] else rest;
    assert piece[|word|] == ' ' && word == piece[..|word|];
    WordThenBlank(word, piece);
  }

  lemma EntryIsOneLine(e: Entry)
    requires Printable(e)
    ensures '\n' !in PrintEntry(e) && DropCr(PrintEntry(e)) == PrintEntry(e)
  {}

  lemma {:induction false} LinesOfPrinted(es: seq<Entry>)
    requires forall i :: 0 <= i < |es| ==> Printable(es[i])
    ensures |Lines(PrintAll(es))| == |es|
    ensures forall i :: 0 <= i < |es| ==> Lines(PrintAll(es))[i] == PrintEntry(es[i])
  {
    if es != [] {
      FirstPrinted(es);
      LinesOfPrinted(es[1..]);
    }
  }

  lemma FirstPrinted(es: seq<Entry>)
    requires es != [] && Printable(es[0])
    ensures Lines(PrintAll(es)) == [PrintEntry(es[0])] + Lines(PrintAll(es[1..]))
  {
    EntryIsOneLine(es[0]);
    LinesHead(PrintEntry(es[0]), PrintAll(es[1..]));
  }

  /**
   * The text test on printed output is exact up to one quirk: `ip` is found if and only if some entry
   * carries it whose interface name does not end in `inet`.
   */
  lemma {:induction false} LocalTestIsExact(es: seq<Entry>, ip: Ip)
    requires forall i :: 0 <= i < |es| ==> Printable(es[i])
    ensures StdoutHasIpv4(PrintAll(es), ip) <==> exists i :: 0 <= i < |es| && es[i].cidr.ip == ip && !Hidden(es[i])
  {
    LinesOfPrinted(es);
    forall i | 0 <= i < |es|
      ensures TokenShows(Lines(PrintAll(es))[i], ip) <==> es[i].cidr.ip == ip && !Hidden(es[i])
    {
      TokenOfEntry(es[i]);
      SlashDecides(ip, es[i].cidr);
    }
  }

  /** The quirk at work: alone in the output, the address of such an interface goes unnoticed. */
  lemma HiddenAddressIsMissed(e: Entry)
    requires Printable(e) && Hidden(e)
    ensures !StdoutHasIpv4(PrintAll([e]), e.cidr.ip)
  {
    LocalTestIsExact([e], e.cidr.ip);
  }

  /** Reported is the first address that is not link-local; if all are, the very first. */
  lemma {:induction false} FirstCidrIsFirst(cs: seq<Cidr>, i: nat)
    requires i < |cs| && (forall j :: 0 <= j < i ==> cs[j].ip.a == 169 && cs[j].ip.b == 254)
    ensures !(cs[i].ip.a == 169 && cs[i].ip.b == 254) ==> FirstCidr(cs) == Some(cs[i])
    ensures i == |cs| - 1 && cs[i].ip.a == 169 && cs[i].ip.b == 254 ==> FirstCidr(cs) == Some(cs[0])
  {
    if i > 0 { FirstCidrIsFirst(cs[1..], i - 1); }
  }

  /** The addresses of the entries a reader sees. */
  function Visible(es: seq<Entry>): seq<Cidr> {
    if es == [] then []
    else Visible(es[..|es| - 1]) + if Hidden(es[|es| - 1]) then [] else [es[|es| - 1].cidr]
  }

  function PrintCidrs(cs: seq<Cidr>): (r: seq<string>)
    ensures |r| == |cs|
    ensures forall i :: 0 <= i < |cs| ==> r[i] == PrintCidr(cs[i])
  {
    seq(|cs|, i requires 0 <= i < |cs| => PrintCidr(cs[i]))
  }

  /** The address reported from printed output is the preferred one of the visible addresses. */
  lemma {:induction false} ReportedIsFirst(es: seq<Entry>, isNet: string -> bool)
    requires forall i :: 0 <= i < |es| ==> Printable(es[i])
    requires forall c: Cidr :: c.prefix <= 32 ==> isNet(PrintCidr(c))
    ensures var r := Preferred(Tokens(Lines(PrintAll(es)), isNet));
            var f := FirstCidr(Visible(es));
            r == if f.None? then None else Some(PrintCidr(f.value))
  {
    LinesOfPrinted(es);
    TokensOfPrinted(Lines(PrintAll(es)), es, isNet);
    PreferredOfPrinted(Visible(es));
  }

  lemma {:induction false} TokensOfPrinted(lines: seq<string>, es: seq<Entry>, isNet: string -> bool)
    requires |lines| == |es| && forall i :: 0 <= i < |es| ==> lines[i] == PrintEntry(es[i]) && Printable(es[i])
    requires forall c: Cidr :: c.prefix <= 32 ==> isNet(PrintCidr(c))
    ensures Tokens(lines, isNet) == PrintCidrs(Visible(es))
  {
    if es != [] {
      var n := |es| - 1;
      TokensOfPrinted(lines[..n], es[..n], isNet);
      TokenOfEntry(es[n]);
      PrintSnoc(Visible(es[..n]), es[n].cidr);
      LastToken(lines, isNet, lines[n]);
      LastVisible(es);
    }
  }

  lemma LastVisible(es: seq<Entry>)
    requires es != []
    ensures Hidden(es[|es| - 1]) ==> Visible(es) == Visible(es[..|es| - 1])
  {}

  lemma PrintSnoc(cs: seq<Cidr>, c: Cidr)
    ensures PrintCidrs(cs + [c]) == PrintCidrs(cs) + [PrintCidr(c)]
  {}

  function CidrsOf(es: seq<Entry>): (cs: seq<Cidr>)
    ensures |cs| == |es| && forall i :: 0 <= i < |es| ==> cs[i] == es[i].cidr
  {
    seq(|es|, i requires 0 <= i < |es| => es[i].cidr)
  }

  lemma {:induction false} VisibleOfOne(es: seq<Entry>, name: string)
    requires forall i :: 0 <= i < |es| ==> es[i].name == name
    ensures Visible(es) == if HidesAddress(name) then [] else CidrsOf(es)
  {
    if es != [] {
      var n := |es| - 1;
      VisibleOfOne(es[..n], name);
      assert HidesAddress(name) <==> Hidden(es[n]);
      assert CidrsOf(es) == CidrsOf(es[..n]) + [es[n].cidr];
    }
  }

  /**
   * Reading the output for a single interface: nothing when the name hides its addresses, else the preferred
   * one of the list. This is the reading the model of the host uses.
   */
  lemma {:induction false} ReadOfOneInterface(es: seq<Entry>, name: string, isNet: string -> bool)
    requires forall i :: 0 <= i < |es| ==> Printable(es[i]) && es[i].name == name
    requires forall c: Cidr :: c.prefix <= 32 ==> isNet(PrintCidr(c))
    ensures var f := if HidesAddress(name) then None else FirstCidr(CidrsOf(es));
            Preferred(Tokens(Lines(PrintAll(es)), isNet)) == if f.None? then None else Some(PrintCidr(f.value))
  {
    ReportedIsFirst(es, isNet);
    VisibleOfOne(es, name);
  }

  lemma LinkLocalDigits()
    ensures Dec(169) == "169" && Dec(254) == "254"
  {}

  lemma LinkLocalText(c: Cidr)
    ensures "169.254." <= PrintCidr(c) <==> LinkLocal(c)
  {
    LinkLocalDigits();
    var x3 := Dec(c.ip.c) + "." + Dec(c.ip.d);
    var t := PrintCidr(c);
    assert t == Dec(c.ip.a) + "." + (Dec(c.ip.b) + "." + (x3 + "/" + Dec(c.prefix)));
    if "169.254." <= t {
      var rest := t[8..];
      assert t == Dec(169) + "." + (Dec(254) + "." + rest);
      OctetFirst(169, Dec(254) + "." + rest, c.ip.a, Dec(c.ip.b) + "." + (x3 + "/" + Dec(c.prefix)));
      OctetFirst(254, rest, c.ip.b, x3 + "/" + Dec(c.prefix));
    }
  }

  lemma {:induction false} PreferredOfPrinted(cs: seq<Cidr>)
    ensures var f := FirstCidr(cs);
            Preferred(PrintCidrs(cs)) == if f.None? then None else Some(PrintCidr(f.value))
  {
    if cs != [] {
      PreferredOfPrinted(cs[1..]);
      assert PrintCidrs(cs)[1..] == PrintCidrs(cs[1..]);
      LinkLocalText(cs[0]);
      if FirstCidr(cs[1..]).Some? { LinkLocalText(FirstCidr(cs[1..]).value); }
    }
  }
}
