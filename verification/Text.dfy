/** The string operations the readers and printers rely on, and the few laws they need. */
module Text {
  import opened Basics

  /** Unicode White_Space, the set that `trim` and `split_whitespace` use. */
  predicate IsSpace(c: char) {
    var n := c as int;
    || 0x09 <= n <= 0x0D || n == 0x20 || n == 0x85 || n == 0xA0 || n == 0x1680
    || 0x2000 <= n <= 0x200A || n == 0x2028 || n == 0x2029 || n == 0x202F || n == 0x205F || n == 0x3000
  }

  function TrimStart(s: string): (r: string)
    ensures r == [] || !IsSpace(r[0])
    ensures s != [] && !IsSpace(s[0]) ==> r == s
  {
    if s != [] && IsSpace(s[0]) then TrimStart(s[1..]) else s
  }

  function TrimEnd(s: string): (r: string)
    ensures r == [] || !IsSpace(r[|r| - 1])
    ensures s != [] && !IsSpace(s[|s| - 1]) ==> r == s
  {
    if s != [] && IsSpace(s[|s| - 1]) then TrimEnd(s[..|s| - 1]) else s
  }

  function Trim(s: string): string {
    TrimEnd(TrimStart(s))
  }

  lemma TrimNothing(s: string)
    requires s != [] && !IsSpace(s[0]) && !IsSpace(s[|s| - 1])
    ensures Trim(s) == s
  {}

  function TrimEndDots(s: string): (r: string)
    ensures r == [] || r[|r| - 1] != '.'
    ensures s != [] && s[|s| - 1] != '.' ==> r == s
  {
    if s != [] && s[|s| - 1] == '.' then TrimEndDots(s[..|s| - 1]) else s
  }

  /** Number of bytes of the UTF-8 form, which is what Rust's `len` counts. */
  function ByteLen(s: string): (n: nat)
    ensures n >= |s|
    ensures (forall c :: c in s ==> c as int < 0x80) ==> n == |s|
  {
    if s == [] then 0
    else
      var c := s[0] as int;
      assert s[0] in s && forall d :: d in s[1..] ==> d in s;
      (if c < 0x80 then 1 else if c < 0x800 then 2 else if c < 0x10000 then 3 else 4) + ByteLen(s[1..])
  }

  /** The pieces of `s` between the occurrences of `sep`. */
  function Split(s: string, sep: char): (parts: seq<string>)
    ensures |parts| >= 1
    ensures forall k :: 0 <= k < |parts| ==> sep !in parts[k]
  {
    if s == [] then [[]]
    else
      var rest := Split(s[1..], sep);
      if s[0] == sep then [[]] + rest else [[s[0]] + rest[0]] + rest[1..]
  }

  function Join(parts: seq<string>, sep: char): string {
    if parts == [] then []
    else if |parts| == 1 then parts[0]
    else parts[0] + [sep] + Join(parts[1..], sep)
  }

  lemma {:induction false} JoinSplit(s: string, sep: char)
    ensures Join(Split(s, sep), sep) == s
  {
    if s != [] {
      var rest := Split(s[1..], sep);
      JoinSplit(s[1..], sep);
      var parts := Split(s, sep);
      assert parts[1..] == if s[0] == sep then rest else rest[1..];
    }
  }

  lemma {:induction false} JoinSnoc(parts: seq<string>, last: string, sep: char)
    ensures Join(parts + [last], sep) == if parts == [] then last else Join(parts, sep) + [sep] + last
  {
    if |parts| > 1 {
      JoinSnoc(parts[1..], last, sep);
      assert (parts + [last])[1..] == parts[1..] + [last];
    } else if |parts| == 1 {
      assert (parts + [last])[1..] == [last];
    }
  }

  /** A first piece without separators splits off. */
  lemma {:induction false} SplitHead(p: string, q: string, sep: char)
    requires sep !in p
    ensures Split(p + [sep] + q, sep) == [p] + Split(q, sep)
  {
    var s := p + [sep] + q;
    if p == [] {
      assert s[1..] == q;
    } else {
      SplitHead(p[1..], q, sep);
      assert s[1..] == p[1..] + [sep] + q;
      assert [s[0]] + p[1..] == p;
    }
  }

  lemma {:induction false} SplitNone(p: string, sep: char)
    requires sep !in p
    ensures Split(p, sep) == [p]
  {
    if p != [] {
      SplitNone(p[1..], sep);
      assert [p[0]] + p[1..] == p;
    }
  }

  /** Two texts cut at their first separator agree piece by piece. */
  lemma {:induction false} CutUnique(p: string, x: string, q: string, y: string, sep: char)
    requires sep !in p && sep !in q
    requires p + [sep] + x == q + [sep] + y
    ensures p == q && x == y
  {
    var s := p + [sep] + x;
    assert s[|p|] == sep && s[|q|] == sep;
    assert |p| == |q|;
    assert p == s[..|p|] == q;
    assert x == s[|p| + 1..] == y;
  }

  function DropCr(line: string): string {
    if line != [] && line[|line| - 1] == '\r' then line[..|line| - 1] else line
  }

  /** Rust's `lines`: cut at '\n', forget one '\r' before each '\n', no empty last line. */
  function Lines(s: string): seq<string> {
    LinesOf(Split(s, '\n'))
  }

  function LinesOf(parts: seq<string>): seq<string>
    requires |parts| >= 1
  {
    if |parts| == 1 then (if parts[0] == [] then [] else parts)
    else [DropCr(parts[0])] + LinesOf(parts[1..])
  }

  lemma {:induction false} LinesHead(p: string, q: string)
    requires '\n' !in p
    ensures Lines(p + "\n" + q) == [DropCr(p)] + Lines(q)
  {
    SplitHead(p, q, '\n');
    assert ([p] + Split(q, '\n'))[1..] == Split(q, '\n');
  }

  /** A carriage return before the newline does not belong to the line, and a last line needs no newline. */
  lemma LinesWithCr(p: string, q: string)
    requires '\n' !in p && '\n' !in q
    ensures Lines(p + "\r\n" + q) == [p] + if q == [] then [] else [q]
  {
    var line := p + "\r";
    assert p + "\r\n" + q == line + "\n" + q;
    LinesHead(line, q);
    SplitNone(q, '\n');
    assert line[..|line| - 1] == p;
  }

  /** Least index at which `pat` starts in `s`. */
  function Find(s: string, pat: string): (r: Option<nat>)
    requires pat != []
    ensures r.Some? ==> r.value + |pat| <= |s| && pat <= s[r.value..]
    ensures r.Some? ==> forall k :: 0 <= k < r.value ==> !(pat <= s[k..])
    ensures r.None? ==> forall k :: 0 <= k <= |s| ==> !(pat <= s[k..])
  {
    if pat <= s then Some(0)
    else if s == [] then None
    else
      var rest := Find(s[1..], pat);
      assert forall k :: 0 < k <= |s| ==> s[k..] == s[1..][k - 1..];
      if rest.Some? then Some(rest.value + 1) else None
  }

  /** `s.split(pat).nth(1)`: what lies between the first and the second occurrence. */
  function SecondPiece(s: string, pat: string): Option<string>
    requires pat != []
  {
    var i := Find(s, pat);
    if i.None? then None
    else
      var rest := s[i.value + |pat|..];
      var j := Find(rest, pat);
      Some(if j.Some? then rest[..j.value] else rest)
  }

  function TakeWord(s: string): (r: string)
    ensures r <= s
    ensures forall c :: c in r ==> !IsSpace(c)
  {
    if s == [] || IsSpace(s[0]) then [] else [s[0]] + TakeWord(s[1..])
  }

  /** `s.split_whitespace().next()` */
  function FirstWord(s: string): Option<string> {
    var t := TrimStart(s);
    if t == [] then None else Some(TakeWord(t))
  }

  lemma {:induction false} TakeWordUntil(w: string, rest: string)
    requires forall c :: c in w ==> !IsSpace(c)
    requires rest == [] || IsSpace(rest[0])
    ensures TakeWord(w + rest) == w
  {
    if w == [] {
      assert w + rest == rest;
    } else {
      assert (w + rest)[1..] == w[1..] + rest;
      TakeWordUntil(w[1..], rest);
    }
  }

  lemma {:induction false} OnlySpaces(s: string)
    requires forall c :: c in s ==> IsSpace(c)
    ensures TrimStart(s) == []
  {
    if s != [] { OnlySpaces(s[1..]); }
  }

  function Digit(n: nat): char
    requires n < 10
  {
    '0' + n as char
  }

  predicate IsDigit(c: char) {
    '0' <= c <= '9'
  }

  /** Decimal digits without leading zeros. */
  function Dec(n: nat): (s: string)
    ensures s != []
    ensures forall c :: c in s ==> IsDigit(c)
  {
    if n < 10 then [Digit(n)] else Dec(n / 10) + [Digit(n % 10)]
  }

  /** The number a string of digits denotes. */
  function DecValue(s: string): nat
    requires forall c :: c in s ==> IsDigit(c)
  {
    if s == [] then 0 else assert IsDigit(s[|s| - 1]); DecValue(s[..|s| - 1]) * 10 + (s[|s| - 1] as int - '0' as int)
  }

  lemma {:induction false} DecRoundTrip(n: nat)
    ensures DecValue(Dec(n)) == n
  {
    if n >= 10 {
      DecRoundTrip(n / 10);
      assert Dec(n)[..|Dec(n)| - 1] == Dec(n / 10);
    } else {
      assert Dec(n)[..0] == [];
    }
  }

  lemma DecInjective(m: nat, n: nat)
    requires Dec(m) == Dec(n)
    ensures m == n
  {
    DecRoundTrip(m);
    DecRoundTrip(n);
  }
}
