/** Interface names, their byte order, and the sorted list of physical Ethernet devices. */
module Names {

  /** The order of Rust strings: by code point, the shorter first. */
  predicate Less(a: string, b: string) {
    b != [] && (a == [] || a[0] < b[0] || (a[0] == b[0] && Less(a[1..], b[1..])))
  }

  predicate Sorted(names: seq<string>) {
    forall i, j :: 0 <= i < j < |names| ==> Less(names[i], names[j])
  }

  /** `n` is the smallest of `s`. */
  predicate Least(n: string, s: set<string>) {
    n in s && forall m :: m in s ==> m == n || Less(n, m)
  }

  lemma {:induction false} Trichotomy(a: string, b: string)
    ensures a == b || Less(a, b) || Less(b, a)
    ensures !(Less(a, b) && Less(b, a)) && !Less(a, a)
  {
    if a != [] && b != [] && a[0] == b[0] {
      Trichotomy(a[1..], b[1..]);
      assert a == [a[0]] + a[1..] && b == [b[0]] + b[1..];
    }
    if a != [] { NotSelf(a); }
  }

  lemma {:induction false} NotSelf(a: string)
    ensures !Less(a, a)
  {
    if a != [] { NotSelf(a[1..]); }
  }

  lemma {:induction false} LessTransitive(a: string, b: string, c: string)
    requires Less(a, b) && Less(b, c)
    ensures Less(a, c)
  {
    if a != [] && a[0] == b[0] && b[0] == c[0] { LessTransitive(a[1..], b[1..], c[1..]); }
  }

  /** At the first difference `a` has the smaller character. */
  predicate DiffersBelow(a: string, b: string) {
    exists i :: 0 <= i < |a| && i < |b| && a[..i] == b[..i] && a[i] < b[i]
  }

  /** The order in full: a proper prefix comes first, else the smaller character at the first difference. */
  lemma {:induction false} LessAtFirstDifference(a: string, b: string)
    ensures Less(a, b) <==> a < b || DiffersBelow(a, b)
  {
    if a != [] && b != [] {
      if a[0] == b[0] {
        LessAtFirstDifference(a[1..], b[1..]);
        DiffersInTail(a, b);
        assert a == [a[0]] + a[1..] && b == [b[0]] + b[1..];
      } else {
        DiffersAtHead(a, b);
      }
    }
  }

  lemma DiffersAtHead(a: string, b: string)
    requires a != [] && b != [] && a[0] != b[0]
    ensures DiffersBelow(a, b) <==> a[0] < b[0]
  {
    assert a[..0] == b[..0];
    forall i | 0 < i < |a| && i < |b| ensures a[..i] != b[..i] {
      assert a[..i][0] == a[0] && b[..i][0] == b[0];
    }
  }

  lemma DiffersInTail(a: string, b: string)
    requires a != [] && b != [] && a[0] == b[0]
    ensures DiffersBelow(a, b) <==> DiffersBelow(a[1..], b[1..])
  {
    if i :| 0 <= i < |a| && i < |b| && a[..i] == b[..i] && a[i] < b[i] {
      assert a[1..][..i - 1] == a[..i][1..] == b[1..][..i - 1];
      assert a[1..][i - 1] < b[1..][i - 1];
    }
    if i :| 0 <= i < |a[1..]| && i < |b[1..]| && a[1..][..i] == b[1..][..i] && a[1..][i] < b[1..][i] {
      assert a[..i + 1] == [a[0]] + a[1..][..i] == b[..i + 1];
      assert a[i + 1] < b[i + 1];
    }
  }

  function Insert(n: string, names: seq<string>): seq<string> {
    if names == [] || Less(n, names[0]) then [n] + names else [names[0]] + Insert(n, names[1..])
  }

  function SortNames(names: seq<string>): seq<string> {
    if names == [] then [] else Insert(names[0], SortNames(names[1..]))
  }

  function Elements(names: seq<string>): set<string> {
    set n | n in names
  }

  lemma {:induction false} InsertSorted(n: string, names: seq<string>)
    requires Sorted(names) && n !in names
    ensures Sorted(Insert(n, names)) && Elements(Insert(n, names)) == Elements(names) + {n}
  {
    var out := Insert(n, names);
    if names == [] {
    } else if Less(n, names[0]) {
      forall j | 0 < j < |names| ensures Less(n, names[j]) { LessTransitive(n, names[0], names[j]); }
      assert forall m :: m in out <==> m == n || m in names;
    } else {
      Trichotomy(n, names[0]);
      var rest := names[1..];
      assert names == [names[0]] + rest;
      InsertSorted(n, rest);
      assert forall m :: m in Insert(n, rest) <==> m in Elements(Insert(n, rest));
      assert out == [names[0]] + Insert(n, rest);
      forall j | 0 < j < |out| ensures Less(names[0], out[j]) {
        assert out[j] in Elements(rest) + {n};
      }
    }
  }

  lemma {:induction false} SortNamesSorts(names: seq<string>)
    requires forall i, j :: 0 <= i < j < |names| ==> names[i] != names[j]
    ensures Sorted(SortNames(names)) && Elements(SortNames(names)) == Elements(names)
  {
    if names != [] {
      var rest := names[1..];
      SortNamesSorts(rest);
      assert forall m :: m in SortNames(rest) <==> m in Elements(SortNames(rest));
      assert names[0] !in rest;
      InsertSorted(names[0], SortNames(rest));
      assert names == [names[0]] + rest;
    }
  }

  /** Keep the directory entries that pass the physical-Ethernet filter, then sort them. */
  method ListPhysicalEthernet(entries: seq<string>, isPhysical: string -> bool) returns (names: seq<string>)
    requires forall i, j :: 0 <= i < j < |entries| ==> entries[i] != entries[j]
    ensures Sorted(names)
    ensures forall n :: n in names <==> n in entries && isPhysical(n)
  {
    names := [];
    for i := 0 to |entries|
      invariant forall k, m :: 0 <= k < m < |names| ==> names[k] != names[m]
      invariant forall n :: n in names <==> n in entries[..i] && isPhysical(n)
    {
      if isPhysical(entries[i]) {
        names := names + [entries[i]];
      }
    }
    assert entries[..|entries|] == entries;
    SortNamesSorts(names);
    assert forall n :: n in SortNames(names) <==> n in Elements(SortNames(names));
    names := SortNames(names);
  }
}
