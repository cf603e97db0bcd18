/** Entry and list numbers in D-Bus object paths (findEntryNo, the list search of the monitors). */
module EntryPath {
  import opened Types

  predicate IsDigit(c: char) {
    '0' <= c <= '9'
  }

  function DigitValue(c: char): nat
    requires IsDigit(c)
  {
    c as int - '0' as int
  }

  function DigitChar(d: nat): (c: char)
    requires d < 10
    ensures IsDigit(c) && DigitValue(c) == d
  {
    ('0' as int + d) as char
  }

  /** `std::to_string`. */
  function Decimal(n: int): (s: string)
    decreases if n < 0 then 1 else 0, if n < 0 then -n else n
  {
    if n < 0 then "-" + Decimal(-n)
    else if n < 10 then [DigitChar(n)]
    else Decimal(n / 10) + [DigitChar(n % 10)]
  }

  predicate IsSeparator(c: char) {
    c == '/' || c == '\\'
  }

  // ---- the entry number of a path

  /** What follows the last separator. */
  function LastComponent(path: string): string {
    if path == [] then []
    else if IsSeparator(path[|path| - 1]) then []
    else LastComponent(path[..|path| - 1]) + [path[|path| - 1]]
  }

  function FromFirstDigit(s: string): string {
    if s == [] || IsDigit(s[0]) then s else FromFirstDigit(s[1..])
  }

  /** `atoi` on text that starts with a digit or is empty. */
  function LeadingNumber(s: string, acc: nat): nat {
    if s == [] || !IsDigit(s[0]) then acc else LeadingNumber(s[1..], 10 * acc + DigitValue(s[0]))
  }

  function EntryNo(path: string): nat {
    LeadingNumber(FromFirstDigit(LastComponent(path)), 0)
  }

  method FindEntryNo(path: string) returns (entryNo: int)
    ensures entryNo == EntryNo(path)
  {
    var found := |path|;
    assert path[..found] == path;
    while found > 0 && !IsSeparator(path[found - 1])
      invariant 0 <= found <= |path|
      invariant LastComponent(path) == LastComponent(path[..found]) + path[found..]
    {
      assert path[..found][..found - 1] == path[..found - 1];
      found := found - 1;
    }
    var entry := path[found..];
    assert LastComponent(path) == entry;
    var i := 0;
    while i < |entry| && !IsDigit(entry[i])
      invariant 0 <= i <= |entry|
      invariant FromFirstDigit(entry) == FromFirstDigit(entry[i..])
    {
      assert entry[i..][1..] == entry[i + 1..];
      i := i + 1;
    }
    assert FromFirstDigit(entry) == entry[i..];
    entryNo := Atoi(entry[i..]);
  }

  method Atoi(s: string) returns (n: nat)
    ensures n == LeadingNumber(s, 0)
  {
    n := 0;
    var i := 0;
    while i < |s| && IsDigit(s[i])
      invariant 0 <= i <= |s|
      invariant LeadingNumber(s, 0) == LeadingNumber(s[i..], n)
    {
      assert s[i..][1..] == s[i + 1..];
      n := 10 * n + DigitValue(s[i]);
      i := i + 1;
    }
  }

  // ---- printing and finding

  lemma {:induction false} LastComponentOf(dir: string, entry: string)
    requires forall c | c in entry :: !IsSeparator(c)
    requires dir == [] || IsSeparator(dir[|dir| - 1])
    ensures LastComponent(dir + entry) == entry
  {
    var path := dir + entry;
    if entry == [] {
      assert path == dir;
    } else {
      assert path[..|path| - 1] == dir + entry[..|entry| - 1];
      LastComponentOf(dir, entry[..|entry| - 1]);
    }
  }

  lemma {:induction false} SkipName(name: string, rest: string)
    requires forall c | c in name :: !IsDigit(c)
    ensures FromFirstDigit(name + rest) == FromFirstDigit(rest)
  {
    if name == [] {
      assert name + rest == rest;
    } else {
      assert (name + rest)[1..] == name[1..] + rest;
      SkipName(name[1..], rest);
    }
  }

  lemma {:induction false} LeadingNumberAppend(s: string, c: char, acc: nat)
    requires IsDigit(c) && forall d | d in s :: IsDigit(d)
    ensures LeadingNumber(s + [c], acc) == 10 * LeadingNumber(s, acc) + DigitValue(c)
  {
    if s == [] {
      assert s + [c] == [c] && [c][1..] == [];
    } else {
      assert (s + [c])[1..] == s[1..] + [c];
      LeadingNumberAppend(s[1..], c, 10 * acc + DigitValue(s[0]));
    }
  }

  lemma {:induction false} ReadDecimal(n: nat)
    ensures Decimal(n) != [] && forall c | c in Decimal(n) :: IsDigit(c)
    ensures LeadingNumber(Decimal(n), 0) == n
  {
    if n < 10 {
      assert Decimal(n) == [] + [DigitChar(n)];
      LeadingNumberAppend([], DigitChar(n), 0);
    } else {
      ReadDecimal(n / 10);
      LeadingNumberAppend(Decimal(n / 10), DigitChar(n % 10), 0);
    }
  }

  lemma {:induction false} DigitsAreNotSeparators(s: string)
    requires forall c | c in s :: IsDigit(c) || c == '-'
    ensures forall c | c in s :: !IsSeparator(c)
  {
  }

  /** The number printed after a digit-free name is found again just when it is not negative:
      the sign is skipped with the name. */
  lemma {:induction false} EntryNoOfPrinted(dir: string, name: string, n: int)
    requires dir == [] || IsSeparator(dir[|dir| - 1])
    requires forall c | c in name :: !IsDigit(c) && !IsSeparator(c)
    ensures EntryNo(dir + name + Decimal(n)) == if n < 0 then -n else n
    ensures EntryNo(dir + name + Decimal(n)) == n <==> n >= 0
  {
    var m := if n < 0 then -n else n;
    var sign := if n < 0 then "-" else "";
    ReadDecimal(m);
    assert Decimal(n) == sign + Decimal(m);
    var entry := (name + sign) + Decimal(m);
    assert dir + name + Decimal(n) == dir + entry;
    DigitsAreNotSeparators(sign + Decimal(m));
    LastComponentOf(dir, entry);
    SkipName(name + sign, Decimal(m));
  }

  // ---- the list number of a path

  predicate OccursAt(s: string, sub: string, i: int) {
    0 <= i <= |s| - |sub| && s[i..i + |sub|] == sub
  }

  /** `s.find(sub) != npos`. */
  predicate Contains(s: string, sub: string) {
    exists i | 0 <= i <= |s| :: OccursAt(s, sub, i)
  }

  /** The least idx below 4 for which the path contains the list name with number idx + first. */
  function ListIndexFrom(path: string, name: string, first: nat, idx: nat): Option<nat>
    requires idx <= 4 && first < 2
    decreases 4 - idx
  {
    if idx == 4 then None
    else if Contains(path, name + [DigitChar(idx + first)]) then Some(idx)
    else ListIndexFrom(path, name, first, idx + 1)
  }

  method FindListIndex(path: string, name: string, first: nat) returns (bucketIndex: Option<nat>)
    requires first < 2
    ensures bucketIndex == ListIndexFrom(path, name, first, 0)
  {
    bucketIndex := None;
    for idx := 0 to 4
      invariant bucketIndex == None
      invariant ListIndexFrom(path, name, first, 0) == ListIndexFrom(path, name, first, idx)
    {
      if Contains(path, name + [DigitChar(idx + first)]) {
        return Some(idx);
      }
    }
  }

  /** The path of a list under a directory without digits is recognised as that list. */
  lemma {:induction false} ListIndexOfPath(dir: string, name: string, first: nat, b: nat)
    requires first < 2 && b < 4
    requires forall c | c in dir + name :: !IsDigit(c)
    ensures ListIndexFrom(dir + name + [DigitChar(b + first)], name, first, 0) == Some(b)
  {
    ListIndexSkips(dir, name, first, b, 0);
  }

  lemma {:induction false} ListIndexSkips(dir: string, name: string, first: nat, b: nat, idx: nat)
    requires first < 2 && idx <= b < 4
    requires forall c | c in dir + name :: !IsDigit(c)
    ensures ListIndexFrom(dir + name + [DigitChar(b + first)], name, first, idx) == Some(b)
    decreases b - idx
  {
    var path := dir + name + [DigitChar(b + first)];
    if idx == b {
      assert OccursAt(path, name + [DigitChar(b + first)], |dir|);
    } else {
      OtherDigit(dir + name, DigitChar(b + first), name, DigitChar(idx + first));
      ListIndexSkips(dir, name, first, b, idx + 1);
    }
  }

  lemma {:induction false} OtherDigit(text: string, d: char, name: string, e: char)
    requires IsDigit(e) && d != e
    requires forall c | c in text :: !IsDigit(c)
    ensures !Contains(text + [d], name + [e])
  {
    var path, sub := text + [d], name + [e];
    forall i | 0 <= i <= |path|
      ensures !OccursAt(path, sub, i)
    {
      if i <= |path| - |sub| {
        var window := path[i..i + |sub|];
        assert window[|name|] == path[i + |name|];
        assert sub[|name|] == e;
      }
    }
  }
}
