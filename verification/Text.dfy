/** Numbers, fields and bounded strings, as the two sides write and read them. */
module Text {

  datatype Option<T> = None | Some(value: T)

  /** strncpy into a field of size n + 1, and the terminating NUL. */
  function Clip(s: string, n: nat): (r: string)
    ensures |r| <= n && (|s| <= n ==> r == s)
  {
    if |s| <= n then s else s[..n]
  }

  /** An upper-case hexadecimal digit. */
  function HexDigit(d: nat): (c: char)
    requires d < 16
  {
    if d < 10 then ('0' as int + d) as char else ('A' as int + d - 10) as char
  }

  /** The value of a hexadecimal digit of either case, or -1. */
  function HexValue(c: char): (v: int)
    ensures -1 <= v < 16
  {
    if '0' <= c <= '9' then c as int - '0' as int
    else if 'A' <= c <= 'F' then c as int - 'A' as int + 10
    else if 'a' <= c <= 'f' then c as int - 'a' as int + 10
    else -1
  }

  predicate IsDigit(c: char) { '0' <= c <= '9' }

  predicate AllDigits(s: string) {
    forall k :: 0 <= k < |s| ==> IsDigit(s[k])
  }

  function Digit(d: nat): (c: char)
    requires d < 10
    ensures IsDigit(c) && c as int == '0' as int + d
  {
    ('0' as int + d) as char
  }

  /** Decimal form without leading zeros, as sprintf %ld and Python's str print it. */
  function Print(n: nat): (s: string)
    ensures s != [] && AllDigits(s)
  {
    if n < 10 then [Digit(n)] else Print(n / 10) + [Digit(n % 10)]
  }

  function Parse(s: string): nat
    requires AllDigits(s)
  {
    if s == [] then 0 else Parse(s[..|s| - 1]) * 10 + (s[|s| - 1] as int - '0' as int)
  }

  lemma {:induction false} ParseOfPrint(n: nat)
    ensures Parse(Print(n)) == n
  {
    var s := Print(n);
    if n < 10 {
      assert s[..0] == [];
    } else {
      ParseOfPrint(n / 10);
      assert s[..|s| - 1] == Print(n / 10);
    }
  }

  function Ten(k: nat): (r: nat)
    ensures r > 0
  {
    if k == 0 then 1 else 10 * Ten(k - 1)
  }

  lemma {:induction false} PrintLength(n: nat, k: nat)
    requires k > 0
    ensures n < Ten(k) <==> |Print(n)| <= k
  {
    if k == 1 {
      assert Ten(1) == 10;
      if n >= 10 { assert |Print(n / 10)| >= 1; }
    } else if n >= 10 {
      PrintLength(n / 10, k - 1);
    } else {
      assert Ten(1) == 10;
      TenGrows(1, k);
    }
  }

  lemma {:induction false} TenGrows(j: nat, k: nat)
    requires j <= k
    ensures Ten(j) <= Ten(k)
  {
    if j < k { TenGrows(j, k - 1); }
  }

  function Join(parts: seq<string>, sep: char): string
    requires parts != []
  {
    if |parts| == 1 then parts[0] else parts[0] + [sep] + Join(parts[1..], sep)
  }

  /** The fields between separators; Python's str.split with a one-character separator. */
  function Split(s: string, sep: char): (parts: seq<string>)
    ensures parts != []
  {
    if s == [] then [[]]
    else
      var rest := Split(s[1..], sep);
      if s[0] == sep then [[]] + rest else [[s[0]] + rest[0]] + rest[1..]
  }

  lemma {:induction false} SplitPlain(s: string, sep: char)
    requires sep !in s
    ensures Split(s, sep) == [s]
  {
    if s != [] {
      SplitPlain(s[1..], sep);
      assert [s[0]] + s[1..] == s;
    }
  }

  lemma {:induction false} SplitFront(s: string, rest: string, sep: char)
    requires sep !in s
    ensures Split(s + [sep] + rest, sep) == [s] + Split(rest, sep)
  {
    var all := s + [sep] + rest;
    if s == [] {
      assert all[1..] == rest;
    } else {
      SplitFront(s[1..], rest, sep);
      assert all[1..] == s[1..] + [sep] + rest;
      assert [s[0]] + s[1..] == s;
    }
  }

  lemma {:induction false} JoinOfSplit(s: string, sep: char)
    ensures Join(Split(s, sep), sep) == s
  {
    if s != [] {
      var rest := Split(s[1..], sep);
      JoinOfSplit(s[1..], sep);
      var parts := Split(s, sep);
      if s[0] == sep {
        assert parts[1..] == rest;
      } else {
        assert parts[1..] == rest[1..];
      }
    }
  }

  /** Joining any number of parts, none included. */
  function Joined(parts: seq<string>, sep: char): string {
    if parts == [] then [] else Join(parts, sep)
  }

  lemma {:induction false} JoinedSnoc(parts: seq<string>, last: string, sep: char)
    ensures Joined(parts + [last], sep) == Joined(parts, sep) + (if parts == [] then [] else [sep]) + last
    decreases |parts|
  {
    if |parts| == 1 {
      assert (parts + [last])[1..] == [last];
      assert Join([last], sep) == last;
    } else if |parts| > 1 {
      JoinedSnoc(parts[1..], last, sep);
      JoinFront(parts, sep);
      JoinFront(parts + [last], sep);
      hide Join;
      assert (parts + [last])[1..] == parts[1..] + [last];
      var rest := Join(parts[1..], sep);
      assert parts[0] + [sep] + (rest + [sep] + last) == parts[0] + [sep] + rest + [sep] + last;
    }
  }

  lemma JoinFront(parts: seq<string>, sep: char)
    requires |parts| > 1
    ensures Join(parts, sep) == parts[0] + [sep] + Join(parts[1..], sep)
  {
  }

  /** A signed number as sprintf %ld prints it. */
  function PrintSigned(n: int): (s: string)
    ensures s != []
  {
    if n < 0 then "-" + Print(-n) else Print(n)
  }

  /** Python's int on a decimal text. */
  function ParseSigned(s: string): int {
    if s != [] && s[0] == '-' && AllDigits(s[1..]) then 0 - Parse(s[1..])
    else if AllDigits(s) then Parse(s)
    else 0
  }

  lemma ParseOfPrintSigned(n: int)
    ensures ParseSigned(PrintSigned(n)) == n
    ensures forall k :: 0 <= k < |PrintSigned(n)| ==> IsDigit(PrintSigned(n)[k]) || PrintSigned(n)[k] == '-'
  {
    ParseOfPrint(if n < 0 then -n else n);
    if n < 0 { assert PrintSigned(n)[1..] == Print(-n); }
  }
}
