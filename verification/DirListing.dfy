/** Paged directory listings: `fs_list_dir` (`fs_access.c`) writes one page, and
    `list_dir_all` (`mcp_tools.py`) follows the pages. */
module DirListing {
  import Bytes
  import Text

  /** What one ExNext call reports. */
  datatype Entry = Entry(name: string, size: int, dir: bool)

  const ENTRY_SIZE: nat := 128
  const RESERVED: nat := 7

  function FullText(e: Entry): string {
    e.name + "(" + Text.PrintSigned(e.size) + "," + (if e.dir then "D" else "F") + ")"
  }

  /** The entry as the scratch buffer holds it. */
  function EntryText(e: Entry): (s: string)
    ensures |s| < ENTRY_SIZE
  {
    var s := FullText(e);
    if |s| < ENTRY_SIZE then s else s[..ENTRY_SIZE - 1]
  }

  function Texts(es: seq<Entry>): (r: seq<string>)
    ensures |r| == |es|
  {
    if es == [] then [] else [EntryText(es[0])] + Texts(es[1..])
  }

  /** How many of the entries fit the page, from buffer position pos on. */
  function Taken(texts: seq<string>, pos: nat, first: bool, bufSize: nat): (n: nat)
    ensures n <= |texts|
    decreases |texts|
  {
    if texts == [] || pos + |texts[0]| + 2 >= bufSize - 8 then 0
    else 1 + Taken(texts[1..], pos + (if first then 0 else 1) + |texts[0]|, false, bufSize)
  }

  function Header(path: string): string { "DIR|" + path + "|" }

  function PageSize(path: string, es: seq<Entry>, startIdx: nat, bufSize: nat): (n: nat)
    ensures startIdx <= |es| ==> startIdx + n <= |es|
  {
    if startIdx <= |es| then Taken(Texts(es[startIdx..]), |Header(path)| + RESERVED, true, bufSize) else 0
  }

  /** The page: a contiguous stretch of the directory from startIdx on. */
  function Page(path: string, es: seq<Entry>, startIdx: nat, bufSize: nat): seq<Entry> {
    if startIdx <= |es| then es[startIdx..startIdx + PageSize(path, es, startIdx, bufSize)] else []
  }

  function Line(path: string, total: nat, page: seq<Entry>): string {
    Header(path) + (Text.Print(total) + "|") + Text.Joined(Texts(page), ',')
  }

  // ---------------------------------------------------------------- writing a page

  /** Copies a text to a buffer position. */
  method Store(buf: array<char>, at: nat, s: string)
    requires at + |s| <= buf.Length
    modifies buf
    ensures buf[..at] == old(buf[..at]) && buf[at..at + |s|] == s
    ensures forall j :: at + |s| <= j < buf.Length ==> buf[j] == old(buf[j])
  {
    var k := 0;
    while k < |s|
      invariant k <= |s|
      invariant buf[..at] == old(buf[..at]) && buf[at..at + k] == s[..k]
      invariant forall j :: at + k <= j < buf.Length ==> buf[j] == old(buf[j])
    {
      buf[at + k] := s[k];
      k := k + 1;
    }
  }

  /** memmove, to a lower position. */
  method MoveDown(buf: array<char>, to: nat, from: nat, n: nat)
    requires to <= from && from + n <= buf.Length
    modifies buf
    ensures buf[to..to + n] == old(buf[from..from + n])
    ensures buf[..to] == old(buf[..to])
  {
    forall k | 0 <= k < n {
      buf[to + k] := buf[from + k];
    }
  }

  lemma Pieces(b: seq<char>, i: nat, j: nat, k: nat)
    requires i <= j <= k <= |b|
    ensures b[..k] == b[..i] + b[i..j] + b[j..k]
  {
  }

  /** Puts a total of at most six digits in front of the entries, in place. */
  method PatchShort(buf: array<char>, headerPos: nat, count: string, end: nat) returns (pos: nat)
    requires headerPos + RESERVED <= end < buf.Length && |count| <= RESERVED
    modifies buf
    ensures pos < buf.Length && buf[pos] == '\0'
    ensures buf[..pos] == old(buf[..headerPos]) + count + old(buf[headerPos + RESERVED..end])
  {
    pos := end;
    var gap := RESERVED - |count|;
    ghost var header, list := buf[..headerPos], buf[headerPos + RESERVED..end];
    if gap > 0 {
      var entryStart := headerPos + RESERVED;
      var entryLen := pos - entryStart;
      MoveDown(buf, headerPos + |count|, entryStart, entryLen);
      Front(buf[..], old(buf[..]), headerPos, headerPos + |count|);
      pos := pos - gap;
    }
    assert buf[..headerPos] == header && buf[headerPos + |count|..pos] == list;
    WriteCount(buf, headerPos, count, pos);
  }

  lemma Front(s: seq<char>, t: seq<char>, i: nat, j: nat)
    requires i <= j <= |s| && j <= |t| && s[..j] == t[..j]
    ensures s[..i] == t[..i]
  {
    assert s[..i] == s[..j][..i];
  }

  /** The number in its place, and the NUL behind the entries. */
  method WriteCount(buf: array<char>, headerPos: nat, count: string, pos: nat)
    requires headerPos + |count| <= pos < buf.Length
    modifies buf
    ensures buf[pos] == '\0'
    ensures buf[..pos] == old(buf[..headerPos]) + count + old(buf[headerPos + |count|..pos])
  {
    ghost var before := buf[..];
    Store(buf, headerPos, count);
    ghost var after := buf[..];
    buf[pos] := '\0';
    assert buf[..pos] == after[..pos];
    Pieces(after, headerPos, headerPos + |count|, pos);
    assert after[headerPos + |count|..pos] == before[headerPos + |count|..pos];
  }

  /** The buffer when the number is longer than the room kept for it. */
  function Overrun(header: string, count: string, list: string): string
    requires |count| > RESERVED
  {
    (header + count + (if |count| - RESERVED <= |list| then list[|count| - RESERVED..] else []))
    [..|header| + RESERVED + |list|]
  }

  /** A longer total runs over the first entries. */
  method PatchLong(buf: array<char>, headerPos: nat, count: string, end: nat)
    requires headerPos + RESERVED <= end < buf.Length && |count| > RESERVED && headerPos + |count| <= buf.Length
    modifies buf
    ensures buf[end] == '\0'
    ensures buf[..end] == Overrun(old(buf[..headerPos]), count, old(buf[headerPos + RESERVED..end]))
  {
    ghost var before := buf[..];
    Store(buf, headerPos, count);
    ghost var after := buf[..];
    buf[end] := '\0';
    assert buf[..end] == after[..end];
    if headerPos + |count| <= end {
      Pieces(after, headerPos, headerPos + |count|, end);
      assert after[headerPos + |count|..end] == before[headerPos + |count|..end];
      assert before[headerPos + RESERVED..end][|count| - RESERVED..] == before[headerPos + |count|..end];
    } else {
      Pieces(after, headerPos, headerPos + |count|, headerPos + |count|);
      assert after[..end] == after[..headerPos + |count|][..end];
    }
  }

  /** The line left in the buffer. */
  function Written(path: string, total: nat, page: seq<Entry>): string {
    var count := Text.Print(total) + "|";
    if |count| <= RESERVED then Line(path, total, page)
    else Overrun(Header(path), count, Text.Joined(Texts(page), ','))
  }

  /** Puts one more entry on the page. */
  method AppendEntry(buf: array<char>, at: nat, first: bool, entry: string) returns (pos: nat)
    requires at + |entry| + 2 < buf.Length
    modifies buf
    ensures pos == at + (if first then 0 else 1) + |entry|
    ensures buf[..pos] == old(buf[..at]) + ((if first then "" else ",") + entry)
  {
    pos := at;
    if !first {
      buf[pos] := ',';
      pos := pos + 1;
    }
    ghost var comma := if first then "" else ",";
    assert buf[..pos] == old(buf[..at]) + comma;
    Store(buf, pos, entry);
    ghost var stored := buf[..];
    pos := pos + |entry|;
    buf[pos] := '\0';
    assert buf[..pos] == stored[..pos - |entry|] + stored[pos - |entry|..pos];
    Bytes.Regroup(old(buf[..at]), comma, entry);
  }

  lemma TextsNext(es: seq<Entry>, startIdx: nat, i: nat)
    requires startIdx <= i < |es|
    ensures Texts(es[i..]) == [EntryText(es[i])] + Texts(es[i + 1..])
    ensures Texts(es[startIdx..i + 1]) == Texts(es[startIdx..i]) + [EntryText(es[i])]
  {
    hide EntryText;
    FromIndex(es, i);
    assert es[startIdx..i + 1] == es[startIdx..i] + [es[i]];
    TextsSnoc(es[startIdx..i], es[i]);
  }

  lemma FromIndex(es: seq<Entry>, i: nat)
    requires i < |es|
    ensures es[i..] != [] && es[i..][0] == es[i] && es[i..][1..] == es[i + 1..]
  {
  }

  lemma {:induction false} TextsSnoc(es: seq<Entry>, e: Entry)
    ensures Texts(es + [e]) == Texts(es) + [EntryText(e)]
    decreases |es|
  {
    hide EntryText;
    if es != [] {
      assert (es + [e])[1..] == es[1..] + [e];
      TextsSnoc(es[1..], e);
    }
  }

  /** Where the enumeration stands after i entries: n of them are on the page. */
  ghost predicate Progress(path: string, es: seq<Entry>, startIdx: nat, bufSize: nat,
                           i: nat, n: nat, pos: nat, full: bool)
  {
    var size := PageSize(path, es, startIdx, bufSize);
    && i <= |es|
    && (i < startIdx ==> n == 0 && !full && pos == |Header(path)| + RESERVED)
    && (startIdx <= i ==>
          && startIdx + n <= i
          && (if full then n == size
              else n == i - startIdx && n + Taken(Texts(es[i..]), pos, n == 0, bufSize) == size))
  }

  lemma ProgressStarts(path: string, es: seq<Entry>, startIdx: nat, bufSize: nat)
    ensures Progress(path, es, startIdx, bufSize, 0, 0, |Header(path)| + RESERVED, false)
  {
    if startIdx == 0 { assert es[0..] == es; }
  }

  lemma ProgressSkips(path: string, es: seq<Entry>, startIdx: nat, bufSize: nat, i: nat, n: nat, pos: nat, full: bool)
    requires Progress(path, es, startIdx, bufSize, i, n, pos, full) && i < |es| && (i < startIdx || full)
    ensures Progress(path, es, startIdx, bufSize, i + 1, n, pos, full)
  {
  }

  lemma TakenNext(text: string, rest: seq<string>, pos: nat, first: bool, bufSize: nat)
    ensures Taken([text] + rest, pos, first, bufSize) ==
            if pos + |text| + 2 >= bufSize - 8 then 0
            else 1 + Taken(rest, pos + (if first then 0 else 1) + |text|, false, bufSize)
  {
    assert ([text] + rest)[1..] == rest;
  }

  lemma ProgressMeetsEntry(path: string, es: seq<Entry>, startIdx: nat, bufSize: nat, i: nat, n: nat, pos: nat)
    requires Progress(path, es, startIdx, bufSize, i, n, pos, false) && startIdx <= i < |es|
    ensures var written := |EntryText(es[i])|;
            if pos + written + 2 >= bufSize - 8 then Progress(path, es, startIdx, bufSize, i + 1, n, pos, true)
            else Progress(path, es, startIdx, bufSize, i + 1, n + 1, pos + (if n == 0 then 0 else 1) + written, false)
  {
    hide EntryText, PageSize, Header, Texts, Taken;
    TextsNext(es, startIdx, i);
    TakenNext(EntryText(es[i]), Texts(es[i + 1..]), pos, n == 0, bufSize);
  }

  lemma ProgressEnds(path: string, es: seq<Entry>, startIdx: nat, bufSize: nat, n: nat, pos: nat, full: bool)
    requires Progress(path, es, startIdx, bufSize, |es|, n, pos, full)
    ensures startIdx <= |es| ==> n == PageSize(path, es, startIdx, bufSize) && startIdx + n <= |es|
    ensures startIdx > |es| ==> n == 0
  {
  }

  /** The entries put on the page so far. */
  function List(es: seq<Entry>, startIdx: nat, n: nat): string
  {
    if startIdx + n <= |es| then Text.Joined(Texts(es[startIdx..startIdx + n]), ',') else []
  }

  lemma ListGrows(es: seq<Entry>, startIdx: nat, n: nat)
    requires startIdx + n < |es|
    ensures List(es, startIdx, n + 1) ==
            List(es, startIdx, n) + ((if n == 0 then "" else ",") + EntryText(es[startIdx + n]))
  {
    hide EntryText, Texts, Text.Joined;
    var page, text := es[startIdx..startIdx + n], EntryText(es[startIdx + n]);
    TextsNext(es, startIdx, startIdx + n);
    Text.JoinedSnoc(Texts(page), text, ',');
    Bytes.Regroup(Text.Joined(Texts(page), ','), if n == 0 then "" else ",", text);
  }

  /** fs_list_dir, over the entries the directory enumerates; found says whether the
      path could be locked and examined. */
  method FsListDir(path: string, found: bool, es: seq<Entry>, startIdx: nat, buf: array<char>) returns (result: int)
    requires |path| + 5 + 12 <= buf.Length && |es| < 0x1_0000_0000
    modifies buf
    ensures result == if found then |es| else -1
    ensures !found ==> buf[..] == old(buf[..])
    ensures found ==> var line := Written(path, |es|, Page(path, es, startIdx, buf.Length));
                      |line| < buf.Length && buf[..|line|] == line && buf[|line|] == '\0'
  {
    hide EntryText, Progress, List, Text.Print, PageSize, Holds;
    if !found { return -1; }
    var headerPos := |Header(path)|;
    var pos := StartPage(path, buf);
    var total, full, first := 0, false, true;
    ghost var n := 0;
    ProgressStarts(path, es, startIdx, buf.Length);
    EmptyList(es, startIdx);
    while total < |es|
      invariant 0 <= total <= |es| && 0 <= pos && Progress(path, es, startIdx, buf.Length, total, n, pos, full)
      invariant first == (n == 0) && pos < buf.Length
      invariant Holds(buf[..pos], Header(path), List(es, startIdx, n))
    {
      if total >= startIdx && !full {
        var entry := EntryText(es[total]);
        ProgressMeetsEntry(path, es, startIdx, buf.Length, total, n, pos);
        if pos + |entry| + 2 >= buf.Length - 8 {
          full := true;
        } else {
          ProgressIsDense(path, es, startIdx, buf.Length, total, n, pos);
          ListGrows(es, startIdx, n);
          HoldsMore(buf[..pos], Header(path), List(es, startIdx, n), (if first then "" else ",") + entry);
          pos := AppendEntry(buf, pos, first, entry);
          first := false;
          n := n + 1;
        }
      } else {
        ProgressSkips(path, es, startIdx, buf.Length, total, n, pos, full);
      }
      total := total + 1;
    }
    ProgressEnds(path, es, startIdx, buf.Length, n, pos, full);
    FinalList(path, es, startIdx, buf.Length, n);
    FinishPage(path, total, Page(path, es, startIdx, buf.Length), pos, buf);
    return total;
  }

  /** The header and seven blanks for the total. */
  method StartPage(path: string, buf: array<char>) returns (pos: nat)
    requires |path| + 5 + 12 <= buf.Length
    modifies buf
    ensures pos == |Header(path)| + RESERVED < buf.Length && Holds(buf[..pos], Header(path), "")
  {
    Store(buf, 0, Header(path));
    pos := |Header(path)|;
    Store(buf, pos, "       ");
    pos := pos + 7;
    buf[pos] := '\0';
  }

  /** The total in its place, and the terminating NUL. */
  method FinishPage(path: string, total: nat, ghost page: seq<Entry>, end: nat, buf: array<char>)
    requires end < buf.Length && Holds(buf[..end], Header(path), Text.Joined(Texts(page), ','))
    requires total < 0x1_0000_0000 && |path| + 5 + 12 <= buf.Length
    modifies buf
    ensures var line := Written(path, total, page);
            |line| < buf.Length && buf[..|line|] == line && buf[|line|] == '\0'
  {
    hide Text.Print, Text.Joined, Texts;
    PrintFits(total);
    var headerPos := |Header(path)|;
    var count := Text.Print(total) + "|";
    assert buf[..headerPos] == buf[..end][..headerPos];
    assert buf[headerPos + RESERVED..end] == buf[..end][headerPos + RESERVED..];
    if |count| <= RESERVED {
      var pos := PatchShort(buf, headerPos, count, end);
    } else {
      PatchLong(buf, headerPos, count, end);
    }
  }

  lemma EmptyList(es: seq<Entry>, startIdx: nat)
    ensures List(es, startIdx, 0) == []
  {
    if startIdx <= |es| { assert es[startIdx..startIdx] == []; }
  }

  lemma ProgressIsDense(path: string, es: seq<Entry>, startIdx: nat, bufSize: nat, i: nat, n: nat, pos: nat)
    requires Progress(path, es, startIdx, bufSize, i, n, pos, false) && startIdx <= i
    ensures startIdx + n == i
  {
  }

  /** The buffer so far: the header, room for the total, and the entries. */
  predicate Holds(s: string, header: string, list: string) {
    |s| >= |header| + RESERVED && s[..|header|] == header && s[|header| + RESERVED..] == list
  }

  lemma HoldsMore(s: string, header: string, list: string, more: string)
    requires Holds(s, header, list)
    ensures Holds(s + more, header, list + more)
  {
  }

  lemma FinalList(path: string, es: seq<Entry>, startIdx: nat, bufSize: nat, n: nat)
    requires startIdx <= |es| ==> n == PageSize(path, es, startIdx, bufSize)
    ensures List(es, startIdx, n) == Text.Joined(Texts(Page(path, es, startIdx, bufSize)), ',')
  {
    hide PageSize, EntryText;
  }

  lemma PrintFits(total: nat)
    requires total < 0x1_0000_0000
    ensures |Text.Print(total)| <= 10
  {
    assert Text.Ten(10) == 10_000_000_000;
    Text.PrintLength(total, 10);
  }

  // ------------------------------------------------------------ what a page promises

  /** The line is DIR|path|total|entries exactly when the total has at most six digits. */
  lemma LineIsExact(path: string, total: nat, page: seq<Entry>)
    ensures Written(path, total, page) == Line(path, total, page) <==> total < 1000000
  {
    assert Text.Ten(6) == 1000000;
    Text.PrintLength(total, 6);
    hide Text.Print, Text.Joined, Texts;
    if total >= 1000000 {
      var list := Text.Joined(Texts(page), ',');
      assert |Written(path, total, page)| <= |Header(path)| + RESERVED + |list| < |Line(path, total, page)|;
    }
  }

  /** While entries are left, a page shows at least one when the path leaves room for a
      full entry. */
  lemma PageMakesProgress(path: string, es: seq<Entry>, startIdx: nat, bufSize: nat)
    requires startIdx < |es| && |path| + 5 + RESERVED + ENTRY_SIZE + 1 < bufSize - 8
    ensures |Page(path, es, startIdx, bufSize)| > 0
  {
    TextsNext(es, startIdx, startIdx);
  }

  // ------------------------------------------------------------------- at the host

  predicate IsSpace(c: char) {
    9 <= c as int <= 13 || 28 <= c as int <= 32 || c as int == 0x85 || c as int == 0xA0
  }

  function StripLeft(s: string): string {
    if s != [] && IsSpace(s[0]) then StripLeft(s[1..]) else s
  }

  function StripRight(s: string): string {
    if s != [] && IsSpace(s[|s| - 1]) then StripRight(s[..|s| - 1]) else s
  }

  function Strip(s: string): string { StripRight(StripLeft(s)) }

  function StripClose(s: string): string {
    if s != [] && s[|s| - 1] == ')' then StripClose(s[..|s| - 1]) else s
  }

  /** raw.split("),"). */
  function SplitClose(s: string): (parts: seq<string>)
    ensures parts != []
  {
    if |s| < 2 then [s]
    else if s[0] == ')' && s[1] == ',' then [[]] + SplitClose(s[2..])
    else
      var rest := SplitClose(s[1..]);
      [[s[0]] + rest[0]] + rest[1..]
  }

  function IndexOf(s: string, c: char): (k: nat)
    requires c in s
    ensures k < |s| && s[k] == c && c !in s[..k]
  {
    if s[0] == c then 0 else 1 + IndexOf(s[1..], c)
  }

  /** One piece of the entry list: the entry it names, if any. */
  function ParseEntry(piece: string): seq<Entry> {
    var entry := StripClose(Strip(piece));
    if '(' in entry then
      var at := IndexOf(entry, '(');
      var info := Text.Split(entry[at + 1..], ',');
      [Entry(entry[..at], Text.ParseSigned(info[0]), |info| > 1 && Strip(info[1]) == "D")]
    else if entry != [] then [Entry(entry, 0, false)]
    else []
  }

  function ParseEntries(pieces: seq<string>): seq<Entry> {
    if pieces == [] then [] else ParseEntry(pieces[0]) + ParseEntries(pieces[1..])
  }

  datatype Dir = Dir(path: string, count: int, entries: seq<Entry>)

  /** The DIR branch of parse_message. */
  function ParseDir(line: string): Dir {
    var parts := Text.Split(line, '|');
    Dir(if |parts| > 1 then parts[1] else "",
        if |parts| > 2 then Text.ParseSigned(parts[2]) else 0,
        if |parts| > 3 && parts[3] != [] then ParseEntries(SplitClose(Text.Join(parts[3..], '|'))) else [])
  }

  /** What the host keeps of a character stream: no control characters but tabs. */
  predicate IsClean(c: char) { c >= ' ' || c == '\t' }

  predicate Clean(s: string) {
    forall k :: 0 <= k < |s| ==> IsClean(s[k])
  }

  function FirstLine(s: string): string {
    if s == [] || s[0] == '\n' then [] else [s[0]] + FirstLine(s[1..])
  }

  function DropNoise(s: string): (r: string)
    ensures Clean(r) && (Clean(s) ==> r == s)
  {
    if s == [] then [] else (if IsClean(s[0]) then [s[0]] else []) + DropNoise(s[1..])
  }

  /** The line the host parses of what was sent, up to a line end in it. */
  function Received(s: string): string { DropNoise(Strip(FirstLine(s))) }

  /** No ")," inside. */
  predicate NoClose(s: string) {
    forall k :: 0 <= k < |s| - 1 ==> !(s[k] == ')' && s[k + 1] == ',')
  }

  /** A name the host can read back: no opening parenthesis, no "),", no blank in front. */
  predicate Readable(name: string) {
    '(' !in name && NoClose(name) && (name != [] ==> !IsSpace(name[0]))
  }

  predicate AllReadable(es: seq<Entry>) {
    forall k :: 0 <= k < |es| ==> Readable(es[k].name)
  }

  predicate AllClean(es: seq<Entry>) {
    forall k :: 0 <= k < |es| ==> Clean(es[k].name)
  }

  /** What AmigaDOS reports: a name of at most 107 characters and a size of 32 bits. */
  predicate Dos(e: Entry) { |e.name| <= 107 && -0x8000_0000 <= e.size < 0x8000_0000 }

  predicate AllDos(es: seq<Entry>) {
    forall k :: 0 <= k < |es| ==> Dos(es[k])
  }

  /** An entry text without its closing parenthesis. */
  function Open(e: Entry): string {
    e.name + "(" + Text.PrintSigned(e.size) + "," + (if e.dir then "D" else "F")
  }

  lemma TextIsOpen(e: Entry)
    requires Dos(e)
    ensures EntryText(e) == Open(e) + ")"
  {
    PrintFits(if e.size < 0 then -e.size else e.size);
    hide Text.Print;
  }

  lemma OpenText(e: Entry)
    requires Readable(e.name)
    ensures NoClose(Open(e)) && Open(e) != [] && !IsSpace(Open(e)[0])
    ensures Open(e)[|Open(e)| - 1] != ')' && !IsSpace(Open(e)[|Open(e)| - 1])
  {
    Text.ParseOfPrintSigned(e.size);
    hide Text.PrintSigned;
  }

  lemma StripOpen(e: Entry, close: string)
    requires Readable(e.name) && (close == "" || close == ")")
    ensures StripClose(Strip(Open(e) + close)) == Open(e)
  {
    OpenText(e);
    hide *;
    StripText(Open(e), close);
  }

  lemma StripText(open: string, close: string)
    requires open != [] && !IsSpace(open[0]) && !IsSpace(open[|open| - 1]) && open[|open| - 1] != ')'
    requires close == "" || close == ")"
    ensures StripClose(Strip(open + close)) == open
  {
    var s := open + close;
    assert !IsSpace(s[0]) && !IsSpace(s[|s| - 1]);
    if close == ")" {
      assert s[..|s| - 1] == open;
    } else {
      assert s == open;
    }
  }

  lemma {:induction false} FirstIndex(s: string, rest: string, c: char)
    requires c !in s
    ensures c in s + [c] + rest && IndexOf(s + [c] + rest, c) == |s|
  {
    if s != [] {
      FirstIndex(s[1..], rest, c);
      assert (s + [c] + rest)[1..] == s[1..] + [c] + rest;
    }
  }

  lemma OpenFields(e: Entry)
    requires Readable(e.name)
    ensures '(' in Open(e) && IndexOf(Open(e), '(') == |e.name|
    ensures Open(e)[..|e.name|] == e.name
    ensures Text.Split(Open(e)[|e.name| + 1..], ',') == [Text.PrintSigned(e.size), if e.dir then "D" else "F"]
  {
    OpenIsName(e);
    FirstIndex(e.name, OpenInfo(e), '(');
    hide OpenInfo;
    assert (e.name + ['('] + OpenInfo(e))[..|e.name|] == e.name;
    assert (e.name + ['('] + OpenInfo(e))[|e.name| + 1..] == OpenInfo(e);
    InfoFields(e);
  }

  /** What stands behind the opening parenthesis. */
  function OpenInfo(e: Entry): string { Text.PrintSigned(e.size) + [','] + (if e.dir then "D" else "F") }

  lemma OpenIsName(e: Entry)
    ensures Open(e) == e.name + ['('] + OpenInfo(e)
  {
    hide Text.PrintSigned;
  }

  lemma InfoFields(e: Entry)
    ensures Text.Split(OpenInfo(e), ',') == [Text.PrintSigned(e.size), if e.dir then "D" else "F"]
  {
    var number, letter := Text.PrintSigned(e.size), if e.dir then "D" else "F";
    Text.ParseOfPrintSigned(e.size);
    assert ',' !in number;
    hide Text.PrintSigned, Text.Split;
    Text.SplitPlain(letter, ',');
    Text.SplitFront(number, letter, ',');
  }

  lemma ParseOpen(e: Entry, close: string)
    requires Readable(e.name) && (close == "" || close == ")")
    ensures ParseEntry(Open(e) + close) == [e]
  {
    assert Strip("D") == "D" && Strip("F") == "F";
    hide *;
    StripOpen(e, close);
    OpenFields(e);
    Text.ParseOfPrintSigned(e.size);
    ParseFields(Open(e) + close, Open(e), |e.name|, [Text.PrintSigned(e.size), if e.dir then "D" else "F"]);
  }

  lemma ParseFields(piece: string, entry: string, at: nat, info: seq<string>)
    requires StripClose(Strip(piece)) == entry && '(' in entry && IndexOf(entry, '(') == at
    requires Text.Split(entry[at + 1..], ',') == info && |info| == 2
    ensures ParseEntry(piece) == [Entry(entry[..at], Text.ParseSigned(info[0]), Strip(info[1]) == "D")]
  {
    hide Strip, StripClose, Text.Split, Text.ParseSigned, IndexOf;
  }

  lemma {:induction false} SplitCloseFront(s: string, rest: string)
    requires NoClose(s)
    ensures SplitClose(s + ")," + rest) == [s] + SplitClose(rest)
  {
    var all := s + ")," + rest;
    if s == [] {
      assert all[2..] == rest;
    } else {
      assert NoClose(s[1..]) by { NoCloseAfter(s); }
      SplitCloseFront(s[1..], rest);
      assert all[1..] == s[1..] + ")," + rest;
      assert [s[0]] + s[1..] == s;
      assert !(all[0] == ')' && all[1] == ',') by { assert |s| > 1 ==> all[1] == s[1]; }
    }
  }

  lemma NoCloseAfter(s: string)
    requires s != [] && NoClose(s)
    ensures NoClose(s[1..])
  {
    assert forall k :: 0 <= k < |s[1..]| ==> s[1..][k] == s[k + 1];
  }

  lemma {:induction false} SplitCloseLast(s: string)
    requires NoClose(s)
    ensures SplitClose(s) == [s]
  {
    if |s| >= 2 {
      NoCloseAfter(s);
      SplitCloseLast(s[1..]);
      assert [s[0]] + s[1..] == s;
    }
  }

  lemma {:induction false} ParseList(es: seq<Entry>)
    requires es != [] && AllReadable(es) && AllDos(es)
    ensures ParseEntries(SplitClose(Text.Join(Texts(es), ','))) == es
    decreases |es|
  {
    hide Open, EntryText, Readable, Dos, ParseEntry, SplitClose, NoClose, IsSpace;
    var e := es[0];
    assert Readable(e.name) && Dos(e);
    OpenText(e);
    TextIsOpen(e);
    if |es| == 1 {
      NoCloseAtEnd(Open(e));
      SplitCloseLast(Open(e) + ")");
      ParseOpen(e, ")");
    } else {
      var rest := Text.Join(Texts(es[1..]), ',');
      assert AllReadable(es[1..]) && AllDos(es[1..]);
      ParseList(es[1..]);
      assert Texts(es)[1..] == Texts(es[1..]);
      assert Text.Join(Texts(es), ',') == Open(e) + ")," + rest;
      SplitCloseFront(Open(e), rest);
      ParseOpen(e, "");
      assert Open(e) + "" == Open(e);
    }
  }

  lemma NoCloseAtEnd(s: string)
    requires NoClose(s)
    ensures NoClose(s + ")")
  {
  }

  // Whatever is read has names of this kind.

  lemma {:induction false} PiecesHaveNoClose(s: string)
    ensures forall k :: 0 <= k < |SplitClose(s)| ==> NoClose(SplitClose(s)[k])
    ensures SplitClose(s)[0] != [] ==> s != [] && s[0] == SplitClose(s)[0][0]
  {
    hide NoClose;
    if |s| < 2 {
      ShortHasNoClose(s);
    } else if s[0] == ')' && s[1] == ',' {
      PiecesHaveNoClose(s[2..]);
      ShortHasNoClose([]);
    } else {
      PiecesHaveNoClose(s[1..]);
      var rest := SplitClose(s[1..]);
      LongerHasNoClose(s[0], rest[0], s[1]);
    }
  }

  lemma ShortHasNoClose(s: string)
    requires |s| < 2
    ensures NoClose(s)
  {
  }

  lemma LongerHasNoClose(c: char, s: string, next: char)
    requires NoClose(s) && (s != [] ==> s[0] == next) && !(c == ')' && next == ',')
    ensures NoClose([c] + s)
  {
    assert forall k :: 0 <= k < |s| ==> ([c] + s)[k + 1] == s[k];
  }

  lemma {:induction false} StripLeftIs(s: string)
    ensures |StripLeft(s)| <= |s| && StripLeft(s) == s[|s| - |StripLeft(s)|..]
    ensures StripLeft(s) != [] ==> !IsSpace(StripLeft(s)[0])
  {
    if s != [] && IsSpace(s[0]) { StripLeftIs(s[1..]); }
  }

  lemma {:induction false} StripRightIs(s: string)
    ensures |StripRight(s)| <= |s| && StripRight(s) == s[..|StripRight(s)|]
  {
    if s != [] && IsSpace(s[|s| - 1]) { StripRightIs(s[..|s| - 1]); }
  }

  lemma {:induction false} StripCloseIs(s: string)
    ensures |StripClose(s)| <= |s| && StripClose(s) == s[..|StripClose(s)|]
  {
    if s != [] && s[|s| - 1] == ')' { StripCloseIs(s[..|s| - 1]); }
  }

  lemma NoCloseInside(s: string, i: nat, j: nat)
    requires NoClose(s) && i <= j <= |s|
    ensures NoClose(s[i..j])
  {
    assert forall k :: 0 <= k < j - i ==> s[i..j][k] == s[i + k];
  }

  lemma StrippedPiece(piece: string)
    requires NoClose(piece)
    ensures var entry := StripClose(Strip(piece));
            NoClose(entry) && (entry != [] ==> !IsSpace(entry[0]))
  {
    var a := StripLeft(piece);
    var b := StripRight(a);
    var entry := StripClose(b);
    StripLeftIs(piece);
    StripRightIs(a);
    StripCloseIs(b);
    hide NoClose, IsSpace, StripLeft, StripRight, StripClose;
    NoCloseInside(piece, |piece| - |a|, |piece|);
    NoCloseInside(a, 0, |b|);
    NoCloseInside(b, 0, |entry|);
  }

  lemma ReadNameIsReadable(piece: string)
    requires NoClose(piece)
    ensures AllReadable(ParseEntry(piece))
  {
    StrippedPiece(piece);
    var entry := StripClose(Strip(piece));
    hide Strip, StripClose, NoClose, IsSpace, Text.Split, Text.ParseSigned;
    if '(' in entry { NoCloseInside(entry, 0, IndexOf(entry, '(')); }
  }

  lemma {:induction false} ReadNamesAreReadable(pieces: seq<string>)
    requires forall k :: 0 <= k < |pieces| ==> NoClose(pieces[k])
    ensures AllReadable(ParseEntries(pieces))
    decreases |pieces|
  {
    hide ParseEntry, NoClose, Readable;
    if pieces != [] {
      ReadNameIsReadable(pieces[0]);
      ReadNamesAreReadable(pieces[1..]);
    }
  }

  /** Whatever line the host reads, the names it takes from it are readable. */
  lemma ParsedNamesAreReadable(line: string)
    ensures AllReadable(ParseDir(line).entries)
  {
    var parts := Text.Split(line, '|');
    hide ParseEntries, SplitClose, Readable, Text.Split, Text.Join, Text.ParseSigned, NoClose;
    if |parts| > 3 && parts[3] != [] {
      var list := Text.Join(parts[3..], '|');
      PiecesHaveNoClose(list);
      ReadNamesAreReadable(SplitClose(list));
    }
  }

  lemma LineParts(path: string, total: nat, page: seq<Entry>)
    requires '|' !in path
    ensures Text.Split(Line(path, total, page), '|') ==
            ["DIR"] + ([path] + ([Text.Print(total)] + Text.Split(Text.Joined(Texts(page), ','), '|')))
  {
    var list, number := Text.Joined(Texts(page), ','), Text.Print(total);
    assert '|' !in number;
    assert Line(path, total, page) == "DIR" + ['|'] + (path + ['|'] + (number + ['|'] + list)) by {
      hide Text.Joined, Text.Print;
    }
    hide *;
    Text.SplitFront(number, list, '|');
    Text.SplitFront(path, number + ['|'] + list, '|');
    Text.SplitFront("DIR", path + ['|'] + (number + ['|'] + list), '|');
  }

  lemma ParseParts(line: string, path: string, number: string, list: string)
    requires Text.Split(line, '|') == ["DIR"] + ([path] + ([number] + Text.Split(list, '|')))
    ensures ParseDir(line) ==
            Dir(path, Text.ParseSigned(number),
                if list == [] || list[0] == '|' then [] else ParseEntries(SplitClose(list)))
  {
    FirstField(list);
    Text.JoinOfSplit(list, '|');
    hide Text.Split, Text.Join, Text.ParseSigned, ParseEntries, SplitClose;
    var tail := Text.Split(list, '|');
    var parts := Text.Split(line, '|');
    assert parts[3..] == tail && parts[3] == tail[0];
  }

  predicate BarInFront(page: seq<Entry>) {
    page != [] && page[0].name != [] && page[0].name[0] == '|'
  }

  /** What the host makes of a line. */
  lemma ParseLine(path: string, total: nat, page: seq<Entry>)
    requires '|' !in path && AllDos(page)
    ensures ParseDir(Line(path, total, page)) ==
            Dir(path, total, if page == [] || BarInFront(page) then []
                             else ParseEntries(SplitClose(Text.Join(Texts(page), ','))))
  {
    Text.ParseOfPrintSigned(total);
    assert Text.PrintSigned(total) == Text.Print(total);
    var list := Text.Joined(Texts(page), ',');
    ListStart(page);
    assert page != [] ==> list == Text.Join(Texts(page), ',') by { hide EntryText; }
    hide *;
    LineParts(path, total, page);
    ParseParts(Line(path, total, page), path, Text.Print(total), list);
  }

  lemma ListStart(page: seq<Entry>)
    requires AllDos(page)
    ensures var list := Text.Joined(Texts(page), ',');
            (list == [] <==> page == []) && (list != [] && list[0] == '|' <==> BarInFront(page))
  {
    if page != [] {
      TextIsOpen(page[0]);
      JoinStart(Texts(page));
      hide Text.PrintSigned, EntryText, Texts, Text.Join;
    }
  }

  lemma JoinStart(texts: seq<string>)
    requires texts != [] && texts[0] != []
    ensures Text.Join(texts, ',') != [] && Text.Join(texts, ',')[0] == texts[0][0]
  {
  }

  /** Reading a line gives back the path, the total and the entries of the page if and only
      if every name is readable and the first has no bar in front. */
  lemma ParseOfLine(path: string, total: nat, page: seq<Entry>)
    requires '|' !in path && AllDos(page)
    ensures ParseDir(Line(path, total, page)) == Dir(path, total, page) <==> AllReadable(page) && !BarInFront(page)
    ensures BarInFront(page) ==> ParseDir(Line(path, total, page)) == Dir(path, total, [])
    ensures ParseDir(Line(path, total, page)).count == total
  {
    var line := Line(path, total, page);
    ParsedNamesAreReadable(line);
    assert BarInFront(page) ==> page != [];
    assert page == [] ==> AllReadable(page);
    hide *;
    ParseLine(path, total, page);
    if AllReadable(page) && page != [] { ParseList(page); }
  }

  // ------------------------------------------------------------------- noise

  lemma {:induction false} CleanIsOneLine(s: string)
    requires Clean(s)
    ensures FirstLine(s) == s
  {
    if s != [] {
      assert IsClean(s[0]) && s[0] != '\n';
      CleanIsOneLine(s[1..]);
    }
  }

  /** A clean line without blanks at its ends is received as it is. */
  lemma CleanIsReceived(s: string)
    requires Clean(s) && SolidEnds(s)
    ensures Received(s) == s
  {
    CleanIsOneLine(s);
    hide Clean, FirstLine, IsSpace;
  }

  lemma CleanParts(a: string, b: string)
    ensures Clean(a + b) <==> Clean(a) && Clean(b)
  {
    if Clean(a + b) {
      forall k | 0 <= k < |a| ensures IsClean(a[k]) { assert (a + b)[k] == a[k]; }
      forall k | 0 <= k < |b| ensures IsClean(b[k]) { assert (a + b)[|a| + k] == b[k]; }
    }
  }

  lemma CleanSlice(s: string, i: nat, j: nat)
    requires Clean(s) && i <= j <= |s|
    ensures Clean(s[i..j])
  {
  }

  predicate AllPartsClean(parts: seq<string>) {
    forall k :: 0 <= k < |parts| ==> Clean(parts[k])
  }

  lemma {:induction false} SplitIsClean(s: string, sep: char)
    requires Clean(s)
    ensures AllPartsClean(Text.Split(s, sep))
  {
    if s != [] {
      SplitIsClean(s[1..], sep);
      var rest := Text.Split(s[1..], sep);
      CleanParts([s[0]], rest[0]);
      hide Clean;
    }
  }

  lemma {:induction false} SplitCloseIsClean(s: string)
    requires Clean(s)
    ensures AllPartsClean(SplitClose(s))
  {
    if |s| >= 2 {
      CleanSlice(s, 1, |s|);
      CleanSlice(s, 2, |s|);
      if s[0] == ')' && s[1] == ',' {
        SplitCloseIsClean(s[2..]);
        hide Clean;
      } else {
        SplitCloseIsClean(s[1..]);
        CleanParts([s[0]], SplitClose(s[1..])[0]);
        hide Clean;
      }
    }
  }

  lemma {:induction false} JoinIsClean(parts: seq<string>, sep: char)
    requires parts != [] && IsClean(sep) && AllPartsClean(parts)
    ensures Clean(Text.Join(parts, sep))
    decreases |parts|
  {
    if |parts| > 1 {
      var rest := Text.Join(parts[1..], sep);
      JoinIsClean(parts[1..], sep);
      CleanParts(parts[0] + [sep], rest);
      CleanParts(parts[0], [sep]);
      assert Clean([sep]);
      hide Clean;
    }
  }

  lemma StrippedIsClean(piece: string)
    requires Clean(piece)
    ensures Clean(StripClose(Strip(piece)))
  {
    var a := StripLeft(piece);
    var b := StripRight(a);
    var entry := StripClose(b);
    StripLeftIs(piece);
    StripRightIs(a);
    StripCloseIs(b);
    hide Clean, IsSpace, StripLeft, StripRight, StripClose;
    CleanSlice(piece, |piece| - |a|, |piece|);
    assert a == piece[|piece| - |a|..|piece|];
    CleanSlice(a, 0, |b|);
    assert b == a[0..|b|];
    CleanSlice(b, 0, |entry|);
    assert entry == b[0..|entry|];
  }

  lemma ReadNameIsClean(piece: string)
    requires Clean(piece)
    ensures AllClean(ParseEntry(piece))
  {
    StrippedIsClean(piece);
    var entry := StripClose(Strip(piece));
    hide Strip, StripClose, Clean, Text.Split, Text.ParseSigned;
    if '(' in entry { CleanSlice(entry, 0, IndexOf(entry, '(')); }
  }

  lemma {:induction false} ReadNamesAreClean(pieces: seq<string>)
    requires AllPartsClean(pieces)
    ensures AllClean(ParseEntries(pieces))
    decreases |pieces|
  {
    hide ParseEntry, Clean;
    if pieces != [] {
      ReadNameIsClean(pieces[0]);
      ReadNamesAreClean(pieces[1..]);
    }
  }

  /** A clean line has a clean path and clean names. */
  lemma CleanLineNames(line: string)
    requires Clean(line)
    ensures Clean(ParseDir(line).path) && AllClean(ParseDir(line).entries)
  {
    var parts := Text.Split(line, '|');
    SplitIsClean(line, '|');
    assert Clean("");
    hide ParseEntries, SplitClose, Clean, Text.Split, Text.Join, Text.ParseSigned;
    if |parts| > 3 && parts[3] != [] {
      var list := Text.Join(parts[3..], '|');
      JoinIsClean(parts[3..], '|');
      SplitCloseIsClean(list);
      ReadNamesAreClean(SplitClose(list));
    }
  }

  /** Whatever was sent, the names the host takes are readable and clean. */
  lemma ReceivedNames(s: string)
    ensures var dir := ParseDir(Received(s));
            AllReadable(dir.entries) && AllClean(dir.entries) && Clean(dir.path)
  {
    hide *;
    ReceivedClean(s);
    ParsedNamesAreReadable(Received(s));
    CleanLineNames(Received(s));
  }

  lemma ReceivedClean(s: string)
    ensures Clean(Received(s))
  {
    hide Clean, Strip, FirstLine;
  }

  lemma NumberIsClean(n: int)
    ensures Clean(Text.PrintSigned(n))
  {
    Text.ParseOfPrintSigned(n);
    hide Text.PrintSigned;
  }

  lemma EntryTextIsClean(e: Entry)
    requires Clean(e.name)
    ensures Clean(EntryText(e))
  {
    var number, letter := Text.PrintSigned(e.size), if e.dir then "D" else "F";
    NumberIsClean(e.size);
    assert Clean("(") && Clean(",") && Clean(letter) && Clean(")");
    assert FullText(e) == e.name + "(" + number + "," + letter + ")";
    hide Clean, Text.PrintSigned, FullText;
    CleanParts(e.name, "(");
    CleanParts(e.name + "(", number);
    CleanParts(e.name + "(" + number, ",");
    CleanParts(e.name + "(" + number + ",", letter);
    CleanParts(e.name + "(" + number + "," + letter, ")");
    if |FullText(e)| >= ENTRY_SIZE { CleanSlice(FullText(e), 0, ENTRY_SIZE - 1); }
  }

  lemma {:induction false} TextsAreClean(es: seq<Entry>)
    requires AllClean(es)
    ensures AllPartsClean(Texts(es))
  {
    hide Clean, EntryText;
    if es != [] {
      EntryTextIsClean(es[0]);
      TextsAreClean(es[1..]);
    }
  }

  /** The line of a clean path and clean names. */
  lemma LineIsClean(path: string, total: nat, page: seq<Entry>)
    requires Clean(path) && AllClean(page)
    ensures Clean(Line(path, total, page))
  {
    var number, list := Text.Print(total), Text.Joined(Texts(page), ',');
    NumberIsClean(total);
    assert number == Text.PrintSigned(total);
    TextsAreClean(page);
    assert Clean("DIR|") && Clean("|") && Clean([]);
    hide Clean, Text.Print, Text.PrintSigned, Texts, Text.Join;
    if page != [] { JoinIsClean(Texts(page), ','); }
    CleanParts("DIR|", path);
    CleanParts("DIR|" + path, "|");
    CleanParts(number, "|");
    CleanParts(Header(path), number + "|");
    CleanParts(Header(path) + (number + "|"), list);
  }

  lemma {:induction false} JoinEnd(parts: seq<string>, sep: char)
    requires parts != [] && parts[|parts| - 1] != []
    ensures var s, last := Text.Join(parts, sep), parts[|parts| - 1]; s != [] && s[|s| - 1] == last[|last| - 1]
    decreases |parts|
  {
    if |parts| > 1 { JoinEnd(parts[1..], sep); }
  }

  lemma {:induction false} TextsLast(es: seq<Entry>)
    requires es != []
    ensures Texts(es)[|es| - 1] == EntryText(es[|es| - 1])
  {
    hide EntryText;
    if |es| > 1 { TextsLast(es[1..]); }
  }

  predicate SolidEnds(s: string) {
    s != [] && !IsSpace(s[0]) && !IsSpace(s[|s| - 1])
  }

  lemma FrontEnds(path: string, number: string)
    ensures SolidEnds(Header(path) + (number + "|"))
  {
    var s := Header(path) + (number + "|");
    assert s[0] == 'D' && s[|s| - 1] == '|';
  }

  lemma EndsOfBoth(front: string, list: string)
    requires SolidEnds(front) && (list != [] ==> !IsSpace(list[|list| - 1]))
    ensures SolidEnds(front + list)
  {
    hide IsSpace;
  }

  lemma ListEnd(page: seq<Entry>)
    requires AllDos(page)
    ensures var list := Text.Joined(Texts(page), ','); list != [] ==> !IsSpace(list[|list| - 1])
  {
    if page != [] {
      TextIsOpen(page[|page| - 1]);
      TextsLast(page);
      JoinEnd(Texts(page), ',');
      hide EntryText, Texts, Text.Join, Open;
    }
  }

  /** The line starts with a letter and ends with a parenthesis or a bar. */
  lemma LineEnds(path: string, total: nat, page: seq<Entry>)
    requires AllDos(page)
    ensures SolidEnds(Line(path, total, page))
  {
    ListEnd(page);
    FrontEnds(path, Text.Print(total));
    hide SolidEnds, IsSpace, Header, Text.Joined, Texts, Text.Print;
    EndsOfBoth(Header(path) + (Text.Print(total) + "|"), Text.Joined(Texts(page), ','));
  }

  /** What the host receives of a line is the line, exactly if path and names are clean;
      and it makes of it the path, the total and the entries if and only if all names are
      readable besides, and the first has no bar in front. */
  lemma ReceivedLine(path: string, total: nat, page: seq<Entry>)
    requires '|' !in path && AllDos(page)
    ensures ParseDir(Received(Line(path, total, page))) == Dir(path, total, page) <==>
              Clean(path) && AllClean(page) && AllReadable(page) && !BarInFront(page)
    ensures Clean(path) && AllClean(page) ==> Received(Line(path, total, page)) == Line(path, total, page)
  {
    hide *;
    var line := Line(path, total, page);
    ReceivedNames(line);
    if Clean(path) && AllClean(page) {
      LineIsClean(path, total, page);
      LineEnds(path, total, page);
      CleanIsReceived(line);
      ParseOfLine(path, total, page);
    }
  }

  lemma OneName(e: Entry)
    requires Dos(Entry("", e.size, e.dir)) && |e.name| <= 107
    ensures AllDos([e]) && (AllClean([e]) <==> Clean(e.name)) && (AllReadable([e]) <==> Readable(e.name))
    ensures BarInFront([e]) <==> e.name != [] && e.name[0] == '|'
  {
    hide Clean, Readable;
    assert [e][0] == e;
  }

  lemma OddName(name: string)
    requires name in ["a(b", "a),b", " a", "|a", "a\nb", "a\rb"]
    ensures |name| <= 107 && (!Readable(name) || !Clean(name) || name[0] == '|')
  {
    if name == "a(b" { assert name[1] == '('; }
    if name == "a),b" { assert name[1] == ')' && name[2] == ','; }
    if name == "a\nb" || name == "a\rb" { assert !IsClean(name[1]); }
  }

  /** Names that are misread, with a line end or another control character among them. */
  lemma MisreadNames(name: string, size: int, dir: bool)
    requires Dos(Entry("", size, dir)) && name in ["a(b", "a),b", " a", "|a", "a\nb", "a\rb"]
    ensures var page := [Entry(name, size, dir)];
            ParseDir(Received(Line("RAM:", 1, page))) != Dir("RAM:", 1, page)
  {
    OddName(name);
    hide *;
    OneName(Entry(name, size, dir));
    ReceivedLine("RAM:", 1, [Entry(name, size, dir)]);
  }

  /** A name with a parenthesis that is read back. */
  lemma ClosedName(size: int, dir: bool)
    requires Dos(Entry("", size, dir))
    ensures var page := [Entry("a)", size, dir)];
            ParseDir(Received(Line("RAM:", 1, page))) == Dir("RAM:", 1, page)
  {
    assert Clean("RAM:") && Clean("a)") && Readable("a)");
    assert |"a)"| <= 107 && '|' !in "RAM:";
    hide *;
    OneName(Entry("a)", size, dir));
    ReceivedLine("RAM:", 1, [Entry("a)", size, dir)]);
  }

  lemma FirstField(s: string)
    ensures Text.Split(s, '|')[0] == [] <==> s == [] || s[0] == '|'
  {
  }

  // ------------------------------------------------------------- following the pages

  const PAGE_BUFFER: nat := 8192
  const SANITY_CAP: nat := 100000

  /** All entries of the pages that start where the one before ended. */
  function Followed(path: string, es: seq<Entry>, offset: nat, bufSize: nat): seq<Entry>
    decreases |es| - offset
  {
    var page := Page(path, es, offset, bufSize);
    if page == [] then [] else page + Followed(path, es, offset + |page|, bufSize)
  }

  /** Following the pages of any directory ends, and lists each entry once, in order. */
  lemma {:induction false} PagesCoverDirectory(path: string, es: seq<Entry>, offset: nat, bufSize: nat)
    requires offset <= |es| && |path| + 5 + RESERVED + ENTRY_SIZE + 1 < bufSize - 8
    ensures Followed(path, es, offset, bufSize) == es[offset..]
    decreases |es| - offset
  {
    hide *;
    var page := Page(path, es, offset, bufSize);
    OffsetPage(path, es, offset, bufSize);
    FollowedUnfolds(path, es, offset, bufSize);
    if page != [] {
      PagesCoverDirectory(path, es, offset + |page|, bufSize);
      assert page + es[offset + |page|..] == es[offset..];
    }
  }

  lemma FollowedUnfolds(path: string, es: seq<Entry>, offset: nat, bufSize: nat)
    ensures var page := Page(path, es, offset, bufSize);
            Followed(path, es, offset, bufSize) ==
            if page == [] then [] else page + Followed(path, es, offset + |page|, bufSize)
  {
    hide Page;
  }

  lemma OffsetPage(path: string, es: seq<Entry>, offset: nat, bufSize: nat)
    requires offset <= |es| && |path| + 5 + RESERVED + ENTRY_SIZE + 1 < bufSize - 8
    ensures var page := Page(path, es, offset, bufSize);
            && offset + |page| <= |es| && es[..offset] + page == es[..offset + |page|]
            && (page == [] <==> offset == |es|)
            && forall k :: 0 <= k < |page| ==> page[k] == es[offset + k]
  {
    PageIsStretch(path, es, offset, bufSize);
    if offset < |es| { PageMakesProgress(path, es, offset, bufSize); }
    hide Page;
  }

  /** No page from an offset on starts with a bar. */
  predicate NoBarredPage(path: string, es: seq<Entry>, offset: nat)
    decreases |es| - offset
  {
    var page := Page(path, es, offset, PAGE_BUFFER);
    page != [] ==> !BarInFront(page) && NoBarredPage(path, es, offset + |page|)
  }

  /** The host has read some pages as they were written. */
  predicate ReadSoFar(path: string, es: seq<Entry>, entries: seq<Entry>) {
    && |entries| <= |es| && entries == es[..|entries|]
    && (NoBarredPage(path, es, 0) <==> NoBarredPage(path, es, |entries|))
  }

  /** One more page of a directory with readable names. */
  lemma ReadsPage(path: string, es: seq<Entry>, entries: seq<Entry>)
    requires |path| <= 255 && '|' !in path && Clean(path)
    requires |es| < 1000000 && AllDos(es) && AllReadable(es) && AllClean(es)
    requires ReadSoFar(path, es, entries)
    ensures var msg := ParseDir(Received(Written(path, |es|, Page(path, es, |entries|, PAGE_BUFFER))));
            && msg.count == |es|
            && ReadSoFar(path, es, entries + msg.entries)
            && (msg.entries == [] && |entries| < |es| ==> !NoBarredPage(path, es, 0))
  {
    hide *;
    PathFits(path);
    var offset := |entries|;
    var page := Page(path, es, offset, PAGE_BUFFER);
    ReadIs(path, es, entries);
    OffsetPage(path, es, offset, PAGE_BUFFER);
    LineIsExact(path, |es|, page);
    PartOf(es, page, offset);
    ReceivedLine(path, |es|, page);
    ParseOfLine(path, |es|, page);
    NextPage(path, es, offset);
    if BarInFront(page) {
      assert entries + [] == entries;
    } else {
      ReadMore(path, es, entries, page);
    }
  }

  lemma ReadIs(path: string, es: seq<Entry>, entries: seq<Entry>)
    requires ReadSoFar(path, es, entries)
    ensures |entries| <= |es| && entries == es[..|entries|]
    ensures NoBarredPage(path, es, 0) <==> NoBarredPage(path, es, |entries|)
  {
    hide NoBarredPage;
  }

  lemma ReadMore(path: string, es: seq<Entry>, entries: seq<Entry>, page: seq<Entry>)
    requires |entries| + |page| <= |es| && es[..|entries|] + page == es[..|entries| + |page|]
    requires ReadSoFar(path, es, entries)
    requires NoBarredPage(path, es, |entries|) <==> NoBarredPage(path, es, |entries| + |page|)
    ensures ReadSoFar(path, es, entries + page)
  {
    hide NoBarredPage;
  }

  lemma PathFits(path: string)
    requires |path| <= 255
    ensures |path| + 5 + RESERVED + ENTRY_SIZE + 1 < PAGE_BUFFER - 8
  {
  }

  lemma NextPage(path: string, es: seq<Entry>, offset: nat)
    ensures var page := Page(path, es, offset, PAGE_BUFFER);
            && (BarInFront(page) ==> page != [] && !NoBarredPage(path, es, offset))
            && (!BarInFront(page) ==>
                  (NoBarredPage(path, es, offset) <==> NoBarredPage(path, es, offset + |page|)))
  {
    hide Page;
  }

  lemma PartOf(es: seq<Entry>, page: seq<Entry>, offset: nat)
    requires offset + |page| <= |es| && forall k :: 0 <= k < |page| ==> page[k] == es[offset + k]
    ensures AllDos(es) ==> AllDos(page)
    ensures AllReadable(es) ==> AllReadable(page)
    ensures AllClean(es) ==> AllClean(page)
  {
    hide Dos, Readable, Clean;
  }

  lemma AppendNames(a: seq<Entry>, b: seq<Entry>)
    requires AllReadable(a) && AllReadable(b) && AllClean(a) && AllClean(b)
    ensures AllReadable(a + b) && AllClean(a + b)
  {
    hide Readable, Clean;
  }

  lemma NoPagesLeft(path: string, es: seq<Entry>)
    ensures NoBarredPage(path, es, |es|)
  {
    PageIsStretch(path, es, |es|, PAGE_BUFFER);
    hide Page;
  }

  /** list_dir_all over a directory that stays as it is. With readable and clean names the
      result is the directory's entries in order, each once, up to the end, the cap or a page
      that starts with a bar; and up to the cap it is the whole directory if and only if all
      names are readable and clean and no page starts with a bar. */
  method ListDirAll(path: string, es: seq<Entry>) returns (entries: seq<Entry>)
    requires |path| <= 255 && '|' !in path && Clean(path) && AllDos(es)
    ensures |es| < 1000000 && AllReadable(es) && AllClean(es) ==>
              && |entries| <= |es| && entries == es[..|entries|]
              && (NoBarredPage(path, es, 0) ==> |entries| == |es| || |entries| > SANITY_CAP)
    ensures |es| <= SANITY_CAP ==>
              (entries == es <==> AllReadable(es) && AllClean(es) && NoBarredPage(path, es, 0))
  {
    hide Written, Received, Line, Page, ParseDir, AllReadable, AllClean, AllDos, NoBarredPage;
    entries := [];
    var offset := 0;
    NoEntries();
    while true
      invariant offset == |entries| && AllReadable(entries) && AllClean(entries)
      invariant |es| < 1000000 && AllReadable(es) && AllClean(es) ==> ReadSoFar(path, es, entries)
      decreases SANITY_CAP + 1 - offset
    {
      var sent := Written(path, |es|, Page(path, es, offset, PAGE_BUFFER));
      var msg := ParseDir(Received(sent));
      ReceivedNames(sent);
      AppendNames(entries, msg.entries);
      if |es| < 1000000 && AllReadable(es) && AllClean(es) { ReadsPage(path, es, entries); }
      entries := entries + msg.entries;
      offset := |entries|;
      if msg.entries == [] || offset >= msg.count || offset > 100000 { break; }
    }
    NoPagesLeft(path, es);
  }

  lemma NoEntries()
    ensures AllReadable([]) && AllClean([])
  {
  }

  lemma PageIsStretch(path: string, es: seq<Entry>, startIdx: nat, bufSize: nat)
    requires startIdx <= |es|
    ensures var page := Page(path, es, startIdx, bufSize);
            && startIdx + |page| <= |es|
            && page == es[startIdx..startIdx + |page|]
            && es[..startIdx] + page == es[..startIdx + |page|]
            && forall k :: 0 <= k < |page| ==> page[k] == es[startIdx + k]
  {
    hide PageSize;
  }

  // ------------------------------------------------------------- how much a page holds

  lemma {:induction false} TextsSlice(es: seq<Entry>, k: nat)
    requires k <= |es|
    ensures Texts(es)[..k] == Texts(es[..k])
    decreases |es|
  {
    hide EntryText;
    if k > 0 {
      assert es[..k][0] == es[0] && es[..k][1..] == es[1..][..k - 1];
      TextsSlice(es[1..], k - 1);
    }
  }

  lemma {:induction false} TextsAt(es: seq<Entry>, k: nat)
    requires k < |es|
    ensures Texts(es)[k] == EntryText(es[k])
    decreases |es|
  {
    hide EntryText;
    if k > 0 { TextsAt(es[1..], k - 1); }
  }

  /** A text fits behind those that are there. */
  predicate FitsBehind(base: nat, there: seq<string>, text: string, bufSize: nat) {
    base + |Text.Joined(there, ',')| + |text| + 2 < bufSize - 8
  }

  /** All that fit are taken, and the first that does not ends it. */
  lemma {:induction false} TakenFits(base: nat, there: seq<string>, texts: seq<string>, bufSize: nat)
    ensures var n := Taken(texts, base + |Text.Joined(there, ',')|, there == [], bufSize);
            && (forall k :: 0 <= k < n ==> FitsBehind(base, there + texts[..k], texts[k], bufSize))
            && (n < |texts| ==> !FitsBehind(base, there + texts[..n], texts[n], bufSize))
    decreases |texts|
  {
    hide Text.Joined;
    assert there + texts[..0] == there;
    if texts != [] && FitsBehind(base, there, texts[0], bufSize) {
      var rest, more := texts[1..], there + [texts[0]];
      Text.JoinedSnoc(there, texts[0], ',');
      TakenFits(base, more, rest, bufSize);
      hide FitsBehind;
      var n := Taken(rest, base + |Text.Joined(more, ',')|, false, bufSize);
      forall k | 0 <= k <= n ensures there + texts[..k + 1] == more + rest[..k] {
        assert texts[..k + 1] == [texts[0]] + rest[..k];
      }
      forall k | 0 < k <= n ensures FitsBehind(base, there + texts[..k], texts[k], bufSize) {
        assert there + texts[..(k - 1) + 1] == more + rest[..k - 1] && texts[k] == rest[k - 1];
      }
    }
  }

  /** An entry fits behind those on the page: the header, seven characters for the total, the
      entries with commas between them, and ten characters kept free. */
  predicate EntryFits(path: string, page: seq<Entry>, e: Entry, bufSize: nat) {
    |path| + 5 + 7 + |Text.Joined(Texts(page), ',')| + |EntryText(e)| + 10 < bufSize
  }

  lemma SameFit(path: string, es: seq<Entry>, k: nat, bufSize: nat)
    requires k < |es|
    ensures FitsBehind(|path| + 12, [] + Texts(es)[..k], Texts(es)[k], bufSize) <==>
            EntryFits(path, es[..k], es[k], bufSize)
  {
    hide Texts, EntryText, Text.Joined;
    TextsSlice(es, k);
    TextsAt(es, k);
    assert [] + Texts(es)[..k] == Texts(es[..k]);
  }

  lemma PageIsTaken(path: string, es: seq<Entry>, startIdx: nat, bufSize: nat)
    requires startIdx <= |es|
    ensures var page, rest := Page(path, es, startIdx, bufSize), es[startIdx..];
            && |page| == Taken(Texts(rest), |path| + 12 + |Text.Joined([], ',')|, true, bufSize) <= |rest|
            && page == rest[..|page|] && forall k :: 0 <= k < |page| ==> page[..k] == rest[..k] && page[k] == rest[k]
  {
    hide Texts, Taken;
    var page := Page(path, es, startIdx, bufSize);
    assert page == es[startIdx..][..|page|];
  }

  /** A page holds as many entries as fit: each fits behind those in front of it, and it ends
      with the directory or in front of an entry that does not fit. */
  lemma PageIsMaximal(path: string, es: seq<Entry>, startIdx: nat, bufSize: nat)
    requires startIdx <= |es|
    ensures var page := Page(path, es, startIdx, bufSize);
            && startIdx + |page| <= |es|
            && (forall k :: 0 <= k < |page| ==> EntryFits(path, page[..k], page[k], bufSize))
            && (startIdx + |page| < |es| ==> !EntryFits(path, page, es[startIdx + |page|], bufSize))
  {
    hide *;
    var rest, page := es[startIdx..], Page(path, es, startIdx, bufSize);
    PageIsTaken(path, es, startIdx, bufSize);
    TakenFits(|path| + 12, [], Texts(rest), bufSize);
    forall k | 0 <= k < |page| ensures EntryFits(path, page[..k], page[k], bufSize) {
      SameFit(path, rest, k, bufSize);
    }
    if |page| < |rest| { SameFit(path, rest, |page|, bufSize); }
  }
}
