/** The text transport of `amiforge_tools.py`: escaping, pieces of long text, and the
    reply envelope. */
module TextTransport {
  import Bytes
  import opened Text

  const INLINE_MAX: nat := 2500
  const SLOT_CHUNK: nat := 3000
  const MAX_PAGES: nat := 1000

  // -------------------------------------------------------------------- escaping

  function EscapeChar(c: char, spaces: bool): (s: string)
    ensures s != []
  {
    if c == '\\' then "\\\\"
    else if c == '\n' then "\\n"
    else if c == '\t' then "\\t"
    else if c == '\r' then "\\r"
    else if c == '|' then "\\p"
    else if c == '"' then "\\q"
    else if c == ' ' then (if spaces then "\\s" else " ")
    else if c as int > 0xFF then "?"
    else if c as int < 0x20 || c as int >= 0x7F then ['\\', 'x', HexDigit(c as int / 16), HexDigit(c as int % 16)]
    else [c]
  }

  function Escape(text: string, spaces: bool): string {
    if text == [] then [] else EscapeChar(text[0], spaces) + Escape(text[1..], spaces)
  }

  /** The character a one-letter escape stands for. */
  function Unletter(c: char): (r: string)
    ensures |r| <= 1
  {
    if c == 'n' then "\n" else if c == 't' then "\t" else if c == 'r' then "\r" else if c == 's' then " "
    else if c == 'p' then "|" else if c == 'q' then "\"" else if c == 'e' then [27 as char]
    else if c == '\\' then "\\" else ""
  }

  predicate HexPair(high: char, low: char) {
    HexValue(high) >= 0 && HexValue(low) >= 0
  }

  function HexChar(high: char, low: char): char
    requires HexPair(high, low)
  {
    (HexValue(high) * 16 + HexValue(low)) as char
  }

  /** How many characters the next unit of an escaped text has, and what it stands for. */
  function Unit(s: string): (r: (nat, string))
    requires s != []
    ensures 1 <= r.0 <= |s|
  {
    if s[0] != '\\' || |s| < 2 then (1, [s[0]])
    else if Unletter(s[1]) != [] then (2, Unletter(s[1]))
    else if s[1] == 'x' && |s| > 3 && HexPair(s[2], s[3]) then (4, [HexChar(s[2], s[3])])
    else (2, ['\\', s[1]])
  }

  function Unescape(s: string): string
    decreases |s|
  {
    if s == [] then [] else Unit(s).1 + Unescape(s[Unit(s).0..])
  }

  /** escape. */
  method EscapeText(text: string, spaces: bool) returns (r: string)
    ensures r == Escape(text, spaces)
  {
    hide EscapeChar;
    r := [];
    for i := 0 to |text|
      invariant r + Escape(text[i..], spaces) == Escape(text, spaces)
    {
      EscapeNext(text, i, spaces);
      r := r + EscapeChar(text[i], spaces);
    }
  }

  lemma EscapeNext(text: string, i: nat, spaces: bool)
    requires i < |text|
    ensures Escape(text[i..], spaces) == EscapeChar(text[i], spaces) + Escape(text[i + 1..], spaces)
  {
    hide EscapeChar;
    assert text[i..][1..] == text[i + 1..];
  }

  /** unescape. */
  method UnescapeText(text: string) returns (r: string)
    ensures r == Unescape(text)
  {
    hide Unit, Unescape, Unletter, HexPair, HexValue;
    r := [];
    var i, n := 0, |text|;
    assert text[0..] == text;
    while i < n
      invariant i <= n
      invariant r + Unescape(text[i..]) == Unescape(text)
    {
      UnescapeNext(text, i);
      UnitAt(text, i);
      ghost var u := Unit(text[i..]);
      Bytes.Regroup(r, u.1, Unescape(text[i + u.0..]));
      var c := text[i];
      if c != '\\' || i + 1 >= n {
        r := r + [c];
        i := i + 1;
        continue;
      }
      var nxt := text[i + 1];
      if Unletter(nxt) != [] {
        r := r + Unletter(nxt);
        i := i + 2;
      } else if nxt == 'x' && i + 3 < n && HexPair(text[i + 2], text[i + 3]) {
        r := r + [HexChar(text[i + 2], text[i + 3])];
        i := i + 4;
      } else {
        r := r + ['\\', nxt];
        i := i + 2;
      }
    }
    assert text[i..] == [];
    UnescapeNothing();
  }

  lemma UnescapeNothing()
    ensures Unescape([]) == []
  {
  }

  lemma UnescapeNext(text: string, i: nat)
    requires i < |text|
    ensures var u := Unit(text[i..]); Unescape(text[i..]) == u.1 + Unescape(text[i + u.0..])
  {
    hide Unit;
    var u := Unit(text[i..]);
    assert text[i..][u.0..] == text[i + u.0..];
  }

  lemma UnitAt(text: string, i: nat)
    requires i < |text|
    ensures Unit(text[i..]) ==
            if text[i] != '\\' || i + 1 >= |text| then (1, [text[i]])
            else if Unletter(text[i + 1]) != [] then (2, Unletter(text[i + 1]))
            else if text[i + 1] == 'x' && i + 3 < |text| && HexPair(text[i + 2], text[i + 3])
              then (4, [HexChar(text[i + 2], text[i + 3])])
            else (2, ['\\', text[i + 1]])
  {
    hide Unletter, HexPair, HexChar;
    assert i + 1 < |text| ==> text[i..][1] == text[i + 1];
    assert i + 3 < |text| ==> text[i..][2] == text[i + 2] && text[i..][3] == text[i + 3];
  }

  predicate Latin1(text: string) {
    forall k :: 0 <= k < |text| ==> text[k] as int <= 0xFF
  }

  /** What is left of a text after a trip: characters outside Latin-1 become `?`. */
  function Latin(c: char): char { if c as int > 0xFF then '?' else c }

  function Replaced(text: string): (r: string)
    ensures |r| == |text| && forall k :: 0 <= k < |text| ==> r[k] == Latin(text[k])
  {
    if text == [] then [] else [Latin(text[0])] + Replaced(text[1..])
  }

  lemma HexReads(o: nat)
    requires o < 0x100
    ensures HexValue(HexDigit(o / 16)) == o / 16 && HexValue(HexDigit(o % 16)) == o % 16
  {
  }

  /** One escaped character is one unit, whatever follows it. */
  lemma UnitOfChar(c: char, spaces: bool, rest: string)
    ensures var s := EscapeChar(c, spaces) + rest;
            s != [] && Unit(s) == (|EscapeChar(c, spaces)|, [Latin(c)])
  {
    var e := EscapeChar(c, spaces);
    var s := e + rest;
    if c as int <= 0xFF { HexReads(c as int); }
  }

  lemma {:induction false} UnescapeOfEscape(text: string, spaces: bool)
    ensures Unescape(Escape(text, spaces)) == Replaced(text)
  {
    hide EscapeChar, Unit;
    if text != [] {
      var e, rest := EscapeChar(text[0], spaces), Escape(text[1..], spaces);
      UnitOfChar(text[0], spaces, rest);
      UnescapeOfEscape(text[1..], spaces);
      assert (e + rest)[|e|..] == rest;
    }
  }

  /** A text survives escaping and unescaping exactly when it is Latin-1. */
  lemma RoundTrip(text: string, spaces: bool)
    ensures Unescape(Escape(text, spaces)) == text <==> Latin1(text)
  {
    UnescapeOfEscape(text, spaces);
    if Latin1(text) {
      assert Replaced(text) == text;
    } else {
      var k :| 0 <= k < |text| && text[k] as int > 0xFF;
      assert Replaced(text)[k] != text[k];
    }
  }

  /** Safe in the line protocol: printable, no bar, quote or line break. */
  predicate Safe(c: char, spaces: bool) {
    ' ' <= c <= '~' && c != '|' && c != '"' && (spaces ==> c != ' ')
  }

  lemma {:induction false} EscapeIsSafe(text: string, spaces: bool)
    ensures forall k :: 0 <= k < |Escape(text, spaces)| ==> Safe(Escape(text, spaces)[k], spaces)
  {
    if text != [] {
      assert forall k :: 0 <= k < |EscapeChar(text[0], spaces)| ==> Safe(EscapeChar(text[0], spaces)[k], spaces);
      hide EscapeChar, Safe;
      EscapeIsSafe(text[1..], spaces);
    }
  }

  // ------------------------------------------------------------------- slot marks

  /** Whether a backslash is followed by an at sign somewhere. */
  predicate HasMark(s: string) {
    |s| >= 2 && ((s[0] == '\\' && s[1] == '@') || HasMark(s[1..]))
  }

  lemma {:induction false} MarkAcross(a: string, b: string)
    requires a != []
    ensures HasMark(a + b) <==> HasMark(a) || HasMark(b) || (a[|a| - 1] == '\\' && b != [] && b[0] == '@')
    decreases |a|
  {
    if |a| > 1 {
      MarkAcross(a[1..], b);
      assert (a + b)[1..] == a[1..] + b;
    } else {
      assert (a + b)[1..] == b;
    }
  }

  lemma CharHasNoMark(c: char, spaces: bool)
    ensures var e := EscapeChar(c, spaces);
            && !HasMark(e) && (e[|e| - 1] == '\\' <==> c == '\\') && (e[0] == '@' <==> c == '@')
            && (|e| > 1 ==> e[1] != '@')
  {
    var e := EscapeChar(c, spaces);
    assert |e| == 2 ==> !HasMark(e[1..]);
    if |e| == 4 {
      HexReads(c as int);
      assert HexValue('\\') == -1 && HexValue('@') == -1;
      assert !HasMark(e[1..][1..][1..]) && !HasMark(e[1..][1..]) && !HasMark(e[1..]);
    }
  }

  /** The two characters of a slot mark appear in an escaped text exactly when the text
      itself has a backslash before an at sign; the first two characters of an escaped
      text never are a mark, so it is never taken for a slot. */
  lemma {:induction false} MarksInEscape(text: string, spaces: bool)
    ensures HasMark(Escape(text, spaces)) <==> HasMark(text)
    ensures |Escape(text, spaces)| >= 2 ==> Escape(text, spaces)[..2] != "\\@"
  {
    hide EscapeChar;
    if text != [] {
      CharHasNoMark(text[0], spaces);
      MarksInEscape(text[1..], spaces);
      var e, rest := EscapeChar(text[0], spaces), Escape(text[1..], spaces);
      MarkAcross(e, rest);
      if |text| > 1 { CharHasNoMark(text[1], spaces); }
      EscapeStart(text[0], spaces);
      assert |e + rest| >= 2 ==> (e + rest)[..2][0] == e[0] && (|e| > 1 ==> (e + rest)[..2][1] == e[1]);
    }
  }

  lemma EscapeStart(c: char, spaces: bool)
    ensures EscapeChar(c, spaces)[0] == '\\' ==> |EscapeChar(c, spaces)| > 1
  {
  }

  // -------------------------------------------------------------- pieces of long text

  function Concat(parts: seq<string>): string {
    if parts == [] then [] else parts[0] + Concat(parts[1..])
  }

  lemma {:induction false} ConcatSnoc(parts: seq<string>, last: string)
    ensures Concat(parts + [last]) == Concat(parts) + last
    decreases |parts|
  {
    if parts != [] {
      assert (parts + [last])[1..] == parts[1..] + [last];
      ConcatSnoc(parts[1..], last);
    }
  }

  /** How many characters _TOKEN matches at the front of a text. */
  function TokenLength(s: string): (n: nat)
    requires s != []
    ensures 1 <= n <= |s|
  {
    if s[0] == '\\' && |s| >= 4 && s[1] == 'x' && HexPair(s[2], s[3]) then 4
    else if s[0] == '\\' && |s| >= 2 then 2
    else 1
  }

  /** _TOKEN.findall. */
  function Tokens(s: string): seq<string>
    decreases |s|
  {
    if s == [] then [] else [s[..TokenLength(s)]] + Tokens(s[TokenLength(s)..])
  }

  lemma {:induction false} TokensCoverText(s: string)
    ensures Concat(Tokens(s)) == s
    decreases |s|
  {
    hide TokenLength;
    if s != [] { TokensCoverText(s[TokenLength(s)..]); }
  }

  lemma TokenOfChar(c: char, spaces: bool, rest: string)
    ensures TokenLength(EscapeChar(c, spaces) + rest) == |EscapeChar(c, spaces)|
  {
    if c as int <= 0xFF { HexReads(c as int); }
  }

  function EscapedChars(text: string): seq<string> {
    if text == [] then [] else [EscapeChar(text[0], true)] + EscapedChars(text[1..])
  }

  /** The tokens of an escaped text are its escaped characters. */
  lemma {:induction false} TokensOfEscape(text: string)
    ensures Tokens(Escape(text, true)) == EscapedChars(text)
  {
    hide EscapeChar, TokenLength;
    if text != [] {
      var e, rest := EscapeChar(text[0], true), Escape(text[1..], true);
      TokenOfChar(text[0], true, rest);
      TokensOfEscape(text[1..]);
      assert (e + rest)[..|e|] == e && (e + rest)[|e|..] == rest;
    }
  }

  /** A cut of the text into stretches, each as long as it can be while its escaped form
      has at most SLOT_CHUNK characters; cur is the stretch being filled. */
  function Stretches(text: string, cur: string): seq<string>
    decreases |text|
  {
    if text == [] then (if cur == [] then [] else [cur])
    else if |Escape(cur, true)| + |EscapeChar(text[0], true)| > SLOT_CHUNK then [cur] + Stretches(text[1..], [text[0]])
    else Stretches(text[1..], cur + [text[0]])
  }

  function EscapeAll(parts: seq<string>): (r: seq<string>)
    ensures |r| == |parts| && forall k :: 0 <= k < |parts| ==> r[k] == Escape(parts[k], true)
  {
    if parts == [] then [] else [Escape(parts[0], true)] + EscapeAll(parts[1..])
  }

  lemma {:induction false} EscapeAppend(a: string, b: string, spaces: bool)
    ensures Escape(a + b, spaces) == Escape(a, spaces) + Escape(b, spaces)
    decreases |a|
  {
    hide EscapeChar;
    if a == [] {
      assert a + b == b;
    } else {
      assert (a + b)[1..] == a[1..] + b;
      EscapeAppend(a[1..], b, spaces);
    }
  }

  lemma EscapeOne(c: char)
    ensures Escape([c], true) == EscapeChar(c, true) && |EscapeChar(c, true)| <= 4
  {
    assert Escape([c][1..], true) == [];
  }

  /** The cut loses nothing, and every stretch is nonempty and fits a piece. */
  lemma {:induction false} StretchesCoverText(text: string, cur: string)
    requires |Escape(cur, true)| <= SLOT_CHUNK
    requires cur == [] ==> text == [] || |Escape(cur, true)| + |EscapeChar(text[0], true)| <= SLOT_CHUNK
    ensures Concat(Stretches(text, cur)) == cur + text
    ensures forall k :: 0 <= k < |Stretches(text, cur)| ==>
              Stretches(text, cur)[k] != [] && |Escape(Stretches(text, cur)[k], true)| <= SLOT_CHUNK
    decreases |text|
  {
    hide EscapeChar, Escape;
    if text == [] {
      assert Concat([cur]) == cur + Concat([]);
    } else {
      EscapeOne(text[0]);
      EscapeAppend(cur, [text[0]], true);
      var rest := text[1..];
      assert text == [text[0]] + rest;
      if |Escape(cur, true)| + |EscapeChar(text[0], true)| > SLOT_CHUNK {
        StretchesCoverText(rest, [text[0]]);
        assert Stretches(text, cur) == [cur] + Stretches(rest, [text[0]]);
      } else {
        StretchesCoverText(rest, cur + [text[0]]);
      }
    }
  }

  datatype Command = Buffer(slot: nat, clear: bool, text: string)

  datatype Argument = Inline(text: string) | InSlot(commands: seq<Command>, mark: string) | NotLatin1

  /** One MCPBUF command a piece; the first clears the slot. */
  function Commands(pieces: seq<string>, slot: nat): (r: seq<Command>)
    ensures |r| == |pieces| && forall k :: 0 <= k < |pieces| ==> r[k] == Buffer(slot, k == 0, pieces[k])
  {
    if pieces == [] then []
    else Commands(pieces[..|pieces| - 1], slot) + [Buffer(slot, |pieces| == 1, pieces[|pieces| - 1])]
  }

  /** _put_text, as the value it returns and the commands it sends. */
  function PutText(text: string, slot: nat): Argument {
    if !Latin1(text) then NotLatin1
    else if |Escape(text, true)| <= INLINE_MAX then Inline(Escape(text, true))
    else InSlot(Commands(EscapeAll(Stretches(text, [])), slot), "\\@" + Print(slot))
  }

  method IsLatin1(text: string) returns (r: bool)
    ensures r == Latin1(text)
  {
    for i := 0 to |text|
      invariant Latin1(text[..i])
    {
      if text[i] as int > 0xFF { return false; }
    }
    return true;
  }

  method SendText(text: string, slot: nat) returns (r: Argument)
    ensures r == PutText(text, slot)
  {
    hide EscapeChar, Escape, Stretches, EscapeAll, Print, Latin1;
    var latin := IsLatin1(text);
    if !latin { return NotLatin1; }
    var esc := EscapeText(text, true);
    if |esc| <= INLINE_MAX { return Inline(esc); }
    var pieces := CutPieces(text, esc);
    var commands: seq<Command> := [];
    for i := 0 to |pieces|
      invariant commands == Commands(pieces[..i], slot)
    {
      assert pieces[..i + 1][..i] == pieces[..i];
      commands := commands + [Buffer(slot, i == 0, pieces[i])];
    }
    assert pieces[..|pieces|] == pieces;
    return InSlot(commands, "\\@" + Print(slot));
  }

  /** One token more, in the cut that is left to do. */
  lemma StretchStep(text: string, i: nat, stretch: string, done: seq<string>)
    requires i < |text|
    ensures var c := text[i];
            done + Stretches(text[i..], stretch) ==
            if |Escape(stretch, true)| + |EscapeChar(c, true)| > SLOT_CHUNK
            then done + [stretch] + Stretches(text[i + 1..], [c])
            else done + Stretches(text[i + 1..], stretch + [c])
  {
    hide Escape, EscapeChar;
    assert text[i..][0] == text[i] && text[i..][1..] == text[i + 1..];
  }

  lemma StretchesDone(text: string, stretch: string, done: seq<string>)
    ensures done + Stretches(text[|text|..], stretch) == if stretch == [] then done else done + [stretch]
  {
    assert text[|text|..] == [];
  }

  /** The loop over the tokens, which never splits an escape. */
  method CutPieces(ghost text: string, esc: string) returns (pieces: seq<string>)
    requires esc == Escape(text, true)
    ensures pieces == EscapeAll(Stretches(text, []))
  {
    hide *;
    var toks := Tokens(esc);
    TokensOfEscape(text);
    EscapedCharsAt(text);
    pieces := [];
    var cur, size := [], 0;
    ghost var stretch: string, done: seq<string> := [], [];
    EscapeNone();
    assert text[0..] == text;
    for i := 0 to |toks|
      invariant size == |cur| && cur == Escape(stretch, true)
      invariant pieces == EscapeAll(done)
      invariant done + Stretches(text[i..], stretch) == Stretches(text, [])
    {
      var tok := toks[i];
      EscapeOne(text[i]);
      EscapeAppend(stretch, [text[i]], true);
      StretchStep(text, i, stretch, done);
      if size + |tok| > SLOT_CHUNK {
        pieces := pieces + [cur];
        EscapeAllSnoc(done, stretch);
        done := done + [stretch];
        cur, size := [], 0;
        stretch := [];
        assert [] + [text[i]] == [text[i]] && [] + tok == tok;
      }
      cur := cur + tok;
      size := size + |tok|;
      stretch := stretch + [text[i]];
    }
    EscapeNonempty(stretch);
    StretchesDone(text, stretch, done);
    if cur != [] {
      pieces := pieces + [cur];
      EscapeAllSnoc(done, stretch);
    }
  }

  lemma EscapeNone()
    ensures Escape([], true) == [] && EscapeAll([]) == []
  {
  }

  lemma EscapeNonempty(s: string)
    ensures Escape(s, true) == [] <==> s == []
  {
  }

  lemma {:induction false} EscapedCharsAt(text: string)
    ensures |EscapedChars(text)| == |text|
    ensures forall k :: 0 <= k < |text| ==> EscapedChars(text)[k] == EscapeChar(text[k], true)
  {
    hide EscapeChar;
    if text != [] { EscapedCharsAt(text[1..]); }
  }

  lemma {:induction false} EscapeAllSnoc(parts: seq<string>, last: string)
    ensures EscapeAll(parts + [last]) == EscapeAll(parts) + [Escape(last, true)]
    decreases |parts|
  {
    hide Escape;
    if parts != [] {
      assert (parts + [last])[1..] == parts[1..] + [last];
      EscapeAllSnoc(parts[1..], last);
    }
  }

  /** A slot after a list of MCPBUF commands. */
  function SlotAfter(commands: seq<Command>, before: string): string
    decreases |commands|
  {
    if commands == [] then before
    else SlotAfter(commands[1..], (if commands[0].clear then [] else before) + Unescape(commands[0].text))
  }

  lemma {:induction false} SlotFills(commands: seq<Command>, stretches: seq<string>, before: string)
    requires |commands| == |stretches|
    requires forall k :: 0 <= k < |commands| ==> !commands[k].clear && Unescape(commands[k].text) == stretches[k]
    ensures SlotAfter(commands, before) == before + Concat(stretches)
    decreases |commands|
  {
    if commands != [] { SlotFills(commands[1..], stretches[1..], before + stretches[0]); }
  }

  lemma {:induction false} StretchesAreLatin1(stretches: seq<string>)
    requires Latin1(Concat(stretches))
    ensures forall k :: 0 <= k < |stretches| ==> Latin1(stretches[k])
    decreases |stretches|
  {
    if stretches != [] {
      var all, first, rest := Concat(stretches), stretches[0], Concat(stretches[1..]);
      assert forall k :: 0 <= k < |first| ==> first[k] == all[k];
      assert forall k :: 0 <= k < |rest| ==> rest[k] == all[|first| + k];
      StretchesAreLatin1(stretches[1..]);
    }
  }

  /** Long text: every piece is nonempty and at most SLOT_CHUNK long, the pieces make up
      the escaped text, none cuts an escape, and whatever the slot held before, it holds
      the text after the commands. */
  lemma LongTextArrives(text: string, slot: nat, before: string)
    requires Latin1(text) && |Escape(text, true)| > INLINE_MAX
    ensures var arg := PutText(text, slot);
            && arg.InSlot?
            && (forall k :: 0 <= k < |arg.commands| ==> 1 <= |arg.commands[k].text| <= SLOT_CHUNK)
            && SlotAfter(arg.commands, before) == text
            && arg.mark == "\\@" + Print(slot)
            && (forall k :: 0 <= k < |arg.commands| ==>
                  arg.commands[k].slot == slot && (arg.commands[k].clear <==> k == 0))
    ensures Concat(EscapeAll(Stretches(text, []))) == Escape(text, true)
  {
    hide EscapeChar, Escape, Unescape, Print;
    var stretches := Stretches(text, []);
    EscapeNone();
    if text != [] { EscapeOne(text[0]); }
    StretchesCoverText(text, []);
    StretchesAreLatin1(stretches);
    ConcatEscapes(stretches);
    var pieces := EscapeAll(stretches);
    var commands := Commands(pieces, slot);
    forall k | 0 <= k < |stretches|
      ensures Unescape(commands[k].text) == stretches[k] && 1 <= |commands[k].text| <= SLOT_CHUNK
    {
      RoundTrip(stretches[k], true);
      EscapeNonempty(stretches[k]);
    }
    assert stretches != [];
    hide Stretches, Concat, SlotAfter, Commands, EscapeAll, Latin1;
    SlotHolds(commands, stretches, before);
  }

  lemma SlotHolds(commands: seq<Command>, stretches: seq<string>, before: string)
    requires |commands| == |stretches| > 0
    requires forall k :: 0 <= k < |commands| ==>
               commands[k].clear == (k == 0) && Unescape(commands[k].text) == stretches[k]
    ensures SlotAfter(commands, before) == Concat(stretches)
  {
    hide Unescape;
    assert commands[0].clear && [] + stretches[0] == stretches[0];
    SlotFills(commands[1..], stretches[1..], stretches[0]);
  }

  lemma {:induction false} ConcatEscapes(stretches: seq<string>)
    ensures Concat(EscapeAll(stretches)) == Escape(Concat(stretches), true)
    decreases |stretches|
  {
    hide Escape;
    if stretches == [] {
      EscapeNone();
    } else {
      EscapeAppend(stretches[0], Concat(stretches[1..]), true);
      ConcatEscapes(stretches[1..]);
    }
  }

  /** Short text goes as it is. */
  lemma ShortTextArrives(text: string, slot: nat)
    requires Latin1(text) && |Escape(text, true)| <= INLINE_MAX
    ensures PutText(text, slot).Inline? && Unescape(PutText(text, slot).text) == text
  {
    RoundTrip(text, true);
  }

  // -------------------------------------------------------------- the reply envelope

  datatype Reply = Reply(rc: int, more: nat, payload: string) | NoEnvelope | Malformed

  /** Python's str.split with at most n cuts. */
  function SplitMax(s: string, sep: char, n: nat): (parts: seq<string>)
    ensures 1 <= |parts| <= n + 1
    decreases n, |s|
  {
    if n == 0 || sep !in s then [s]
    else if s[0] == sep then [[]] + SplitMax(s[1..], sep, n - 1)
    else
      var rest := SplitMax(s[1..], sep, n);
      [[s[0]] + rest[0]] + rest[1..]
  }

  /** int, on a decimal number with an optional sign. */
  function ParseInt(s: string): Option<int> {
    if s != [] && AllDigits(s) then Some(Parse(s))
    else if |s| > 1 && s[0] == '-' && AllDigits(s[1..]) then Some(0 - Parse(s[1..]))
    else if |s| > 1 && s[0] == '+' && AllDigits(s[1..]) then Some(Parse(s[1..]))
    else None
  }

  function Blanks(n: nat): (s: string)
    ensures |s| == n && forall k :: 0 <= k < n ==> s[k] == ' '
  {
    if n == 0 then [] else [' '] + Blanks(n - 1)
  }

  /** The body at its announced length; blanks the transport stripped are put back. */
  function Restore(body: string, length: nat): (s: string)
    ensures |s| == length
  {
    if |body| < length then body + Blanks(length - |body|) else body[..length]
  }

  /** parse_envelope. */
  function ParseEnvelope(line: string): Reply {
    if !("AF1 " <= line) then NoEnvelope
    else
      var parts := SplitMax(line[4..], ' ', 3);
      if |parts| < 3 then Malformed
      else
        var rc, more, length := ParseInt(parts[0]), ParseInt(parts[1]), ParseInt(parts[2]);
        if rc.None? || more.None? || length.None? || more.value < 0 || length.value < 0 then Malformed
        else
          var body := if |parts| > 3 then parts[3] else "";
          Reply(rc.value, more.value, Unescape(Restore(body, length.value)))
  }

  /** A reply as AmiForge writes it: AF1, the code, how much is left, the length of the
      escaped payload and the escaped payload. */
  function Envelope(rc: int, more: nat, escaped: string): string {
    "AF1 " + (PrintSigned(rc) + [' '] + (Print(more) + [' '] + (Print(|escaped|) + [' '] + escaped)))
  }

  lemma ParseIntOfPrint(n: int)
    ensures ParseInt(PrintSigned(n)) == Some(n)
    ensures ' ' !in PrintSigned(n)
  {
    ParseOfPrint(if n < 0 then -n else n);
    if n < 0 {
      assert PrintSigned(n)[1..] == Print(-n);
      assert !IsDigit(PrintSigned(n)[0]);
    }
  }

  lemma {:induction false} SplitMaxFront(s: string, rest: string, sep: char, n: nat)
    requires sep !in s && n > 0
    ensures SplitMax(s + [sep] + rest, sep, n) == [s] + SplitMax(rest, sep, n - 1)
    decreases |s|
  {
    var all := s + [sep] + rest;
    assert all[|s|] == sep;
    if s == [] {
      assert all[1..] == rest;
    } else {
      SplitMaxFront(s[1..], rest, sep, n);
      assert all[1..] == s[1..] + [sep] + rest;
      assert [s[0]] + s[1..] == s;
    }
  }

  /** A stripped body is restored: all that was lost is blanks. */
  lemma RestoreStripped(escaped: string, k: nat)
    requires k <= |escaped| && forall j :: k <= j < |escaped| ==> escaped[j] == ' '
    ensures Restore(escaped[..k], |escaped|) == escaped
  {
  }

  /** The line after the transport has stripped any number of trailing blanks from it. */
  predicate Stripped(line: string, got: string) {
    got <= line && forall j :: |got| <= j < |line| ==> line[j] == ' '
  }

  /** Where the stripping can stop: inside the payload, or just before the last
      separator. */
  lemma StripStops(front: string, escaped: string, got: string)
    requires front != [] && front[|front| - 1] != ' ' && Stripped(front + [' '] + escaped, got)
    ensures got == front || (exists k: nat :: k <= |escaped| && got == front + [' '] + escaped[..k]
                              && forall j :: k <= j < |escaped| ==> escaped[j] == ' ')
  {
    var line := front + [' '] + escaped;
    assert line[|front| - 1] == front[|front| - 1] && |got| >= |front|;
    if |got| == |front| {
      assert got == line[..|front|] == front;
    } else {
      var k := |got| - |front| - 1;
      assert got == line[..|got|] == front + [' '] + escaped[..k];
      forall j | k <= j < |escaped| ensures escaped[j] == ' ' {
        assert line[|front| + 1 + j] == escaped[j];
      }
    }
  }

  /** A digit ends every number. */
  lemma PrintEnds(n: nat)
    ensures Print(n)[|Print(n)| - 1] != ' ' && ' ' !in Print(n)
  {
  }

  lemma NumbersAreRead(a: string, b: string, c: string, tail: seq<string>, line: string,
                       rc: int, more: nat, length: nat)
    requires "AF1 " <= line && SplitMax(line[4..], ' ', 3) == [a] + ([b] + ([c] + tail))
    requires ParseInt(a) == Some(rc) && ParseInt(b) == Some(more) && ParseInt(c) == Some(length)
    ensures ParseEnvelope(line) == Reply(rc, more, Unescape(Restore(if tail == [] then "" else tail[0], length)))
  {
    hide SplitMax, ParseInt, Unescape, Restore;
  }

  /** The fields in front of the payload, and the numbers they spell. */
  predicate Fields(rc: int, more: nat, length: nat, a: string, b: string, c: string) {
    && ' ' !in a && ' ' !in b && ' ' !in c && c != [] && c[|c| - 1] != ' '
    && ParseInt(a) == Some(rc) && ParseInt(b) == Some(more) && ParseInt(c) == Some(length)
  }

  lemma FieldsOf(rc: int, more: nat, length: nat)
    ensures Fields(rc, more, length, PrintSigned(rc), Print(more), Print(length))
  {
    ParseIntOfPrint(rc);
    ParseIntOfPrint(more);
    ParseIntOfPrint(length);
    assert PrintSigned(more) == Print(more) && PrintSigned(length) == Print(length);
    PrintEnds(length);
    hide Print, PrintSigned, ParseInt;
  }

  function FrontOf(a: string, b: string, c: string): string { "AF1 " + (a + [' '] + (b + [' '] + c)) }

  lemma EnvelopeParts(rc: int, more: nat, escaped: string)
    ensures Envelope(rc, more, escaped) ==
            FrontOf(PrintSigned(rc), Print(more), Print(|escaped|)) + [' '] + escaped
  {
    hide PrintSigned, Print;
  }

  lemma FrontEnds(a: string, b: string, c: string)
    requires c != []
    ensures FrontOf(a, b, c) != [] && FrontOf(a, b, c)[|FrontOf(a, b, c)| - 1] == c[|c| - 1]
    ensures "AF1 " <= FrontOf(a, b, c) && FrontOf(a, b, c)[4..] == a + [' '] + (b + [' '] + c)
  {
  }

  lemma BodyFollows(a: string, b: string, c: string, body: string)
    ensures var line := FrontOf(a, b, c) + [' '] + body;
            "AF1 " <= line && line[4..] == a + [' '] + (b + [' '] + (c + [' '] + body))
  {
  }

  /** All of the payload was blanks, and was stripped. */
  lemma FrontParses(rc: int, more: nat, escaped: string, a: string, b: string, c: string)
    requires Fields(rc, more, |escaped|, a, b, c) && forall j :: 0 <= j < |escaped| ==> escaped[j] == ' '
    ensures ParseEnvelope(FrontOf(a, b, c)) == Reply(rc, more, Unescape(escaped))
  {
    FrontEnds(a, b, c);
    hide ParseEnvelope, ParseInt, Restore, Unescape, SplitMax, FrontOf;
    FrontIsRead(a, b, c);
    RestoreStripped(escaped, 0);
    assert escaped[..0] == "";
    NumbersAreRead(a, b, c, [], FrontOf(a, b, c), rc, more, |escaped|);
  }

  lemma BodyParses(rc: int, more: nat, escaped: string, k: nat, a: string, b: string, c: string)
    requires Fields(rc, more, |escaped|, a, b, c)
    requires k <= |escaped| && forall j :: k <= j < |escaped| ==> escaped[j] == ' '
    ensures ParseEnvelope(FrontOf(a, b, c) + [' '] + escaped[..k]) == Reply(rc, more, Unescape(escaped))
  {
    BodyFollows(a, b, c, escaped[..k]);
    hide ParseEnvelope, ParseInt, Restore, Unescape, SplitMax, FrontOf;
    BodyIsRead(a, b, c, escaped[..k]);
    RestoreStripped(escaped, k);
    NumbersAreRead(a, b, c, [escaped[..k]], FrontOf(a, b, c) + [' '] + escaped[..k], rc, more, |escaped|);
  }

  /** Parsing inverts the envelope for every code, count and escaped payload, however
      many trailing blanks were stripped from the line. */
  lemma EnvelopeRoundTrip(rc: int, more: nat, escaped: string, got: string)
    requires Stripped(Envelope(rc, more, escaped), got)
    ensures ParseEnvelope(got) == Reply(rc, more, Unescape(escaped))
  {
    var a, b, c := PrintSigned(rc), Print(more), Print(|escaped|);
    var front := FrontOf(a, b, c);
    hide PrintSigned, Print, ParseEnvelope, ParseInt, Unescape, FrontOf, Stripped, Envelope;
    FieldsOf(rc, more, |escaped|);
    EnvelopeParts(rc, more, escaped);
    FrontEnds(a, b, c);
    StripStops(front, escaped, got);
    if got == front {
      FrontOnly(front, escaped, got);
      FrontParses(rc, more, escaped, a, b, c);
    } else {
      var k: nat :| k <= |escaped| && got == front + [' '] + escaped[..k]
                    && forall j :: k <= j < |escaped| ==> escaped[j] == ' ';
      BodyParses(rc, more, escaped, k, a, b, c);
    }
  }

  lemma FrontOnly(front: string, escaped: string, got: string)
    requires Stripped(front + [' '] + escaped, got) && got == front
    ensures forall j :: 0 <= j < |escaped| ==> escaped[j] == ' '
  {
    forall j | 0 <= j < |escaped| ensures escaped[j] == ' ' {
      assert (front + [' '] + escaped)[|front| + 1 + j] == escaped[j];
    }
  }

  lemma FrontIsRead(a: string, b: string, c: string)
    requires ' ' !in a && ' ' !in b && ' ' !in c
    ensures SplitMax(a + [' '] + (b + [' '] + c), ' ', 3) == [a] + ([b] + ([c] + []))
  {
    SplitMaxFront(a, b + [' '] + c, ' ', 3);
    SplitMaxFront(b, c, ' ', 2);
  }

  lemma BodyIsRead(a: string, b: string, c: string, body: string)
    requires ' ' !in a && ' ' !in b && ' ' !in c
    ensures SplitMax(a + [' '] + (b + [' '] + (c + [' '] + body)), ' ', 3) == [a] + ([b] + ([c] + [body]))
  {
    SplitMaxFront(a, b + [' '] + (c + [' '] + body), ' ', 3);
    SplitMaxFront(b, c + [' '] + body, ' ', 2);
    SplitMaxFront(c, body, ' ', 1);
  }

  /** A Latin-1 payload comes out of its reply as it went in. */
  lemma PayloadArrives(rc: int, more: nat, payload: string, spaces: bool, got: string)
    requires Latin1(payload) && Stripped(Envelope(rc, more, Escape(payload, spaces)), got)
    ensures ParseEnvelope(got) == Reply(rc, more, payload)
  {
    hide Stripped, Envelope, ParseEnvelope, Escape, Unescape;
    EnvelopeRoundTrip(rc, more, Escape(payload, spaces), got);
    RoundTrip(payload, spaces);
  }

  // ------------------------------------------------------------------ paged replies

  /** What the bridge returns for one ARexx command. */
  datatype Answer = Answer(rc: int, line: string)

  datatype Outcome = Done(payload: string) | Failed(rc: int, message: string)

  function Finish(rc: int, payload: string): Outcome {
    if rc != 0 then Failed(rc, if payload != [] then payload else "command failed (RC " + PrintSigned(rc) + ")")
    else Done(payload)
  }

  const BROKEN: Outcome := Failed(0, "")

  /** The MCPMORE loop: `more` is what the last page announced, `pages` how many were
      fetched. */
  function FetchMore(answers: seq<Answer>, rc: int, more: nat, pages: nat, got: string): Outcome
    decreases |answers|
  {
    if more == 0 then Finish(rc, got)
    else if answers == [] || answers[0].rc != 0 then BROKEN
    else
      var page := ParseEnvelope(answers[0].line);
      if !page.Reply? || pages + 1 > MAX_PAGES || (page.payload == [] && page.more > 0) then BROKEN
      else FetchMore(answers[1..], rc, page.more, pages + 1, got + page.payload)
  }

  function Call(answers: seq<Answer>): Outcome {
    if answers == [] || answers[0].rc != 0 || !ParseEnvelope(answers[0].line).Reply? then BROKEN
    else
      var page := ParseEnvelope(answers[0].line);
      FetchMore(answers[1..], page.rc, page.more, 0, page.payload)
  }

  /** _call_unlocked, over the answers the bridge gives in turn; a missing answer is a
      timeout. */
  method CallUnlocked(answers: seq<Answer>) returns (r: Outcome)
    ensures r == Call(answers)
  {
    hide ParseEnvelope;
    if answers == [] || answers[0].rc != 0 { return BROKEN; }
    var first := ParseEnvelope(answers[0].line);
    if !first.Reply? { return BROKEN; }
    var parts, more, pages := [first.payload], first.more, 0;
    var k := 1;
    assert [first.payload][1..] == [];
    assert Concat(parts) == first.payload;
    while more > 0
      invariant 1 <= k <= |answers|
      invariant FetchMore(answers[k..], first.rc, more, pages, Concat(parts)) == Call(answers)
      decreases |answers| - k
    {
      if k == |answers| || answers[k].rc != 0 { return BROKEN; }
      var page := ParseEnvelope(answers[k].line);
      if !page.Reply? { return BROKEN; }
      assert answers[k..][1..] == answers[k + 1..];
      more, pages, k := page.more, pages + 1, k + 1;
      if pages > MAX_PAGES || (page.payload == [] && more > 0) { return BROKEN; }
      ConcatSnoc(parts, page.payload);
      parts := parts + [page.payload];
    }
    return Finish(first.rc, Concat(parts));
  }

  /** Answers that carry the pages of one payload: only the last says nothing is left,
      and no page between the first and the last is empty. */
  predicate Carries(answers: seq<Answer>, pages: seq<string>) {
    && |answers| == |pages|
    && forall k :: 0 <= k < |answers| ==>
         var page := ParseEnvelope(answers[k].line);
         && answers[k].rc == 0 && page.Reply? && page.payload == pages[k]
         && (page.more > 0 <==> k < |answers| - 1)
         && (k < |answers| - 1 ==> pages[k] != [])
  }

  lemma {:induction false} FetchedPages(answers: seq<Answer>, pages: seq<string>,
                                        rc: int, more: nat, n: nat, got: string)
    requires Carries(answers, pages) && (more > 0 <==> answers != [])
    ensures FetchMore(answers, rc, more, n, got) ==
            if n + |pages| <= MAX_PAGES || pages == [] then Finish(rc, got + Concat(pages)) else BROKEN
    decreases |answers|
  {
    hide ParseEnvelope;
    if answers != [] {
      var page := ParseEnvelope(answers[0].line);
      FetchedPages(answers[1..], pages[1..], rc, page.more, n + 1, got + page.payload);
      Bytes.Regroup(got, pages[0], Concat(pages[1..]));
    } else {
      assert got + [] == got;
    }
  }

  /** A reply in pages comes back whole exactly when it has at most 1001 of them. */
  lemma PagesArrive(first: Answer, rest: seq<Answer>, pages: seq<string>)
    requires first.rc == 0 && ParseEnvelope(first.line).Reply?
    requires ParseEnvelope(first.line).more > 0 <==> rest != []
    requires Carries(rest, pages)
    ensures var page := ParseEnvelope(first.line);
            Call([first] + rest) ==
            if |pages| <= MAX_PAGES then Finish(page.rc, page.payload + Concat(pages)) else BROKEN
  {
    hide ParseEnvelope, Carries;
    var page := ParseEnvelope(first.line);
    assert ([first] + rest)[1..] == rest;
    assert |rest| == |pages| by { SameLength(rest, pages); }
    FetchedPages(rest, pages, page.rc, page.more, 0, page.payload);
  }

  lemma SameLength(answers: seq<Answer>, pages: seq<string>)
    requires Carries(answers, pages)
    ensures |answers| == |pages|
  {
  }

  // -------------------------------------------------- whole replies, end to end

  /** An answer with one page, as AmiForge writes it and the transport strips it. */
  predicate IsPage(answer: Answer, code: int, more: nat, text: string, spaces: bool) {
    answer.rc == 0 && Latin1(text) && Stripped(Envelope(code, more, Escape(text, spaces)), answer.line)
  }

  /** The answers to one command: its pages, of which all but the last announce more, and
      only the first and the last may be empty. The code that counts is the first page's. */
  predicate Reports(answers: seq<Answer>, codes: seq<int>, mores: seq<nat>, pages: seq<string>, spaces: bool) {
    && |answers| == |codes| == |mores| == |pages| > 0
    && forall k :: 0 <= k < |answers| ==>
         && IsPage(answers[k], codes[k], mores[k], pages[k], spaces)
         && (mores[k] > 0 <==> k < |pages| - 1)
         && (0 < k < |pages| - 1 ==> pages[k] != [])
  }

  lemma PageIsRead(answer: Answer, code: int, more: nat, text: string, spaces: bool)
    requires IsPage(answer, code, more, text, spaces)
    ensures answer.rc == 0 && ParseEnvelope(answer.line) == Reply(code, more, text)
  {
    hide Stripped, Envelope, ParseEnvelope, Escape, Latin1;
    PayloadArrives(code, more, text, spaces, answer.line);
  }

  lemma ReportsCarry(answers: seq<Answer>, codes: seq<int>, mores: seq<nat>, pages: seq<string>, spaces: bool)
    requires Reports(answers, codes, mores, pages, spaces)
    ensures Carries(answers[1..], pages[1..])
    ensures answers[0].rc == 0 && ParseEnvelope(answers[0].line) == Reply(codes[0], mores[0], pages[0])
    ensures mores[0] > 0 <==> answers[1..] != []
  {
    hide ParseEnvelope, IsPage;
    PageIsRead(answers[0], codes[0], mores[0], pages[0], spaces);
    var rest := answers[1..];
    forall k | 0 <= k < |rest|
      ensures var page := ParseEnvelope(rest[k].line);
              && rest[k].rc == 0 && page.Reply? && page.payload == pages[1..][k]
              && (page.more > 0 <==> k < |rest| - 1) && (k < |rest| - 1 ==> pages[1..][k] != [])
    {
      PageIsRead(answers[k + 1], codes[k + 1], mores[k + 1], pages[k + 1], spaces);
    }
  }

  /** End to end: a command that AmiForge ends with code 0 gives its whole payload, one that
      it ends with another code fails with that code and the whole payload as its message,
      and a reply of more than 1001 pages fails without either. */
  lemma ReplyArrives(answers: seq<Answer>, codes: seq<int>, mores: seq<nat>, pages: seq<string>, spaces: bool)
    requires Reports(answers, codes, mores, pages, spaces)
    ensures |pages| <= 1001 && codes[0] == 0 ==> Call(answers) == Done(Concat(pages))
    ensures |pages| <= 1001 && codes[0] != 0 && Concat(pages) != [] ==> Call(answers) == Failed(codes[0], Concat(pages))
    ensures |pages| <= 1001 && codes[0] != 0 && Concat(pages) == [] ==>
              Call(answers) == Failed(codes[0], "command failed (RC " + PrintSigned(codes[0]) + ")")
    ensures |pages| > 1001 ==> Call(answers) == Failed(0, "")
  {
    ReportsCarry(answers, codes, mores, pages, spaces);
    hide Reports, ParseEnvelope, Carries, Call, PrintSigned;
    assert answers == [answers[0]] + answers[1..];
    PagesArrive(answers[0], answers[1..], pages[1..]);
  }

  /** A call whose first answer is missing, refused by ARexx or no envelope fails. */
  lemma FirstAnswerFails(answers: seq<Answer>)
    requires answers == [] || answers[0].rc != 0 || !ParseEnvelope(answers[0].line).Reply?
    ensures Call(answers) == Failed(0, "")
  {
    hide ParseEnvelope;
  }

  /** So does one whose pages break off: the last good one announces more, and the next
      answer is missing, refused, no envelope, or a page with nothing on it that announces
      more again. */
  lemma {:induction false} PagesBreakOff(answers: seq<Answer>, rc: int, more: nat, n: nat, got: string, k: nat)
    requires more > 0 && k <= |answers|
    requires forall j :: 0 <= j < k ==>
               answers[j].rc == 0 && ParseEnvelope(answers[j].line).Reply? && ParseEnvelope(answers[j].line).more > 0
    requires k == |answers| || answers[k].rc != 0 || !ParseEnvelope(answers[k].line).Reply?
             || (ParseEnvelope(answers[k].line).payload == [] && ParseEnvelope(answers[k].line).more > 0)
    ensures FetchMore(answers, rc, more, n, got) == Failed(0, "")
    decreases k
  {
    hide ParseEnvelope;
    if k > 0 {
      var page := ParseEnvelope(answers[0].line);
      if n + 1 <= MAX_PAGES && page.payload != [] {
        PagesBreakOff(answers[1..], rc, page.more, n + 1, got + page.payload, k - 1);
      }
    }
  }

  lemma ReplyBreaksOff(answers: seq<Answer>, k: nat)
    requires 0 < k <= |answers|
    requires forall j :: 0 <= j < k ==>
               answers[j].rc == 0 && ParseEnvelope(answers[j].line).Reply? && ParseEnvelope(answers[j].line).more > 0
    requires k == |answers| || answers[k].rc != 0 || !ParseEnvelope(answers[k].line).Reply?
             || (ParseEnvelope(answers[k].line).payload == [] && ParseEnvelope(answers[k].line).more > 0)
    ensures Call(answers) == Failed(0, "")
  {
    hide ParseEnvelope, FetchMore;
    var page := ParseEnvelope(answers[0].line);
    PagesBreakOff(answers[1..], page.rc, page.more, 0, page.payload, k - 1);
  }

  // -------------------------------------------------------- what is no envelope

  /** A line is an envelope if and only if it starts with the mark and has three numbers,
      the last two not negative, with blanks behind the first two. */
  lemma EnvelopeForms(a: string, b: string, c: string, body: string)
    requires ' ' !in a && ' ' !in b && ' ' !in c
    ensures var good := ParseInt(a).Some? && ParseInt(b).Some? && ParseInt(c).Some?
                        && ParseInt(b).value >= 0 && ParseInt(c).value >= 0;
            && ParseEnvelope("AF1 " + (a + [' '] + (b + [' '] + c)))
               == (if good then Reply(ParseInt(a).value, ParseInt(b).value, Unescape(Blanks(ParseInt(c).value)))
                   else Malformed)
            && ParseEnvelope("AF1 " + (a + [' '] + (b + [' '] + (c + [' '] + body))))
               == (if good then Reply(ParseInt(a).value, ParseInt(b).value, Unescape(Restore(body, ParseInt(c).value)))
                   else Malformed)
  {
    FrontIsRead(a, b, c);
    BodyIsRead(a, b, c, body);
    hide SplitMax, ParseInt, Unescape, Restore, Blanks;
    var front, line := "AF1 " + (a + [' '] + (b + [' '] + c)), "AF1 " + (a + [' '] + (b + [' '] + (c + [' '] + body)));
    assert front[4..] == a + [' '] + (b + [' '] + c);
    assert line[4..] == a + [' '] + (b + [' '] + (c + [' '] + body));
    assert [a] + ([b] + ([c] + [])) == [a, b, c] && [a] + ([b] + ([c] + [body])) == [a, b, c, body];
    if ParseInt(c).Some? && ParseInt(c).value >= 0 { NothingLeft(ParseInt(c).value); }
  }

  lemma NothingLeft(n: nat)
    ensures Restore("", n) == Blanks(n)
  {
    assert "" + Blanks(n) == Blanks(n);
  }

  /** A line without the mark, or without two blanks behind it, is none. */
  lemma NoEnvelopeForms(line: string, a: string, b: string)
    requires ' ' !in a && ' ' !in b
    ensures !("AF1 " <= line) ==> ParseEnvelope(line) == NoEnvelope
    ensures ParseEnvelope("AF1 " + a) == Malformed && ParseEnvelope("AF1 " + (a + [' '] + b)) == Malformed
  {
    SplitMaxFront(a, b, ' ', 3);
    assert SplitMax(a, ' ', 3) == [a] && SplitMax(b, ' ', 2) == [b];
    assert ("AF1 " + a)[4..] == a && ("AF1 " + (a + [' '] + b))[4..] == a + [' '] + b;
    hide SplitMax, ParseInt, Unescape, Restore;
  }

  // ---------------------------------------------------------- what escapes stand for

  lemma UnitFirst(unit: string, rest: string)
    requires unit != [] && Unit(unit + rest).0 == |unit|
    ensures Unescape(unit + rest) == Unit(unit + rest).1 + Unescape(rest)
  {
    hide Unit;
    assert (unit + rest)[|unit|..] == rest;
  }

  /** The one-letter escapes. */
  lemma LetterEscape(c: char, meaning: char, rest: string)
    requires (c, meaning) in [('n', '\n'), ('t', '\t'), ('r', '\r'), ('s', ' '), ('p', '|'), ('q', '"'),
                              ('e', 27 as char), ('\\', '\\')]
    ensures Unescape(['\\', c] + rest) == [meaning] + Unescape(rest)
  {
    assert Unletter(c) == [meaning];
    UnitFirst(['\\', c], rest);
    hide Unescape, Unletter;
  }

  /** A character by its code. */
  lemma HexEscape(high: char, low: char, rest: string)
    requires HexValue(high) >= 0 && HexValue(low) >= 0
    ensures Unescape(['\\', 'x', high, low] + rest) == [(16 * HexValue(high) + HexValue(low)) as char] + Unescape(rest)
  {
    assert Unletter('x') == [];
    UnitFirst(['\\', 'x', high, low], rest);
    hide Unescape, Unletter;
  }

  /** Everything else stays: other characters, a backslash at the end, and an escape that is
      none of these, a code that is cut off or no number among them. */
  lemma PlainStays(c: char, rest: string)
    requires c != '\\' || rest == []
    ensures Unescape([c] + rest) == [c] + Unescape(rest)
  {
    hide Unescape, Unletter, HexPair;
    UnitFirst([c], rest);
  }

  lemma OtherStays(c: char, rest: string)
    requires c !in "ntrspqe\\" && !(c == 'x' && |rest| >= 2 && HexValue(rest[0]) >= 0 && HexValue(rest[1]) >= 0)
    ensures Unescape(['\\', c] + rest) == ['\\', c] + Unescape(rest)
  {
    OtherLetter(c);
    hide Unescape, Unletter, HexValue;
    var s := ['\\', c] + rest;
    assert s[0] == '\\' && s[1] == c && |s| == 2 + |rest| && (|rest| >= 2 ==> s[2] == rest[0] && s[3] == rest[1]);
    UnitFirst(['\\', c], rest);
  }

  lemma OtherLetter(c: char)
    requires c !in "ntrspqe\\"
    ensures Unletter(c) == []
  {
    var all := "ntrspqe\\";
    assert all[0] == 'n' && all[1] == 't' && all[2] == 'r' && all[3] == 's' && all[4] == 'p' && all[5] == 'q';
    assert all[6] == 'e' && all[7] == '\\';
  }

  /** What escaping writes: a plain character as it is, one outside Latin-1 as a question
      mark, one of the few with a letter as that letter, and any other as its code in two
      upper-case digits. */
  lemma EscapedForm(c: char, spaces: bool)
    ensures var e := EscapeChar(c, spaces);
            if c as int > 0xFF then e == "?"
            else if ' ' <= c <= '~' && c !in "\\|\"" && !(spaces && c == ' ') then e == [c]
            else if c in "\\|\"\n\t\r" || c == ' ' then
              |e| == 2 && e[0] == '\\' && Unescape(e) == [c]
            else
              && |e| == 4 && e[..2] == "\\x" && Unescape(e) == [c]
              && (forall k :: 2 <= k < 4 ==> IsDigit(e[k]) || 'A' <= e[k] <= 'F')
  {
    var e := EscapeChar(c, spaces);
    if c as int <= 0xFF {
      EscapeUnescapes(c, spaces);
      hide Unescape;
      if |e| == 4 { assert e[..2] == "\\x"; }
    }
  }

  lemma EscapeUnescapes(c: char, spaces: bool)
    requires c as int <= 0xFF
    ensures Unescape(EscapeChar(c, spaces)) == [c]
  {
    var e := EscapeChar(c, spaces);
    UnitOfChar(c, spaces, []);
    hide EscapeChar, Unit;
    assert e + [] == e && e[|e|..] == [];
    UnescapeNothing();
    assert [c] + [] == [c];
  }

  /** Every stretch but the last is full: the first character of the next one would not have
      fitted any more. */
  lemma {:induction false} StretchesAreFull(text: string, cur: string)
    ensures var parts := Stretches(text, cur);
            && (text != [] || cur != [] ==> parts != [])
            && (cur != [] ==> cur <= parts[0])
            && forall k :: 0 <= k < |parts| - 1 && parts[k + 1] != [] ==>
                 |Escape(parts[k], true)| + |EscapeChar(parts[k + 1][0], true)| > SLOT_CHUNK
    decreases |text|
  {
    hide EscapeChar, Escape;
    if text != [] {
      if |Escape(cur, true)| + |EscapeChar(text[0], true)| > SLOT_CHUNK {
        StretchesAreFull(text[1..], [text[0]]);
      } else {
        StretchesAreFull(text[1..], cur + [text[0]]);
      }
    }
  }

  /** Text with a character outside Latin-1 is refused; otherwise up to 2500 escaped characters
      go inline, and more in commands that are as full as they can be: the first escape of the
      next one would have made 3000 too few. */
  lemma PutTextForms(text: string, slot: nat)
    ensures var arg := PutText(text, slot);
            && (arg.NotLatin1? <==> exists k :: 0 <= k < |text| && text[k] as int > 0xFF)
            && (arg.Inline? <==> !arg.NotLatin1? && |Escape(text, true)| <= 2500)
            && (arg.Inline? ==> arg.text == Escape(text, true))
            && (arg.InSlot? ==>
                  && (forall k :: 0 <= k < |arg.commands| ==> arg.commands[k].text != [])
                  && forall k :: 0 <= k < |arg.commands| - 1 ==>
                       |arg.commands[k].text| + TokenLength(arg.commands[k + 1].text) > 3000)
  {
    hide EscapeChar, Escape, Print, TokenLength, Stretches;
    var parts := Stretches(text, []);
    EscapeNone();
    if text != [] { EscapeOne(text[0]); }
    StretchesCoverText(text, []);
    StretchesAreFull(text, []);
    forall k | 0 <= k < |parts|
      ensures Escape(parts[k], true) != [] && TokenLength(Escape(parts[k], true)) == |EscapeChar(parts[k][0], true)|
    {
      EscapeNonempty(parts[k]);
      FirstToken(parts[k]);
    }
    hide Concat;
  }

  lemma FirstToken(text: string)
    requires text != []
    ensures Escape(text, true) != [] && TokenLength(Escape(text, true)) == |EscapeChar(text[0], true)|
  {
    TokenOfChar(text[0], true, Escape(text[1..], true));
    hide EscapeChar, TokenLength;
  }
}
