/** KEY=VALUE text: how it is read, and how single values in it are rewritten. */
module EnvFile {
  import opened Prelude

  // --- Text and lines ------------------------------------------------------

  /** Where Python ends a line. */
  predicate IsBreak(c: char) {
    c in {'\n', '\r', '\U{0B}', '\U{0C}', '\U{1C}', '\U{1D}', '\U{1E}', '\U{85}', '\U{2028}', '\U{2029}'}
  }

  /** What Python strips; every line break is among it. */
  predicate IsSpace(c: char) {
    || IsBreak(c)
    || c in {' ', '\t', '\U{1F}', '\U{A0}', '\U{1680}', '\U{202F}', '\U{205F}', '\U{3000}'}
    || '\U{2000}' <= c <= '\U{200A}'
  }

  /** The position of the first line break, the length where there is none. */
  function BreakAt(text: string): (i: nat)
    ensures i <= |text|
    ensures forall j :: 0 <= j < i ==> !IsBreak(text[j])
    ensures i < |text| ==> IsBreak(text[i])
  {
    if text == "" || IsBreak(text[0]) then 0 else 1 + BreakAt(text[1..])
  }

  function Lines(text: string): seq<string>
    decreases |text|
  {
    var i := BreakAt(text);
    if i == |text| then (if text == "" then [] else [text])
    else
      var width := if text[i] == '\r' && i + 1 < |text| && text[i + 1] == '\n' then 2 else 1;
      [text[..i]] + Lines(text[i + width..])
  }

  /** Every line with a line break behind it. */
  function Text(lines: seq<string>): string {
    if lines == [] then "" else lines[0] + "\n" + Text(lines[1..])
  }

  predicate OneLine(s: string) {
    forall i :: 0 <= i < |s| ==> !IsBreak(s[i])
  }

  lemma BreakAfter(line: string, rest: string)
    requires OneLine(line)
    ensures BreakAt(line + "\n" + rest) == |line|
  {
    var text := line + "\n" + rest;
    assert text[|line|] == '\n';
    assert forall i :: 0 <= i < |line| ==> text[i] == line[i];
  }

  /** Python's whitespace, and those of it that end a line, by their numbers. */
  lemma SpacesAre(c: char)
    ensures IsSpace(c) <==>
      || 9 <= c as int <= 13 || 28 <= c as int <= 32 || c as int in {0x85, 0xA0, 0x1680}
      || 0x2000 <= c as int <= 0x200A || c as int in {0x2028, 0x2029, 0x202F, 0x205F, 0x3000}
    ensures IsBreak(c) <==> 10 <= c as int <= 13 || 28 <= c as int <= 30 || c as int in {0x85, 0x2028, 0x2029}
  {
  }

  lemma {:induction false} BreakBehind(line: string, c: char, rest: string)
    requires OneLine(line) && IsBreak(c)
    ensures BreakAt(line + [c] + rest) == |line|
  {
    var text := line + [c] + rest;
    if line != "" {
      assert text[1..] == line[1..] + [c] + rest;
      BreakBehind(line[1..], c, rest);
    }
  }

  /** A line ends at a break of any kind, a carriage return and a line feed being one; the
      last needs none, and nothing is no line. */
  lemma LinesEndAtBreaks(line: string, c: char, rest: string)
    requires OneLine(line) && IsBreak(c)
    ensures c != '\r' || rest == "" || rest[0] != '\n' ==> Lines(line + [c] + rest) == [line] + Lines(rest)
    ensures Lines(line + ['\r', '\n'] + rest) == [line] + Lines(rest)
    ensures Lines(line) == if line == "" then [] else [line]
  {
    hide Lines;
    if c != '\r' || rest == "" || rest[0] != '\n' {
      SingleBreak(line, c, rest);
    }
    DoubleBreak(line, rest);
    LastLine(line);
  }

  lemma SingleBreak(line: string, c: char, rest: string)
    requires OneLine(line) && IsBreak(c) && (c != '\r' || rest == "" || rest[0] != '\n')
    ensures Lines(line + [c] + rest) == [line] + Lines(rest)
  {
    hide OneLine;
    var text := line + [c] + rest;
    BreakBehind(line, c, rest);
    assert text[..|line|] == line && text[|line| + 1..] == rest && text[|line|] == c;
    assert rest != "" ==> text[|line| + 1] == rest[0];
  }

  lemma DoubleBreak(line: string, rest: string)
    requires OneLine(line)
    ensures Lines(line + ['\r', '\n'] + rest) == [line] + Lines(rest)
  {
    hide OneLine;
    var text := line + ['\r', '\n'] + rest;
    BreakBehind(line, '\r', ['\n'] + rest);
    assert text == line + ['\r'] + (['\n'] + rest);
    assert text[..|line|] == line && text[|line| + 2..] == rest && text[|line|] == '\r' && text[|line| + 1] == '\n';
  }

  lemma LastLine(line: string)
    requires OneLine(line)
    ensures Lines(line) == if line == "" then [] else [line]
  {
    NoBreak(line);
  }

  lemma {:induction false} NoBreak(line: string)
    requires OneLine(line)
    ensures BreakAt(line) == |line|
  {
    if line != "" {
      NoBreak(line[1..]);
    }
  }

  /** What was written line by line is read line by line. */
  lemma {:induction false} LinesOfText(lines: seq<string>)
    requires forall l :: l in lines ==> OneLine(l)
    ensures Lines(Text(lines)) == lines
  {
    if lines != [] {
      BreakAfter(lines[0], Text(lines[1..]));
      LinesOfText(lines[1..]);
      var text := Text(lines);
      assert text[|lines[0]|] == '\n';
      assert text[..|lines[0]|] == lines[0] && text[|lines[0]| + 1..] == Text(lines[1..]);
    }
  }

  function StripLeft(s: string): string {
    if s != "" && IsSpace(s[0]) then StripLeft(s[1..]) else s
  }

  function StripRight(s: string): string {
    if s != "" && IsSpace(s[|s| - 1]) then StripRight(s[..|s| - 1]) else s
  }

  function Strip(s: string): string {
    StripRight(StripLeft(s))
  }

  predicate Stripped(s: string) {
    s == "" || (!IsSpace(s[0]) && !IsSpace(s[|s| - 1]))
  }

  lemma {:induction false} LeftIsStripped(s: string)
    ensures var t := StripLeft(s); (t == "" || !IsSpace(t[0])) && exists k :: 0 <= k <= |s| && t == s[k..]
  {
    if s != "" && IsSpace(s[0]) {
      LeftIsStripped(s[1..]);
      var t := StripLeft(s[1..]);
      var k :| 0 <= k <= |s[1..]| && t == s[1..][k..];
      assert t == s[k + 1..];
    } else {
      assert s == s[0..];
    }
  }

  lemma {:induction false} RightIsStripped(s: string)
    ensures var t := StripRight(s); (t == "" || !IsSpace(t[|t| - 1])) && |t| <= |s| && t == s[..|t|]
  {
    if s != "" && IsSpace(s[|s| - 1]) {
      RightIsStripped(s[..|s| - 1]);
    }
  }

  lemma StripIsAPiece(s: string) returns (from: nat, to: nat)
    ensures from <= to <= |s| && Strip(s) == s[from..to]
    ensures Stripped(Strip(s))
  {
    LeftIsStripped(s);
    var t := StripLeft(s);
    RightIsStripped(t);
    from :| 0 <= from <= |s| && t == s[from..];
    hide StripLeft, StripRight;
    to := from + |Strip(s)|;
    assert s[from..][..|Strip(s)|] == s[from..to];
  }

  /** Stripping leaves a stripped piece of the text, and all of it exactly where it was
      stripped already. */
  lemma StripMeaning(s: string)
    ensures Stripped(Strip(s))
    ensures Strip(s) == s <==> Stripped(s)
    ensures OneLine(s) ==> OneLine(Strip(s))
  {
    var from, to := StripIsAPiece(s);
    forall i | 0 <= i < to - from ensures Strip(s)[i] == s[from + i] {}
  }

  predicate IsBlank(s: string) {
    forall i :: 0 <= i < |s| ==> IsSpace(s[i])
  }

  lemma {:induction false} StripLeftOfBlank(s: string)
    requires IsBlank(s)
    ensures StripLeft(s) == ""
  {
    if s != "" {
      StripLeftOfBlank(s[1..]);
    }
  }

  /** Space at the end has no part in the stripped text. */
  lemma {:induction false} StripRightDrops(s: string, space: string)
    requires IsBlank(space)
    ensures StripRight(s + space) == StripRight(s)
  {
    if space == "" {
      assert s + space == s;
    } else {
      var front := space[..|space| - 1];
      StripRightDrops(s, front);
      assert (s + space)[|s + space| - 1] == space[|space| - 1];
      assert (s + space)[..|s + space| - 1] == s + front;
    }
  }

  lemma {:induction false} StripLeftThrough(s: string, more: string)
    requires !IsBlank(s)
    ensures StripLeft(s + more) == StripLeft(s) + more
  {
    assert s != "" && (s + more)[0] == s[0];
    if IsSpace(s[0]) {
      assert (s + more)[1..] == s[1..] + more;
      StripLeftThrough(s[1..], more);
    }
  }

  lemma StripDrops(s: string, space: string)
    requires IsBlank(space)
    ensures Strip(s + space) == Strip(s)
  {
    if IsBlank(s) {
      StripLeftOfBlank(s);
      StripLeftOfBlank(s + space);
    } else {
      StripLeftThrough(s, space);
      StripRightDrops(StripLeft(s), space);
    }
  }

  lemma {:induction false} StripRightKeeps(s: string, more: string)
    requires s != "" && !IsSpace(s[|s| - 1])
    ensures StripRight(s + more) == s + StripRight(more)
  {
    if more == "" {
      assert s + more == s;
    } else {
      var all := s + more;
      assert all[|all| - 1] == more[|more| - 1];
      if IsSpace(more[|more| - 1]) {
        assert all[..|all| - 1] == s + more[..|more| - 1];
        StripRightKeeps(s, more[..|more| - 1]);
      }
    }
  }

  lemma {:induction false} StripRightRest(s: string) returns (space: string)
    ensures s == StripRight(s) + space && IsBlank(space)
  {
    if s != "" && IsSpace(s[|s| - 1]) {
      var before := StripRightRest(s[..|s| - 1]);
      space := before + [s[|s| - 1]];
      assert s == s[..|s| - 1] + [s[|s| - 1]];
    } else {
      space := "";
    }
  }

  // --- Reading -------------------------------------------------------------

  datatype Entry = Entry(key: string, value: string)

  function EqualsAt(line: string): (i: nat)
    ensures i <= |line|
    ensures '=' !in line[..i]
    ensures i < |line| <==> '=' in line
    ensures i < |line| ==> line[i] == '='
  {
    if line == "" || line[0] == '=' then 0
    else
      assert line == [line[0]] + line[1..];
      1 + EqualsAt(line[1..])
  }

  /** None for a blank line, a comment and a line without a value. */
  function ParseLine(line: string): Option<Entry> {
    var stripped := Strip(line);
    if stripped == "" || stripped[0] == '#' || '=' !in stripped then None
    else
      var i := EqualsAt(stripped);
      Some(Entry(Strip(stripped[..i]), Strip(stripped[i + 1..])))
  }

  /** The last value of every key. */
  function ValuesOf(lines: seq<string>): map<string, string> {
    if lines == [] then map[]
    else
      var before := ValuesOf(lines[..|lines| - 1]);
      match ParseLine(lines[|lines| - 1])
      case None => before
      case Some(entry) => before[entry.key := entry.value]
  }

  /** A value that can be kept on one line as it is. */
  predicate Clean(value: string) {
    Stripped(value) && OneLine(value)
  }

  lemma PiecesAreOneLine(text: string)
    ensures forall l :: l in Lines(text) ==> OneLine(l)
    decreases |text|
  {
    var i := BreakAt(text);
    if i == |text| {
    } else {
      var width := if text[i] == '\r' && i + 1 < |text| && text[i + 1] == '\n' then 2 else 1;
      PiecesAreOneLine(text[i + width..]);
    }
  }

  lemma {:induction false} ValuesOfAreClean(lines: seq<string>)
    requires forall l :: l in lines ==> OneLine(l)
    ensures forall k :: k in ValuesOf(lines) ==> Clean(ValuesOf(lines)[k])
  {
    if lines != [] {
      var last := lines[|lines| - 1];
      ValuesOfAreClean(lines[..|lines| - 1]);
      assert last in lines;
      var stripped := Strip(last);
      StripMeaning(last);
      if ParseLine(last).Some? {
        StripMeaning(stripped[EqualsAt(stripped) + 1..]);
      }
    }
  }

  /** Nothing read back ever holds a line break or space at its ends. */
  lemma ReadValuesAreClean(text: string)
    ensures forall k :: k in ValuesOf(Lines(text)) ==> Clean(ValuesOf(Lines(text))[k])
  {
    PiecesAreOneLine(text);
    ValuesOfAreClean(Lines(text));
  }

  // --- Entries -------------------------------------------------------------

  function Render(entries: seq<Entry>): seq<string> {
    if entries == [] then [] else [entries[0].key + "=" + entries[0].value] + Render(entries[1..])
  }

  /** The first value of a key. */
  function Find(entries: seq<Entry>, key: string): Option<string> {
    if entries == [] then None
    else if entries[0].key == key then Some(entries[0].value)
    else Find(entries[1..], key)
  }

  predicate Unique(entries: seq<Entry>) {
    entries != [] ==> Find(entries[1..], entries[0].key).None? && Unique(entries[1..])
  }

  /** Capital letters and underscores. */
  predicate GoodKey(key: string) {
    key != "" && forall i :: 0 <= i < |key| ==> 'A' <= key[i] <= 'Z' || key[i] == '_'
  }

  predicate GoodEntries(entries: seq<Entry>) {
    forall e :: e in entries ==> GoodKey(e.key) && OneLine(e.value)
  }

  lemma EqualsAfterKey(key: string, value: string)
    requires '=' !in key
    ensures EqualsAt(key + "=" + value) == |key|
    ensures (key + "=" + value)[..|key|] == key && (key + "=" + value)[|key| + 1..] == value
  {
    var line := key + "=" + value;
    assert line[|key|] == '=';
    assert forall i :: 0 <= i < |key| ==> line[i] == key[i];
    assert forall j :: |key| < j <= |line| ==> line[..j][|key|] == '=';
  }

  lemma RenderedIsStripped(e: Entry)
    requires GoodKey(e.key) && OneLine(e.value)
    ensures OneLine(e.key + "=" + e.value)
    ensures Strip(e.key + "=" + e.value) == e.key + "=" + StripRight(e.value)
    ensures Stripped(e.key) && '=' !in e.key && e.key[0] != '#'
  {
    var line := e.key + "=" + e.value;
    assert line[0] == e.key[0];
    assert StripLeft(line) == line;
    StripRightKeeps(e.key + "=", e.value);
  }

  lemma ParseRendered(e: Entry)
    requires GoodKey(e.key) && OneLine(e.value)
    ensures ParseLine(e.key + "=" + e.value) == Some(Entry(e.key, Strip(e.value)))
    ensures OneLine(e.key + "=" + e.value)
  {
    RenderedIsStripped(e);
    var line := e.key + "=" + StripRight(e.value);
    var space := StripRightRest(e.value);
    StripDrops(StripRight(e.value), space);
    StripMeaning(e.key);
    EqualsAfterKey(e.key, StripRight(e.value));
    assert line[0] == e.key[0] && line[|e.key|] == '=';
    hide Strip, StripRight, Stripped, GoodKey, EqualsAt, OneLine, IsBlank;
  }

  lemma {:induction false} ValuesOfConcat(a: seq<string>, b: seq<string>)
    ensures ValuesOf(a + b) == ValuesOf(a) + ValuesOf(b)
  {
    if b == [] {
      assert a + b == a;
    } else {
      var front := b[..|b| - 1];
      ValuesOfConcat(a, front);
      assert (a + b)[..|a + b| - 1] == a + front && (a + b)[|a + b| - 1] == b[|b| - 1];
    }
  }

  lemma {:induction false} RenderedReads(entries: seq<Entry>, key: string)
    requires GoodEntries(entries) && Unique(entries)
    ensures Lookup(ValuesOf(Render(entries)), key) == StrippedValue(Find(entries, key))
  {
    if entries != [] {
      hide ValuesOf, GoodKey, OneLine, ParseLine, Strip;
      var e, rest := entries[0], entries[1..];
      assert e in entries;
      assert forall x :: x in rest ==> x in entries;
      RenderedReads(rest, key);
      ValuesOfConcat([e.key + "=" + e.value], Render(rest));
      OneValue(e);
      RenderedReads(rest, e.key);
    }
  }

  function StrippedValue(value: Option<string>): Option<string> {
    if value.Some? then Some(Strip(value.value)) else None
  }

  lemma OneValue(e: Entry)
    requires GoodKey(e.key) && OneLine(e.value)
    ensures ValuesOf([e.key + "=" + e.value]) == map[e.key := Strip(e.value)]
  {
    ParseRendered(e);
    assert [e.key + "=" + e.value][..0] == [];
  }

  function Lookup(values: map<string, string>, key: string): Option<string> {
    if key in values then Some(values[key]) else None
  }

  lemma Associate(a: string, b: string, c: string)
    ensures a + (b + c) == a + b + c
  {
  }

  lemma TextCons(line: string, rest: seq<string>)
    ensures Text([line] + rest) == line + "\n" + Text(rest)
  {
    assert ([line] + rest)[1..] == rest;
  }

  lemma {:induction false} TextConcat(a: seq<string>, b: seq<string>)
    ensures Text(a + b) == Text(a) + Text(b)
  {
    if a == [] {
      assert a + b == b;
    } else {
      TextConcat(a[1..], b);
      assert a == [a[0]] + a[1..] && a + b == [a[0]] + (a[1..] + b);
      TextCons(a[0], a[1..]);
      TextCons(a[0], a[1..] + b);
      Associate(a[0] + "\n", Text(a[1..]), Text(b));
      hide Text;
    }
  }

  lemma RenderCons(e: Entry, rest: seq<Entry>)
    ensures Render([e] + rest) == [e.key + "=" + e.value] + Render(rest)
  {
    assert ([e] + rest)[1..] == rest;
  }

  lemma {:induction false} RenderConcat(a: seq<Entry>, b: seq<Entry>)
    ensures Render(a + b) == Render(a) + Render(b)
  {
    if a == [] {
      assert a + b == b;
    } else {
      RenderConcat(a[1..], b);
      hide Render;
      RenderCons(a[0], a[1..]);
      RenderCons(a[0], a[1..] + b);
      assert a == [a[0]] + a[1..] && a + b == [a[0]] + (a[1..] + b);
    }
  }

  /** Distinct keys, position by position. */
  lemma {:induction false} UniqueByKeys(entries: seq<Entry>, keys: seq<string>)
    requires |entries| == |keys| && forall i :: 0 <= i < |keys| ==> entries[i].key == keys[i]
    requires Distinct(keys)
    ensures Unique(entries)
    ensures forall k :: k !in keys ==> Find(entries, k).None?
  {
    if entries != [] {
      DistinctCons(keys);
      UniqueByKeys(entries[1..], keys[1..]);
    }
  }

  // --- Rewriting single values ---------------------------------------------

  function Without(entries: seq<Entry>, key: string): seq<Entry> {
    if entries == [] then []
    else if entries[0].key == key then Without(entries[1..], key)
    else [entries[0]] + Without(entries[1..], key)
  }

  /** The first line of a key takes the new value in place. */
  function NewLine(line: string, updates: seq<Entry>): string {
    var i := EqualsAt(line);
    if i < |line| && Find(updates, line[..i]).Some? then line[..i] + "=" + Find(updates, line[..i]).value else line
  }

  function StillDue(line: string, updates: seq<Entry>): seq<Entry> {
    var i := EqualsAt(line);
    if i < |line| && Find(updates, line[..i]).Some? then Without(updates, line[..i]) else updates
  }

  /** What found no line is added at the end. */
  function Rewritten(lines: seq<string>, updates: seq<Entry>): seq<string>
    decreases |lines|
  {
    if lines == [] then Render(updates)
    else [NewLine(lines[0], updates)] + Rewritten(lines[1..], StillDue(lines[0], updates))
  }

  lemma RewriteStep(done: seq<string>, lines: seq<string>, updates: seq<Entry>)
    requires lines != []
    ensures done + Rewritten(lines, updates)
            == done + [NewLine(lines[0], updates)] + Rewritten(lines[1..], StillDue(lines[0], updates))
  {
    hide NewLine, StillDue, Render;
  }

  /** The same on entries. */
  function Overridden(entries: seq<Entry>, updates: seq<Entry>): seq<Entry>
    decreases |entries|
  {
    if entries == [] then updates
    else
      var key := entries[0].key;
      if Find(updates, key).Some? then [Entry(key, Find(updates, key).value)] + Overridden(entries[1..], Without(updates, key))
      else [entries[0]] + Overridden(entries[1..], updates)
  }

  lemma {:induction false} RewrittenIsOverridden(entries: seq<Entry>, updates: seq<Entry>)
    requires forall e :: e in entries ==> '=' !in e.key
    ensures Rewritten(Render(entries), updates) == Render(Overridden(entries, updates))
    decreases |entries|
  {
    if entries != [] {
      var e := entries[0];
      assert e in entries;
      assert forall x :: x in entries[1..] ==> x in entries;
      RewrittenIsOverridden(entries[1..], StillDue(e.key + "=" + e.value, updates));
      EqualsAfterKey(e.key, e.value);
      hide EqualsAt;
    }
  }

  lemma {:induction false} WithoutFinds(entries: seq<Entry>, gone: string, key: string)
    ensures Find(Without(entries, gone), key) == if key == gone then None else Find(entries, key)
  {
    if entries != [] {
      WithoutFinds(entries[1..], gone, key);
    }
  }

  lemma {:induction false} WithoutKeeps(entries: seq<Entry>, gone: string)
    ensures Unique(entries) ==> Unique(Without(entries, gone))
    ensures forall e :: e in Without(entries, gone) ==> e in entries
  {
    if entries != [] {
      WithoutKeeps(entries[1..], gone);
      WithoutFinds(entries[1..], gone, entries[0].key);
    }
  }

  /** A partial update is a map override. */
  lemma {:induction false} OverriddenFinds(entries: seq<Entry>, updates: seq<Entry>, key: string)
    requires Unique(entries)
    ensures Find(Overridden(entries, updates), key)
            == if Find(updates, key).Some? then Find(updates, key) else Find(entries, key)
    decreases |entries|
  {
    if entries != [] {
      var first := entries[0].key;
      OverriddenFinds(entries[1..], updates, key);
      OverriddenFinds(entries[1..], Without(updates, first), key);
      WithoutFinds(updates, first, key);
    }
  }

  lemma {:induction false} OverriddenIsUnique(entries: seq<Entry>, updates: seq<Entry>)
    requires Unique(entries) && Unique(updates)
    ensures Unique(Overridden(entries, updates))
    decreases |entries|
  {
    if entries != [] {
      var first, rest := entries[0].key, entries[1..];
      if Find(updates, first).Some? {
        WithoutKeeps(updates, first);
        OverriddenIsUnique(rest, Without(updates, first));
        OverriddenFinds(rest, Without(updates, first), first);
        WithoutFinds(updates, first, first);
      } else {
        OverriddenIsUnique(rest, updates);
        OverriddenFinds(rest, updates, first);
      }
    }
  }

  lemma {:induction false} FoundIsMember(entries: seq<Entry>, key: string)
    requires Find(entries, key).Some?
    ensures Entry(key, Find(entries, key).value) in entries
  {
    if entries[0].key != key {
      FoundIsMember(entries[1..], key);
    }
  }

  lemma {:induction false} OverriddenIsGood(entries: seq<Entry>, updates: seq<Entry>)
    requires GoodEntries(entries) && GoodEntries(updates)
    ensures GoodEntries(Overridden(entries, updates))
    decreases |entries|
  {
    if entries != [] {
      var e := entries[0];
      assert e in entries;
      assert forall x :: x in entries[1..] ==> x in entries;
      if Find(updates, e.key).Some? {
        FoundIsMember(updates, e.key);
        WithoutKeeps(updates, e.key);
        OverriddenIsGood(entries[1..], Without(updates, e.key));
      } else {
        OverriddenIsGood(entries[1..], updates);
      }
    }
  }

  // --- Values that end in line breaks --------------------------------------

  /** The text up to its first line break. */
  function HeadOf(s: string): string {
    s[..BreakAt(s)]
  }

  /** Whatever line breaks there are, only space follows the first. */
  predicate Tame(s: string) {
    IsBlank(s[BreakAt(s)..])
  }

  lemma HeadIsOneLine(s: string)
    ensures OneLine(HeadOf(s))
    ensures Tame(s) ==> Strip(HeadOf(s)) == Strip(s)
    ensures OneLine(s) ==> HeadOf(s) == s && Tame(s)
  {
    assert s == HeadOf(s) + s[BreakAt(s)..];
    if Tame(s) {
      StripDrops(HeadOf(s), s[BreakAt(s)..]);
    }
  }

  /** The lines that hold more than space. */
  function Solid(lines: seq<string>): seq<string> {
    if lines == [] then []
    else (if IsBlank(lines[0]) then [] else [lines[0]]) + Solid(lines[1..])
  }

  function Heads(lines: seq<string>): seq<string> {
    if lines == [] then [] else [HeadOf(lines[0])] + Heads(lines[1..])
  }

  lemma LinesAt(text: string, i: nat)
    requires i < |text| && OneLine(text[..i]) && IsBreak(text[i])
    ensures var width := if text[i] == '\r' && i + 1 < |text| && text[i + 1] == '\n' then 2 else 1;
            Lines(text) == [text[..i]] + Lines(text[i + width..])
  {
    assert forall j :: 0 <= j < i ==> text[..i][j] == text[j];
    assert BreakAt(text) == i;
  }

  lemma Tail(line: string, rest: string, from: nat)
    requires from <= |line| + 1
    ensures (line + "\n" + rest)[from..] == if from <= |line| then line[from..] + "\n" + rest else rest
  {
  }

  /** The first line of what was written as one; `more` is where the next begins, None
      where that is the rest. */
  lemma FirstLine(line: string, rest: string) returns (more: Option<nat>)
    ensures more.None? ==> Lines(line + "\n" + rest) == [HeadOf(line)] + Lines(rest)
    ensures more.Some? ==>
              && BreakAt(line) < more.value <= |line|
              && Lines(line + "\n" + rest) == [HeadOf(line)] + Lines(line[more.value..] + "\n" + rest)
  {
    hide Lines;
    var text, i := line + "\n" + rest, BreakAt(line);
    assert forall j :: 0 <= j < |line| ==> text[j] == line[j];
    assert text[|line|] == '\n' && text[..i] == line[..i];
    assert OneLine(line[..i]);
    LinesAt(text, i);
    var width := if text[i] == '\r' && i + 1 < |text| && text[i + 1] == '\n' then 2 else 1;
    assert i + width <= |line| + 1;
    Tail(line, rest, i + width);
    more := if i + width > |line| then None else Some(i + width);
  }

  lemma SolidCons(line: string, rest: seq<string>)
    ensures Solid([line] + rest) == (if IsBlank(line) then [] else [line]) + Solid(rest)
  {
    assert ([line] + rest)[1..] == rest;
  }

  /** Space before the end of a line makes blank lines and no others. */
  lemma {:induction false} BlankLines(space: string, rest: string)
    requires IsBlank(space)
    ensures Solid(Lines(space + "\n" + rest)) == Solid(Lines(rest))
    decreases |space|
  {
    var more := FirstLine(space, rest);
    assert IsBlank(HeadOf(space));
    hide Lines, Solid;
    if more.None? {
      SolidCons(HeadOf(space), Lines(rest));
    } else {
      SolidCons(HeadOf(space), Lines(space[more.value..] + "\n" + rest));
      BlankLines(space[more.value..], rest);
    }
  }

  lemma TameLine(line: string, rest: string)
    requires Tame(line)
    ensures Solid(Lines(line + "\n" + rest)) == (if IsBlank(HeadOf(line)) then [] else [HeadOf(line)]) + Solid(Lines(rest))
  {
    var more := FirstLine(line, rest);
    hide Lines, Solid;
    if more.None? {
      SolidCons(HeadOf(line), Lines(rest));
    } else {
      SolidCons(HeadOf(line), Lines(line[more.value..] + "\n" + rest));
      var i := BreakAt(line);
      assert forall j :: 0 <= j < |line| - more.value ==> line[more.value..][j] == line[i..][more.value - i + j];
      BlankLines(line[more.value..], rest);
    }
  }

  /** Text written line by line reads as those lines, blank ones aside. */
  lemma {:induction false} LinesOfTame(lines: seq<string>)
    requires forall l :: l in lines ==> Tame(l)
    ensures Solid(Lines(Text(lines))) == Solid(Heads(lines))
  {
    if lines != [] {
      LinesOfTame(lines[1..]);
      TameLine(lines[0], Text(lines[1..]));
      hide Lines, Tame, HeadOf;
      assert ([HeadOf(lines[0])] + Heads(lines[1..]))[1..] == Heads(lines[1..]);
    }
  }

  lemma BlankHoldsNothing(line: string)
    requires IsBlank(line)
    ensures ParseLine(line) == None && '=' !in line
  {
    StripLeftOfBlank(line);
  }

  lemma BlankReadsNothing(line: string)
    requires IsBlank(line)
    ensures ValuesOf([line]) == map[]
  {
    BlankHoldsNothing(line);
    assert [line][..0] == [];
    hide ParseLine;
  }

  /** Blank lines have no part in what is read. */
  lemma {:induction false} ValuesOfSolid(lines: seq<string>)
    ensures ValuesOf(Solid(lines)) == ValuesOf(lines)
  {
    if lines != [] {
      var first, rest := lines[0], lines[1..];
      ValuesOfSolid(rest);
      assert lines == [first] + rest;
      if IsBlank(first) {
        BlankReadsNothing(first);
        assert Solid(lines) == Solid(rest);
        hide ValuesOf;
        ValuesOfConcat([first], rest);
      } else {
        assert Solid(lines) == [first] + Solid(rest);
        hide ValuesOf;
        ValuesOfConcat([first], rest);
        ValuesOfConcat([first], Solid(rest));
      }
    }
  }

  function HeadEntries(entries: seq<Entry>): seq<Entry> {
    if entries == [] then [] else [Entry(entries[0].key, HeadOf(entries[0].value))] + HeadEntries(entries[1..])
  }

  lemma {:induction false} HeadEntriesFind(entries: seq<Entry>, key: string)
    ensures Find(HeadEntries(entries), key)
            == if Find(entries, key).Some? then Some(HeadOf(Find(entries, key).value)) else None
  {
    if entries != [] {
      HeadEntriesFind(entries[1..], key);
    }
  }

  lemma {:induction false} HeadEntriesKeep(entries: seq<Entry>)
    ensures Unique(entries) ==> Unique(HeadEntries(entries))
    ensures forall e :: e in HeadEntries(entries) ==> OneLine(e.value) && exists v :: Entry(e.key, v) in entries
  {
    if entries != [] {
      var e := entries[0];
      HeadEntriesKeep(entries[1..]);
      HeadEntriesFind(entries[1..], e.key);
      HeadIsOneLine(e.value);
      assert Entry(e.key, e.value) in entries;
      forall x | x in HeadEntries(entries[1..]) ensures exists v :: Entry(x.key, v) in entries {
        var v :| Entry(x.key, v) in entries[1..];
        assert Entry(x.key, v) in entries;
      }
    }
  }

  lemma {:induction false} HeadEntriesWithout(entries: seq<Entry>, key: string)
    ensures HeadEntries(Without(entries, key)) == Without(HeadEntries(entries), key)
  {
    if entries != [] {
      HeadEntriesWithout(entries[1..], key);
    }
  }

  lemma BreakIs(text: string, i: nat)
    requires i <= |text| && forall j :: 0 <= j < i ==> !IsBreak(text[j])
    requires i < |text| ==> IsBreak(text[i])
    ensures BreakAt(text) == i
  {
  }

  lemma BreakInValue(key: string, value: string)
    requires OneLine(key)
    ensures BreakAt(key + "=" + value) == |key| + 1 + BreakAt(value)
  {
    var line := key + "=" + value;
    assert line[|key|] == '=';
    assert forall j :: 0 <= j < |key| ==> line[j] == key[j];
    assert forall j :: |key| < j < |line| ==> line[j] == value[j - |key| - 1];
    BreakIs(line, |key| + 1 + BreakAt(value));
  }

  lemma HeadOfAssignment(key: string, value: string)
    requires OneLine(key)
    ensures HeadOf(key + "=" + value) == key + "=" + HeadOf(value)
    ensures Tame(value) ==> Tame(key + "=" + value)
    ensures !IsBlank(key + "=" + value)
  {
    hide BreakAt, OneLine, IsBlank;
    BreakInValue(key, value);
    var line, i := key + "=" + value, BreakAt(value);
    assert line[..|key| + 1 + i] == key + "=" + value[..i];
    assert line[|key| + 1 + i..] == value[i..];
    NotBlank(line, |key|);
  }

  lemma NotBlank(line: string, i: nat)
    requires i < |line| && line[i] == '='
    ensures !IsBlank(line)
  {
    assert !IsSpace(line[i]);
  }

  lemma {:induction false} RenderedHeads(entries: seq<Entry>)
    requires forall e :: e in entries ==> GoodKey(e.key)
    ensures Heads(Render(entries)) == Render(HeadEntries(entries))
    ensures Solid(Render(entries)) == Render(entries)
  {
    if entries != [] {
      var e, rest := entries[0], entries[1..];
      assert e in entries && forall x :: x in rest ==> x in entries;
      RenderedHeads(rest);
      HeadOfAssignment(e.key, e.value);
      assert Render(entries) == [e.key + "=" + e.value] + Render(rest);
      assert HeadEntries(entries) == [Entry(e.key, HeadOf(e.value))] + HeadEntries(rest);
      RenderCons(Entry(e.key, HeadOf(e.value)), HeadEntries(rest));
      HeadsCons(e.key + "=" + e.value, Render(rest));
      SolidCons(e.key + "=" + e.value, Render(rest));
      hide HeadOf, IsBlank, GoodKey, Render, Heads, Solid, HeadEntries;
    }
  }

  lemma {:induction false} RenderedTame(entries: seq<Entry>)
    requires GoodUpdates(entries)
    ensures forall l :: l in Render(entries) ==> Tame(l)
  {
    if entries != [] {
      assert entries[0] in entries && forall x :: x in entries[1..] ==> x in entries;
      RenderedTame(entries[1..]);
      HeadOfAssignment(entries[0].key, entries[0].value);
      hide Tame, GoodKey;
    }
  }

  predicate GoodUpdates(updates: seq<Entry>) {
    forall e :: e in updates ==> GoodKey(e.key) && Tame(e.value)
  }

  lemma {:induction false} HeadUpdatesGood(updates: seq<Entry>)
    requires GoodUpdates(updates)
    ensures GoodUpdates(HeadEntries(updates))
  {
    if updates != [] {
      assert updates[0] in updates;
      assert forall e :: e in updates[1..] ==> e in updates;
      HeadUpdatesGood(updates[1..]);
      HeadIsOneLine(updates[0].value);
      HeadIsOneLine(HeadOf(updates[0].value));
    }
  }

  lemma NewLineHead(line: string, updates: seq<Entry>)
    requires OneLine(line) && GoodUpdates(updates)
    ensures HeadOf(NewLine(line, updates)) == NewLine(line, HeadEntries(updates))
    ensures StillDue(line, HeadEntries(updates)) == HeadEntries(StillDue(line, updates))
    ensures Tame(NewLine(line, updates))
  {
    var i := EqualsAt(line);
    var key := line[..i];
    HeadEntriesFind(updates, key);
    HeadEntriesWithout(updates, key);
    HeadIsOneLine(line);
    if i < |line| && Find(updates, key).Some? {
      FoundIsMember(updates, key);
      assert OneLine(key);
      HeadOfAssignment(key, Find(updates, key).value);
    }
    hide HeadOf, Tame, OneLine;
  }

  lemma BlankIsNoAssignment(line: string, updates: seq<Entry>)
    ensures IsBlank(line) ==> NewLine(line, updates) == line && StillDue(line, updates) == updates
    ensures IsBlank(NewLine(line, updates)) ==> IsBlank(line)
  {
    var i := EqualsAt(line);
    if i < |line| {
      assert !IsSpace(line[i]);
      var value := Find(updates, line[..i]);
      if value.Some? {
        var changed := line[..i] + "=" + value.value;
        assert changed[i] == '=';
      }
    }
  }

  lemma StillGood(line: string, updates: seq<Entry>)
    requires GoodUpdates(updates)
    ensures GoodUpdates(StillDue(line, updates))
  {
    var i := EqualsAt(line);
    WithoutKeeps(updates, line[..i]);
  }

  /** Rewriting a file with blank lines rewrites the others, and the new values count up to
      their first line break. */
  lemma {:induction false} RewrittenSolid(lines: seq<string>, updates: seq<Entry>)
    requires (forall l :: l in lines ==> OneLine(l)) && GoodUpdates(updates)
    ensures Solid(Heads(Rewritten(lines, updates))) == Rewritten(Solid(lines), HeadEntries(updates))
    ensures forall l :: l in Rewritten(lines, updates) ==> Tame(l)
    decreases |lines|
  {
    if lines == [] {
      RenderedHeads(updates);
      RenderedTame(updates);
      HeadUpdatesGood(updates);
      RenderedHeads(HeadEntries(updates));
    } else {
      var first, rest := lines[0], lines[1..];
      assert first in lines && forall l :: l in rest ==> l in lines;
      NewLineHead(first, updates);
      BlankIsNoAssignment(first, HeadEntries(updates));
      StillGood(first, updates);
      RewrittenSolid(rest, StillDue(first, updates));
      hide NewLine, StillDue, HeadOf, Tame, IsBlank, OneLine, HeadEntries, GoodUpdates;
      SolidOfRewritten(first, rest, updates);
    }
  }

  lemma SolidOfRewritten(first: string, rest: seq<string>, updates: seq<Entry>)
    requires OneLine(first) && GoodUpdates(updates)
    requires Solid(Heads(Rewritten(rest, StillDue(first, updates))))
             == Rewritten(Solid(rest), HeadEntries(StillDue(first, updates)))
    ensures Solid(Heads(Rewritten([first] + rest, updates))) == Rewritten(Solid([first] + rest), HeadEntries(updates))
  {
    var heads, due := HeadEntries(updates), StillDue(first, updates);
    var changed, later := NewLine(first, heads), Rewritten(rest, due);
    NewLineHead(first, updates);
    BlankIsNoAssignment(first, heads);
    RewrittenCons(first, rest, updates);
    RewrittenCons(first, Solid(rest), heads);
    hide NewLine, StillDue, HeadOf, Tame, IsBlank, OneLine, HeadEntries, GoodUpdates, Rewritten, Solid, Heads;
    HeadsCons(NewLine(first, updates), later);
    SolidCons(changed, Heads(later));
    SolidCons(first, rest);
    assert [] + Solid(rest) == Solid(rest) && [] + Solid(Heads(later)) == Solid(Heads(later));
  }

  lemma RewrittenCons(first: string, rest: seq<string>, updates: seq<Entry>)
    ensures Rewritten([first] + rest, updates) == [NewLine(first, updates)] + Rewritten(rest, StillDue(first, updates))
  {
    assert ([first] + rest)[1..] == rest;
  }

  lemma HeadsCons(first: string, rest: seq<string>)
    ensures Heads([first] + rest) == [HeadOf(first)] + Heads(rest)
  {
    assert ([first] + rest)[1..] == rest;
  }
}
