/** The command line built for a remote shell, against that shell's own quoting rules
    (IEEE Std 1003.1, Shell Command Language, section 2.2). */
module ShellQuoting {
  import opened Prelude
  import opened Placeholders

  // --- Building the command ------------------------------------------------

  /** Every single quote becomes: close, an escaped quote, open. */
  function Escape(value: string): string {
    if value == "" then ""
    else (if value[0] == '\'' then "'\\''" else [value[0]]) + Escape(value[1..])
  }

  function Quote(value: string): string {
    "'" + Escape(value) + "'"
  }

  function Words(command: seq<string>, stage: string): seq<string> {
    if command == [] then [] else [Replaced(command[0], Mark("STAGE"), stage)] + Words(command[1..], stage)
  }

  function JoinQuoted(words: seq<string>): string {
    if words == [] then ""
    else if |words| == 1 then Quote(words[0])
    else Quote(words[0]) + " " + JoinQuoted(words[1..])
  }

  datatype Login = Root | SudoWithPassword | SudoWithout

  /** The password itself goes to standard input. */
  function Invocation(login: Login, command: seq<string>, stage: string): string {
    var quoted := JoinQuoted(Words(command, stage));
    match login
    case Root => quoted
    case SudoWithPassword => "sudo -S -p '' -- " + quoted
    case SudoWithout => "sudo -n -- " + quoted
  }

  // --- Reading it as a shell does ------------------------------------------

  datatype Mode = BetweenWords | InWord | InSingle | InDouble

  /** Unquoted, these are operators, expansions, patterns, comments, or end the command. */
  predicate IsSpecial(c: char) {
    c in {'|', '&', ';', '<', '>', '(', ')', '$', '`', '*', '?', '[', '#', '~', '=', '%', '{', '}', '!', '\n'}
  }

  /** What a backslash still escapes between double quotes. */
  predicate EscapedInDouble(c: char) {
    c in {'$', '`', '"', '\\'}
  }

  /** The words of one simple command; None where the text is more than literal words or
      a quote stays open.  A quoted part belongs to the word around it. */
  function Scan(s: string, mode: Mode, current: string, words: seq<string>): Option<seq<string>>
    decreases |s|
  {
    if s == "" then
      match mode
      case BetweenWords => Some(words)
      case InWord => Some(words + [current])
      case _ => None
    else
      var c, rest := s[0], s[1..];
      match mode
      case InSingle =>
        if c == '\'' then Scan(rest, InWord, current, words)
        else Scan(rest, InSingle, current + [c], words)
      case InDouble =>
        if c == '"' then Scan(rest, InWord, current, words)
        else if c == '$' || c == '`' then None
        else if c == '\\' && rest != "" && EscapedInDouble(rest[0]) then Scan(rest[1..], InDouble, current + [rest[0]], words)
        else if c == '\\' && rest != "" && rest[0] == '\n' then Scan(rest[1..], InDouble, current, words)
        else Scan(rest, InDouble, current + [c], words)
      case _ =>
        if c == ' ' || c == '\t' then
          Scan(rest, BetweenWords, "", if mode == InWord then words + [current] else words)
        else if c == '\'' then Scan(rest, InSingle, current, words)
        else if c == '"' then Scan(rest, InDouble, current, words)
        else if c == '\\' then
          if rest == "" then None
          else if rest[0] == '\n' then Scan(rest[1..], mode, current, words)
          else Scan(rest[1..], InWord, current + [rest[0]], words)
        else if IsSpecial(c) then None
        else Scan(rest, InWord, current + [c], words)
  }

  function Tokenize(line: string): Option<seq<string>> {
    Scan(line, BetweenWords, "", [])
  }

  // --- The round trip ------------------------------------------------------

  lemma {:induction false} ScanEscaped(value: string, rest: string, current: string, words: seq<string>)
    ensures Scan(Escape(value) + "'" + rest, InSingle, current, words) == Scan(rest, InWord, current + value, words)
  {
    if value == "" {
      assert Escape(value) + "'" + rest == "'" + rest;
      assert ("'" + rest)[1..] == rest;
      assert current + value == current;
    } else {
      var tail := Escape(value[1..]) + "'" + rest;
      ScanEscaped(value[1..], rest, current + [value[0]], words);
      assert current + [value[0]] + value[1..] == current + value;
      if value[0] == '\'' {
        assert Escape(value) + "'" + rest == "'\\''" + tail;
        ScanQuotedQuote(tail, current, words);
      } else {
        var text := [value[0]] + tail;
        assert Escape(value) + "'" + rest == text;
        assert text[0] == value[0] && text[1..] == tail;
      }
    }
  }

  /** Close, escaped quote, open: one quote in the middle of the word. */
  lemma ScanQuotedQuote(tail: string, current: string, words: seq<string>)
    ensures Scan("'\\''" + tail, InSingle, current, words) == Scan(tail, InSingle, current + ['\''], words)
  {
    var a := "'\\''" + tail;
    var b := "\\''" + tail;
    var c := "'" + tail;
    assert a[0] == '\'' && a[1..] == b;
    assert b[0] == '\\' && b[1..][0] == '\'' && b[1..][1..] == c;
    assert c[0] == '\'' && c[1..] == tail;
    assert Scan(a, InSingle, current, words) == Scan(b, InWord, current, words);
    assert Scan(b, InWord, current, words) == Scan(c, InWord, current + ['\''], words);
  }

  lemma ScanQuoted(value: string, rest: string, words: seq<string>)
    ensures Scan(Quote(value) + rest, BetweenWords, "", words) == Scan(rest, InWord, value, words)
  {
    var text := Quote(value) + rest;
    assert text[0] == '\'' && text[1..] == Escape(value) + "'" + rest;
    ScanEscaped(value, rest, "", words);
    assert "" + value == value;
  }

  lemma {:induction false} ScanJoined(values: seq<string>, words: seq<string>)
    ensures Scan(JoinQuoted(values), BetweenWords, "", words) == Some(words + values)
  {
    if values == [] {
      assert words + values == words;
    } else if |values| == 1 {
      ScanQuoted(values[0], "", words);
      assert Quote(values[0]) + "" == Quote(values[0]);
      assert values == [values[0]];
    } else {
      var tail := JoinQuoted(values[1..]);
      ScanQuoted(values[0], " " + tail, words);
      assert Quote(values[0]) + " " + tail == Quote(values[0]) + (" " + tail);
      assert (" " + tail)[0] == ' ' && (" " + tail)[1..] == tail;
      ScanJoined(values[1..], words + [values[0]]);
      assert words + [values[0]] + values[1..] == words + values;
    }
  }

  /** The shell gives back exactly the words that were quoted: empty ones, blanks, line
      breaks, quotes and operators among them. */
  lemma QuotingRoundTrips(words: seq<string>)
    ensures Tokenize(JoinQuoted(words)) == Some(words)
  {
    ScanJoined(words, []);
    assert [] + words == words;
  }

  /** Different word lists never make the same command line. */
  lemma QuotingIsInjective(a: seq<string>, b: seq<string>)
    requires JoinQuoted(a) == JoinQuoted(b)
    ensures a == b
  {
    QuotingRoundTrips(a);
    QuotingRoundTrips(b);
  }

  function SudoWords(login: Login): seq<string> {
    match login
    case Root => []
    case SudoWithPassword => ["sudo", "-S", "-p", "", "--"]
    case SudoWithout => ["sudo", "-n", "--"]
  }

  /** A run of plain characters and the blank behind it. */
  lemma {:induction false} ScanPlain(word: string, rest: string, current: string, words: seq<string>)
    requires forall i :: 0 <= i < |word| ==> !IsSpecial(word[i]) && word[i] !in {' ', '\t', '\'', '"', '\\'}
    ensures Scan(word + " " + rest, InWord, current, words) == Scan(rest, BetweenWords, "", words + [current + word])
  {
    var text := word + " " + rest;
    if word == "" {
      assert text[0] == ' ' && text[1..] == rest;
      assert current + word == current;
    } else {
      assert text[0] == word[0] && text[1..] == word[1..] + " " + rest;
      ScanPlain(word[1..], rest, current + [word[0]], words);
      assert current + [word[0]] + word[1..] == current + word;
    }
  }

  lemma ScanFirst(word: string, rest: string, words: seq<string>)
    requires word != "" && forall i :: 0 <= i < |word| ==> !IsSpecial(word[i]) && word[i] !in {' ', '\t', '\'', '"', '\\'}
    ensures Scan(word + " " + rest, BetweenWords, "", words) == Scan(rest, BetweenWords, "", words + [word])
  {
    var text := word + " " + rest;
    assert text[0] == word[0] && text[1..] == word[1..] + " " + rest;
    ScanPlain(word[1..], rest, [word[0]], words);
    assert [word[0]] + word[1..] == word;
    assert "" + [word[0]] == [word[0]];
  }

  lemma ScanEmptyQuotes(rest: string, words: seq<string>)
    ensures Scan("'' " + rest, BetweenWords, "", words) == Scan(rest, BetweenWords, "", words + [""])
  {
    ScanQuoted("", " " + rest, words);
    assert Quote("") + (" " + rest) == "'' " + rest;
    assert (" " + rest)[0] == ' ' && (" " + rest)[1..] == rest;
  }

  lemma ScanSudoWithPassword(rest: string)
    ensures Scan("sudo -S -p '' -- " + rest, BetweenWords, "", []) == Scan(rest, BetweenWords, "", SudoWords(SudoWithPassword))
  {
    hide Scan;
    var d := "--" + " " + rest;
    var c := "'' " + d;
    var b := "-p" + " " + c;
    var a := "-S" + " " + b;
    assert "sudo -S -p '' -- " + rest == "sudo" + " " + a;
    ScanFirst("sudo", a, []);
    ScanFirst("-S", b, [] + ["sudo"]);
    ScanFirst("-p", c, [] + ["sudo"] + ["-S"]);
    ScanEmptyQuotes(d, [] + ["sudo"] + ["-S"] + ["-p"]);
    ScanFirst("--", rest, [] + ["sudo"] + ["-S"] + ["-p"] + [""]);
    assert [] + ["sudo"] + ["-S"] + ["-p"] + [""] + ["--"] == SudoWords(SudoWithPassword);
  }

  lemma ScanSudoWithout(rest: string)
    ensures Scan("sudo -n -- " + rest, BetweenWords, "", []) == Scan(rest, BetweenWords, "", SudoWords(SudoWithout))
  {
    hide Scan;
    var b := "--" + " " + rest;
    var a := "-n" + " " + b;
    assert "sudo -n -- " + rest == "sudo" + " " + a;
    ScanFirst("sudo", a, []);
    ScanFirst("-n", b, [] + ["sudo"]);
    ScanFirst("--", rest, [] + ["sudo"] + ["-n"]);
    assert [] + ["sudo"] + ["-n"] + ["--"] == SudoWords(SudoWithout);
  }

  /** What runs on the host, as root or through sudo: the command's own words, with the
      staging directory put in, and no more. */
  lemma InvocationRunsTheCommand(login: Login, command: seq<string>, stage: string)
    ensures Tokenize(Invocation(login, command, stage)) == Some(SudoWords(login) + Words(command, stage))
  {
    hide Scan, JoinQuoted, Words;
    var quoted := JoinQuoted(Words(command, stage));
    ScanJoined(Words(command, stage), SudoWords(login));
    match login
    case Root =>
    case SudoWithPassword => ScanSudoWithPassword(quoted);
    case SudoWithout => ScanSudoWithout(quoted);
  }

  /** Each word has the staging directory wherever it holds the marker, and is itself
      otherwise. */
  lemma StageIsPutIn(before: seq<string>, pieces: seq<string>, after: seq<string>, stage: string)
    requires forall i :: 0 <= i < |pieces| ==> '@' !in pieces[i]
    ensures Words(before + [Interleaved(pieces, "@@STAGE@@")] + after, stage)
            == Words(before, stage) + [Interleaved(pieces, stage)] + Words(after, stage)
  {
    hide Replaced, Words, Interleaved;
    assert "@@STAGE@@" == Mark("STAGE");
    var word := Interleaved(pieces, "@@STAGE@@");
    EveryMarkIsFilled(pieces, "STAGE", stage);
    WordsConcat(before + [word], after, stage);
    WordsConcat(before, [word], stage);
    OneWord(word, stage);
  }

  lemma OneWord(word: string, stage: string)
    ensures Words([word], stage) == [Replaced(word, Mark("STAGE"), stage)]
  {
    hide Replaced;
    assert [word][1..] == [];
  }

  lemma {:induction false} WordsConcat(a: seq<string>, b: seq<string>, stage: string)
    ensures Words(a + b, stage) == Words(a, stage) + Words(b, stage)
  {
    hide Replaced;
    if a == [] {
      assert a + b == b;
    } else {
      assert (a + b)[1..] == a[1..] + b;
      WordsConcat(a[1..], b, stage);
    }
  }

  /** Between double quotes everything is kept, blanks and single quotes among it, up to the
      next of them, but for what expands there and for backslashes. */
  lemma {:induction false} DoubleQuotedIsKept(text: string, rest: string, current: string, words: seq<string>)
    requires forall i :: 0 <= i < |text| ==> text[i] !in {'"', '$', '`', '\\'}
    ensures Scan(text + "\"" + rest, InDouble, current, words) == Scan(rest, InWord, current + text, words)
  {
    var s := text + "\"" + rest;
    if text == "" {
      assert s[0] == '"' && s[1..] == rest && current + text == current;
    } else {
      assert s[0] == text[0] && s[1..] == text[1..] + "\"" + rest;
      DoubleQuotedIsKept(text[1..], rest, current + [text[0]], words);
      assert current + [text[0]] + text[1..] == current + text;
    }
  }

  /** A backslash takes what follows it, and a line break away with it; between double
      quotes it does so before four characters and the line break alone, and is itself
      before any other.  An expansion is no literal word. */
  lemma BackslashesRead(c: char, rest: string, mode: Mode, current: string, words: seq<string>)
    ensures var s := ['\\', c] + rest;
      && (mode == InDouble && c in {'$', '`', '"', '\\'} ==>
            Scan(s, mode, current, words) == Scan(rest, InDouble, current + [c], words))
      && (mode == InDouble && c == '\n' ==> Scan(s, mode, current, words) == Scan(rest, InDouble, current, words))
      && (mode == InDouble && c !in {'$', '`', '"', '\\', '\n'} ==>
            Scan(s, mode, current, words) == Scan([c] + rest, InDouble, current + ['\\'], words))
      && (mode == InSingle ==> Scan(s, mode, current, words) == Scan([c] + rest, InSingle, current + ['\\'], words))
      && (mode in {BetweenWords, InWord} && c == '\n' ==>
            Scan(s, mode, current, words) == Scan(rest, mode, current, words))
      && (mode in {BetweenWords, InWord} && c != '\n' ==>
            Scan(s, mode, current, words) == Scan(rest, InWord, current + [c], words))
    ensures mode == InDouble && c in {'$', '`'} ==> Scan([c] + rest, mode, current, words) == None
    ensures Scan(['\\'], mode, current, words) == None
  {
    var s := ['\\', c] + rest;
    assert s[0] == '\\' && s[1..] == [c] + rest && s[1..][0] == c && s[1..][1..] == rest;
    assert ([c] + rest)[0] == c;
    var last := ['\\'];
    assert last[1..] == "";
  }

  /** Blanks and tabs part words, however many there are; a quote opens a part of a word. */
  lemma BlanksPart(c: char, rest: string, current: string, words: seq<string>)
    ensures c in {' ', '\t'} ==>
      && Scan([c] + rest, InWord, current, words) == Scan(rest, BetweenWords, "", words + [current])
      && Scan([c] + rest, BetweenWords, current, words) == Scan(rest, BetweenWords, "", words)
    ensures c == '"' ==>
      && Scan([c] + rest, InWord, current, words) == Scan(rest, InDouble, current, words)
      && Scan([c] + rest, BetweenWords, current, words) == Scan(rest, InDouble, current, words)
    ensures Scan("", InDouble, current, words) == None && Scan("", InSingle, current, words) == None
  {
    assert ([c] + rest)[0] == c && ([c] + rest)[1..] == rest;
  }

  /** Without quoting the words do not survive: a blank splits, an operator ends the
      command, a quote stays open. */
  lemma UnquotedWordsAreLost()
    ensures Tokenize("a" + " " + "b") == Some(["a", "b"])
    ensures Tokenize("a;b") == None
    ensures Tokenize("a'b") == None
  {
    ScanFirst("a", "b", []);
    assert "b"[1..] == "" && [] + ["a"] + ["b"] == ["a", "b"];
    assert "" + ['b'] == "b";
    assert "a;b"[1..] == ";b";
    assert "a'b"[1..] == "'b" && "'b"[1..] == "b";
  }

  lemma EndOfWord(current: string)
    ensures Scan("", InWord, current, []) == Some([current])
  {
    assert [] + [current] == [current];
  }

  /** And double quotes and backslashes go: the shell takes them for its own. */
  lemma QuotesAndBackslashesGo()
    ensures Tokenize("\"a b\"") == Some(["a b"]) && Tokenize("\\b") == Some(["b"])
  {
    hide Scan;
    var t, behind := "a b", "a b" + "\"" + "";
    assert t[0] == 'a' && t[1] == ' ' && t[2] == 'b';
    assert "\"a b\"" == ['"'] + behind && "" + t == t;
    BlanksPart('"', behind, "", []);
    DoubleQuotedIsKept(t, "", "", []);
    EndOfWord(t);
    assert "\\b" == ['\\', 'b'] + "" && "" + ['b'] == "b";
    BackslashesRead('b', "", BetweenWords, "", []);
    EndOfWord("b");
  }
}
