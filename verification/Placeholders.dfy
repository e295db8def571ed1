/** Filling the marks of a text one kind after another, each over the whole text.  A value
    that goes in early may therefore hold marks that are filled, or left, later. */
module Placeholders {
  import opened Prelude

  /** What stands for `@@KEY@@`. */
  datatype Slot = Slot(key: string, value: string)

  predicate IsKeyChar(c: char) {
    'A' <= c <= 'Z' || c == '_'
  }

  lemma KeyChars(c: char)
    ensures IsKeyChar(c) <==> 65 <= c as int <= 90 || c as int == 95
  {
  }

  predicate IsKey(key: string) {
    key != "" && forall i :: 0 <= i < |key| ==> IsKeyChar(key[i])
  }

  function Mark(key: string): string {
    "@@" + key + "@@"
  }

  predicate StartsWith(s: string, prefix: string) {
    |prefix| <= |s| && s[..|prefix|] == prefix
  }

  /** Every occurrence from the left, none overlapping another. */
  function Replaced(s: string, mark: string, value: string): string
    requires mark != ""
    decreases |s|
  {
    if s == "" then ""
    else if StartsWith(s, mark) then value + Replaced(s[|mark|..], mark, value)
    else [s[0]] + Replaced(s[1..], mark, value)
  }

  function Filled(text: string, slots: seq<Slot>): string
    decreases |slots|
  {
    if slots == [] then text
    else Filled(Replaced(text, Mark(slots[0].key), slots[0].value), slots[1..])
  }

  predicate MarkAt(s: string, i: int, j: int) {
    && 0 <= i && i + 2 < j && j + 2 <= |s|
    && s[i] == '@' && s[i + 1] == '@' && s[j] == '@' && s[j + 1] == '@'
    && forall k :: i + 2 <= k < j ==> IsKeyChar(s[k])
  }

  /** Some mark stands in the text, whether its key is known or not. */
  predicate HasMark(s: string) {
    exists i, j :: 0 <= i < j < |s| && MarkAt(s, i, j)
  }

  predicate Keyed(slots: seq<Slot>) {
    forall i :: 0 <= i < |slots| ==> IsKey(slots[i].key)
  }

  /** The loop over the slots. */
  method Fill(text: string, slots: seq<Slot>) returns (rendered: string)
    ensures rendered == Filled(text, slots)
  {
    rendered := text;
    for i := 0 to |slots|
      invariant Filled(rendered, slots[i..]) == Filled(text, slots)
    {
      assert slots[i..][0] == slots[i] && slots[i..][1..] == slots[i + 1..];
      rendered := Replaced(rendered, Mark(slots[i].key), slots[i].value);
    }
  }

  /** Two at signs on either side of a key, which is not empty. */
  lemma MarkAtExactly(s: string, i: nat, j: nat)
    requires i + 2 <= j && j + 2 <= |s|
    ensures MarkAt(s, i, j) <==> IsKey(s[i + 2..j]) && s[i..j + 2] == Mark(s[i + 2..j])
  {
    var key := s[i + 2..j];
    assert forall k :: 0 <= k < |key| ==> key[k] == s[i + 2 + k];
    assert s[i..j + 2] == s[i..i + 2] + key + s[j..j + 2];
    if MarkAt(s, i, j) {
      assert s[i..i + 2] == "@@" && s[j..j + 2] == "@@";
    }
    if IsKey(key) && s[i..j + 2] == Mark(key) {
      var m := Mark(key);
      assert s[i] == m[0] && s[i + 1] == m[1] && s[j] == m[j - i] && s[j + 1] == m[j + 1 - i];
      forall k | i + 2 <= k < j ensures IsKeyChar(s[k]) {
        assert key[k - i - 2] == s[k];
      }
    }
  }

  // --- Parts of a text -----------------------------------------------------

  lemma StartsApart(a: string, c: char, b: string, mark: string)
    ensures StartsWith(a, mark) ==> |mark| <= |a| && StartsWith(a + [c] + b, mark)
    ensures StartsWith(a + [c] + b, mark) ==> StartsWith(a, mark) || c in mark
  {
    var s := a + [c] + b;
    assert s[..|a|] == a && s[|a|] == c;
    if StartsWith(a, mark) {
      assert s[..|mark|] == a[..|mark|];
    }
    if StartsWith(s, mark) {
      if |mark| <= |a| {
        assert s[..|mark|] == a[..|mark|];
      } else {
        assert s[..|mark|][|a|] == mark[|a|];
      }
    }
  }

  lemma Rest(a: string, c: char, b: string, n: nat)
    requires n <= |a|
    ensures (a + [c] + b)[n..] == a[n..] + [c] + b
  {
  }

  /** A character that no mark holds keeps what stands before it and behind it apart. */
  lemma {:induction false} ReplacedApart(a: string, c: char, b: string, mark: string, value: string)
    requires mark != "" && c !in mark
    ensures Replaced(a + [c] + b, mark, value) == Replaced(a, mark, value) + [c] + Replaced(b, mark, value)
    decreases |a|
  {
    hide StartsWith, Replaced;
    StartsApart(a, c, b, mark);
    OneStep(a + [c] + b, mark, value);
    if a == "" {
      assert (a + [c] + b)[1..] == b;
      NothingReplaced(mark, value);
    } else {
      OneStep(a, mark, value);
      var n := if StartsWith(a, mark) then |mark| else 1;
      var head := if StartsWith(a, mark) then value else [a[0]];
      Rest(a, c, b, n);
      ReplacedApart(a[n..], c, b, mark, value);
      assert (a + [c] + b)[0] == a[0];
      Regroup4(head, Replaced(a[n..], mark, value), [c], Replaced(b, mark, value));
    }
  }

  lemma OneStep(s: string, mark: string, value: string)
    requires mark != "" && s != ""
    ensures StartsWith(s, mark) ==> |mark| <= |s| && Replaced(s, mark, value) == value + Replaced(s[|mark|..], mark, value)
    ensures !StartsWith(s, mark) ==> Replaced(s, mark, value) == [s[0]] + Replaced(s[1..], mark, value)
  {
  }

  lemma NothingReplaced(mark: string, value: string)
    requires mark != ""
    ensures Replaced("", mark, value) == ""
  {
  }

  lemma Regroup4(a: string, b: string, c: string, d: string)
    ensures a + (b + c + d) == a + b + c + d
  {
  }

  lemma {:induction false} FilledApart(a: string, c: char, b: string, slots: seq<Slot>)
    requires Keyed(slots) && c != '@' && !IsKeyChar(c)
    ensures Filled(a + [c] + b, slots) == Filled(a, slots) + [c] + Filled(b, slots)
    decreases |slots|
  {
    if slots != [] {
      var mark, value := Mark(slots[0].key), slots[0].value;
      ReplacedApart(a, c, b, mark, value);
      FilledApart(Replaced(a, mark, value), c, Replaced(b, mark, value), slots[1..]);
    }
  }

  lemma {:induction false} FilledInTurn(text: string, first: seq<Slot>, more: seq<Slot>)
    ensures Filled(text, first + more) == Filled(Filled(text, first), more)
    decreases |first|
  {
    if first == [] {
      assert first + more == more;
    } else {
      assert (first + more)[1..] == first[1..] + more;
      FilledInTurn(Replaced(text, Mark(first[0].key), first[0].value), first[1..], more);
    }
  }

  ghost predicate PartAt(part: string, s: string, at: nat) {
    at + |part| <= |s| && forall k :: 0 <= k < |part| ==> part[k] == s[at + k]
  }

  /** One text stands in another. */
  ghost predicate Within(part: string, s: string) {
    exists at :: PartAt(part, s, at)
  }

  lemma WithinTrans(a: string, b: string, c: string)
    requires Within(a, b) && Within(b, c)
    ensures Within(a, c)
  {
    var i: nat :| PartAt(a, b, i);
    var j: nat :| PartAt(b, c, j);
    forall k | 0 <= k < |a| ensures a[k] == c[j + i + k] {
      assert b[i + k] == c[j + (i + k)];
    }
    assert PartAt(a, c, j + i);
  }

  lemma MarkWithin(part: string, s: string)
    requires Within(part, s) && HasMark(part)
    ensures HasMark(s)
  {
    var n: nat :| PartAt(part, s, n);
    var i, j :| 0 <= i < j < |part| && MarkAt(part, i, j);
    forall k | n + i + 2 <= k < n + j ensures IsKeyChar(s[k]) {
      assert part[k - n] == s[n + (k - n)];
    }
    assert MarkAt(s, n + i, n + j);
  }

  /** A character that no mark holds divides no mark. */
  lemma MarksApart(a: string, c: char, b: string)
    requires c != '@' && !IsKeyChar(c)
    ensures HasMark(a + [c] + b) <==> HasMark(a) || HasMark(b)
  {
    var s := a + [c] + b;
    assert PartAt(a, s, 0) && PartAt(b, s, |a| + 1);
    if HasMark(a) {
      MarkWithin(a, s);
    }
    if HasMark(b) {
      MarkWithin(b, s);
    }
    if HasMark(s) {
      MarkOnOneSide(a, c, b);
    }
  }

  lemma OutsideMark(s: string, i: int, j: int, k: nat)
    requires MarkAt(s, i, j) && k < |s| && s[k] != '@' && !IsKeyChar(s[k])
    ensures k < i || j + 2 <= k
  {
  }

  lemma MarkInPart(part: string, s: string, n: nat, i: int, j: int)
    requires PartAt(part, s, n) && MarkAt(s, i, j) && n <= i && j + 2 <= n + |part|
    ensures HasMark(part)
  {
    forall k | i - n <= k < j + 2 - n ensures part[k] == s[n + k] {
    }
    assert MarkAt(part, i - n, j - n);
  }

  lemma EitherSide(a: string, b: string, s: string, at: nat)
    requires PartAt(a, s, 0) && PartAt(b, s, at + 1) && |a| == at && |s| == at + 1 + |b| && HasMark(s)
    requires s[at] != '@' && !IsKeyChar(s[at])
    ensures HasMark(a) || HasMark(b)
  {
    var i, j :| 0 <= i < j < |s| && MarkAt(s, i, j);
    hide MarkAt, PartAt, IsKeyChar;
    OutsideMark(s, i, j, at);
    MarkBounds(s, i, j);
    if j + 2 <= at {
      MarkInPart(a, s, 0, i, j);
    } else {
      MarkInPart(b, s, at + 1, i, j);
    }
  }

  lemma MarkBounds(s: string, i: int, j: int)
    requires MarkAt(s, i, j)
    ensures 0 <= i && j + 2 <= |s|
  {
  }

  lemma MarkOnOneSide(a: string, c: char, b: string)
    requires c != '@' && !IsKeyChar(c) && HasMark(a + [c] + b)
    ensures HasMark(a) || HasMark(b)
  {
    var s := a + [c] + b;
    assert s[|a|] == c && PartAt(a, s, 0) && PartAt(b, s, |a| + 1);
    EitherSide(a, b, s, |a|);
  }

  // --- What filling leaves alone -------------------------------------------

  lemma {:induction false} UnmarkedIsKept(s: string, key: string, value: string)
    requires IsKey(key) && !HasMark(s)
    ensures Replaced(s, Mark(key), value) == s
    decreases |s|
  {
    if s != "" {
      MarkIsSeen(s, key);
      TailUnmarked(s);
      UnmarkedIsKept(s[1..], key, value);
    }
  }

  lemma MarkIsSeen(s: string, key: string)
    requires IsKey(key)
    ensures StartsWith(s, Mark(key)) ==> HasMark(s)
  {
    var m := Mark(key);
    if StartsWith(s, m) {
      assert forall k :: 0 <= k < |m| ==> s[..|m|][k] == s[k];
      assert MarkAt(s, 0, 2 + |key|);
    }
  }

  lemma TailUnmarked(s: string)
    requires s != "" && !HasMark(s)
    ensures !HasMark(s[1..])
  {
    assert PartAt(s[1..], s, 1);
    if HasMark(s[1..]) {
      MarkWithin(s[1..], s);
    }
  }

  /** A text without any mark comes through as it is, whatever the slots hold. */
  lemma {:induction false} FillingKeepsUnmarked(s: string, slots: seq<Slot>)
    requires Keyed(slots) && !HasMark(s)
    ensures Filled(s, slots) == s
    decreases |slots|
  {
    if slots != [] {
      UnmarkedIsKept(s, slots[0].key, slots[0].value);
      FillingKeepsUnmarked(s, slots[1..]);
    }
  }

  /** Nowhere two of them stand before a key. */
  predicate NoOpening(s: string) {
    forall i :: 0 <= i && i + 2 < |s| && s[i] == '@' && s[i + 1] == '@' ==> !IsKeyChar(s[i + 2])
  }

  lemma MarkOpens(s: string, key: string)
    requires IsKey(key)
    ensures StartsWith(s, Mark(key)) ==> !NoOpening(s)
  {
    if StartsWith(s, Mark(key)) {
      var m := s[..|Mark(key)|];
      assert s[0] == m[0] && s[1] == m[1] && s[2] == m[2];
    }
  }

  lemma {:induction false} UnopenedIsKept(s: string, key: string, value: string)
    requires IsKey(key) && NoOpening(s)
    ensures Replaced(s, Mark(key), value) == s
    decreases |s|
  {
    if s != "" {
      MarkOpens(s, key);
      UnopenedIsKept(s[1..], key, value);
    }
  }

  lemma NoMarkWithoutAt(s: string)
    requires '@' !in s
    ensures !HasMark(s)
  {
  }

  lemma MarkAlone(own: string, key: string, value: string)
    requires IsKey(own) && IsKey(key)
    ensures Replaced(Mark(own), Mark(key), value) == if key == own then value else Mark(own)
  {
    var s := Mark(own);
    if key == own {
      assert s[..|s|] == s && s[|s|..] == "";
    } else {
      MarksStartAlike(own, key);
      assert NoOpening(s[1..]);
      UnopenedIsKept(s[1..], key, value);
    }
  }

  /** Some text and one mark behind it: a replacement fills the mark if it is its own. */
  lemma {:induction false} OneMarkIsFilled(text: string, own: string, key: string, value: string)
    requires '@' !in text && IsKey(own) && IsKey(key)
    ensures Replaced(text + Mark(own), Mark(key), value) == text + (if key == own then value else Mark(own))
    decreases |text|
  {
    hide IsKey;
    var s := text + Mark(own);
    if text == "" {
      assert s == Mark(own);
      MarkAlone(own, key, value);
    } else {
      assert s[1..] == text[1..] + Mark(own);
      OneMarkIsFilled(text[1..], own, key, value);
      FirstIsNoMark(s, key);
    }
  }

  lemma FirstIsNoMark(s: string, key: string)
    requires s != "" && s[0] != '@'
    ensures !StartsWith(s, Mark(key))
  {
    assert Mark(key)[0] == '@';
  }

  lemma MarksStartAlike(own: string, key: string)
    requires IsKey(key)
    ensures StartsWith(Mark(own), Mark(key)) ==> own == key || '@' in own
  {
    var a, b := Mark(own), Mark(key);
    assert forall k :: 0 <= k < |key| ==> b[2 + k] == key[k];
    if StartsWith(a, b) {
      assert forall k :: 0 <= k < |b| ==> a[..|b|][k] == a[k] && a[k] == b[k];
      if |key| < |own| {
        assert own[|key|] == a[2 + |key|] == b[2 + |key|];
      } else {
        assert forall k :: 0 <= k < |own| ==> a[2 + k] == own[k];
      }
    }
  }

  /** The value of the first slot with this key. */
  function ValueOf(slots: seq<Slot>, key: string): Option<string> {
    if slots == [] then None else if slots[0].key == key then Some(slots[0].value) else ValueOf(slots[1..], key)
  }

  lemma {:induction false} ValueAt(slots: seq<Slot>, k: nat)
    requires k < |slots| && forall i :: 0 <= i < k ==> slots[i].key != slots[k].key
    ensures ValueOf(slots, slots[k].key) == Some(slots[k].value)
  {
    if k > 0 {
      ValueAt(slots[1..], k - 1);
    }
  }

  lemma {:induction false} NoValue(slots: seq<Slot>, key: string)
    requires forall i :: 0 <= i < |slots| ==> slots[i].key != key
    ensures ValueOf(slots, key) == None
  {
    if slots != [] {
      NoValue(slots[1..], key);
    }
  }

  /** A mark no slot names is left. */
  lemma {:induction false} UnknownMarkStays(text: string, own: string, slots: seq<Slot>)
    requires '@' !in text && IsKey(own) && Keyed(slots) && ValueOf(slots, own) == None
    ensures Filled(text + Mark(own), slots) == text + Mark(own)
    decreases |slots|
  {
    if slots != [] {
      OneMarkIsFilled(text, own, slots[0].key, slots[0].value);
      UnknownMarkStays(text, own, slots[1..]);
    }
  }

  /** A mark some slot names is filled; a value without `@` then stays. */
  lemma {:induction false} KnownMarkIsFilled(text: string, own: string, slots: seq<Slot>)
    requires '@' !in text && IsKey(own) && Keyed(slots)
    requires ValueOf(slots, own).Some? && '@' !in ValueOf(slots, own).value
    ensures Filled(text + Mark(own), slots) == text + ValueOf(slots, own).value
    decreases |slots|
  {
    OneMarkIsFilled(text, own, slots[0].key, slots[0].value);
    if slots[0].key == own {
      NoMarkWithoutAt(text + slots[0].value);
      FillingKeepsUnmarked(text + slots[0].value, slots[1..]);
    } else {
      KnownMarkIsFilled(text, own, slots[1..]);
    }
  }

  // --- Several marks -------------------------------------------------------

  /** The pieces with this text between each two of them. */
  function Interleaved(pieces: seq<string>, between: string): string {
    if pieces == [] then ""
    else if |pieces| == 1 then pieces[0]
    else pieces[0] + between + Interleaved(pieces[1..], between)
  }

  lemma {:induction false} PassedBy(piece: string, rest: string, key: string, value: string)
    requires '@' !in piece
    ensures Replaced(piece + rest, Mark(key), value) == piece + Replaced(rest, Mark(key), value)
  {
    if piece == "" {
      assert piece + rest == rest;
    } else {
      var s := piece + rest;
      assert s[0] == piece[0] && s[1..] == piece[1..] + rest;
      FirstIsNoMark(s, key);
      PassedBy(piece[1..], rest, key, value);
    }
  }

  lemma MarkInFront(rest: string, key: string, value: string)
    ensures Replaced(Mark(key) + rest, Mark(key), value) == value + Replaced(rest, Mark(key), value)
  {
    var s, m := Mark(key) + rest, Mark(key);
    assert s[..|m|] == m && s[|m|..] == rest;
  }

  lemma Regroup(a: string, b: string, c: string)
    ensures a + b + c == a + (b + c)
  {
  }

  /** Every mark between the pieces is filled and the pieces stay as they are. */
  lemma {:induction false} EveryMarkIsFilled(pieces: seq<string>, key: string, value: string)
    requires forall i :: 0 <= i < |pieces| ==> '@' !in pieces[i]
    ensures Replaced(Interleaved(pieces, Mark(key)), Mark(key), value) == Interleaved(pieces, value)
    ensures |pieces| == 2 ==> Interleaved(pieces, value) == pieces[0] + value + pieces[1]
  {
    hide Replaced;
    NothingReplaced(Mark(key), value);
    if |pieces| == 1 {
      PassedBy(pieces[0], "", key, value);
      assert pieces[0] + "" == pieces[0];
    } else if pieces != [] {
      var rest := Interleaved(pieces[1..], Mark(key));
      EveryMarkIsFilled(pieces[1..], key, value);
      PassedBy(pieces[0], Mark(key) + rest, key, value);
      MarkInFront(rest, key, value);
      Regroup(pieces[0], Mark(key), rest);
      Regroup(pieces[0], value, Interleaved(pieces[1..], value));
    }
  }
}
