/** The shared file of pinned host keys: pinning never overwrites. */
module KnownHosts {
  import opened Prelude
  import EnvFile

  datatype HostKey = HostKey(algorithm: string, blob: string)

  /** The host field of an entry: a plain list, a salted hash, a hash that does not decode,
      or one with a part missing, on which reading breaks off. */
  datatype Field =
    | Plain(hosts: seq<string>)
    | Hashed(salt: string, digest: string)
    | Undecodable
    | Broken

  /** A line as the readers see it; `key` is None where the rest is not a key. */
  datatype Line =
    | Empty
    | Ignored
    | Entry(field: Field, key: Option<HostKey>)

  /** `terminated` says whether the last line ends with a line break. */
  datatype File = File(lines: seq<Line>, terminated: bool) {
    /** An empty last line exists only by its line break. */
    predicate Valid() {
      (lines == [] ==> terminated) && (lines != [] && lines[|lines| - 1] == Empty ==> terminated)
    }
  }

  type Hmac = (string, string) -> string

  ghost predicate CollisionFree(hmac: Hmac) {
    forall salt, p, q :: hmac(salt, p) == hmac(salt, q) ==> p == q
  }

  predicate Matches(field: Field, pattern: string, hmac: Hmac) {
    match field
    case Plain(hosts) => pattern in hosts
    case Hashed(salt, digest) => hmac(salt, pattern) == digest
    case _ => false
  }

  predicate IsBroken(line: Line) {
    line.Entry? && line.field == Broken
  }

  predicate AnyBroken(lines: seq<Line>) {
    exists i :: 0 <= i < |lines| && IsBroken(lines[i])
  }

  /** The key a line pins for this host, if any. */
  function KeyFor(line: Line, pattern: string, hmac: Hmac): seq<HostKey> {
    if line.Entry? && Matches(line.field, pattern, hmac) && line.key.Some? then [line.key.value] else []
  }

  function KeysFor(lines: seq<Line>, pattern: string, hmac: Hmac): seq<HostKey> {
    if lines == [] then []
    else KeysFor(lines[..|lines| - 1], pattern, hmac) + KeyFor(lines[|lines| - 1], pattern, hmac)
  }

  function Blobs(keys: seq<HostKey>): set<string> {
    set k | k in keys :: k.blob
  }

  function Unknown(keys: seq<HostKey>, known: set<string>): seq<HostKey> {
    if keys == [] then []
    else Unknown(keys[..|keys| - 1], known) + if keys[|keys| - 1].blob in known then [] else [keys[|keys| - 1]]
  }

  datatype Outcome =
    | Pinned(written: seq<HostKey>)
    | Mismatch
    | NothingOffered
    | Unreadable

  function PinOutcome(lines: seq<Line>, pattern: string, keys: seq<HostKey>, hmac: Hmac): Outcome {
    if keys == [] then NothingOffered
    else if AnyBroken(lines) then Unreadable
    else
      var existing := KeysFor(lines, pattern, hmac);
      if exists e :: e in existing && e.blob !in Blobs(keys) then Mismatch
      else Pinned(Unknown(keys, Blobs(existing)))
  }

  /** New entries are hashed, each under its own salt. */
  function NewLines(keys: seq<HostKey>, salts: seq<string>, pattern: string, hmac: Hmac): seq<Line>
    requires |keys| <= |salts|
  {
    seq(|keys|, i requires 0 <= i < |keys| && |keys| <= |salts| =>
      Entry(Hashed(salts[i], hmac(salts[i], pattern)), Some(keys[i])))
  }

  /** A line break goes before the addition unless the last line is empty: after a
      terminated line that makes an empty one. */
  function Appended(file: File, added: seq<Line>): File {
    var spaced := if file.lines != [] && file.terminated && file.lines[|file.lines| - 1] != Empty
                  then file.lines + [Empty] else file.lines;
    File(spaced + added, true)
  }

  function AfterPin(file: File, pattern: string, keys: seq<HostKey>, salts: seq<string>, hmac: Hmac): File
    requires |keys| <= |salts|
  {
    var outcome := PinOutcome(file.lines, pattern, keys, hmac);
    if outcome.Pinned? && outcome.written != [] then
      UnknownIsShorter(keys, Blobs(KeysFor(file.lines, pattern, hmac)));
      Appended(file, NewLines(outcome.written, salts, pattern, hmac))
    else file
  }

  lemma {:induction false} UnknownIsShorter(keys: seq<HostKey>, known: set<string>)
    ensures |Unknown(keys, known)| <= |keys|
  {
    if keys != [] {
      UnknownIsShorter(keys[..|keys| - 1], known);
    }
  }

  predicate Names(line: Line, pattern: string, hmac: Hmac) {
    line.Entry? && Matches(line.field, pattern, hmac)
  }

  function Kept(lines: seq<Line>, pattern: string, hmac: Hmac): seq<Line> {
    if lines == [] then []
    else Kept(lines[..|lines| - 1], pattern, hmac)
         + if Names(lines[|lines| - 1], pattern, hmac) then [] else [lines[|lines| - 1]]
  }

  function AfterForget(file: File, pattern: string, hmac: Hmac): File {
    if AnyBroken(file.lines) then file else File(Kept(file.lines, pattern, hmac), true)
  }

  // --- The file ------------------------------------------------------------

  class Store {
    var file: File
    const hmac: Hmac

    ghost predicate Valid()
      reads this
    {
      file.Valid()
    }

    constructor (hmac: Hmac)
      ensures Valid() && file == File([], true) && this.hmac == hmac
    {
      this.hmac := hmac;
      file := File([], true);
    }

    /** None where a line cannot be read at all. */
    method Read(pattern: string) returns (keys: Option<seq<HostKey>>)
      ensures keys == if AnyBroken(file.lines) then None else Some(KeysFor(file.lines, pattern, hmac))
    {
      var found: seq<HostKey> := [];
      var lines := file.lines;
      for i := 0 to |lines|
        invariant found == KeysFor(lines[..i], pattern, hmac)
        invariant forall j :: 0 <= j < i ==> !IsBroken(lines[j])
      {
        assert lines[..i + 1][..i] == lines[..i];
        if lines[i].Entry? {
          if lines[i].field == Broken {
            return None;
          }
          if Matches(lines[i].field, pattern, hmac) && lines[i].key.Some? {
            found := found + [lines[i].key.value];
          }
        }
      }
      assert lines[..|lines|] == lines;
      return Some(found);
    }

    method Pin(pattern: string, keys: seq<HostKey>, salts: seq<string>) returns (outcome: Outcome)
      requires Valid() && |keys| <= |salts|
      modifies this`file
      ensures Valid()
      ensures outcome == old(PinOutcome(file.lines, pattern, keys, hmac))
      ensures file == old(AfterPin(file, pattern, keys, salts, hmac))
    {
      if keys == [] {
        return NothingOffered;
      }
      var read := Read(pattern);
      if read.None? {
        return Unreadable;
      }
      var existing := read.value;
      var offered := set k | k in keys :: k.blob;
      for i := 0 to |existing|
        invariant forall e :: e in existing[..i] ==> e.blob in offered
      {
        if existing[i].blob !in offered {
          return Mismatch;
        }
      }
      var known := set k | k in existing :: k.blob;
      var added := New(keys, known);
      if added != [] {
        file := Appended(file, NewLines(added, salts, pattern, hmac));
      }
      return Pinned(added);
    }

    method New(keys: seq<HostKey>, known: set<string>) returns (added: seq<HostKey>)
      ensures added == Unknown(keys, known) && |added| <= |keys|
    {
      added := [];
      for i := 0 to |keys|
        invariant added == Unknown(keys[..i], known) && |added| <= i
      {
        assert keys[..i + 1][..i] == keys[..i];
        if keys[i].blob !in known {
          added := added + [keys[i]];
        }
      }
      assert keys[..|keys|] == keys;
    }

    /** None where a line cannot be read; else how many lines went. */
    method Forget(pattern: string) returns (removed: Option<nat>)
      requires Valid()
      modifies this`file
      ensures Valid()
      ensures removed.None? <==> AnyBroken(old(file).lines)
      ensures removed.Some? ==> removed.value == |old(file).lines| - |file.lines|
      ensures file == AfterForget(old(file), pattern, hmac)
    {
      var kept: seq<Line> := [];
      var lines := file.lines;
      for i := 0 to |lines|
        invariant kept == Kept(lines[..i], pattern, hmac) && |kept| <= i
        invariant forall j :: 0 <= j < i ==> !IsBroken(lines[j])
      {
        assert lines[..i + 1][..i] == lines[..i];
        if IsBroken(lines[i]) {
          return None;
        }
        if !Names(lines[i], pattern, hmac) {
          kept := kept + [lines[i]];
        }
      }
      assert lines[..|lines|] == lines;
      file := File(kept, true);
      return Some(|lines| - |kept|);
    }
  }

  // --- The promises --------------------------------------------------------

  lemma {:induction false} KeysForConcat(a: seq<Line>, b: seq<Line>, pattern: string, hmac: Hmac)
    ensures KeysFor(a + b, pattern, hmac) == KeysFor(a, pattern, hmac) + KeysFor(b, pattern, hmac)
  {
    if b == [] {
      assert a + b == a;
    } else {
      var front := b[..|b| - 1];
      KeysForConcat(a, front, pattern, hmac);
      assert (a + b)[..|a + b| - 1] == a + front && (a + b)[|a + b| - 1] == b[|b| - 1];
    }
  }

  lemma {:induction false} NewLinesRead(
      keys: seq<HostKey>, salts: seq<string>, pattern: string, other: string, hmac: Hmac)
    requires |keys| <= |salts| && CollisionFree(hmac)
    ensures KeysFor(NewLines(keys, salts, pattern, hmac), other, hmac) == if other == pattern then keys else []
  {
    if keys != [] {
      var front := keys[..|keys| - 1];
      NewLinesRead(front, salts, pattern, other, hmac);
      var lines := NewLines(keys, salts, pattern, hmac);
      assert lines[..|lines| - 1] == NewLines(front, salts, pattern, hmac);
      var last := lines[|lines| - 1];
      assert last == Entry(Hashed(salts[|keys| - 1], hmac(salts[|keys| - 1], pattern)), Some(keys[|keys| - 1]));
      assert KeyFor(last, other, hmac) == if other == pattern then [keys[|keys| - 1]] else [];
    }
  }

  lemma AppendedReads(file: File, keys: seq<HostKey>, salts: seq<string>, pattern: string, other: string, hmac: Hmac)
    requires |keys| <= |salts| && CollisionFree(hmac)
    ensures KeysFor(Appended(file, NewLines(keys, salts, pattern, hmac)).lines, other, hmac)
            == KeysFor(file.lines, other, hmac) + if other == pattern then keys else []
  {
    var added := NewLines(keys, salts, pattern, hmac);
    NewLinesRead(keys, salts, pattern, other, hmac);
    KeysForConcat(file.lines, [Empty], other, hmac);
    KeysForConcat(file.lines + [Empty], added, other, hmac);
    KeysForConcat(file.lines, added, other, hmac);
    NothingOnEmpty(other, hmac);
    hide KeysFor, NewLines, CollisionFree;
    assert KeysFor(file.lines, other, hmac) + [] == KeysFor(file.lines, other, hmac);
  }

  lemma AppendedIsReadable(file: File, keys: seq<HostKey>, salts: seq<string>, pattern: string, hmac: Hmac)
    requires |keys| <= |salts|
    ensures AnyBroken(Appended(file, NewLines(keys, salts, pattern, hmac)).lines) <==> AnyBroken(file.lines)
  {
    var after := Appended(file, NewLines(keys, salts, pattern, hmac)).lines;
    forall i | 0 <= i < |file.lines| ensures after[i] == file.lines[i] {}
    forall i | |file.lines| <= i < |after| ensures !IsBroken(after[i]) {}
    if i :| 0 <= i < |file.lines| && IsBroken(file.lines[i]) {
      assert IsBroken(after[i]);
    }
  }

  lemma NothingOnEmpty(pattern: string, hmac: Hmac)
    ensures KeysFor([Empty], pattern, hmac) == []
  {
    assert [Empty][..0] == [];
  }

  lemma {:induction false} UnknownMembers(keys: seq<HostKey>, known: set<string>)
    ensures forall k :: k in Unknown(keys, known) <==> k in keys && k.blob !in known
  {
    if keys != [] {
      var front := keys[..|keys| - 1];
      UnknownMembers(front, known);
      assert keys == front + [keys[|keys| - 1]];
    }
  }

  lemma AfterPinReads(file: File, pattern: string, keys: seq<HostKey>, salts: seq<string>, other: string, hmac: Hmac)
    requires |keys| <= |salts| && CollisionFree(hmac)
    requires PinOutcome(file.lines, pattern, keys, hmac).Pinned?
    ensures !AnyBroken(AfterPin(file, pattern, keys, salts, hmac).lines)
    ensures KeysFor(AfterPin(file, pattern, keys, salts, hmac).lines, other, hmac)
            == KeysFor(file.lines, other, hmac)
               + if other == pattern then Unknown(keys, Blobs(KeysFor(file.lines, pattern, hmac))) else []
  {
    hide Appended, NewLines, KeysFor, Unknown, CollisionFree;
    var written := Unknown(keys, Blobs(KeysFor(file.lines, pattern, hmac)));
    UnknownIsShorter(keys, Blobs(KeysFor(file.lines, pattern, hmac)));
    AppendedReads(file, written, salts, pattern, other, hmac);
    AppendedIsReadable(file, written, salts, pattern, hmac);
    assert KeysFor(file.lines, other, hmac) + [] == KeysFor(file.lines, other, hmac);
  }

  lemma PinnedMeansKnown(file: File, pattern: string, keys: seq<HostKey>, hmac: Hmac)
    requires PinOutcome(file.lines, pattern, keys, hmac).Pinned?
    ensures var before := KeysFor(file.lines, pattern, hmac);
            PinOutcome(file.lines, pattern, keys, hmac).written == Unknown(keys, Blobs(before)) && Blobs(before) <= Blobs(keys)
  {
  }

  /** What an unpinned host offers is pinned as it stands; a pinned host's earlier keys stay,
      and what it offers beyond them is added.  Afterwards the blobs read back are those
      offered. */
  lemma PinThenRead(file: File, pattern: string, keys: seq<HostKey>, salts: seq<string>, hmac: Hmac)
    requires |keys| <= |salts| && CollisionFree(hmac)
    requires PinOutcome(file.lines, pattern, keys, hmac).Pinned?
    ensures var before, after := KeysFor(file.lines, pattern, hmac), AfterPin(file, pattern, keys, salts, hmac);
            && !AnyBroken(after.lines)
            && KeysFor(after.lines, pattern, hmac) == before + PinOutcome(file.lines, pattern, keys, hmac).written
            && (before == [] ==> KeysFor(after.lines, pattern, hmac) == keys)
            && Blobs(KeysFor(after.lines, pattern, hmac)) == Blobs(keys)
  {
    hide AfterPin, PinOutcome, KeysFor, Unknown, CollisionFree, AnyBroken;
    var before := KeysFor(file.lines, pattern, hmac);
    PinnedMeansKnown(file, pattern, keys, hmac);
    AfterPinReads(file, pattern, keys, salts, pattern, hmac);
    NothingKnown(keys);
    assert before == [] ==> before + keys == keys;
    SameBlobs(before, keys);
  }

  lemma SameBlobs(before: seq<HostKey>, keys: seq<HostKey>)
    requires Blobs(before) <= Blobs(keys)
    ensures Blobs(before + Unknown(keys, Blobs(before))) == Blobs(keys)
  {
    var written := Unknown(keys, Blobs(before));
    UnknownMembers(keys, Blobs(before));
    hide Unknown;
    var read := before + written;
    forall k | k in keys ensures k.blob in Blobs(read) {
      if k.blob in Blobs(before) {
        var e :| e in before && e.blob == k.blob;
        assert e in read;
      } else {
        assert k in read;
      }
    }
    forall k | k in read ensures k.blob in Blobs(keys) {
      if k in before {
        assert k.blob in Blobs(before);
      }
    }
  }

  lemma {:induction false} NothingKnown(keys: seq<HostKey>)
    ensures Unknown(keys, Blobs([])) == keys
  {
    if keys != [] {
      NothingKnown(keys[..|keys| - 1]);
    }
  }

  /** Two lists agree on the keys whose blobs both have, algorithms included. */
  ghost predicate Agree(pinned: seq<HostKey>, offered: seq<HostKey>) {
    forall k: HostKey :: k.blob in Blobs(pinned) && k.blob in Blobs(offered) ==> (k in pinned <==> k in offered)
  }

  /** Only blobs are compared: the keys read back are the keys offered exactly where the
      algorithms pinned earlier are those offered now. */
  lemma SameKeysExactly(file: File, pattern: string, keys: seq<HostKey>, salts: seq<string>, hmac: Hmac)
    requires |keys| <= |salts| && CollisionFree(hmac)
    requires PinOutcome(file.lines, pattern, keys, hmac).Pinned?
    ensures var read := KeysFor(AfterPin(file, pattern, keys, salts, hmac).lines, pattern, hmac);
            (forall k :: k in read <==> k in keys) <==> Agree(KeysFor(file.lines, pattern, hmac), keys)
  {
    hide AfterPin, PinOutcome, KeysFor, Unknown, CollisionFree, Agree;
    var before := KeysFor(file.lines, pattern, hmac);
    PinnedMeansKnown(file, pattern, keys, hmac);
    AfterPinReads(file, pattern, keys, salts, pattern, hmac);
    UnknownMembers(keys, Blobs(before));
    SameKeysOf(before, keys, Unknown(keys, Blobs(before)));
  }

  lemma SameKeysOf(before: seq<HostKey>, keys: seq<HostKey>, written: seq<HostKey>)
    requires Blobs(before) <= Blobs(keys)
    requires forall k :: k in written <==> k in keys && k.blob !in Blobs(before)
    ensures (forall k :: k in before + written <==> k in keys) <==> Agree(before, keys)
  {
    forall k ensures k in before + written <==> k in before || k in written {}
    forall k | k in before ensures k.blob in Blobs(before) && k.blob in Blobs(keys) {}
    forall k | k in keys ensures k.blob in Blobs(keys) {}
    if Agree(before, keys) {
      forall k ensures k in before + written <==> k in keys {}
    }
    if forall k :: k in before + written <==> k in keys {
      forall k: HostKey | k.blob in Blobs(before) && k.blob in Blobs(keys) ensures k in before <==> k in keys {
        assert k in before + written <==> k in keys;
      }
    }
  }

  /** The same blob under another algorithm is taken for the key that is pinned: nothing is
      written, and what is read back is not what was offered. */
  lemma AlgorithmIsNotCompared(salts: seq<string>, hmac: Hmac)
    requires |salts| >= 1
    ensures var pinned, offered := HostKey("ssh-rsa", "AAAA"), HostKey("ssh-ed25519", "AAAA");
            var file := File([Entry(Plain(["h"]), Some(pinned))], true);
            && PinOutcome(file.lines, "h", [offered], hmac) == Pinned([])
            && AfterPin(file, "h", [offered], salts, hmac) == file
            && KeysFor(file.lines, "h", hmac) == [pinned] != [offered]
  {
    var pinned, offered := HostKey("ssh-rsa", "AAAA"), HostKey("ssh-ed25519", "AAAA");
    var line := Entry(Plain(["h"]), Some(pinned));
    OneLine(line, "h", hmac);
    assert |"ssh-rsa"| == 7 && |"ssh-ed25519"| == 11;
    assert Blobs([pinned]) == {"AAAA"} && Blobs([offered]) == {"AAAA"};
    AllKnown([offered], {"AAAA"});
  }

  /** A host that is pinned to something else is refused, and so is everything that cannot
      be judged; a refusal writes nothing. */
  lemma RefusedExactly(file: File, pattern: string, keys: seq<HostKey>, salts: seq<string>, hmac: Hmac)
    requires |keys| <= |salts|
    ensures PinOutcome(file.lines, pattern, keys, hmac).Pinned?
            <==> keys != [] && !AnyBroken(file.lines) && Blobs(KeysFor(file.lines, pattern, hmac)) <= Blobs(keys)
    ensures !PinOutcome(file.lines, pattern, keys, hmac).Pinned? ==> AfterPin(file, pattern, keys, salts, hmac) == file
  {
    var existing := KeysFor(file.lines, pattern, hmac);
    if e :| e in existing && e.blob !in Blobs(keys) {
      assert e.blob in Blobs(existing);
    }
  }

  lemma {:induction false} AllKnown(keys: seq<HostKey>, known: set<string>)
    requires Blobs(keys) <= known
    ensures Unknown(keys, known) == []
  {
    if keys != [] {
      assert forall k :: k in keys[..|keys| - 1] ==> k in keys && k.blob in Blobs(keys);
      assert keys[|keys| - 1].blob in Blobs(keys);
      AllKnown(keys[..|keys| - 1], known);
    }
  }

  /** Pinning the same keys a second time adds nothing. */
  lemma PinTwiceAddsNothing(
      file: File, pattern: string, keys: seq<HostKey>, salts: seq<string>, again: seq<string>, hmac: Hmac)
    requires |keys| <= |salts| && |keys| <= |again| && CollisionFree(hmac)
    requires PinOutcome(file.lines, pattern, keys, hmac).Pinned?
    ensures var after := AfterPin(file, pattern, keys, salts, hmac);
            && PinOutcome(after.lines, pattern, keys, hmac) == Pinned([])
            && AfterPin(after, pattern, keys, again, hmac) == after
  {
    PinThenRead(file, pattern, keys, salts, hmac);
    var read := KeysFor(AfterPin(file, pattern, keys, salts, hmac).lines, pattern, hmac);
    forall e | e in read ensures e.blob in Blobs(keys) {
      assert e.blob in Blobs(read);
    }
    AllKnown(keys, Blobs(read));
  }

  lemma {:induction false} KeptReads(lines: seq<Line>, pattern: string, hmac: Hmac)
    ensures KeysFor(Kept(lines, pattern, hmac), pattern, hmac) == []
  {
    if lines != [] {
      var front, last := lines[..|lines| - 1], lines[|lines| - 1];
      KeptReads(front, pattern, hmac);
      KeysForConcat(Kept(front, pattern, hmac), if Names(last, pattern, hmac) then [] else [last], pattern, hmac);
    }
  }

  function Shown(lines: seq<Line>, show: Line -> string): seq<string> {
    seq(|lines|, i requires 0 <= i < |lines| => show(lines[i]))
  }

  /** The file's text, for any spelling of its lines. */
  function TextOf(file: File, show: Line -> string): string
    requires file.Valid()
  {
    if file.terminated then EnvFile.Text(Shown(file.lines, show))
    else
      var n := |file.lines| - 1;
      EnvFile.Text(Shown(file.lines[..n], show)) + show(file.lines[n])
  }

  lemma ShownConcat(a: seq<Line>, b: seq<Line>, show: Line -> string)
    ensures Shown(a + b, show) == Shown(a, show) + Shown(b, show)
  {
  }

  /** What pinning writes behind the old text: a line break unless the last line is empty,
      and the new lines, each ended.  So no new entry is glued to an old line. */
  lemma PinningAppends(file: File, added: seq<Line>, show: Line -> string)
    requires file.Valid() && show(Empty) == ""
    ensures TextOf(Appended(file, added), show)
            == TextOf(file, show)
               + (if file.lines != [] && file.lines[|file.lines| - 1] != Empty then "\n" else "")
               + EnvFile.Text(Shown(added, show))
  {
    hide Shown, EnvFile.Text;
    var blank := file.lines != [] && file.terminated && file.lines[|file.lines| - 1] != Empty;
    var spaced := if blank then file.lines + [Empty] else file.lines;
    ShownConcat(spaced, added, show);
    EnvFile.TextConcat(Shown(spaced, show), Shown(added, show));
    if blank {
      OneMore(file.lines, Empty, show);
    } else if !file.terminated {
      var n := |file.lines| - 1;
      OneMore(file.lines[..n], file.lines[n], show);
      assert file.lines == file.lines[..n] + [file.lines[n]];
    }
  }

  lemma OneMore(lines: seq<Line>, line: Line, show: Line -> string)
    ensures EnvFile.Text(Shown(lines + [line], show)) == EnvFile.Text(Shown(lines, show)) + (show(line) + "\n")
  {
    ShownConcat(lines, [line], show);
    EnvFile.TextConcat(Shown(lines, show), Shown([line], show));
    assert Shown([line], show) == [show(line)];
    assert EnvFile.Text([show(line)]) == show(line) + "\n" + EnvFile.Text([]);
  }

  /** A forgotten host has no keys. */
  lemma ForgetThenRead(file: File, pattern: string, hmac: Hmac)
    requires !AnyBroken(file.lines)
    ensures KeysFor(AfterForget(file, pattern, hmac).lines, pattern, hmac) == []
  {
    KeptReads(file.lines, pattern, hmac);
  }

  /** One line names the first host and pins a key for the second. */
  ghost predicate Shared(lines: seq<Line>, pattern: string, other: string, hmac: Hmac) {
    exists i :: 0 <= i < |lines| && Names(lines[i], pattern, hmac) && KeyFor(lines[i], other, hmac) != []
  }

  lemma SharedGrows(lines: seq<Line>, pattern: string, other: string, hmac: Hmac)
    requires lines != []
    ensures Shared(lines, pattern, other, hmac)
            <==> Shared(lines[..|lines| - 1], pattern, other, hmac)
                 || (Names(lines[|lines| - 1], pattern, hmac) && KeyFor(lines[|lines| - 1], other, hmac) != [])
  {
    hide Names, KeyFor;
    var front := lines[..|lines| - 1];
    forall i | 0 <= i < |front| ensures front[i] == lines[i] {}
  }

  lemma {:induction false} KeptForOthers(lines: seq<Line>, pattern: string, other: string, hmac: Hmac)
    ensures |KeysFor(Kept(lines, pattern, hmac), other, hmac)| <= |KeysFor(lines, other, hmac)|
    ensures Shared(lines, pattern, other, hmac) ==> |KeysFor(Kept(lines, pattern, hmac), other, hmac)| < |KeysFor(lines, other, hmac)|
    ensures !Shared(lines, pattern, other, hmac) ==> KeysFor(Kept(lines, pattern, hmac), other, hmac) == KeysFor(lines, other, hmac)
  {
    hide Names, KeyFor, Shared;
    if lines == [] {
      NotSharedInNothing(pattern, other, hmac);
    } else {
      var front, last := lines[..|lines| - 1], lines[|lines| - 1];
      KeptForOthers(front, pattern, other, hmac);
      SharedGrows(lines, pattern, other, hmac);
      KeysForConcat(Kept(front, pattern, hmac), if Names(last, pattern, hmac) then [] else [last], other, hmac);
      OneLine(last, other, hmac);
    }
  }

  lemma NotSharedInNothing(pattern: string, other: string, hmac: Hmac)
    ensures !Shared([], pattern, other, hmac)
  {
  }

  lemma OneLine(line: Line, pattern: string, hmac: Hmac)
    ensures KeysFor([line], pattern, hmac) == KeyFor(line, pattern, hmac)
  {
    assert [line][..0] == [];
  }

  /** Forgetting a host drops whole lines: another host reads the same exactly where no
      line that names the forgotten one pins a key for it. */
  lemma ForgetLeavesOthersExactly(file: File, pattern: string, other: string, hmac: Hmac)
    requires !AnyBroken(file.lines)
    ensures KeysFor(AfterForget(file, pattern, hmac).lines, other, hmac) == KeysFor(file.lines, other, hmac)
            <==> !Shared(file.lines, pattern, other, hmac)
  {
    KeptForOthers(file.lines, pattern, other, hmac);
  }

  /** One hashed field that is incomplete, wherever it stands, keeps the whole file from
      being read, pinned to or forgotten from. */
  lemma ABrokenLineStopsAll(before: seq<Line>, line: Line, after: seq<Line>, ends: bool, pattern: string, keys: seq<HostKey>, hmac: Hmac)
    requires IsBroken(line)
    ensures AnyBroken(before + [line] + after)
    ensures var file := File(before + [line] + after, ends); AfterForget(file, pattern, hmac) == file
    ensures keys != [] ==> PinOutcome(before + [line] + after, pattern, keys, hmac) == Unreadable
  {
    assert (before + [line] + after)[|before|] == line;
  }

  /** A forget that takes place leaves the lines that do not name the host, in their order,
      and every one with its line break. */
  lemma ForgetKeepsTheRest(file: File, pattern: string, hmac: Hmac)
    requires !AnyBroken(file.lines)
    ensures AfterForget(file, pattern, hmac) == File(WithoutNamed(file.lines, pattern, hmac), true)
    ensures forall line :: line in WithoutNamed(file.lines, pattern, hmac) <==>
      line in file.lines && !(line.Entry? && Matches(line.field, pattern, hmac))
  {
    KeptAre(file.lines, pattern, hmac);
  }

  function WithoutNamed(lines: seq<Line>, pattern: string, hmac: Hmac): seq<Line> {
    if lines == [] then []
    else (if lines[0].Entry? && Matches(lines[0].field, pattern, hmac) then [] else [lines[0]]) + WithoutNamed(lines[1..], pattern, hmac)
  }

  lemma {:induction false} KeptAre(lines: seq<Line>, pattern: string, hmac: Hmac)
    ensures Kept(lines, pattern, hmac) == WithoutNamed(lines, pattern, hmac)
    ensures forall line :: line in WithoutNamed(lines, pattern, hmac) <==>
      line in lines && !(line.Entry? && Matches(line.field, pattern, hmac))
  {
    hide Matches;
    if lines != [] {
      KeptAre(lines[1..], pattern, hmac);
      KeptConcat([lines[0]], lines[1..], pattern, hmac);
      assert lines == [lines[0]] + lines[1..] && [lines[0]][..0] == [];
    }
  }

  lemma {:induction false} KeptConcat(a: seq<Line>, b: seq<Line>, pattern: string, hmac: Hmac)
    ensures Kept(a + b, pattern, hmac) == Kept(a, pattern, hmac) + Kept(b, pattern, hmac)
  {
    hide Matches;
    if b == [] {
      assert a + b == a;
    } else {
      var front := b[..|b| - 1];
      KeptConcat(a, front, pattern, hmac);
      assert (a + b)[..|a + b| - 1] == a + front && (a + b)[|a + b| - 1] == b[|b| - 1];
    }
  }

  /** A plain line with two names: forgetting one unpins the other. */
  lemma ASharedLineIsLost(hmac: Hmac)
    ensures var line := Entry(Plain(["a", "b"]), Some(HostKey("ssh-ed25519", "AAAA")));
            && KeysFor([line], "b", hmac) != []
            && KeysFor(AfterForget(File([line], true), "a", hmac).lines, "b", hmac) == []
  {
    var line := Entry(Plain(["a", "b"]), Some(HostKey("ssh-ed25519", "AAAA")));
    OneLine(line, "b", hmac);
    assert [line][..0] == [];
    assert Kept([line], "a", hmac) == [];
  }

  // --- Over any run --------------------------------------------------------

  datatype Operation =
    | PinHost(pattern: string, keys: seq<HostKey>, salts: seq<string>)
    | ForgetHost(pattern: string)

  function Apply(file: File, op: Operation, hmac: Hmac): File {
    match op
    case PinHost(pattern, keys, salts) => if |keys| <= |salts| then AfterPin(file, pattern, keys, salts, hmac) else file
    case ForgetHost(pattern) => AfterForget(file, pattern, hmac)
  }

  function Reach(file: File, ops: seq<Operation>, hmac: Hmac): File {
    if ops == [] then file else Apply(Reach(file, ops[..|ops| - 1], hmac), ops[|ops| - 1], hmac)
  }

  /** No line names two hosts, as none that pinning writes does. */
  ghost predicate OneHostPerLine(lines: seq<Line>) {
    forall i :: 0 <= i < |lines| && lines[i].Entry? && lines[i].field.Plain? ==> |lines[i].field.hosts| <= 1
  }

  lemma OneHostIsNotShared(lines: seq<Line>, pattern: string, other: string, hmac: Hmac)
    requires OneHostPerLine(lines) && CollisionFree(hmac) && pattern != other
    ensures !Shared(lines, pattern, other, hmac)
  {
    forall i | 0 <= i < |lines| ensures !(Names(lines[i], pattern, hmac) && KeyFor(lines[i], other, hmac) != []) {
      if lines[i].Entry? && lines[i].field.Plain? && pattern in lines[i].field.hosts {
        assert lines[i].field.hosts == [pattern];
      }
    }
  }

  lemma {:induction false} KeptLines(lines: seq<Line>, pattern: string, hmac: Hmac)
    ensures forall l :: l in Kept(lines, pattern, hmac) ==> l in lines
  {
    if lines != [] {
      KeptLines(lines[..|lines| - 1], pattern, hmac);
    }
  }

  /** No operation on another host makes a line that is shared with this one. */
  lemma StepSharesNothing(file: File, op: Operation, pattern: string, host: string, hmac: Hmac)
    requires CollisionFree(hmac) && op.pattern != host && !Shared(file.lines, pattern, host, hmac)
    ensures !Shared(Apply(file, op, hmac).lines, pattern, host, hmac)
  {
    var after := Apply(file, op, hmac).lines;
    if op.ForgetHost? {
      KeptLines(file.lines, op.pattern, hmac);
    }
    forall i | 0 <= i < |after| ensures !(Names(after[i], pattern, hmac) && KeyFor(after[i], host, hmac) != []) {
      assert after[i] in after;
      if after[i] in file.lines {
        var j :| 0 <= j < |file.lines| && file.lines[j] == after[i];
      } else {
        AddedForItself(file, op, after[i], hmac);
      }
    }
  }

  /** A line an operation adds is empty or an entry hashed for its own host. */
  lemma AddedForItself(file: File, op: Operation, line: Line, hmac: Hmac)
    requires line in Apply(file, op, hmac).lines && line !in file.lines
    ensures line == Empty || (line.Entry? && exists salt :: line.field == Hashed(salt, hmac(salt, op.pattern)))
  {
    if op.ForgetHost? {
      KeptLines(file.lines, op.pattern, hmac);
    }
  }

  lemma StepLeavesOthers(file: File, op: Operation, other: string, hmac: Hmac)
    requires CollisionFree(hmac) && op.pattern != other
    requires op.ForgetHost? ==> !Shared(file.lines, op.pattern, other, hmac)
    ensures KeysFor(Apply(file, op, hmac).lines, other, hmac) == KeysFor(file.lines, other, hmac)
  {
    hide KeysFor, Kept, Unknown, Appended;
    match op
    case PinHost(pattern, keys, salts) =>
      if |keys| <= |salts| && PinOutcome(file.lines, pattern, keys, hmac).Pinned? {
        AfterPinReads(file, pattern, keys, salts, other, hmac);
        assert KeysFor(file.lines, other, hmac) + [] == KeysFor(file.lines, other, hmac);
      }
    case ForgetHost(pattern) =>
      KeptForOthers(file.lines, pattern, other, hmac);
  }

  /** Whatever is pinned and forgotten for other hosts, in any order and with any result,
      a host reads the same keys, as long as none of the hosts forgotten shares a line
      with it at the start. */
  lemma {:induction false} OthersLeaveItAlone(file: File, ops: seq<Operation>, host: string, hmac: Hmac)
    requires CollisionFree(hmac)
    requires forall op :: op in ops ==> op.pattern != host
    requires forall op :: op in ops && op.ForgetHost? ==> !Shared(file.lines, op.pattern, host, hmac)
    ensures KeysFor(Reach(file, ops, hmac).lines, host, hmac) == KeysFor(file.lines, host, hmac)
    ensures forall p :: !Shared(file.lines, p, host, hmac) ==> !Shared(Reach(file, ops, hmac).lines, p, host, hmac)
  {
    hide CollisionFree, Shared, KeysFor;
    if ops != [] {
      var front, last := ops[..|ops| - 1], ops[|ops| - 1];
      OthersLeaveItAlone(file, front, host, hmac);
      assert last in ops;
      StepLeavesOthers(Reach(file, front, hmac), last, host, hmac);
      forall p | !Shared(file.lines, p, host, hmac) ensures !Shared(Reach(file, ops, hmac).lines, p, host, hmac) {
        StepSharesNothing(Reach(file, front, hmac), last, p, host, hmac);
      }
    }
  }

  /** From a file in which no line names two hosts that is every run. */
  lemma OneHostPerLineIsEnough(file: File, ops: seq<Operation>, host: string, hmac: Hmac)
    requires OneHostPerLine(file.lines) && CollisionFree(hmac)
    requires forall op :: op in ops ==> op.pattern != host
    ensures KeysFor(Reach(file, ops, hmac).lines, host, hmac) == KeysFor(file.lines, host, hmac)
  {
    forall op | op in ops ensures !Shared(file.lines, op.pattern, host, hmac) {
      OneHostIsNotShared(file.lines, op.pattern, host, hmac);
    }
    OthersLeaveItAlone(file, ops, host, hmac);
  }
}
