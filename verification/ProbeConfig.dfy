/** The configuration of a probe: the values it is rendered from, what refuses them, the
    text that is written, and the name the probe reads back from it. */
module ProbeConfig {
  import opened Prelude
  import opened Placeholders
  import opened Patterns
  import EnvFile

  // --- Values --------------------------------------------------------------

  predicate IsAlnum(c: char) {
    'A' <= c <= 'Z' || 'a' <= c <= 'z' || '0' <= c <= '9'
  }

  /** A pattern that ends in `$` also matches in front of one line break at the end. */
  function Chopped(s: string): string {
    if s != "" && s[|s| - 1] == '\n' then s[..|s| - 1] else s
  }

  /** One letter or digit, then only letters, digits and these. */
  predicate IsToken(s: string, more: set<char>, shortest: nat, longest: nat) {
    var t := Chopped(s);
    && 1 <= shortest <= |t| <= longest
    && IsAlnum(t[0])
    && forall i :: 0 <= i < |t| ==> IsAlnum(t[i]) || (i > 0 && t[i] in more)
  }

  predicate NameOk(name: string) {
    IsToken(name, {'.', '_', '@', '-'}, 1, 128)
  }

  predicate AccessKeyOk(key: string) {
    IsToken(key, {'.', '_', '-'}, 8, 128)
  }

  predicate UsernameOk(username: string) {
    IsToken(username, {'.', '_', '-'}, 1, 64)
  }

  predicate ProbeIdOk(id: string) {
    var t := Chopped(id);
    && |t| == 36
    && forall i :: 0 <= i < 36 ==>
         if i in {8, 13, 18, 23} then t[i] == '-' else '0' <= t[i] <= '9' || 'a' <= t[i] <= 'f'
  }

  predicate NatsHostOk(host: string) {
    var t := Chopped(host);
    && |t| >= 2
    && IsAlnum(t[0]) && IsAlnum(t[|t| - 1])
    && forall i :: 0 <= i < |t| ==> IsAlnum(t[i]) || t[i] in {'.', '-'}
  }

  /** Python's truth of an optional text. */
  predicate Truthy(text: Option<string>) {
    text.Some? && text.value != ""
  }

  const CA_PATH := "/etc/paessler/mpprobe/certs/nats-docker-ca.pem"
  const CLIENT_NAME := "prtgmpprobe"
  const NAME := "PROBE_NAME"

  /** What the platform keeps for the probe, and its own site settings: the identifier and
      key are the stored ones or those made up for it, `storedName` is the inventory's or
      the default one for the host. */
  datatype Site = Site(
    username: string,
    probeId: string,
    accessKey: string,
    storedName: string,
    natsFqdn: string,
    hostOverride: Option<string>,
    natsPort: int,
    natsPassword: Option<string>,
    template: Option<string>)
  {
    function Host(): string {
      if Truthy(hostOverride) then hostOverride.value else natsFqdn
    }

    /** Everything the rendering asks for beside the name. */
    predicate Complete() {
      && UsernameOk(username)
      && natsFqdn != ""
      && ProbeIdOk(probeId)
      && AccessKeyOk(accessKey)
      && NatsHostOk(Host())
      && 1 <= natsPort <= 65535
      && Truthy(natsPassword)
      && template.Some?
    }

    function Earlier(): seq<Slot> {
      [Slot("PROBE_ID", probeId), Slot("ACCESS_KEY", accessKey)]
    }

    /** What is filled after the name has gone in. */
    function Later(): seq<Slot>
      requires Complete()
    {
      [Slot("NATS_HOST", Host()), Slot("NATS_PORT", Decimal(natsPort)), Slot("NATS_USER", username),
       Slot("NATS_PASSWORD", natsPassword.value), Slot("SERVER_CA", CA_PATH), Slot("CLIENT_NAME", CLIENT_NAME)]
    }

    function Slots(name: string): seq<Slot>
      requires Complete()
    {
      Earlier() + [Slot(NAME, name)] + Later()
    }

    /** The text that is written, None where it is refused: for a value, or for a mark
        that is left in it. */
    function Rendered(name: string): Option<string> {
      if !Complete() || !NameOk(name) then None
      else
        var text := Filled(template.value, Slots(name));
        if HasMark(text) then None else Some(text)
    }
  }

  /** The rendering, with its loop over the slots. */
  method RenderProbeConfig(site: Site, name: string) returns (text: Option<string>)
    ensures text == site.Rendered(name)
  {
    if !site.Complete() || !NameOk(name) {
      return None;
    }
    var rendered := Fill(site.template.value, site.Slots(name));
    text := if HasMark(rendered) then None else Some(rendered);
  }

  // --- What the probe reads back -------------------------------------------

  const QUOTES := {'"', '\''}

  function Unquoted(value: string): string {
    var v := if value != "" && value[0] in QUOTES then value[1..] else value;
    if v != "" && v[|v| - 1] in QUOTES then v[..|v| - 1] else v
  }

  /** The value behind `name:` at the start of a line. */
  function NameInLine(line: string): Option<string> {
    if !StartsWith(line, "name") then None
    else
      var rest := EnvFile.StripLeft(line[4..]);
      if rest == "" || rest[0] != ':' then None else Some(Unquoted(EnvFile.Strip(rest[1..])))
  }

  function LineEnd(text: string): (i: nat)
    ensures i <= |text|
    ensures i < |text| ==> text[i] == '\n'
  {
    if text == "" || text[0] == '\n' then 0 else 1 + LineEnd(text[1..])
  }

  function NamesIn(text: string): seq<string>
    decreases |text|
  {
    var i := LineEnd(text);
    NamesOf(text[..i]) + (if i == |text| then [] else NamesIn(text[i + 1..]))
  }

  function NamesOf(line: string): seq<string> {
    match NameInLine(line)
    case Some(name) => [name]
    case None => []
  }

  predicate IsControl(c: char) {
    c < ' ' || c == '\U{7F}'
  }

  /** The name the probe reports: of the one line that gives it, unless it is empty, holds a
      control character, or is one of the words for an absent value. */
  function ReadName(text: string): Option<string> {
    var names := NamesIn(text);
    if |names| != 1 || exists i :: 0 <= i < |names[0]| && IsControl(names[0][i]) then None
    else
      var name := EnvFile.Strip(names[0]);
      if name in {"", "none", "unknown"} then None else Some(name)
  }

  // --- One line of the template --------------------------------------------

  function NameLine(): string {
    "name:" + [' '] + Mark(NAME)
  }

  /** The template gives the name on one line of its own, and nothing else in the text
      reads as a name. */
  ghost predicate Surrounds(site: Site, name: string, before: string, after: string)
    requires site.Complete()
  {
    && site.template == Some(before + ['\n'] + (NameLine() + ['\n'] + after))
    && NamesIn(Filled(before, site.Slots(name))) == []
    && NamesIn(Filled(after, site.Slots(name))) == []
  }

  lemma KeysAreKeys()
    ensures IsKey("PROBE_ID") && IsKey("ACCESS_KEY") && IsKey(NAME)
    ensures IsKey("NATS_HOST") && IsKey("NATS_PORT") && IsKey("NATS_USER")
    ensures IsKey("NATS_PASSWORD") && IsKey("SERVER_CA") && IsKey("CLIENT_NAME")
  {
  }

  lemma SlotsAreKeyed(site: Site, name: string)
    requires site.Complete()
    ensures Keyed(site.Earlier()) && Keyed(site.Later()) && Keyed(site.Slots(name)) && IsKey(NAME)
  {
    hide IsKey, Decimal;
    KeysAreKeys();
  }

  /** The name goes in with the third slot and is treated as text by the six others. */
  lemma NameIsFilled(site: Site, name: string)
    requires site.Complete()
    ensures Filled(Mark(NAME), site.Slots(name)) == Filled(name, site.Later())
  {
    hide Filled, Replaced, IsKey, Mark;
    var first, third, later := site.Earlier(), [Slot(NAME, name)], site.Later();
    SlotsAreKeyed(site, name);
    FilledInTurn(Mark(NAME), first + third, later);
    FilledInTurn(Mark(NAME), first, third);
    EarlierLeavesTheName(site);
    OneSlot(name, Mark(NAME));
    MarkAlone(NAME, NAME, name);
  }

  lemma OneSlot(name: string, text: string)
    ensures Filled(text, [Slot(NAME, name)]) == Replaced(text, Mark(NAME), name)
  {
    assert Filled(Replaced(text, Mark(NAME), name), []) == Replaced(text, Mark(NAME), name);
  }

  lemma TwoSlots(text: string, a: Slot, b: Slot)
    ensures Filled(text, [a, b]) == Replaced(Replaced(text, Mark(a.key), a.value), Mark(b.key), b.value)
  {
    hide Replaced;
    assert [a, b][1..] == [b];
    var once := Replaced(text, Mark(a.key), a.value);
    assert Filled(once, [b]) == Filled(Replaced(once, Mark(b.key), b.value), []);
  }

  lemma EarlierLeavesTheName(site: Site)
    requires site.Complete()
    ensures Filled(Mark(NAME), site.Earlier()) == Mark(NAME)
  {
    hide Filled, Replaced, IsKey, Mark;
    KeysAreKeys();
    assert |NAME| == 10 && |"PROBE_ID"| == 8 && "ACCESS_KEY"[0] == 'A' && NAME[0] == 'P';
    TwoSlots(Mark(NAME), Slot("PROBE_ID", site.probeId), Slot("ACCESS_KEY", site.accessKey));
    MarkAlone(NAME, "PROBE_ID", site.probeId);
    MarkAlone(NAME, "ACCESS_KEY", site.accessKey);
  }

  lemma FilledAround(site: Site, name: string, before: string, after: string)
    requires site.Complete() && Surrounds(site, name, before, after)
    ensures var slots := site.Slots(name);
            Filled(site.template.value, slots) == Filled(before, slots) + ['\n']
              + ("name:" + [' '] + Filled(name, site.Later()) + ['\n'] + Filled(after, slots))
  {
    hide Filled, IsKey, Mark, NamesIn;
    var slots := site.Slots(name);
    SlotsAreKeyed(site, name);
    FilledApart(before, '\n', NameLine() + ['\n'] + after, slots);
    FilledApart(NameLine(), '\n', after, slots);
    FilledApart("name:", ' ', Mark(NAME), slots);
    NoMarkWithoutAt("name:");
    FillingKeepsUnmarked("name:", slots);
    NameIsFilled(site, name);
  }

  // --- Reading by lines ----------------------------------------------------

  lemma {:induction false} LineEndApart(a: string, b: string)
    ensures LineEnd(a + ['\n'] + b) == LineEnd(a)
  {
    if a != "" && a[0] != '\n' {
      assert (a + ['\n'] + b)[1..] == a[1..] + ['\n'] + b;
      LineEndApart(a[1..], b);
    }
  }

  lemma FirstLine(a: string, b: string)
    requires LineEnd(a) == |a|
    ensures NamesIn(a + ['\n'] + b) == NamesOf(a) + NamesIn(b) && NamesIn(a) == NamesOf(a)
  {
    hide NamesOf;
    LineEndApart(a, b);
    var s := a + ['\n'] + b;
    assert s[..|a|] == a && s[|a| + 1..] == b && a[..|a|] == a;
  }

  lemma {:induction false} NamesApart(a: string, b: string)
    ensures NamesIn(a + ['\n'] + b) == NamesIn(a) + NamesIn(b)
    decreases |a|
  {
    hide NamesIn, NamesOf;
    var i := LineEnd(a);
    if i == |a| {
      FirstLine(a, b);
    } else {
      var first, rest := a[..i], a[i + 1..];
      LineEndOfFirst(a);
      assert a == first + ['\n'] + rest;
      assert a + ['\n'] + b == first + ['\n'] + (rest + ['\n'] + b);
      FirstLine(first, rest);
      FirstLine(first, rest + ['\n'] + b);
      NamesApart(rest, b);
    }
  }

  lemma {:induction false} LineEndOfFirst(a: string)
    ensures LineEnd(a[..LineEnd(a)]) == LineEnd(a)
  {
    if a != "" && a[0] != '\n' {
      LineEndOfFirst(a[1..]);
      assert a[..LineEnd(a)][1..] == a[1..][..LineEnd(a[1..])];
    }
  }

  lemma {:induction false} NoLineEnd(s: string)
    requires '\n' !in s
    ensures LineEnd(s) == |s|
  {
    if s != "" {
      NoLineEnd(s[1..]);
    }
  }

  // --- What is read stands in the text -------------------------------------

  lemma {:induction false} LeftStands(s: string)
    ensures |EnvFile.StripLeft(s)| <= |s| && PartAt(EnvFile.StripLeft(s), s, |s| - |EnvFile.StripLeft(s)|)
  {
    if s != "" && EnvFile.IsSpace(s[0]) {
      LeftStands(s[1..]);
    }
  }

  lemma {:induction false} RightStands(s: string)
    ensures PartAt(EnvFile.StripRight(s), s, 0)
  {
    if s != "" && EnvFile.IsSpace(s[|s| - 1]) {
      RightStands(s[..|s| - 1]);
    }
  }

  lemma StripStands(s: string)
    ensures Within(EnvFile.Strip(s), s)
  {
    LeftStands(s);
    RightStands(EnvFile.StripLeft(s));
    WithinTrans(EnvFile.Strip(s), EnvFile.StripLeft(s), s);
  }

  lemma UnquotedStands(value: string)
    ensures Within(Unquoted(value), value)
  {
    assert PartAt(Unquoted(value), value, if value != "" && value[0] in QUOTES then 1 else 0);
  }

  lemma NameStandsInLine(line: string)
    ensures NameInLine(line).Some? ==> Within(NameInLine(line).value, line)
  {
    hide EnvFile.StripLeft, EnvFile.Strip, Unquoted;
    if NameInLine(line).Some? {
      var rest := EnvFile.StripLeft(line[4..]);
      var value := EnvFile.Strip(rest[1..]);
      LeftStands(line[4..]);
      assert PartAt(line[4..], line, 4) && PartAt(rest[1..], rest, 1);
      StripStands(rest[1..]);
      UnquotedStands(value);
      WithinTrans(rest, line[4..], line);
      WithinTrans(rest[1..], rest, line);
      WithinTrans(value, rest[1..], line);
      WithinTrans(Unquoted(value), value, line);
    }
  }

  lemma {:induction false} NamesStand(text: string)
    ensures forall name :: name in NamesIn(text) ==> Within(name, text)
    decreases |text|
  {
    hide NameInLine;
    var i := LineEnd(text);
    NameStandsInLine(text[..i]);
    assert PartAt(text[..i], text, 0);
    if i < |text| {
      NamesStand(text[i + 1..]);
      assert PartAt(text[i + 1..], text, i + 1);
    }
    forall name | name in NamesIn(text) ensures Within(name, text) {
      if i < |text| && name in NamesIn(text[i + 1..]) {
        WithinTrans(name, text[i + 1..], text);
      } else {
        WithinTrans(name, text[..i], text);
      }
    }
  }

  lemma ReadStands(text: string)
    ensures ReadName(text).Some? ==> Within(ReadName(text).value, text)
  {
    hide NamesIn, EnvFile.Strip;
    if ReadName(text).Some? {
      NamesStand(text);
      var name := NamesIn(text)[0];
      StripStands(name);
      WithinTrans(EnvFile.Strip(name), name, text);
    }
  }

  // --- Names that come back ------------------------------------------------

  predicate IsNameChar(c: char) {
    IsAlnum(c) || c in {'.', '_', '@', '-'}
  }

  predicate IsBare(name: string) {
    name != "" && forall i :: 0 <= i < |name| ==> IsNameChar(name[i])
  }

  lemma NameCharIsPlain(c: char)
    requires IsNameChar(c)
    ensures !EnvFile.IsSpace(c) && c !in QUOTES && !IsControl(c) && c != '\n'
  {
  }

  lemma BareIsStripped(name: string)
    requires IsBare(name)
    ensures EnvFile.Strip(name) == name && Unquoted(name) == name && EnvFile.Strip([' '] + name) == name
    ensures '\n' !in name && forall i :: 0 <= i < |name| ==> !IsControl(name[i])
  {
    hide EnvFile.IsSpace, IsNameChar, IsControl;
    forall i | 0 <= i < |name|
      ensures !EnvFile.IsSpace(name[i]) && name[i] !in QUOTES && !IsControl(name[i]) && name[i] != '\n'
    {
      NameCharIsPlain(name[i]);
    }
    BlankIsSpace();
    assert ([' '] + name)[1..] == name;
  }

  lemma BlankIsSpace()
    ensures EnvFile.IsSpace(' ') && !EnvFile.IsSpace(':')
  {
  }

  lemma BareIsRead(name: string)
    requires IsBare(name)
    ensures NamesIn("name:" + [' '] + name) == [name]
  {
    hide EnvFile.Strip, EnvFile.IsSpace, IsBare, Unquoted;
    var line := "name:" + [' '] + name;
    BareIsStripped(name);
    NoLineEnd(line);
    BlankIsSpace();
    assert line[..4] == "name" && line[4..][0] == ':' && line[4..][1..] == [' '] + name && line[..|line|] == line;
  }

  /** The name is read back from the text as the later values have left it, but for a line
      break at its end, and unless it is a word for an absent value. */
  lemma FilledNameIsRead(site: Site, name: string, before: string, after: string)
    requires site.Complete() && Surrounds(site, name, before, after)
    requires IsBare(Chopped(Filled(name, site.Later())))
    ensures var t := Chopped(Filled(name, site.Later()));
            ReadName(Filled(site.template.value, site.Slots(name))) == if t in {"none", "unknown"} then None else Some(t)
  {
    hide Filled, NamesIn, EnvFile.Strip;
    FilledAround(site, name, before, after);
    var slots, filled := site.Slots(name), Filled(name, site.Later());
    var own, rest := "name:" + [' '] + filled, Filled(after, slots);
    NamesApart(Filled(before, slots), own + ['\n'] + rest);
    NamesApart(own, rest);
    BareIsRead(Chopped(filled));
    BareIsStripped(Chopped(filled));
    OwnLine(filled);
  }

  /** So a name without a mark is read back as it is. */
  lemma PlainNameIsRead(site: Site, name: string, before: string, after: string)
    requires site.Complete() && Surrounds(site, name, before, after) && NameOk(name) && !HasMark(name)
    ensures ReadName(Filled(site.template.value, site.Slots(name)))
            == if Chopped(name) in {"none", "unknown"} then None else Some(Chopped(name))
  {
    hide Filled, NamesIn, ReadName, HasMark;
    SlotsAreKeyed(site, name);
    FillingKeepsUnmarked(name, site.Later());
    assert IsBare(Chopped(name));
    FilledNameIsRead(site, name, before, after);
  }

  lemma OwnLine(name: string)
    ensures NamesIn("name:" + [' '] + name) == NamesIn("name:" + [' '] + Chopped(name))
  {
    if name != Chopped(name) {
      var own := "name:" + [' '] + Chopped(name);
      assert "name:" + [' '] + name == own + ['\n'] + "";
      NamesApart(own, "");
      assert NamesIn("") == [];
    }
  }

  /** The probe reports a name it was configured with just as it was given, exactly if the
      name holds no mark, does not end in a line break and is no word for an absent value. */
  lemma ReportedAsGiven(site: Site, name: string, before: string, after: string)
    requires site.Complete() && Surrounds(site, name, before, after) && site.Rendered(name).Some?
    ensures ReadName(site.Rendered(name).value) == Some(name)
            <==> !HasMark(name) && Chopped(name) == name && name !in {"none", "unknown"}
  {
    hide Filled, ReadName, HasMark, Surrounds;
    var text := site.Rendered(name).value;
    if HasMark(name) {
      ReadStands(text);
      if ReadName(text) == Some(name) {
        MarkWithin(name, text);
      }
    } else {
      PlainNameIsRead(site, name, before, after);
    }
  }

  /** The rendering accepts the name exactly if it fits the pattern and, once the later
      values have gone into it, neither it nor the rest of the text holds a mark. */
  lemma AcceptedExactly(site: Site, name: string, before: string, after: string)
    requires site.Complete() && Surrounds(site, name, before, after) && NameOk(name)
    ensures site.Rendered(name).Some?
            <==> !HasMark(Filled(name, site.Later()))
                 && !HasMark(Filled(before, site.Slots(name))) && !HasMark(Filled(after, site.Slots(name)))
  {
    hide Filled, HasMark, NamesIn;
    var slots, own := site.Slots(name), Filled(name, site.Later());
    FilledAround(site, name, before, after);
    MarksApart(Filled(before, slots), '\n', "name:" + [' '] + own + ['\n'] + Filled(after, slots));
    MarksApart("name:" + [' '] + own, '\n', Filled(after, slots));
    MarksApart("name:", ' ', own);
    NoMarkWithoutAt("name:");
  }

  // --- Names with a mark in them -------------------------------------------

  /** A name made of this letter and one mark fits the pattern. */
  lemma MarkedNameOk(key: string)
    requires IsKey(key) && |key| <= 100
    ensures NameOk("p" + Mark(key)) && HasMark("p" + Mark(key))
  {
    var name := "p" + Mark(key);
    assert Chopped(name) == name;
    assert forall i :: 0 <= i < |key| ==> name[3 + i] == key[i];
    assert MarkAt(name, 1, 3 + |key|);
  }

  /** The account's own mark in a name is filled with the account. */
  lemma AccountGoesIn(site: Site)
    requires site.Complete()
    ensures Filled("p" + Mark("NATS_USER"), site.Later()) == "p" + site.username
    ensures !HasMark("p" + site.username)
  {
    hide Filled, Mark, IsKey, HasMark, Decimal;
    SlotsAreKeyed(site, "");
    KeysAreKeys();
    AccountSlot(site);
    UsernameHasNoAt(site.username);
    KnownMarkIsFilled("p", "NATS_USER", site.Later());
    NoMarkWithoutAt("p" + site.username);
  }

  lemma AccountSlot(site: Site)
    requires site.Complete()
    ensures ValueOf(site.Later(), "NATS_USER") == Some(site.username)
    ensures ValueOf(site.Later(), "X") == None
  {
    hide ValueOf, Decimal;
    assert "NATS_USER"[5] == 'U' && "NATS_HOST"[5] == 'H' && "NATS_PORT"[5] == 'P';
    assert |"X"| == 1 && |"NATS_HOST"| == 9 && |"NATS_PORT"| == 9 && |"NATS_USER"| == 9;
    assert |"NATS_PASSWORD"| == 13 && |"SERVER_CA"| == 9 && |"CLIENT_NAME"| == 11;
    var later := site.Later();
    assert later[2] == Slot("NATS_USER", site.username);
    assert later[0].key != later[2].key && later[1].key != later[2].key;
    ValueAt(later, 2);
    NoValue(later, "X");
  }

  lemma UsernameHasNoAt(username: string)
    requires UsernameOk(username)
    ensures '@' !in username
  {
    assert forall i :: 0 <= i < |Chopped(username)| ==> Chopped(username)[i] == username[i];
  }

  /** The address of the server is filled with the probe's own one where it has one, and
      with the site's name elsewhere. */
  lemma OverrideWins(site: Site, text: string)
    requires site.Complete() && '@' !in text
    ensures Filled(text + Mark("NATS_HOST"), site.Later())
            == text + (if site.hostOverride in {None, Some("")} then site.natsFqdn else site.hostOverride.value)
  {
    hide Filled, Mark, IsKey, Decimal, ValueOf;
    SlotsAreKeyed(site, "");
    KeysAreKeys();
    HostHasNoAt(site.Host());
    ValueAt(site.Later(), 0);
    KnownMarkIsFilled(text, "NATS_HOST", site.Later());
  }

  lemma HostHasNoAt(host: string)
    requires NatsHostOk(host)
    ensures '@' !in host
  {
    assert forall i :: 0 <= i < |Chopped(host)| ==> Chopped(host)[i] == host[i];
  }

  /** A mark nobody knows is left in the name. */
  lemma UnknownMarkIsLeft(site: Site)
    requires site.Complete()
    ensures Filled("p" + Mark("X"), site.Later()) == "p" + Mark("X")
  {
    hide Filled, Mark, IsKey, Decimal;
    SlotsAreKeyed(site, "");
    XIsKey();
    AccountSlot(site);
    UnknownMarkStays("p", "X", site.Later());
  }

  lemma XIsKey()
    ensures IsKey("X")
  {
  }

  // --- The patterns --------------------------------------------------------

  const ALNUM := [Range('A', 'Z'), Range('a', 'z'), Range('0', '9')]
  const HEX := [Range('0', '9'), Range('a', 'f')]

  function One(c: char): Range {
    Range(c, c)
  }

  lemma AlnumClass(c: char)
    ensures IsAlnum(c) <==> InClass(c, ALNUM)
    ensures !InClass('\n', ALNUM)
  {
    assert ALNUM[0] == Range('A', 'Z') && ALNUM[1] == Range('a', 'z') && ALNUM[2] == Range('0', '9');
    assert InClass(c, ALNUM) <==> ('A' <= c <= 'Z' || 'a' <= c <= 'z' || '0' <= c <= '9');
  }

  lemma ClassSum(c: char, a: seq<Range>, b: seq<Range>)
    ensures InClass(c, a + b) <==> InClass(c, a) || InClass(c, b)
  {
    if InClass(c, a) {
      var i :| 0 <= i < |a| && a[i].first <= c <= a[i].last;
      assert (a + b)[i] == a[i];
    }
    if InClass(c, b) {
      var i :| 0 <= i < |b| && b[i].first <= c <= b[i].last;
      assert (a + b)[|a| + i] == b[i];
    }
  }

  function Ones(more: string): seq<Range> {
    seq(|more|, i requires 0 <= i < |more| => One(more[i]))
  }

  lemma OnesClass(c: char, more: string)
    ensures InClass(c, Ones(more)) <==> c in more
  {
    if c in more {
      var i :| 0 <= i < |more| && more[i] == c;
      assert Ones(more)[i] == One(c);
    }
  }

  function Token(more: string, least: nat, most: nat): seq<Part> {
    [Exactly(ALNUM, 1), Part(ALNUM + Ones(more), least, Some(most))]
  }

  lemma TokenFits(t: string, more: string, shortest: nat, longest: nat)
    requires shortest >= 1 && longest >= 1
    ensures Fits(t, Token(more, shortest - 1, longest - 1)) <==>
      && shortest <= |t| <= longest && IsAlnum(t[0])
      && forall i :: 0 <= i < |t| ==> IsAlnum(t[i]) || (i > 0 && t[i] in more)
  {
    var second := Part(ALNUM + Ones(more), shortest - 1, Some(longest - 1));
    FitsFixed(t, ALNUM, 1, [second]);
    assert Token(more, shortest - 1, longest - 1) == [Exactly(ALNUM, 1)] + [second];
    if t != "" {
      FitsLast(t[1..], second);
      AllInAt(t, 0, 1, ALNUM);
      AllInAt(t, 1, |t|, ALNUM + Ones(more));
      assert t[1..|t|] == t[1..] && t[0..1] == t[..1];
      forall c: char ensures InClass(c, ALNUM + Ones(more)) <==> IsAlnum(c) || c in more {
        TokenClass(c, more);
      }
      AlnumClass(t[0]);
    }
    hide InClass, Fits, AllIn;
  }

  lemma TokenClass(c: char, more: string)
    ensures InClass(c, ALNUM + Ones(more)) <==> IsAlnum(c) || c in more
  {
    ClassSum(c, ALNUM, Ones(more));
    OnesClass(c, more);
    AlnumClass(c);
  }

  /** Where no class takes a line break, the one at the end is the only one there can be. */
  lemma MatchesChopped(s: string, parts: seq<Part>)
    requires Fits(s, parts) ==> Chopped(s) == s
    ensures Matches(s, parts) <==> Fits(Chopped(s), parts)
  {
    hide Fits;
  }

  lemma TokenMatches(s: string, more: string, set_: set<char>, shortest: nat, longest: nat)
    requires shortest >= 1 && longest >= 1 && '\n' !in more && forall c :: c in more <==> c in set_
    ensures Matches(s, Token(more, shortest - 1, longest - 1)) <==> IsToken(s, set_, shortest, longest)
  {
    hide Fits;
    TokenFits(s, more, shortest, longest);
    TokenFits(Chopped(s), more, shortest, longest);
    MatchesChopped(s, Token(more, shortest - 1, longest - 1));
  }

  /** Names, keys and accounts are what these patterns match. */
  lemma TokensMatch(s: string)
    ensures NameOk(s) <==> Matches(s, Token("._@-", 0, 127))
    ensures AccessKeyOk(s) <==> Matches(s, Token("._-", 7, 127))
    ensures UsernameOk(s) <==> Matches(s, Token("._-", 0, 63))
  {
    hide IsToken, Matches;
    TokenMatches(s, "._@-", {'.', '_', '@', '-'}, 1, 128);
    TokenMatches(s, "._-", {'.', '_', '-'}, 8, 128);
    TokenMatches(s, "._-", {'.', '_', '-'}, 1, 64);
  }

  /** A server's address begins and ends with a letter or digit, and has more of them, dots
      and hyphens in between. */
  lemma HostMatches(s: string)
    ensures NatsHostOk(s) <==> Matches(s, [Exactly(ALNUM, 1), Part(ALNUM + Ones(".-"), 0, None), Exactly(ALNUM, 1)])
  {
    hide Fits;
    HostFits(s);
    HostFits(Chopped(s));
    MatchesChopped(s, [Exactly(ALNUM, 1), Part(ALNUM + Ones(".-"), 0, None), Exactly(ALNUM, 1)]);
  }

  lemma HostFits(t: string)
    ensures Fits(t, [Exactly(ALNUM, 1), Part(ALNUM + Ones(".-"), 0, None), Exactly(ALNUM, 1)]) <==>
      && |t| >= 2 && IsAlnum(t[0]) && IsAlnum(t[|t| - 1])
      && forall i :: 0 <= i < |t| ==> IsAlnum(t[i]) || t[i] in {'.', '-'}
  {
    hide Fits, InClass, AllIn, IsAlnum;
    var inner := ALNUM + Ones(".-");
    var more := [Part(inner, 0, None), Exactly(ALNUM, 1)];
    assert [Exactly(ALNUM, 1), Part(inner, 0, None), Exactly(ALNUM, 1)] == [Exactly(ALNUM, 1)] + more;
    FitsFixed(t, ALNUM, 1, more);
    if t != "" {
      FirstOf(t);
      AlnumClass(t[0]);
      FitsUpToLast(t[1..], inner, ALNUM);
      if |t| >= 2 {
        assert t[1..][|t[1..]| - 1] == t[|t| - 1] && t[1..][..|t[1..]| - 1] == t[1..|t| - 1];
        AlnumClass(t[|t| - 1]);
        InnerOf(t);
      }
    }
  }

  lemma FirstOf(t: string)
    requires t != ""
    ensures AllIn(t[..1], ALNUM) <==> InClass(t[0], ALNUM)
  {
    hide InClass;
    AllInAt(t, 0, 1, ALNUM);
    assert t[0..1] == t[..1];
  }

  lemma InnerOf(t: string)
    requires |t| >= 2
    ensures AllIn(t[1..|t| - 1], ALNUM + Ones(".-"))
            <==> forall i :: 1 <= i < |t| - 1 ==> IsAlnum(t[i]) || t[i] in {'.', '-'}
  {
    hide InClass, IsAlnum;
    AllInAt(t, 1, |t| - 1, ALNUM + Ones(".-"));
    forall i | 1 <= i < |t| - 1 ensures InClass(t[i], ALNUM + Ones(".-")) <==> IsAlnum(t[i]) || t[i] in {'.', '-'} {
      TokenClass(t[i], ".-");
    }
  }

  lemma NotTruthy(text: Option<string>)
    ensures Truthy(text) <==> text !in {None, Some("")}
  {
    if text.Some? {
      assert text == Some("") <==> text.value == "";
    }
  }

  const HYPHEN := [Range('-', '-')]

  function Groups(): seq<Part> {
    [Exactly(HEX, 8), Exactly(HYPHEN, 1), Exactly(HEX, 4), Exactly(HYPHEN, 1), Exactly(HEX, 4), Exactly(HYPHEN, 1),
     Exactly(HEX, 4), Exactly(HYPHEN, 1), Exactly(HEX, 12)]
  }

  lemma HexClass(c: char)
    ensures InClass(c, HEX) <==> '0' <= c <= '9' || 'a' <= c <= 'f'
    ensures InClass(c, HYPHEN) <==> c == '-'
  {
    assert HEX[0] == Range('0', '9') && HEX[1] == Range('a', 'f') && HYPHEN[0] == Range('-', '-');
  }

  lemma GroupFits(t: string, at: nat, ranges: seq<Range>, k: nat, more: seq<Part>)
    requires at <= |t|
    ensures Fits(t[at..], [Exactly(ranges, k)] + more) <==>
      at + k <= |t| && (forall i :: at <= i < at + k ==> InClass(t[i], ranges)) && Fits(t[at + k..], more)
  {
    hide Fits, InClass;
    FitsFixed(t[at..], ranges, k, more);
    if at + k <= |t| {
      assert t[at..][..k] == t[at..at + k] && t[at..][k..] == t[at + k..];
      AllInAt(t, at, at + k, ranges);
    }
  }

  /** An identifier is five groups of hexadecimal digits with hyphens between them. */
  lemma IdMatches(s: string)
    ensures ProbeIdOk(s) <==> Matches(s, Groups())
  {
    hide Fits;
    IdFits(s);
    IdFits(Chopped(s));
    MatchesChopped(s, Groups());
  }

  ghost predicate GroupOf(t: string, from: nat, to: nat, ranges: seq<Range>) {
    to <= |t| && forall i :: from <= i < to ==> InClass(t[i], ranges)
  }

  lemma IdFits(t: string)
    ensures Fits(t, Groups()) <==>
      |t| == 36 && forall i :: 0 <= i < 36 ==>
        if i in {8, 13, 18, 23} then t[i] == '-' else '0' <= t[i] <= '9' || 'a' <= t[i] <= 'f'
  {
    hide Fits, InGroups;
    IdFitsGroups(t);
    if |t| == 36 {
      GroupsMean(t);
    }
  }

  lemma GroupsAt()
    ensures |Groups()| == 9
    ensures forall i :: i in {0, 8} ==> Groups()[i].ranges == HEX
    ensures Groups()[0] == Exactly(HEX, 8) && Groups()[8] == Exactly(HEX, 12)
    ensures forall i :: i in {1, 3, 5, 7} ==> Groups()[i] == Exactly(HYPHEN, 1)
    ensures forall i :: i in {2, 4, 6} ==> Groups()[i] == Exactly(HEX, 4)
  {
  }

  ghost predicate InGroups(t: string) {
    && GroupOf(t, 0, 8, HEX) && GroupOf(t, 8, 9, HYPHEN) && GroupOf(t, 9, 13, HEX) && GroupOf(t, 13, 14, HYPHEN)
    && GroupOf(t, 14, 18, HEX) && GroupOf(t, 18, 19, HYPHEN) && GroupOf(t, 19, 23, HEX) && GroupOf(t, 23, 24, HYPHEN)
    && GroupOf(t, 24, 36, HEX)
  }

  lemma IdFitsGroups(t: string)
    ensures Fits(t, Groups()) <==> |t| == 36 && InGroups(t)
  {
    hide Fits, GroupOf, Groups, Exactly;
    var g := Groups();
    GroupsAt();
    assert t[0..] == t && g[0..] == g;
    GroupAt(t, 0, g, 0, HEX, 8);
    GroupAt(t, 8, g, 1, HYPHEN, 1);
    GroupAt(t, 9, g, 2, HEX, 4);
    GroupAt(t, 13, g, 3, HYPHEN, 1);
    GroupAt(t, 14, g, 4, HEX, 4);
    GroupAt(t, 18, g, 5, HYPHEN, 1);
    GroupAt(t, 19, g, 6, HEX, 4);
    GroupAt(t, 23, g, 7, HYPHEN, 1);
    GroupAt(t, 24, g, 8, HEX, 12);
    NothingLeft(t, g);
  }

  lemma GroupsMean(t: string)
    requires |t| == 36
    ensures InGroups(t) <==> forall i :: 0 <= i < 36 ==>
        if i in {8, 13, 18, 23} then t[i] == '-' else '0' <= t[i] <= '9' || 'a' <= t[i] <= 'f'
  {
    hide InClass;
    forall i | 0 <= i < 36
      ensures InClass(t[i], HEX) <==> '0' <= t[i] <= '9' || 'a' <= t[i] <= 'f'
      ensures InClass(t[i], HYPHEN) <==> t[i] == '-'
    {
      HexClass(t[i]);
    }
  }

  lemma GroupAt(t: string, at: nat, g: seq<Part>, i: nat, ranges: seq<Range>, k: nat)
    requires i < |g| && g[i] == Exactly(ranges, k)
    ensures GroupOf(t, at, at + k, ranges) ==> at + k <= |t|
    ensures at <= |t| ==> (Fits(t[at..], g[i..]) <==> GroupOf(t, at, at + k, ranges) && Fits(t[at + k..], g[i + 1..]))
  {
    hide Fits, InClass;
    assert g[i..] == [g[i]] + g[i + 1..];
    if at <= |t| {
      GroupFits(t, at, ranges, k, g[i + 1..]);
    }
  }

  lemma NothingLeft(t: string, g: seq<Part>)
    ensures |t| >= 36 ==> (Fits(t[36..], g[|g|..]) <==> |t| == 36)
  {
    assert g[|g|..] == [];
  }

  /** The rendering asks for each of these, and for nothing else. */
  lemma CompleteExactly(site: Site)
    ensures site.Complete() <==>
      && Matches(site.username, Token("._-", 0, 63)) && site.natsFqdn != ""
      && Matches(site.probeId, Groups()) && Matches(site.accessKey, Token("._-", 7, 127))
      && Matches(if site.hostOverride in {None, Some("")} then site.natsFqdn else site.hostOverride.value,
                 [Exactly(ALNUM, 1), Part(ALNUM + Ones(".-"), 0, None), Exactly(ALNUM, 1)])
      && 0 < site.natsPort < 0x1_0000
      && site.natsPassword !in {None, Some("")} && site.template != None
  {
    hide Matches, UsernameOk, ProbeIdOk, AccessKeyOk, NatsHostOk;
    TokensMatch(site.username);
    TokensMatch(site.accessKey);
    IdMatches(site.probeId);
    HostMatches(site.Host());
    NotTruthy(site.hostOverride);
    NotTruthy(site.natsPassword);
  }

  // --- Names that are not read ---------------------------------------------

  /** One quote of either kind at each end is taken off, and no more. */
  lemma QuotesComeOff(value: string, first: char, last: char)
    requires first in {'"', '\''} && last in {'"', '\''}
    requires value != "" && value[0] !in {'"', '\''} && value[|value| - 1] !in {'"', '\''}
    ensures Unquoted(value) == value && Unquoted([first] + value) == value && Unquoted(value + [last]) == value
  {
    assert ([first] + value)[1..] == value && (value + [last])[..|value|] == value;
  }

  lemma OneOfTwoComesOff(value: string, first: char, second: char)
    requires first in {'"', '\''} && value != "" && value[|value| - 1] !in {'"', '\''}
    ensures Unquoted([first, second] + value) == [second] + value
  {
    assert ([first, second] + value)[1..] == [second] + value;
  }

  /** Two lines that give a name, none at all, or a control character in it: the probe then
      reports none. */
  lemma ReadsNoName(text: string)
    ensures |NamesIn(text)| != 1 ==> ReadName(text) == None
    ensures |NamesIn(text)| == 1 ==>
      ((exists c :: c in NamesIn(text)[0] && (c as int < 32 || c as int == 127)) ==> ReadName(text) == None)
  {
    hide NamesIn, EnvFile.Strip;
    if |NamesIn(text)| == 1 {
      var name := NamesIn(text)[0];
      if c :| c in name && (c as int < 32 || c as int == 127) {
        var i :| 0 <= i < |name| && name[i] == c;
        assert IsControl(name[i]);
      }
    }
  }
}
