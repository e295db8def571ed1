/** Regular expressions as far as the values of a configuration are checked with them:
    character classes one after another, each repeated so and so often. */
module Patterns {
  import opened Prelude

  datatype Range = Range(first: char, last: char)

  /** One class and how often it stands there; without a limit where there is none. */
  datatype Part = Part(ranges: seq<Range>, least: nat, most: Option<nat>)

  ghost predicate InClass(c: char, ranges: seq<Range>) {
    exists i :: 0 <= i < |ranges| && ranges[i].first <= c <= ranges[i].last
  }

  ghost predicate AllIn(s: string, ranges: seq<Range>) {
    forall i :: 0 <= i < |s| ==> InClass(s[i], ranges)
  }

  ghost predicate Takes(s: string, n: nat, part: Part) {
    && part.least <= n <= |s| && (part.most.Some? ==> n <= part.most.value)
    && AllIn(s[..n], part.ranges)
  }

  /** The whole text is what the parts describe. */
  ghost predicate Fits(s: string, parts: seq<Part>)
    decreases |parts|
  {
    if parts == [] then s == ""
    else exists n: nat :: Takes(s, n, parts[0]) && Fits(s[n..], parts[1..])
  }

  /** `re.match` of a pattern between `^` and `$`: the end is the text's, or before one line
      break there. */
  ghost predicate Matches(s: string, parts: seq<Part>) {
    Fits(s, parts) || (s != "" && s[|s| - 1] == '\n' && Fits(s[..|s| - 1], parts))
  }

  function Exactly(ranges: seq<Range>, n: nat): Part {
    Part(ranges, n, Some(n))
  }

  lemma FitsFixed(s: string, ranges: seq<Range>, k: nat, more: seq<Part>)
    ensures Fits(s, [Exactly(ranges, k)] + more) <==> k <= |s| && AllIn(s[..k], ranges) && Fits(s[k..], more)
  {
    var parts := [Exactly(ranges, k)] + more;
    assert parts[0] == Exactly(ranges, k) && parts[1..] == more;
    if k <= |s| && AllIn(s[..k], ranges) && Fits(s[k..], more) {
      assert Takes(s, k, parts[0]);
    }
    if Fits(s, parts) {
      var n: nat :| Takes(s, n, parts[0]) && Fits(s[n..], parts[1..]);
      assert n == k;
    }
  }

  lemma FitsLast(s: string, part: Part)
    ensures Fits(s, [part]) <==> part.least <= |s| && (part.most.Some? ==> |s| <= part.most.value) && AllIn(s, part.ranges)
  {
    var parts := [part];
    assert parts[1..] == [] && s[..|s|] == s && s[|s|..] == "";
    if part.least <= |s| && (part.most.Some? ==> |s| <= part.most.value) && AllIn(s, part.ranges) {
      assert Takes(s, |s|, part) && Fits(s[|s|..], parts[1..]);
    }
    if Fits(s, parts) {
      var n: nat :| Takes(s, n, part) && Fits(s[n..], parts[1..]);
      assert n == |s|;
    }
  }

  /** Any number of one class and then a single character of another. */
  lemma FitsUpToLast(s: string, inner: seq<Range>, last: seq<Range>)
    ensures Fits(s, [Part(inner, 0, None), Exactly(last, 1)])
            <==> |s| >= 1 && AllIn(s[..|s| - 1], inner) && InClass(s[|s| - 1], last)
  {
    var parts := [Part(inner, 0, None), Exactly(last, 1)];
    assert parts[1..] == [Exactly(last, 1)];
    if |s| >= 1 && AllIn(s[..|s| - 1], inner) && InClass(s[|s| - 1], last) {
      var rest := s[|s| - 1..];
      FitsLast(rest, Exactly(last, 1));
      assert rest == [s[|s| - 1]];
      assert Takes(s, |s| - 1, parts[0]) && Fits(s[|s| - 1..], parts[1..]);
    }
    if Fits(s, parts) {
      var n: nat :| Takes(s, n, parts[0]) && Fits(s[n..], parts[1..]);
      FitsLast(s[n..], Exactly(last, 1));
      assert n == |s| - 1 && s[n..][0] == s[|s| - 1];
    }
  }

  lemma AllInAt(s: string, from: nat, to: nat, ranges: seq<Range>)
    requires from <= to <= |s|
    ensures AllIn(s[from..to], ranges) <==> forall i :: from <= i < to ==> InClass(s[i], ranges)
  {
    var part := s[from..to];
    assert forall i :: 0 <= i < |part| ==> part[i] == s[from + i];
    if AllIn(part, ranges) {
      forall i | from <= i < to ensures InClass(s[i], ranges) {
        assert part[i - from] == s[i];
      }
    }
  }
}
