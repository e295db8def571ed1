/** Numeric dotted versions, compared as the reconciliation compares them. */
module Versions {
  import opened Prelude

  function Split(s: string, at: char): (parts: seq<string>)
    ensures parts != []
  {
    if s == "" then [""]
    else
      var rest := Split(s[1..], at);
      if s[0] == at then [""] + rest else [[s[0]] + rest[0]] + rest[1..]
  }

  predicate IsDigits(s: string) {
    s != "" && forall i :: 0 <= i < |s| ==> '0' <= s[i] <= '9'
  }

  function DigitsValue(s: string): int
    requires forall i :: 0 <= i < |s| ==> '0' <= s[i] <= '9'
  {
    if s == "" then 0 else 10 * DigitsValue(s[..|s| - 1]) + (s[|s| - 1] as int - '0' as int)
  }

  /** A sign and decimal digits; None is the ValueError. */
  function ParseInt(s: string): Option<int> {
    if IsDigits(s) then Some(DigitsValue(s))
    else if s != "" && s[0] == '+' && IsDigits(s[1..]) then Some(DigitsValue(s[1..]))
    else if s != "" && s[0] == '-' && IsDigits(s[1..]) then Some(-DigitsValue(s[1..]))
    else None
  }

  predicate Numeric(version: string) {
    forall part :: part in Split(version, '.') ==> ParseInt(part).Some?
  }

  function Numbers(version: string): (numbers: seq<int>)
    requires Numeric(version)
  {
    var parts := Split(version, '.');
    seq(|parts|, i requires 0 <= i < |parts| && (forall part :: part in parts ==> ParseInt(part).Some?) =>
      ParseInt(parts[i]).value)
  }

  function Pad(numbers: seq<int>, width: nat): seq<int>
    requires |numbers| <= width
  {
    numbers + seq(width - |numbers|, _ => 0)
  }

  /** Tuple comparison. */
  predicate TupleAtLeast(a: seq<int>, b: seq<int>) {
    if b == [] then true
    else if a == [] then false
    else if a[0] != b[0] then a[0] > b[0]
    else TupleAtLeast(a[1..], b[1..])
  }

  predicate AtLeast(actual: Option<string>, minimum: string) {
    && actual.Some?
    && Numeric(actual.value)
    && Numeric(minimum)
    && var a, b := Numbers(actual.value), Numbers(minimum);
       var width := Max(|a|, |b|);
       TupleAtLeast(Pad(a, width), Pad(b, width))
  }

  // --- What the comparison means -------------------------------------------

  /** The i-th number, zero once the version has run out of parts. */
  function Part(numbers: seq<int>, i: nat): int {
    if i < |numbers| then numbers[i] else 0
  }

  ghost predicate SameBelow(a: seq<int>, b: seq<int>, k: nat) {
    forall i: nat :: i < k ==> Part(a, i) == Part(b, i)
  }

  ghost predicate WinsAt(a: seq<int>, b: seq<int>, k: nat) {
    SameBelow(a, b, k) && Part(a, k) > Part(b, k)
  }

  ghost predicate NotOlder(a: seq<int>, b: seq<int>) {
    (forall i: nat :: Part(a, i) == Part(b, i)) || exists k: nat :: WinsAt(a, b, k)
  }

  lemma {:induction false} TupleMeaning(a: seq<int>, b: seq<int>)
    requires |a| == |b|
    ensures TupleAtLeast(a, b) <==> NotOlder(a, b)
  {
    if a == [] {
    } else if a[0] != b[0] {
      assert Part(a, 0) != Part(b, 0);
      if a[0] > b[0] {
        assert WinsAt(a, b, 0);
      }
    } else {
      TupleMeaning(a[1..], b[1..]);
      TailDecides(a, b);
    }
  }

  lemma TailDecides(a: seq<int>, b: seq<int>)
    requires |a| == |b| > 0 && a[0] == b[0]
    ensures NotOlder(a, b) <==> NotOlder(a[1..], b[1..])
  {
    forall i: nat ensures Part(a, i + 1) == Part(a[1..], i) && Part(b, i + 1) == Part(b[1..], i) {}
    if k: nat :| WinsAt(a, b, k) {
      assert Part(a, 0) == Part(b, 0) && k > 0;
      forall i: nat | i < k - 1 ensures Part(a[1..], i) == Part(b[1..], i) {
        assert Part(a, i + 1) == Part(b, i + 1);
      }
      assert Part(a, k - 1 + 1) == Part(a[1..], k - 1);
      assert WinsAt(a[1..], b[1..], k - 1);
    }
    if k: nat :| WinsAt(a[1..], b[1..], k) {
      forall i: nat | i < k + 1 ensures Part(a, i) == Part(b, i) {
        if i > 0 {
          assert Part(a, i - 1 + 1) == Part(a[1..], i - 1);
        }
      }
      assert WinsAt(a, b, k + 1);
    }
    if forall i: nat :: Part(a, i) == Part(b, i) {
      forall i: nat ensures Part(a[1..], i) == Part(b[1..], i) {
        assert Part(a, i + 1) == Part(b, i + 1);
      }
    }
    if forall i: nat :: Part(a[1..], i) == Part(b[1..], i) {
      forall i: nat ensures Part(a, i) == Part(b, i) {
        if i > 0 {
          assert Part(a, i - 1 + 1) == Part(a[1..], i - 1);
        }
      }
    }
  }

  /** Number by number, whatever the number of parts: 3.18 is newer than 3.9 and 3.0 is
      as new as 3. */
  lemma VersionMeaning(actual: string, minimum: string)
    ensures AtLeast(Some(actual), minimum)
            <==> Numeric(actual) && Numeric(minimum) && NotOlder(Numbers(actual), Numbers(minimum))
  {
    if Numeric(actual) && Numeric(minimum) {
      var a, b := Numbers(actual), Numbers(minimum);
      var width := Max(|a|, |b|);
      TupleMeaning(Pad(a, width), Pad(b, width));
      PaddingIsZero(a, b, width);
    }
  }

  lemma PaddingIsZero(a: seq<int>, b: seq<int>, width: nat)
    requires |a| <= width && |b| <= width
    ensures NotOlder(Pad(a, width), Pad(b, width)) <==> NotOlder(a, b)
  {
    var p, q := Pad(a, width), Pad(b, width);
    forall i: nat ensures Part(p, i) == Part(a, i) && Part(q, i) == Part(b, i) {}
    if k: nat :| WinsAt(p, q, k) {
      forall i: nat | i < k ensures Part(a, i) == Part(b, i) {
        assert Part(p, i) == Part(q, i);
      }
      assert WinsAt(a, b, k);
    }
    if k: nat :| WinsAt(a, b, k) {
      forall i: nat | i < k ensures Part(p, i) == Part(q, i) {
        assert Part(a, i) == Part(b, i);
      }
      assert WinsAt(p, q, k);
    }
    if forall i: nat :: Part(a, i) == Part(b, i) {
      forall i: nat ensures Part(p, i) == Part(q, i) {
        assert Part(a, i) == Part(b, i);
      }
    }
    if forall i: nat :: Part(p, i) == Part(q, i) {
      forall i: nat ensures Part(a, i) == Part(b, i) {
        assert Part(p, i) == Part(q, i);
      }
    }
  }

  /** A version satisfies itself as a minimum exactly where it is numeric. */
  lemma SelfSatisfies(version: string)
    ensures AtLeast(Some(version), version) <==> Numeric(version)
  {
    VersionMeaning(version, version);
  }

  lemma AtLeastIsTransitive(a: string, b: string, c: string)
    requires AtLeast(Some(a), b) && AtLeast(Some(b), c)
    ensures AtLeast(Some(a), c)
  {
    VersionMeaning(a, b);
    VersionMeaning(b, c);
    VersionMeaning(a, c);
    var x, y, z := Numbers(a), Numbers(b), Numbers(c);
    if forall i: nat :: Part(x, i) == Part(y, i) {
      if k: nat :| WinsAt(y, z, k) {
        forall i: nat | i < k ensures Part(x, i) == Part(z, i) {
          assert Part(x, i) == Part(y, i) == Part(z, i);
        }
        assert WinsAt(x, z, k);
      } else {
        forall i: nat ensures Part(x, i) == Part(z, i) {
          assert Part(x, i) == Part(y, i) == Part(z, i);
        }
      }
    } else {
      var k: nat :| WinsAt(x, y, k);
      var j: nat := if m: nat :| WinsAt(y, z, m) then (if m < k then m else k) else k;
      forall i: nat | i < j ensures Part(x, i) == Part(z, i) {
        assert Part(x, i) == Part(y, i) == Part(z, i);
      }
      assert Part(x, j) >= Part(y, j) >= Part(z, j);
      assert WinsAt(x, z, j);
    }
  }

  // --- From the text to its numbers ----------------------------------------

  lemma {:induction false} DecimalReads(n: nat)
    ensures IsDigits(Decimal(n)) && DigitsValue(Decimal(n)) == n
    ensures '.' !in Decimal(n)
  {
    var s := Decimal(n);
    if n >= 10 {
      DecimalReads(n / 10);
      assert s[..|s| - 1] == Decimal(n / 10);
    } else {
      assert s[..|s| - 1] == "";
    }
  }

  /** A number part is decimal digits, with a sign or without. */
  lemma SignsRead(n: nat)
    ensures ParseInt(Decimal(n)) == Some(n) && ParseInt("+" + Decimal(n)) == Some(n)
    ensures ParseInt("-" + Decimal(n)).Some? && ParseInt("-" + Decimal(n)).value + n == 0
  {
    hide Decimal, DigitsValue;
    DecimalReads(n);
    var plus, minus := "+" + Decimal(n), "-" + Decimal(n);
    assert plus[0] == '+' && minus[0] == '-' && plus[1..] == Decimal(n) && minus[1..] == Decimal(n);
    assert !IsDigits(plus) && !IsDigits(minus);
  }

  /** And nothing else is one. */
  lemma ReadsExactly(s: string)
    ensures ParseInt(s).Some? <==> IsDigits(s) || (s != "" && s[0] in {'+', '-'} && IsDigits(s[1..]))
  {
  }

  function Dotted(numbers: seq<nat>): string {
    if numbers == [] then ""
    else if |numbers| == 1 then Decimal(numbers[0])
    else Decimal(numbers[0]) + "." + Dotted(numbers[1..])
  }

  function Decimals(numbers: seq<nat>): seq<string> {
    if numbers == [] then [] else [Decimal(numbers[0])] + Decimals(numbers[1..])
  }

  lemma {:induction false} SplitAlone(part: string, at: char)
    requires at !in part
    ensures Split(part, at) == [part]
  {
    if part != "" {
      SplitAlone(part[1..], at);
      assert [part[0]] + part[1..] == part;
    }
  }

  lemma {:induction false} SplitFirst(part: string, at: char, rest: string)
    requires at !in part
    ensures Split(part + [at] + rest, at) == [part] + Split(rest, at)
  {
    var s := part + [at] + rest;
    if part == "" {
      assert s[0] == at && s[1..] == rest;
    } else {
      assert s[0] == part[0] && s[1..] == part[1..] + [at] + rest;
      SplitFirst(part[1..], at, rest);
      assert [part[0]] + part[1..] == part;
      assert ([part[1..]] + Split(rest, at))[1..] == Split(rest, at);
    }
  }

  lemma {:induction false} SplitDotted(numbers: seq<nat>)
    requires numbers != []
    ensures Split(Dotted(numbers), '.') == Decimals(numbers)
  {
    DecimalReads(numbers[0]);
    if |numbers| == 1 {
      SplitAlone(Decimal(numbers[0]), '.');
      assert Decimals(numbers) == [Decimal(numbers[0])];
    } else {
      SplitFirst(Decimal(numbers[0]), '.', Dotted(numbers[1..]));
      SplitDotted(numbers[1..]);
      hide Decimal;
    }
  }

  lemma {:induction false} DecimalsAt(numbers: seq<nat>)
    ensures |Decimals(numbers)| == |numbers|
    ensures forall i :: 0 <= i < |numbers| ==> Decimals(numbers)[i] == Decimal(numbers[i])
  {
    if numbers != [] {
      DecimalsAt(numbers[1..]);
    }
  }

  /** A version written as dotted numbers reads as those numbers. */
  lemma NumbersOfDotted(numbers: seq<nat>)
    requires numbers != []
    ensures Numeric(Dotted(numbers)) && Numbers(Dotted(numbers)) == numbers
  {
    SplitDotted(numbers);
    DecimalsAt(numbers);
    hide Split, Dotted, Decimals, Decimal, DigitsValue;
    forall i | 0 <= i < |numbers|
      ensures ParseInt(Decimal(numbers[i])) == Some(numbers[i])
    {
      DecimalReads(numbers[i]);
    }
    forall part | part in Decimals(numbers) ensures ParseInt(part).Some? {
      var i :| 0 <= i < |numbers| && Decimals(numbers)[i] == part;
      assert ParseInt(Decimal(numbers[i])).Some?;
    }
  }

  /** And so versions written as dotted numbers compare as their numbers do. */
  lemma DottedAtLeast(a: seq<nat>, b: seq<nat>)
    requires a != [] && b != []
    ensures AtLeast(Some(Dotted(a)), Dotted(b)) <==> NotOlder(a, b)
  {
    NumbersOfDotted(a);
    NumbersOfDotted(b);
    VersionMeaning(Dotted(a), Dotted(b));
  }

  /** As numbers and not as text. */
  lemma TenIsAfterNine()
    ensures AtLeast(Some("3.10"), "3.9") && !AtLeast(Some("3.9"), "3.10")
  {
    var a, b := [3, 10], [3, 9];
    assert Decimal(3) == "3" && Decimal(9) == "9" && Decimal(1) == "1" && Decimal(10) == "10";
    assert a[1..] == [10] && b[1..] == [9];
    assert Dotted([10]) == "10" && Dotted([9]) == "9";
    assert Dotted(a) == "3.10" && Dotted(b) == "3.9";
    DottedAtLeast(a, b);
    DottedAtLeast(b, a);
    assert Part(a, 0) == Part(b, 0) && Part(a, 1) == 10 && Part(b, 1) == 9;
    assert WinsAt(a, b, 1);
    forall k: nat ensures !WinsAt(b, a, k) {
      if k > 1 {
        assert Part(b, 1) != Part(a, 1);
      }
    }
  }
}
