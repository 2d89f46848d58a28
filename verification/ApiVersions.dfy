/** API version keys and the version registry (app/shared/versioning.py). */
module ApiVersions {
  import opened Common

  datatype Version = Version(major: nat, minor: nat, patch: nat)

  // ---------- printing and reading numbers ----------

  predicate IsAscii(c: char) { '0' <= c <= '9' }

  function Digit(n: nat): (c: char)
    requires n < 10
    ensures IsAscii(c) && DigitValue(c) == n
  {
    n as char + '0'
  }

  function Decimal(n: nat): (s: string)
    ensures s != "" && forall i :: 0 <= i < |s| ==> IsAscii(s[i])
  {
    if n < 10 then [Digit(n)] else Decimal(n / 10) + [Digit(n % 10)]
  }

  function DigitValue(c: char): nat
    requires IsAscii(c)
  {
    c as int - '0' as int
  }

  function ValueOf(s: string): nat
    requires forall i :: 0 <= i < |s| ==> IsAscii(s[i])
  {
    if s == "" then 0 else ValueOf(s[..|s| - 1]) * 10 + DigitValue(s[|s| - 1])
  }

  lemma {:induction false} DecimalRoundTrip(n: nat)
    ensures ValueOf(Decimal(n)) == n
  {
    if n < 10 {
      assert Decimal(n)[..0] == "";
    } else {
      DecimalRoundTrip(n / 10);
      assert Decimal(n)[..|Decimal(n)| - 1] == Decimal(n / 10);
    }
  }

  // ---------- the pattern \d+(?:\.\d+)?(?:\.\d+)? ----------

  /** Whichever characters besides the ASCII digits the regular expressions take for decimal digits: those
      of other scripts.  Nothing depends on which they are, as long as the full stop is not among them. */
  type OtherDigits = s: set<char> | '.' !in s

  const OTHER_DIGITS: OtherDigits

  predicate IsDigit(c: char) { IsAscii(c) || c in OTHER_DIGITS }

  /** The number of leading digits. */
  function DigitRun(s: string): (n: nat)
    ensures n <= |s| && forall i :: 0 <= i < n ==> IsDigit(s[i])
  {
    if s == "" || !IsDigit(s[0]) then 0 else 1 + DigitRun(s[1..])
  }

  /** The position behind an optional `.digits` at `i`. */
  function PartEnd(s: string, i: nat): (j: nat)
    requires i <= |s|
    ensures i <= j <= |s|
    ensures j > i ==> j > i + 1 && s[i] == '.' && forall k :: i < k < j ==> IsDigit(s[k])
  {
    if i < |s| && s[i] == '.' && DigitRun(s[i + 1..]) > 0 then
      var run := DigitRun(s[i + 1..]);
      assert forall k :: i < k < i + 1 + run ==> s[k] == s[i + 1..][k - i - 1];
      i + 1 + run
    else i
  }

  /** The greedy match of the pattern at the start of `s`, or None. */
  function MatchLength(s: string): (r: Option<nat>)
    ensures r.Some? ==> 0 < r.value <= |s|
  {
    if DigitRun(s) == 0 then None else Some(PartEnd(s, PartEnd(s, DigitRun(s))))
  }

  /** Nothing that follows could be taken for more of a version. */
  predicate Stops(rest: string) {
    rest == "" || (!IsDigit(rest[0]) && rest[0] != '.')
  }

  lemma {:induction false} DigitRunEnds(digits: string, rest: string)
    requires forall i :: 0 <= i < |digits| ==> IsDigit(digits[i])
    requires rest == "" || !IsDigit(rest[0])
    ensures DigitRun(digits + rest) == |digits|
  {
    if digits == "" {
      assert digits + rest == rest;
    } else {
      DigitRunEnds(digits[1..], rest);
      assert (digits + rest)[1..] == digits[1..] + rest;
    }
  }

  ghost predicate Digits(s: string) {
    s != "" && forall i :: 0 <= i < |s| ==> IsDigit(s[i])
  }

  lemma PartTaken(s: string, i: nat, digits: string, rest: string)
    requires i <= |s| && Digits(digits) && (rest == "" || !IsDigit(rest[0]))
    requires s[i..] == "." + digits + rest
    ensures var j := i + 1 + |digits|;
            PartEnd(s, i) == j <= |s| && s[i + 1..j] == digits && s[j..] == rest
  {
    assert s[i] == s[i..][0] && s[i + 1..] == s[i..][1..] == digits + rest;
    DigitRunEnds(digits, rest);
    assert s[i + 1..i + 1 + |digits|] == s[i + 1..][..|digits|];
  }

  // ---------- spelled versions ----------

  ghost predicate Ascii(parts: seq<string>) {
    forall i, j :: 0 <= i < |parts| && 0 <= j < |parts[i]| ==> IsAscii(parts[i][j])
  }

  /** One to three digit strings, leading zeros allowed, and how they are spelled. */
  ghost predicate Spelling(parts: seq<string>) {
    1 <= |parts| <= 3 && forall i :: 0 <= i < |parts| ==> Digits(parts[i])
  }

  function Spelled(parts: seq<string>): string
    requires 1 <= |parts| <= 3
  {
    if |parts| == 1 then parts[0]
    else if |parts| == 2 then parts[0] + "." + parts[1]
    else parts[0] + "." + parts[1] + "." + parts[2]
  }

  /** The parts that the pattern finds at the start of `s`. */
  function PartsOf(s: string): seq<string>
    requires DigitRun(s) > 0
  {
    var first := DigitRun(s);
    var second := PartEnd(s, first);
    var third := PartEnd(s, second);
    var more := if second > first then [s[first + 1..second]] else [];
    [s[..first]] + more + if third > second then [s[second + 1..third]] else []
  }

  lemma TwoParts(s: string, x: string, y: string, rest: string)
    requires Digits(x) && Digits(y) && (rest == "" || !IsDigit(rest[0]))
    requires s == x + "." + y + rest
    ensures var j := |x| + 1 + |y|;
            && DigitRun(s) == |x| <= |s| && s[..|x|] == x
            && PartEnd(s, |x|) == j <= |s| && s[|x| + 1..j] == y && s[j..] == rest
  {
    hide PartEnd, DigitRun;
    var tail := "." + y + rest;
    Regroup(x, ".", y);
    Regroup(x, "." + y, rest);
    assert s == x + tail;
    DigitRunEnds(x, tail);
    assert s[|x|..] == tail && s[..|x|] == x;
    PartTaken(s, |x|, y, rest);
  }

  lemma ThreeParts(s: string, x: string, y: string, z: string, rest: string)
    requires Digits(x) && Digits(y) && Digits(z) && (rest == "" || !IsDigit(rest[0]))
    requires s == x + "." + y + "." + z + rest
    ensures var j := |x| + 1 + |y|;
            var k := j + 1 + |z|;
            && DigitRun(s) == |x| <= |s| && s[..|x|] == x
            && PartEnd(s, |x|) == j <= |s| && s[|x| + 1..j] == y
            && PartEnd(s, j) == k <= |s| && s[j + 1..k] == z
  {
    hide PartEnd, DigitRun;
    var two, tail := x + "." + y, "." + z + rest;
    Regroup(two, ".", z);
    Regroup(two, "." + z, rest);
    TwoParts(s, x, y, tail);
    PartTaken(s, |x| + 1 + |y|, z, rest);
  }

  lemma OneMatched(x: string, rest: string)
    requires Digits(x) && Stops(rest)
    ensures var s := x + rest; MatchLength(s) == Some(|x|) && DigitRun(s) > 0 && PartsOf(s) == [x]
  {
    var s := x + rest;
    DigitRunEnds(x, rest);
    assert s[..|x|] == x;
  }

  lemma TwoMatched(x: string, y: string, rest: string)
    requires Digits(x) && Digits(y) && Stops(rest)
    ensures var s := x + "." + y + rest;
            MatchLength(s) == Some(|x + "." + y|) && DigitRun(s) > 0 && PartsOf(s) == [x, y]
  {
    hide PartEnd, DigitRun;
    var s := x + "." + y + rest;
    TwoParts(s, x, y, rest);
  }

  lemma ThreeMatched(x: string, y: string, z: string, rest: string)
    requires Digits(x) && Digits(y) && Digits(z) && Stops(rest)
    ensures var s := x + "." + y + "." + z + rest;
            MatchLength(s) == Some(|x + "." + y + "." + z|) && DigitRun(s) > 0 && PartsOf(s) == [x, y, z]
  {
    hide PartEnd, DigitRun;
    ThreeParts(x + "." + y + "." + z + rest, x, y, z, rest);
  }

  /** The pattern matches a spelled version whole, and finds its parts. */
  lemma SpellingMatched(parts: seq<string>, rest: string)
    requires Spelling(parts) && Stops(rest)
    ensures var s := Spelled(parts) + rest;
            MatchLength(s) == Some(|Spelled(parts)|) && DigitRun(s) > 0 && PartsOf(s) == parts
  {
    hide PartEnd, DigitRun, PartsOf, MatchLength, Digits;
    if |parts| == 1 {
      OneMatched(parts[0], rest);
      assert parts == [parts[0]];
    } else if |parts| == 2 {
      TwoMatched(parts[0], parts[1], rest);
      assert parts == [parts[0], parts[1]];
    } else {
      ThreeMatched(parts[0], parts[1], parts[2], rest);
      assert parts == [parts[0], parts[1], parts[2]];
    }
  }

  /** The version that the parts spell, its absent parts being 0. */
  ghost function VersionOf(parts: seq<string>): Version
    requires Spelling(parts) && Ascii(parts)
  {
    Version(ValueOf(parts[0]),
            if |parts| > 1 then ValueOf(parts[1]) else 0,
            if |parts| > 2 then ValueOf(parts[2]) else 0)
  }

  // ---------- keys ----------

  /** What `short_version` prints: minor and patch are left out as far as they are 0. */
  function KeyParts(v: Version): (parts: seq<string>)
    ensures 1 <= |parts| <= 3
  {
    if v.minor == 0 && v.patch == 0 then [Decimal(v.major)]
    else if v.patch == 0 then [Decimal(v.major), Decimal(v.minor)]
    else [Decimal(v.major), Decimal(v.minor), Decimal(v.patch)]
  }

  function ShortVersion(v: Version): string { "v" + Spelled(KeyParts(v)) }

  lemma KeySpelling(v: Version)
    ensures Spelling(KeyParts(v)) && Ascii(KeyParts(v)) && VersionOf(KeyParts(v)) == v
  {
    DecimalRoundTrip(v.major);
    DecimalRoundTrip(v.minor);
    DecimalRoundTrip(v.patch);
    hide Decimal, ValueOf;
  }

  /** Reading a printed key gives the version back, whatever follows it. */
  lemma KeyRoundTrip(v: Version, rest: string)
    requires Stops(rest)
    ensures var s := Spelled(KeyParts(v)) + rest;
            DigitRun(s) > 0 && Spelling(PartsOf(s)) && Ascii(PartsOf(s)) && VersionOf(PartsOf(s)) == v
  {
    KeySpelling(v);
    SpellingMatched(KeyParts(v), rest);
  }

  /** A key names the major, minor and patch numbers in this order, in decimal: as many as it needs. */
  lemma KeyPrints(v: Version)
    ensures v.patch > 0 ==>
              ShortVersion(v) == "v" + Decimal(v.major) + "." + Decimal(v.minor) + "." + Decimal(v.patch)
    ensures v.patch == 0 && v.minor > 0 ==> ShortVersion(v) == "v" + Decimal(v.major) + "." + Decimal(v.minor)
    ensures v.patch == 0 && v.minor == 0 ==> ShortVersion(v) == "v" + Decimal(v.major)
  {
    var x, y, z := Decimal(v.major), Decimal(v.minor), Decimal(v.patch);
    hide Decimal;
    Regroup("v", x, ".");
    Regroup("v", x + ".", y);
    Regroup("v", x + "." + y, ".");
    Regroup("v", x + "." + y + ".", z);
  }

  /** Two versions with the same key are the same version. */
  lemma ShortVersionInjective(v: Version, w: Version)
    requires ShortVersion(v) == ShortVersion(w)
    ensures v == w
  {
    KeyRoundTrip(v, "");
    KeyRoundTrip(w, "");
    hide Spelled, KeyParts, PartsOf;
    assert ShortVersion(v)[1..] == Spelled(KeyParts(v)) && ShortVersion(w)[1..] == Spelled(KeyParts(w));
  }

  /** ASCII digits, no leading zeros, and no last part 0 but the first. */
  ghost predicate Normal(parts: seq<string>)
    requires Spelling(parts)
  {
    && Ascii(parts)
    && (forall i :: 0 <= i < |parts| ==> |parts[i]| == 1 || parts[i][0] != '0')
    && (|parts| > 1 ==> parts[|parts| - 1] != "0")
  }

  lemma {:induction false} DecimalNormal(n: nat)
    ensures |Decimal(n)| == 1 || Decimal(n)[0] != '0'
    ensures Decimal(n) == "0" <==> n == 0
  {
    if n >= 10 {
      DecimalNormal(n / 10);
    }
  }

  /** A digit string without a leading zero is the decimal of its value. */
  lemma {:induction false} DecimalOfValue(s: string)
    requires s != "" && (forall i :: 0 <= i < |s| ==> IsAscii(s[i])) && (|s| == 1 || s[0] != '0')
    ensures Decimal(ValueOf(s)) == s
    ensures |s| > 1 ==> ValueOf(s) >= 10
  {
    var before, last := s[..|s| - 1], s[|s| - 1];
    assert s == before + [last];
    if |s| == 1 {
      assert ValueOf("") == 0;
    } else {
      assert before[0] == s[0];
      if |before| > 1 || before[0] != '0' {
        DecimalOfValue(before);
        assert ValueOf(before) >= 1 by {
          if |before| == 1 {
            assert before[..0] == "" && ValueOf(before) == DigitValue(before[0]);
          }
        }
      }
      var d := DigitValue(last);
      assert ValueOf(s) == ValueOf(before) * 10 + d;
      assert Digit(d) == last;
    }
  }

  /** The parts of keys are exactly the normal spellings. */
  lemma KeyPartsIff(parts: seq<string>)
    requires Spelling(parts)
    ensures Normal(parts) <==> Ascii(parts) && parts == KeyParts(VersionOf(parts))
  {
    if Normal(parts) {
      NormalIsPrinted(parts);
    } else if Ascii(parts) && parts == KeyParts(VersionOf(parts)) {
      PrintedIsNormal(VersionOf(parts));
      assert false;
    }
  }

  lemma PrintedIsNormal(v: Version)
    ensures Spelling(KeyParts(v)) && Normal(KeyParts(v))
  {
    DecimalNormal(v.major);
    DecimalNormal(v.minor);
    DecimalNormal(v.patch);
    hide Decimal;
  }

  lemma NormalIsPrinted(parts: seq<string>)
    requires Spelling(parts) && Normal(parts)
    ensures parts == KeyParts(VersionOf(parts))
  {
    forall i | 0 <= i < |parts| ensures Decimal(ValueOf(parts[i])) == parts[i] {
      DecimalOfValue(parts[i]);
    }
    DecimalNormal(ValueOf(parts[|parts| - 1]));
    hide Decimal, ValueOf;
  }

  // ---------- extraction from the URL ----------

  const MARK := "/api/v"

  /** The key at the leftmost match at or after position `i`. */
  function SearchFrom(path: string, i: nat): Option<string>
    requires i <= |path|
    decreases |path| - i
  {
    if MARK <= path[i..] && MatchLength(path[i + |MARK|..]).Some? then
      Some("v" + path[i + |MARK|..][..MatchLength(path[i + |MARK|..]).value])
    else if i == |path| then None
    else SearchFrom(path, i + 1)
  }

  function ExtractFromUrl(path: string): Option<string> { SearchFrom(path, 0) }

  /** A spelled version is extracted as it stands. */
  lemma UrlGivesSpelling(parts: seq<string>, rest: string)
    requires Spelling(parts) && Stops(rest)
    ensures ExtractFromUrl("/api/v" + Spelled(parts) + rest) == Some("v" + Spelled(parts))
  {
    SpellingMatched(parts, rest);
    hide Spelled, MatchLength, PartsOf, DigitRun;
    var numbers := Spelled(parts);
    var path := "/api/v" + numbers + rest;
    assert path == MARK + (numbers + rest);
    assert path[0..] == path && path[|MARK|..] == numbers + rest;
    assert (numbers + rest)[..|numbers|] == numbers;
  }

  /** The URL of a version's resource gives back the version's key, and so the version. */
  lemma UrlGivesKey(v: Version, rest: string)
    requires Stops(rest)
    ensures ExtractFromUrl("/api/" + ShortVersion(v) + rest) == Some(ShortVersion(v))
  {
    KeySpelling(v);
    UrlGivesSpelling(KeyParts(v), rest);
    hide Spelled, ExtractFromUrl, KeyParts;
    Regroup("/api/", "v", Spelled(KeyParts(v)));
    assert "/api/" + "v" == "/api/v";
  }

  /** What is extracted from a URL with a spelled version is the key of some version, major numbers
      beginning with 1, if and only if the spelling is normal and does not begin with the number 0:
      neither `v1.0` nor `v01` is brought to the key `v1`. */
  lemma SpelledIsKeyIff(parts: seq<string>, rest: string)
    requires Spelling(parts) && Stops(rest)
    ensures var key := ExtractFromUrl("/api/v" + Spelled(parts) + rest);
            (exists v: Version :: v.major >= 1 && key == Some(ShortVersion(v))) <==> Normal(parts) && parts[0] != "0"
  {
    UrlGivesSpelling(parts, rest);
    KeyPartsIff(parts);
    if Ascii(parts) {
      DecimalNormal(VersionOf(parts).major);
    }
    forall v: Version | "v" + Spelled(parts) == ShortVersion(v)
      ensures Ascii(parts) && v == VersionOf(parts) && parts == KeyParts(v)
    {
      SameSpelling(parts, v);
    }
    hide ExtractFromUrl, Normal, Decimal, ValueOf, Ascii;
    if Normal(parts) && parts[0] != "0" {
      assert VersionOf(parts).major >= 1 && "v" + Spelled(parts) == ShortVersion(VersionOf(parts));
    }
  }

  lemma SameSpelling(parts: seq<string>, v: Version)
    requires Spelling(parts) && "v" + Spelled(parts) == ShortVersion(v)
    ensures Ascii(parts) && parts == KeyParts(v) && v == VersionOf(parts)
  {
    KeySpelling(v);
    SpellingMatched(parts, "");
    SpellingMatched(KeyParts(v), "");
    hide Spelled, PartsOf, MatchLength, KeyParts;
    assert ("v" + Spelled(parts))[1..] == Spelled(parts) && ("v" + Spelled(KeyParts(v)))[1..] == Spelled(KeyParts(v));
  }

  // ---------- leftmost and longest ----------

  ghost predicate IsSpelled(s: string) {
    exists parts :: Spelling(parts) && s == Spelled(parts)
  }

  /** The first `n` characters of `s` spell a version; and no more do. */
  ghost predicate SpelledTo(s: string, n: nat) { n <= |s| && IsSpelled(s[..n]) }

  ghost predicate LongestTo(s: string, n: nat) {
    SpelledTo(s, n) && forall m :: m > n ==> !SpelledTo(s, m)
  }

  ghost predicate HasSpelled(s: string) { exists n :: SpelledTo(s, n) }

  /** A spelled version stands behind a mark at `i`. */
  ghost predicate MatchesAt(path: string, i: nat) {
    i <= |path| && MARK <= path[i..] && HasSpelled(path[i + |MARK|..])
  }

  lemma {:induction false} DigitRunAtLeast(digits: string, rest: string)
    requires forall i :: 0 <= i < |digits| ==> IsDigit(digits[i])
    ensures DigitRun(digits + rest) >= |digits|
  {
    if digits != "" {
      DigitRunAtLeast(digits[1..], rest);
      assert (digits + rest)[1..] == digits[1..] + rest;
    }
  }

  lemma PartAtLeast(s: string, i: nat, digits: string, rest: string)
    requires i <= |s| && Digits(digits) && s[i..] == "." + digits + rest
    ensures PartEnd(s, i) >= i + 1 + |digits|
  {
    assert s[i] == s[i..][0] && s[i + 1..] == s[i..][1..] == digits + rest;
    DigitRunAtLeast(digits, rest);
  }

  /** No longer spelled version stands at the start of `s` than the pattern matches. */
  lemma LongestMatch(s: string, parts: seq<string>, rest: string)
    requires Spelling(parts) && s == Spelled(parts) + rest
    ensures MatchLength(s).Some? && MatchLength(s).value >= |Spelled(parts)|
  {
    if |parts| == 1 {
      DigitRunAtLeast(parts[0], rest);
    } else if |parts| == 2 {
      LongestTwo(s, parts[0], parts[1], rest);
    } else {
      LongestThree(s, parts[0], parts[1], parts[2], rest);
    }
  }

  lemma FirstPart(s: string, x: string, tail: string)
    requires Digits(x) && s == x + ("." + tail)
    ensures DigitRun(s) == |x| && s[|x|..] == "." + tail
  {
    DigitRunEnds(x, "." + tail);
  }

  lemma LongestTwo(s: string, x: string, y: string, rest: string)
    requires Digits(x) && Digits(y) && s == x + "." + y + rest
    ensures MatchLength(s).Some? && MatchLength(s).value >= |x + "." + y|
  {
    hide DigitRun, PartEnd;
    assert s == x + ("." + (y + rest));
    FirstPart(s, x, y + rest);
    Regroup(".", y, rest);
    PartAtLeast(s, |x|, y, rest);
  }

  lemma LongestThree(s: string, x: string, y: string, z: string, rest: string)
    requires Digits(x) && Digits(y) && Digits(z) && s == x + "." + y + "." + z + rest
    ensures MatchLength(s).Some? && MatchLength(s).value >= |x + "." + y + "." + z|
  {
    hide DigitRun, PartEnd;
    var two, tail := x + "." + y, "." + z + rest;
    Regroup(two, ".", z);
    Regroup(two, "." + z, rest);
    TwoParts(s, x, y, tail);
    PartAtLeast(s, |x| + 1 + |y|, z, rest);
  }

  /** A part of digits that the pattern takes behind position `i`. */
  lemma PartTakenIs(s: string, i: nat)
    requires i <= |s| && PartEnd(s, i) > i
    ensures var j := PartEnd(s, i);
            Digits(s[i + 1..j]) && s[..j] == s[..i] + "." + s[i + 1..j]
  {
    hide DigitRun;
    var j := PartEnd(s, i);
    assert s[i..j] == "." + s[i + 1..j];
    Regroup(s[..i], ".", s[i + 1..j]);
  }

  lemma SpelledOne(x: string)
    requires Digits(x)
    ensures IsSpelled(x)
  {
    assert Spelling([x]) && Spelled([x]) == x;
  }

  lemma SpelledTwo(x: string, y: string)
    requires Digits(x) && Digits(y)
    ensures IsSpelled(x + "." + y)
  {
    hide Digits;
    assert Spelling([x, y]) && Spelled([x, y]) == x + "." + y;
  }

  lemma SpelledThree(x: string, y: string, z: string)
    requires Digits(x) && Digits(y) && Digits(z)
    ensures IsSpelled(x + "." + y + "." + z)
  {
    hide Digits;
    assert Spelling([x, y, z]) && Spelled([x, y, z]) == x + "." + y + "." + z;
  }

  /** What the pattern matches is a spelled version. */
  lemma MatchIsSpelled(s: string)
    requires MatchLength(s).Some?
    ensures IsSpelled(s[..MatchLength(s).value])
  {
    var first := DigitRun(s);
    var second := PartEnd(s, first);
    var third := PartEnd(s, second);
    var x := s[..first];
    assert Digits(x);
    hide DigitRun, PartEnd, IsSpelled, Digits;
    if second == first {
      SpelledOne(x);
    } else {
      PartTakenIs(s, first);
      var y := s[first + 1..second];
      if third == second {
        SpelledTwo(x, y);
      } else {
        PartTakenIs(s, second);
        SpelledThree(x, y, s[second + 1..third]);
      }
    }
  }

  lemma LongestMatched(s: string, n: nat)
    requires SpelledTo(s, n)
    ensures MatchLength(s).Some? && MatchLength(s).value >= n
  {
    var parts :| Spelling(parts) && s[..n] == Spelled(parts);
    assert s == s[..n] + s[n..];
    LongestMatch(s, parts, s[n..]);
  }

  lemma MatchesAtMeans(path: string, i: nat)
    requires i <= |path|
    ensures MatchesAt(path, i) <==> MARK <= path[i..] && MatchLength(path[i + |MARK|..]).Some?
  {
    if MARK <= path[i..] {
      var s := path[i + |MARK|..];
      if MatchLength(s).Some? {
        MatchIsSpelled(s);
        assert SpelledTo(s, MatchLength(s).value);
      }
      if MatchesAt(path, i) {
        var n :| SpelledTo(s, n);
        LongestMatched(s, n);
      }
    }
  }

  /** `k` is the longest spelled version behind the mark at `i`, printed with a v. */
  ghost predicate LongestAt(path: string, i: nat, k: string) {
    MatchesAt(path, i) && LongestOf(path[i + |MARK|..], k)
  }

  ghost predicate LongestOf(s: string, k: string) {
    exists n: nat :: LongestTo(s, n) && k == "v" + s[..n]
  }

  lemma FoundIsLongest(path: string, i: nat)
    requires i <= |path| && MARK <= path[i..] && MatchLength(path[i + |MARK|..]).Some?
    ensures LongestAt(path, i, "v" + path[i + |MARK|..][..MatchLength(path[i + |MARK|..]).value])
  {
    var s := path[i + |MARK|..];
    var n := MatchLength(s).value;
    MatchesAtMeans(path, i);
    MatchIsSpelled(s);
    hide IsSpelled, MatchLength;
    forall m: nat | m > n ensures !SpelledTo(s, m) {
      if SpelledTo(s, m) {
        LongestMatched(s, m);
        assert false;
      }
    }
    assert LongestTo(s, n);
  }

  /** The first mark at or after `i` with a spelled version behind it is at `j`. */
  ghost predicate LeftmostFrom(path: string, i: nat, j: nat) {
    i <= j && MatchesAt(path, j) && forall h :: i <= h < j ==> !MatchesAt(path, h)
  }

  /** Nothing is extracted exactly when no spelled version stands behind a mark anywhere; otherwise
      the longest one behind the leftmost such mark is. */
  lemma {:induction false} ExtractsLeftmostLongest(path: string, i: nat)
    requires i <= |path|
    ensures SearchFrom(path, i).None? ==> forall j :: j >= i ==> !MatchesAt(path, j)
    ensures SearchFrom(path, i).Some? ==>
              exists j :: LeftmostFrom(path, i, j) && LongestAt(path, j, SearchFrom(path, i).value)
    decreases |path| - i
  {
    MatchesAtMeans(path, i);
    if MARK <= path[i..] && MatchLength(path[i + |MARK|..]).Some? {
      FoundIsLongest(path, i);
      assert LeftmostFrom(path, i, i);
    } else if i < |path| {
      ExtractsLeftmostLongest(path, i + 1);
      hide LongestAt, MatchLength;
      if SearchFrom(path, i + 1).Some? {
        var j :| LeftmostFrom(path, i + 1, j) && LongestAt(path, j, SearchFrom(path, i + 1).value);
        assert LeftmostFrom(path, i, j);
      }
    }
  }
}
