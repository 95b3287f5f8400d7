/** Version strings of the IfVersion section: what a string means, how versions compare, and
the round trip with printing.
*/
module VersionText {

  import opened Optional

  const RC := 100
  const STABLE := 300
  const UINT_MOD := 0x1_0000_0000
  const ULONG_MOD := 0x1_0000_0000_0000_0000

  datatype Version = Version(major: nat, minor: nat, revision: nat, status: nat)

  predicate IsDigit(c: char) { '0' <= c <= '9' }

  predicate IsAlpha(c: char) { 'a' <= c <= 'z' || 'A' <= c <= 'Z' }

  predicate IsSpace(c: char) { c == ' ' || '\t' <= c <= '\r' }

  function ToUpper(c: char): char { if 'a' <= c <= 'z' then c - 'a' + 'A' else c }

  /** A letter's distance from A. */
  function Rank(c: char): (r: nat)
    requires IsAlpha(c)
    ensures r == 0 <==> c == 'a' || c == 'A'
  {
    (ToUpper(c) - 'A') as nat
  }

  // ---------------------------------------------------------------------------
  // Numbers

  predicate AllDigits(s: string) { forall i :: 0 <= i < |s| ==> IsDigit(s[i]) }

  function SpaceLen(s: string): (k: nat)
    ensures k <= |s|
  {
    if |s| > 0 && IsSpace(s[0]) then 1 + SpaceLen(s[1..]) else 0
  }

  function DigitsLen(s: string): (k: nat)
    ensures k <= |s| && AllDigits(s[..k]) && (k < |s| ==> !IsDigit(s[k]))
  {
    if |s| > 0 && IsDigit(s[0]) then 1 + DigitsLen(s[1..]) else 0
  }

  function Decimal(s: string): nat
    requires AllDigits(s)
  {
    if |s| == 0 then 0 else 10 * Decimal(s[..|s| - 1]) + (s[|s| - 1] - '0') as nat
  }

  /** A digit string's value as an unsigned long: past the end of the range it sticks. */
  function Saturated(n: nat): nat { if n < ULONG_MOD then n else ULONG_MOD - 1 }

  /** A converted magnitude as an unsigned int; a minus sign negates within the long. */
  function Converted(minus: bool, n: nat): nat {
    if minus && n < ULONG_MOD then (ULONG_MOD - n) % UINT_MOD else Saturated(n) % UINT_MOD
  }

  predicate SignAt(s: string, i: nat) { i < |s| && (s[i] == '+' || s[i] == '-') }

  /** strtoul in base ten, cut to an unsigned int, and whether it consumed everything. With
  no digits to convert it consumes nothing. */
  function ToUl(s: string): (nat, bool) {
    var a := SpaceLen(s);
    var u := if SignAt(s, a) then s[a + 1..] else s[a..];
    var k := DigitsLen(u);
    if k == 0 then (0, |s| == 0) else (Converted(a < |s| && s[a] == '-', Decimal(u[..k])), k == |u|)
  }

  // ---------------------------------------------------------------------------
  // Versions

  /** The position of the first period, or the length. */
  function DotAt(s: string): (k: nat)
    ensures k <= |s| && (forall i :: 0 <= i < k ==> s[i] != '.') && (k < |s| ==> s[k] == '.')
  {
    if |s| > 0 && s[0] != '.' then 1 + DotAt(s[1..]) else 0
  }

  /** What follows the revision number. */
  function Status(s: string): Option<nat> {
    if |s| == 0 then Some(STABLE)
    else if |s| == 1 then
      if IsAlpha(s[0]) then Some(STABLE + Rank(s[0])) else None
    else if ToUpper(s[0]) != 'R' || ToUpper(s[1]) != 'C' then None
    else if |s| == 2 then Some(RC)
    else if !AllDigits(s[2..]) then None
    else Some((RC + ToUl(s[2..]).0) % UINT_MOD)
  }

  function FromRevision(major: nat, minor: nat, s: string): Option<Version> {
    var k := DigitsLen(s);
    if k == 0 && |s| > 0 then None
    else
      match Status(s[k..])
      case None => None
      case Some(st) => Some(Version(major, minor, ToUl(s[..k]).0, st))
  }

  function FromMinor(major: nat, s: string): Option<Version> {
    var k := DotAt(s);
    var (n, whole) := ToUl(s[..k]);
    if !whole then None
    else if k == |s| then Some(Version(major, n, 0, 0))
    else if k + 1 == |s| then None
    else FromRevision(major, n, s[k + 1..])
  }

  /** The meaning of a version string. Without a revision the status stays unset. */
  function Parse(s: string): Option<Version> {
    if |s| == 0 || !IsDigit(s[0]) then None
    else
      var k := DotAt(s);
      var (n, whole) := ToUl(s[..k]);
      if !whole then None
      else if k == |s| then Some(Version(n, 0, 0, 0))
      else if k + 1 == |s| then None
      else FromMinor(n, s[k + 1..])
  }

  // ---------------------------------------------------------------------------
  // Printing and the round trip

  function Printed(n: nat): string {
    (if n < 10 then "" else Printed(n / 10)) + [(n % 10) as char + '0']
  }

  function PrintedVersion(major: nat, minor: nat, revision: nat, suffix: string): string {
    Printed(major) + "." + (Printed(minor) + "." + (Printed(revision) + suffix))
  }

  lemma DigitOf(n: nat)
    ensures var d := (n % 10) as char + '0'; IsDigit(d) && (d - '0') as nat == n % 10
  {
  }

  lemma {:induction false} OneMoreDigit(a: string, d: char)
    requires AllDigits(a) && IsDigit(d)
    ensures AllDigits(a + [d]) && Decimal(a + [d]) == 10 * Decimal(a) + (d - '0') as nat
  {
    assert (a + [d])[..|a|] == a;
  }

  lemma {:induction false} PrintedIsDecimal(n: nat)
    ensures |Printed(n)| > 0 && AllDigits(Printed(n)) && Decimal(Printed(n)) == n
  {
    var d := (n % 10) as char + '0';
    DigitOf(n);
    if n < 10 {
      OneMoreDigit("", d);
    } else {
      PrintedIsDecimal(n / 10);
      OneMoreDigit(Printed(n / 10), d);
    }
  }

  lemma {:induction false} DigitsThen(a: string, b: string)
    requires AllDigits(a) && (|b| > 0 ==> !IsDigit(b[0]))
    ensures DigitsLen(a + b) == |a|
  {
    if |a| > 0 {
      assert (a + b)[1..] == a[1..] + b;
      DigitsThen(a[1..], b);
    } else {
      assert a + b == b;
    }
  }

  lemma {:induction false} DotThen(a: string, b: string)
    requires '.' !in a
    ensures DotAt(a + "." + b) == |a|
  {
    if |a| > 0 {
      assert (a + "." + b)[1..] == a[1..] + "." + b;
      DotThen(a[1..], b);
    } else {
      assert a + "." + b == "." + b;
    }
  }

  /** A string of digits is converted whole. */
  lemma {:induction false} DigitsToUl(s: string)
    requires |s| > 0 && AllDigits(s)
    ensures ToUl(s) == (Saturated(Decimal(s)) % UINT_MOD, true)
  {
    assert !IsSpace(s[0]) && SpaceLen(s) == 0 && s[0..] == s;
    assert s + "" == s;
    DigitsThen(s, "");
    assert s[..|s|] == s;
  }

  /** What survives of a number that was printed and read back. */
  function Kept(n: nat): nat { Saturated(n) % UINT_MOD }

  lemma KeptIff(n: nat)
    ensures Kept(n) == n <==> n < UINT_MOD
  {
  }

  /** A number too large for a long is read as the largest int, one in between loses turns. */
  lemma KeptOfLarge(n: nat)
    ensures n >= ULONG_MOD ==> Kept(n) == UINT_MOD - 1
    ensures n < ULONG_MOD ==> Kept(n) == n % UINT_MOD
  {
  }

  /** Reading back a printed version with any suffix. */
  lemma ParsePrinted(major: nat, minor: nat, revision: nat, suffix: string)
    requires |suffix| > 0 ==> !IsDigit(suffix[0])
    ensures Parse(PrintedVersion(major, minor, revision, suffix))
            == match Status(suffix)
               case None => None
               case Some(st) => Some(Version(Kept(major), Kept(minor), Kept(revision), st))
  {
    var a, b, c := Printed(major), Printed(minor), Printed(revision);
    PrintedIsDecimal(major);
    PrintedIsDecimal(minor);
    DigitsToUl(a);
    DigitsToUl(b);
    var rest := c + suffix;
    var tail := b + "." + rest;
    PrintedRevision(Kept(major), Kept(minor), revision, suffix);
    DotSplit(b, rest);
    assert FromMinor(Kept(major), tail) == FromRevision(Kept(major), Kept(minor), rest);
    DotSplit(a, tail);
    assert PrintedVersion(major, minor, revision, suffix) == a + "." + tail;
    assert (a + "." + tail)[0] == a[0];
  }

  lemma {:induction false} NoDot(a: string)
    requires AllDigits(a)
    ensures DotAt(a) == |a|
  {
    if |a| > 0 {
      NoDot(a[1..]);
    }
  }

  /** Reading back a major number alone: what is not given is zero, and so is the status. */
  lemma {:induction false} ParseMajor(major: nat)
    ensures Parse(Printed(major)) == Some(Version(Kept(major), 0, 0, 0))
  {
    var a := Printed(major);
    PrintedIsDecimal(major);
    DigitsToUl(a);
    NoDot(a);
    assert a[..|a|] == a;
  }

  lemma {:induction false} MinorAlone(major: nat, minor: nat)
    ensures FromMinor(major, Printed(minor)) == Some(Version(major, Kept(minor), 0, 0))
  {
    var b := Printed(minor);
    PrintedIsDecimal(minor);
    DigitsToUl(b);
    NoDot(b);
    assert b[..|b|] == b;
  }

  /** The same for a major and a minor number. */
  lemma {:induction false} ParseMajorMinor(major: nat, minor: nat)
    ensures Parse(Printed(major) + "." + Printed(minor)) == Some(Version(Kept(major), Kept(minor), 0, 0))
  {
    var a, b := Printed(major), Printed(minor);
    PrintedIsDecimal(major);
    PrintedIsDecimal(minor);
    DigitsToUl(a);
    MinorAlone(Kept(major), minor);
    DotSplit(a, b);
    assert (a + "." + b)[0] == a[0];
  }

  /** A period with nothing after it is refused, and so is a string that does not begin with a
  digit. */
  lemma {:induction false} TrailingPeriodRefused(major: nat, minor: nat, s: string)
    ensures Parse(Printed(major) + ".") == None
    ensures Parse(Printed(major) + "." + (Printed(minor) + ".")) == None
    ensures |s| == 0 || !IsDigit(s[0]) ==> Parse(s) == None
  {
    var a, b := Printed(major), Printed(minor);
    PrintedIsDecimal(major);
    PrintedIsDecimal(minor);
    DigitsToUl(a);
    DigitsToUl(b);
    DotSplit(a, "");
    assert a + "." + "" == a + ".";
    DotSplit(b, "");
    assert b + "." + "" == b + ".";
    DotSplit(a, b + ".");
    assert (a + ".")[0] == a[0] && (a + "." + (b + "."))[0] == a[0];
  }

  /** What follows the second period has to begin with a digit. */
  lemma {:induction false} RevisionNeedsDigit(major: nat, minor: nat, rest: string)
    requires |rest| > 0 && !IsDigit(rest[0])
    ensures Parse(Printed(major) + "." + (Printed(minor) + "." + rest)) == None
  {
    var a, b := Printed(major), Printed(minor);
    PrintedIsDecimal(major);
    PrintedIsDecimal(minor);
    DigitsToUl(a);
    DigitsToUl(b);
    DotSplit(b, rest);
    var tail := b + "." + rest;
    assert FromMinor(Kept(major), tail) == FromRevision(Kept(major), Kept(minor), rest);
    DotSplit(a, tail);
    assert (a + "." + tail)[0] == a[0];
  }

  /** What may follow a revision: nothing, one letter, or rc in any case and digits or none. */
  ghost predicate Suffix(s: string) {
    || s == ""
    || (|s| == 1 && IsAlpha(s[0]))
    || (exists r, c, digits :: (r == 'r' || r == 'R') && (c == 'c' || c == 'C') && AllDigits(digits) && s == [r, c] + digits)
  }

  lemma UpperIs(c: char, u: char)
    requires 'A' <= u <= 'Z'
    ensures ToUpper(c) == u <==> c == u || c == u - 'A' + 'a'
  {
  }

  lemma CandidateForm(s: string)
    requires |s| >= 2
    ensures Suffix(s) <==> ToUpper(s[0]) == 'R' && ToUpper(s[1]) == 'C' && AllDigits(s[2..])
  {
    UpperIs(s[0], 'R');
    UpperIs(s[1], 'C');
    var digits := s[2..];
    assert s == [s[0], s[1]] + digits;
    if r, c, ds :| (r == 'r' || r == 'R') && (c == 'c' || c == 'C') && AllDigits(ds) && s == [r, c] + ds {
      assert s[0] == r && s[1] == c && digits == ds;
    }
  }

  lemma StatusIff(s: string)
    ensures Status(s).Some? <==> Suffix(s)
  {
    if |s| >= 2 {
      CandidateForm(s);
    }
  }

  /** A printed revision with something behind it is accepted if and only if that is one of
  these. */
  lemma SuffixAcceptedIff(major: nat, minor: nat, revision: nat, suffix: string)
    requires |suffix| > 0 ==> !IsDigit(suffix[0])
    ensures Parse(PrintedVersion(major, minor, revision, suffix)).Some? <==> Suffix(suffix)
  {
    ParsePrinted(major, minor, revision, suffix);
    StatusIff(suffix);
  }

  lemma {:induction false} DotSplit(a: string, b: string)
    requires AllDigits(a)
    ensures DotAt(a + "." + b) == |a|
    ensures (a + "." + b)[..|a|] == a && (a + "." + b)[|a| + 1..] == b
  {
    DotThen(a, b);
  }

  lemma {:induction false} PrintedRevision(major: nat, minor: nat, revision: nat, suffix: string)
    requires |suffix| > 0 ==> !IsDigit(suffix[0])
    ensures |Printed(revision) + suffix| > 0
    ensures FromRevision(major, minor, Printed(revision) + suffix)
            == match Status(suffix)
               case None => None
               case Some(st) => Some(Version(major, minor, Kept(revision), st))
  {
    var c := Printed(revision);
    PrintedIsDecimal(revision);
    DigitsToUl(c);
    DigitsThen(c, suffix);
    assert (c + suffix)[..|c|] == c && (c + suffix)[|c|..] == suffix;
  }

  /** A printed release is read back exactly if and only if its numbers fit an unsigned int. */
  lemma ReleaseRoundTripIff(major: nat, minor: nat, revision: nat)
    ensures Parse(PrintedVersion(major, minor, revision, "")) == Some(Version(major, minor, revision, STABLE))
            <==> major < UINT_MOD && minor < UINT_MOD && revision < UINT_MOD
  {
    ParsePrinted(major, minor, revision, "");
    KeptIff(major);
    KeptIff(minor);
    KeptIff(revision);
  }

  lemma {:induction false} CandidateStatus(n: nat)
    ensures Status("rc" + Printed(n)) == Some((RC + Kept(n)) % UINT_MOD)
  {
    var digits := Printed(n);
    PrintedIsDecimal(n);
    DigitsToUl(digits);
    assert "rc" == ['r', 'c'];
    assert ("rc" + digits)[2..] == digits;
  }

  /** The same for a release candidate, with its number added to the candidate status. */
  lemma {:induction false} CandidateRoundTrip(major: nat, minor: nat, revision: nat, n: nat)
    requires major < UINT_MOD && minor < UINT_MOD && revision < UINT_MOD
    ensures Parse(PrintedVersion(major, minor, revision, "rc" + Printed(n)))
            == Some(Version(major, minor, revision, (RC + Kept(n)) % UINT_MOD))
  {
    var suffix := "rc" + Printed(n);
    CandidateStatus(n);
    assert suffix[0] == 'r';
    KeptIff(major);
    KeptIff(minor);
    KeptIff(revision);
    ParsePrinted(major, minor, revision, suffix);
  }

  lemma BareStatus() returns (suffix: string)
    ensures suffix == "rc" && Status(suffix) == Some(RC) && |suffix| > 0 && !IsDigit(suffix[0])
  {
    suffix := "rc";
    assert suffix == ['r', 'c'];
  }

  /** A candidate without a number has the candidate status itself, as number zero has. */
  lemma {:induction false} BareCandidate(major: nat, minor: nat, revision: nat) returns (suffix: string)
    ensures suffix == "rc"
    ensures Parse(PrintedVersion(major, minor, revision, suffix)) == Some(Version(Kept(major), Kept(minor), Kept(revision), RC))
  {
    suffix := BareStatus();
    ParsePrinted(major, minor, revision, suffix);
  }

  /** The characters isspace(3) takes for space in the C locale. */
  predicate CSpace(c: char) { c in [' ', '\t', '\n', '\r', 11 as char, 12 as char] }

  lemma {:induction false} SpacesThen(sp: string, rest: string)
    requires (forall i :: 0 <= i < |sp| ==> CSpace(sp[i])) && (|rest| > 0 ==> !CSpace(rest[0]))
    ensures SpaceLen(sp + rest) == |sp|
  {
    if |sp| > 0 {
      assert (sp + rest)[1..] == sp[1..] + rest;
      SpacesThen(sp[1..], rest);
    } else {
      assert sp + rest == rest;
    }
  }

  /** strtoul takes white space and a sign before the digits. */
  lemma {:induction false} SignedNumber(sp: string, sign: string, n: nat)
    requires (forall i :: 0 <= i < |sp| ==> CSpace(sp[i])) && (sign == "" || sign == "+" || sign == "-")
    ensures ToUl(sp + sign + Printed(n)) == (Converted(sign == "-", n), true)
  {
    PrintedIsDecimal(n);
    AfterSpace(sp, sign, Printed(n));
  }

  /** A plus sign changes nothing, and a minus sign gives the number that the digits complete
  to zero in 32 bits. */
  lemma ConvertedIs(n: nat)
    ensures Converted(false, n) == Kept(n) && 0 <= Converted(true, n) < UINT_MOD
    ensures n < ULONG_MOD ==> (Converted(true, n) + n) % UINT_MOD == 0
    ensures n >= ULONG_MOD ==> Converted(true, n) == UINT_MOD - 1
  {
    if n < ULONG_MOD {
      Complement(n);
    }
  }

  lemma Complement(n: nat)
    requires n < ULONG_MOD
    ensures ((ULONG_MOD - n) % UINT_MOD + n) % UINT_MOD == 0
  {
    var m := ULONG_MOD - n;
    assert m == UINT_MOD * (m / UINT_MOD) + m % UINT_MOD;
    assert m % UINT_MOD + n == UINT_MOD * (UINT_MOD - m / UINT_MOD);
  }

  lemma {:induction false} AfterSpace(sp: string, sign: string, digits: string)
    requires (forall i :: 0 <= i < |sp| ==> CSpace(sp[i])) && (sign == "" || sign == "+" || sign == "-")
    requires |digits| > 0 && AllDigits(digits)
    ensures ToUl(sp + sign + digits) == (Converted(sign == "-", Decimal(digits)), true)
  {
    var s, rest := sp + sign + digits, sign + digits;
    assert s == sp + rest;
    SignFront(sign, digits);
    SpacesThen(sp, rest);
    assert s[|sp|..] == rest && s[|sp|] == rest[0];
    var u := if SignAt(s, |sp|) then s[|sp| + 1..] else s[|sp|..];
    assert u == digits;
    AllDigitsLen(digits);
    assert u[..|u|] == digits;
  }

  lemma SignFront(sign: string, digits: string)
    requires (sign == "" || sign == "+" || sign == "-") && |digits| > 0 && AllDigits(digits)
    ensures var rest := sign + digits;
            && !CSpace(rest[0]) && (SignAt(rest, 0) <==> sign != "") && (rest[0] == '-' <==> sign == "-")
            && (sign != "" ==> rest[1..] == digits) && (sign == "" ==> rest == digits)
  {
    assert IsDigit(digits[0]);
  }

  lemma {:induction false} AllDigitsLen(digits: string)
    requires AllDigits(digits)
    ensures DigitsLen(digits) == |digits|
  {
    if |digits| > 0 {
      AllDigitsLen(digits[1..]);
    }
  }

  // ---------------------------------------------------------------------------
  // The order

  /** 1, -1 or 0 as the first version is above, below or level with the second. */
  function Compare(a: Version, b: Version): int {
    if a.major > b.major then 1
    else if a.major < b.major then -1
    else if a.minor > b.minor then 1
    else if a.minor < b.minor then -1
    else if a.revision > b.revision then 1
    else if a.revision < b.revision then -1
    else if a.status > b.status then 1
    else if a.status < b.status then -1
    else 0
  }

  function Parts(v: Version): seq<nat> { [v.major, v.minor, v.revision, v.status] }

  /** a is above b at the first place where they differ. */
  ghost predicate AboveAt(a: Version, b: Version, i: nat) {
    i < 4 && Parts(a)[..i] == Parts(b)[..i] && Parts(a)[i] > Parts(b)[i]
  }

  /** The order is lexicographic: major, minor, revision, status. */
  lemma CompareIsLexicographic(a: Version, b: Version)
    ensures Compare(a, b) == 1 <==> exists i: nat :: AboveAt(a, b, i)
    ensures Compare(a, b) == -1 <==> exists i: nat :: AboveAt(b, a, i)
  {
    LexicographicHalf(a, b);
    LexicographicHalf(b, a);
    OrderLaws(a, b, b);
  }

  lemma LexicographicHalf(a: Version, b: Version)
    ensures Compare(a, b) == 1 <==> exists i: nat :: AboveAt(a, b, i)
  {
    if Compare(a, b) == 1 {
      var i := if a.major > b.major then 0 else if a.minor > b.minor then 1 else if a.revision > b.revision then 2 else 3;
      assert AboveAt(a, b, i);
    }
    forall i: nat | AboveAt(a, b, i)
      ensures Compare(a, b) == 1
    {
      assert forall j :: 0 <= j < i ==> Parts(a)[..i][j] == Parts(a)[j] && Parts(b)[..i][j] == Parts(b)[j];
      assert i > 0 ==> Parts(a)[0] == Parts(b)[0];
      assert i > 1 ==> Parts(a)[1] == Parts(b)[1];
      assert i > 2 ==> Parts(a)[2] == Parts(b)[2];
    }
  }

  /** The strings form a total preorder: two of them are level exactly when they mean the
  same version, reversing the operands reverses the sign, and the order is transitive. */
  lemma CompareIsTotalPreorder(x: string, y: string, z: string)
    requires Parse(x).Some? && Parse(y).Some? && Parse(z).Some?
    ensures Compare(Parse(x).value, Parse(y).value) == 0 <==> Parse(x) == Parse(y)
    ensures Compare(Parse(y).value, Parse(x).value) == -Compare(Parse(x).value, Parse(y).value)
    ensures Compare(Parse(x).value, Parse(y).value) <= 0 && Compare(Parse(y).value, Parse(z).value) <= 0
            ==> Compare(Parse(x).value, Parse(z).value) <= 0
  {
    OrderLaws(Parse(x).value, Parse(y).value, Parse(z).value);
  }

  lemma OrderLaws(a: Version, b: Version, c: Version)
    ensures Compare(a, b) == 0 <==> a == b
    ensures Compare(b, a) == -Compare(a, b)
    ensures Compare(a, b) <= 0 && Compare(b, c) <= 0 ==> Compare(a, c) <= 0
  {
  }

  lemma StatusDecides(a: Version, status: nat)
    ensures Compare(a.(status := status), a) == if status < a.status then -1 else if status > a.status then 1 else 0
  {
  }

  lemma CandidateRank(n: nat)
    requires n < UINT_MOD - RC
    ensures (RC + Kept(n)) % UINT_MOD == RC + n
  {
    KeptIff(n);
  }

  /** The n-th release candidate is below its release if and only if its 32-bit status is
  below that of a stable release; for numbers that do not wrap the status, if and only if
  n is below 200. */
  lemma {:induction false} CandidateBelowReleaseIff(major: nat, minor: nat, revision: nat, n: nat)
    ensures var rc := Parse(PrintedVersion(major, minor, revision, "rc" + Printed(n)));
            var plain := Parse(PrintedVersion(major, minor, revision, ""));
            && rc.Some? && plain.Some?
            && (Compare(rc.value, plain.value) < 0 <==> (RC + Kept(n)) % UINT_MOD < STABLE)
            && (n < UINT_MOD - RC ==> (Compare(rc.value, plain.value) < 0 <==> n < STABLE - RC))
  {
    var plain := Version(Kept(major), Kept(minor), Kept(revision), STABLE);
    CandidateStatus(n);
    assert ("rc" + Printed(n))[0] == 'r';
    ParsePrinted(major, minor, revision, "rc" + Printed(n));
    ParsePrinted(major, minor, revision, "");
    StatusDecides(plain, (RC + Kept(n)) % UINT_MOD);
    if n < UINT_MOD - RC {
      CandidateRank(n);
    }
  }

  lemma LetterStatus(c: char)
    requires IsAlpha(c)
    ensures Status([c]) == Some(STABLE + Rank(c)) && !IsDigit(c)
  {
    assert [c][0] == c;
  }

  lemma LetterDecides(v: Version, c: char)
    requires IsAlpha(c) && v.status == STABLE
    ensures Compare(v.(status := STABLE + Rank(c)), v) == if c == 'a' || c == 'A' then 0 else 1
  {
    StatusDecides(v, STABLE + Rank(c));
  }

  /** Maintenance release `a` is level with the plain release; each later letter is above. */
  lemma MaintenanceOrder(major: nat, minor: nat, revision: nat, c: char)
    requires IsAlpha(c)
    ensures var maint := Parse(PrintedVersion(major, minor, revision, [c]));
            var plain := Parse(PrintedVersion(major, minor, revision, ""));
            && maint.Some? && plain.Some?
            && Compare(maint.value, plain.value) == if c == 'a' || c == 'A' then 0 else 1
  {
    var v := Version(Kept(major), Kept(minor), Kept(revision), STABLE);
    LetterDecides(v, c);
    assert Parse(PrintedVersion(major, minor, revision, [c])) == Some(v.(status := STABLE + Rank(c))) by {
      LetterStatus(c);
      ParsePrinted(major, minor, revision, [c]);
    }
    assert Parse(PrintedVersion(major, minor, revision, "")) == Some(v) by {
      ParsePrinted(major, minor, revision, "");
    }
  }
}
