/** `parse_version` and `compare_version` as they run: on a C string in a buffer, which the
parser cuts at the separators while it converts the parts, and puts back.
*/
module VersionParser {
  import opened Optional
  import opened VersionText

  /** The C string that starts at p. */
  ghost predicate CString(b: seq<char>, p: nat, s: string) {
    && p + |s| < |b| && b[p..p + |s|] == s && b[p + |s|] == '\0'
    && forall i :: 0 <= i < |s| ==> s[i] != '\0'
  }

  lemma CStringAt(b: seq<char>, p: nat, s: string, i: nat)
    requires CString(b, p, s) && i <= |s|
    ensures p + i < |b| && b[p + i] == (if i < |s| then s[i] else '\0') && CString(b, p + i, s[i..])
  {
    assert b[p..p + |s|][i..] == b[p + i..p + |s|];
    if i < |s| {
      assert b[p + i] == b[p..p + |s|][i];
    }
  }

  /** What stands at position k of the string, and what follows it. */
  lemma CStringPast(b: seq<char>, p: nat, s: string, k: nat)
    requires CString(b, p, s) && k <= |s|
    ensures p + k < |b| && (b[p + k] == '\0' <==> k == |s|)
    ensures k < |s| ==> && p + k + 1 < |b| && (b[p + k + 1] == '\0' <==> k + 1 == |s|)
                        && CString(b, p + k + 1, s[k + 1..])
  {
    CStringAt(b, p, s, k);
    if k < |s| {
      CStringAt(b, p, s, k + 1);
    }
  }

  /** Cutting the string at k leaves its front. */
  lemma CStringCut(b: seq<char>, p: nat, s: string, k: nat)
    requires CString(b, p, s) && k < |s|
    ensures CString(b[p + k := '\0'], p, s[..k])
  {
    var c := b[p + k := '\0'];
    assert c[p..p + k] == b[p..p + |s|][..k];
  }

  lemma {:induction false} SpaceStep(s: string, i: nat)
    requires i <= SpaceLen(s)
    ensures i < SpaceLen(s) <==> i < |s| && IsSpace(s[i])
  {
    if 0 < i {
      SpaceStep(s[1..], i - 1);
    }
  }

  lemma {:induction false} DigitStep(s: string, i: nat)
    requires i <= DigitsLen(s)
    ensures i < DigitsLen(s) <==> i < |s| && IsDigit(s[i])
  {
    if 0 < i {
      DigitStep(s[1..], i - 1);
    }
  }

  lemma {:induction false} DotStep(s: string, i: nat)
    requires i <= DotAt(s)
    ensures i < DotAt(s) <==> i < |s| && s[i] != '.'
  {
    if 0 < i {
      DotStep(s[1..], i - 1);
    }
  }

  lemma DecimalStep(s: string, k: nat)
    requires k < |s| && AllDigits(s[..k]) && IsDigit(s[k])
    ensures AllDigits(s[..k + 1]) && Decimal(s[..k + 1]) == 10 * Decimal(s[..k]) + (s[k] - '0') as nat
  {
    assert s[..k + 1] == s[..k] + [s[k]];
    assert s[..k + 1][..k] == s[..k];
  }

  method SkipSpace(buf: array<char>, p: nat, ghost s: string) returns (k: nat)
    requires CString(buf[..], p, s)
    ensures k == SpaceLen(s)
  {
    k := 0;
    CStringAt(buf[..], p, s, 0);
    SpaceStep(s, 0);
    while IsSpace(buf[p + k])
      invariant k <= SpaceLen(s) && p + k < buf.Length
      invariant IsSpace(buf[p + k]) <==> k < SpaceLen(s)
      decreases |s| - k
    {
      k := k + 1;
      CStringAt(buf[..], p, s, k);
      SpaceStep(s, k);
    }
  }

  /** The digits at p: how many, their value, and whether the string ends there. */
  method ScanDigits(buf: array<char>, p: nat, ghost s: string) returns (k: nat, value: nat, whole: bool)
    requires CString(buf[..], p, s)
    ensures k == DigitsLen(s) && value == Decimal(s[..k]) && (whole <==> k == |s|)
  {
    k, value := 0, 0;
    CStringAt(buf[..], p, s, 0);
    DigitStep(s, 0);
    while IsDigit(buf[p + k])
      invariant k <= DigitsLen(s) && p + k < buf.Length && AllDigits(s[..k]) && value == Decimal(s[..k])
      invariant buf[p + k] == if k < |s| then s[k] else '\0'
      invariant IsDigit(buf[p + k]) <==> k < DigitsLen(s)
      decreases |s| - k
    {
      value := 10 * value + (buf[p + k] - '0') as nat;
      DecimalStep(s, k);
      k := k + 1;
      CStringAt(buf[..], p, s, k);
      DigitStep(s, k);
    }
    whole := buf[p + k] == '\0';
  }

  lemma {:induction false} ToUlParts(s: string, a: nat, from: nat, k: nat, n: nat)
    requires a == SpaceLen(s) && from == (if SignAt(s, a) then a + 1 else a)
    requires k == DigitsLen(s[from..]) && n == Decimal(s[from..][..k])
    ensures ToUl(s) == if k == 0 then (0, |s| == 0) else (Converted(a < |s| && s[a] == '-', n), k == |s[from..]|)
  {
  }

  /** Past the white space and the sign. */
  method SkipSign(buf: array<char>, p: nat, ghost s: string) returns (skip: nat, from: nat, minus: bool)
    requires CString(buf[..], p, s)
    ensures skip == SpaceLen(s) && from == (if SignAt(s, skip) then skip + 1 else skip)
    ensures from <= |s| && CString(buf[..], p + from, s[from..])
    ensures minus <==> skip < |s| && s[skip] == '-'
  {
    skip := SkipSpace(buf, p, s);
    CStringAt(buf[..], p, s, skip);
    var sign := buf[p + skip];
    minus := sign == '-';
    from := if sign == '+' || sign == '-' then skip + 1 else skip;
    CStringAt(buf[..], p, s, from);
  }

  /** strtoul and the test of its end pointer. */
  method ConvertUl(buf: array<char>, p: nat, ghost s: string) returns (value: nat, whole: bool)
    requires CString(buf[..], p, s)
    ensures (value, whole) == ToUl(s)
  {
    CStringAt(buf[..], p, s, 0);
    var skip, from, minus := SkipSign(buf, p, s);
    var k, n;
    k, n, whole := ScanDigits(buf, p + from, s[from..]);
    ToUlParts(s, skip, from, k, n);
    if k == 0 {
      return 0, buf[p] == '\0';
    }
    value := Converted(minus, n);
  }

  /** strchr for a period; the length if there is none. */
  method FindDot(buf: array<char>, p: nat, ghost s: string) returns (k: nat)
    requires CString(buf[..], p, s)
    ensures k == DotAt(s)
  {
    k := 0;
    CStringAt(buf[..], p, s, 0);
    DotStep(s, 0);
    while buf[p + k] != '\0' && buf[p + k] != '.'
      invariant k <= DotAt(s) && p + k < buf.Length
      invariant buf[p + k] == if k < |s| then s[k] else '\0'
      invariant k < DotAt(s) <==> k < |s| && s[k] != '.'
      decreases |s| - k
    {
      k := k + 1;
      CStringAt(buf[..], p, s, k);
      DotStep(s, k);
    }
  }

  /** Convert the first k characters: cut there, convert, put the character back. */
  method ConvertFront(buf: array<char>, p: nat, k: nat, ghost s: string) returns (value: nat, whole: bool)
    requires CString(buf[..], p, s) && k <= |s|
    modifies buf
    ensures buf[..] == old(buf[..]) && (value, whole) == ToUl(s[..k])
  {
    ghost var before := buf[..];
    CStringAt(before, p, s, k);
    var c := buf[p + k];
    if c == '\0' {
      assert s[..k] == s;
      value, whole := ConvertUl(buf, p, s);
    } else {
      CStringCut(before, p, s, k);
      buf[p + k] := '\0';
      assert buf[..] == before[p + k := '\0'];
      value, whole := ConvertUl(buf, p, s[..k]);
      buf[p + k] := c;
      assert buf[..] == before[p + k := '\0'][p + k := c] == before;
    }
  }

  lemma {:induction false} AllDigitsIff(s: string)
    ensures AllDigits(s) <==> DigitsLen(s) == |s|
  {
    assert s[..|s|] == s;
  }

  /** The number of a release candidate. */
  method ParseNumber(buf: array<char>, p: nat, ghost s: string) returns (status: Option<nat>)
    requires CString(buf[..], p, s)
    ensures status == if AllDigits(s) then Some((RC + ToUl(s).0) % UINT_MOD) else None
  {
    AllDigitsIff(s);
    var k, n, digits := ScanDigits(buf, p, s);
    if !digits {
      return None;
    }
    var value, whole := ConvertUl(buf, p, s);
    status := Some((RC + value) % UINT_MOD);
  }

  /** What follows the revision number. */
  method ParseStatus(buf: array<char>, p: nat, ghost s: string) returns (status: Option<nat>)
    requires CString(buf[..], p, s)
    ensures status == Status(s)
  {
    CStringAt(buf[..], p, s, 0);
    if buf[p] == '\0' {
      return Some(STABLE);
    }
    CStringAt(buf[..], p, s, 1);
    if buf[p + 1] == '\0' {
      return if IsAlpha(buf[p]) then Some(STABLE + Rank(buf[p])) else None;
    }
    if ToUpper(buf[p]) != 'R' || ToUpper(buf[p + 1]) != 'C' {
      return None;
    }
    CStringAt(buf[..], p, s, 2);
    if buf[p + 2] == '\0' {
      return Some(RC);
    }
    status := ParseNumber(buf, p + 2, s[2..]);
  }

  method ParseRevision(buf: array<char>, p: nat, major: nat, minor: nat, ghost s: string) returns (v: Option<Version>)
    requires CString(buf[..], p, s) && |s| > 0
    modifies buf
    ensures buf[..] == old(buf[..]) && v == FromRevision(major, minor, s)
  {
    var k, n, digits := ScanDigits(buf, p, s);
    if k == 0 {
      return None;
    }
    var value, whole := ConvertFront(buf, p, k, s);
    CStringAt(buf[..], p, s, k);
    var status := ParseStatus(buf, p + k, s[k..]);
    v := match status case None => None case Some(st) => Some(Version(major, minor, value, st));
  }

  /** How the string goes on at position k: not at all, with a last period, or with more. */
  datatype More = Ends | Dangles | Continues

  method AfterPeriod(buf: array<char>, p: nat, k: nat, ghost s: string) returns (more: More)
    requires CString(buf[..], p, s) && k <= |s|
    ensures more == Ends <==> k == |s|
    ensures more == Dangles <==> k + 1 == |s|
    ensures more == Continues ==> k + 1 < |s| && CString(buf[..], p + k + 1, s[k + 1..])
  {
    CStringPast(buf[..], p, s, k);
    if buf[p + k] == '\0' {
      return Ends;
    }
    if buf[p + k + 1] == '\0' {
      return Dangles;
    }
    more := Continues;
  }

  /** The ways a minor number can go on, once it is converted. */
  lemma {:induction false} MinorCases(major: nat, s: string, k: nat, n: nat, whole: bool)
    requires k == DotAt(s) && (n, whole) == ToUl(s[..k])
    ensures FromMinor(major, s) ==
            if !whole then None
            else if k == |s| then Some(Version(major, n, 0, 0))
            else if k + 1 == |s| then None
            else FromRevision(major, n, s[k + 1..])
  {
  }

  method ParsePastMinor(buf: array<char>, p: nat, k: nat, major: nat, minor: nat, ghost s: string)
    returns (v: Option<Version>)
    requires CString(buf[..], p, s) && k <= |s|
    modifies buf
    ensures buf[..] == old(buf[..])
    ensures v == if k == |s| then Some(Version(major, minor, 0, 0))
                 else if k + 1 == |s| then None
                 else FromRevision(major, minor, s[k + 1..])
  {
    var more := AfterPeriod(buf, p, k, s);
    if more == Ends {
      return Some(Version(major, minor, 0, 0));
    }
    if more == Dangles {
      return None;
    }
    v := ParseRevision(buf, p + k + 1, major, minor, s[k + 1..]);
  }

  method ParseMinor(buf: array<char>, p: nat, major: nat, ghost s: string) returns (v: Option<Version>)
    requires CString(buf[..], p, s)
    modifies buf
    ensures buf[..] == old(buf[..]) && v == FromMinor(major, s)
  {
    var k := FindDot(buf, p, s);
    var value, whole := ConvertFront(buf, p, k, s);
    MinorCases(major, s, k, value, whole);
    if !whole {
      return None;
    }
    v := ParsePastMinor(buf, p, k, major, value, s);
  }

  /** The same for a major number. */
  lemma {:induction false} MajorCases(s: string, k: nat, n: nat, whole: bool)
    requires |s| > 0 && IsDigit(s[0]) && k == DotAt(s) && (n, whole) == ToUl(s[..k])
    ensures Parse(s) ==
            if !whole then None
            else if k == |s| then Some(Version(n, 0, 0, 0))
            else if k + 1 == |s| then None
            else FromMinor(n, s[k + 1..])
  {
  }

  method ParsePastMajor(buf: array<char>, k: nat, major: nat, ghost s: string) returns (v: Option<Version>)
    requires CString(buf[..], 0, s) && k <= |s|
    modifies buf
    ensures buf[..] == old(buf[..])
    ensures v == if k == |s| then Some(Version(major, 0, 0, 0))
                 else if k + 1 == |s| then None
                 else FromMinor(major, s[k + 1..])
  {
    var more := AfterPeriod(buf, 0, k, s);
    if more == Ends {
      return Some(Version(major, 0, 0, 0));
    }
    if more == Dangles {
      return None;
    }
    v := ParseMinor(buf, k + 1, major, s[k + 1..]);
  }

  /** `parse_version`: the buffer is as it was on every way out, and the result is what the
  string means. */
  method ParseVersion(buf: array<char>, ghost s: string) returns (v: Option<Version>)
    requires CString(buf[..], 0, s)
    modifies buf
    ensures buf[..] == old(buf[..]) && v == Parse(s)
  {
    CStringAt(buf[..], 0, s, 0);
    if !IsDigit(buf[0]) {
      return None;
    }
    var k := FindDot(buf, 0, s);
    var value, whole := ConvertFront(buf, 0, k, s);
    MajorCases(s, k, value, whole);
    if !whole {
      return None;
    }
    v := ParsePastMajor(buf, k, value, s);
  }

  /** `compare_version`: the server's version against the configured one. An error gives the
  same -1 as a server that is older. */
  method CompareVersion(configured: array<char>, server: array<char>, ghost s: string, ghost t: string)
    returns (res: int, bad: bool)
    requires CString(configured[..], 0, s) && CString(server[..], 0, t) && configured != server
    modifies configured, server
    ensures configured[..] == old(configured[..]) && server[..] == old(server[..])
    ensures bad <==> Parse(s).None? || Parse(t).None?
    ensures res == if bad then -1 else Compare(Parse(t).value, Parse(s).value)
  {
    var c := ParseVersion(configured, s);
    if c.None? {
      return -1, true;
    }
    var v := ParseVersion(server, t);
    if v.None? {
      return -1, true;
    }
    res, bad := Compare(v.value, c.value), false;
  }
}
