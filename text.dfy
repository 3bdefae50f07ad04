/** The string operations of the .NET base library and of JavaScript that the
    application relies on, over `string` (a sequence of UTF-16 code units).
    White space is the ASCII set (space and the controls \t..\r) and case
    mapping is ASCII-only; see README "Left out". */
module Text {
  import opened Common

  predicate IsWhiteSpace(c: char) {
    c == ' ' || ('\t' <= c <= '\r')
  }

  /** `string.IsNullOrEmpty`; `None` stands for C#'s null. */
  predicate IsNullOrEmpty(s: Option<string>) {
    s.None? || s.value == ""
  }

  predicate AllWhiteSpace(s: string) {
    forall i :: 0 <= i < |s| ==> IsWhiteSpace(s[i])
  }

  /** `string.IsNullOrWhiteSpace`. */
  predicate IsNullOrWhiteSpace(s: Option<string>) {
    s.None? || AllWhiteSpace(s.value)
  }

  /** The first position at or after `k` that does not hold white space,
      or `|s|`. */
  function SkipWhiteFrom(s: string, k: nat): (n: nat)
    requires k <= |s|
    ensures k <= n <= |s|
    ensures forall i :: k <= i < n ==> IsWhiteSpace(s[i])
    ensures n < |s| ==> !IsWhiteSpace(s[n])
    decreases |s| - k
  {
    if k == |s| || !IsWhiteSpace(s[k]) then k else SkipWhiteFrom(s, k + 1)
  }

  /** The position just after the last character before `k` that is not
      white space, or 0. */
  function SkipWhiteBack(s: string, k: nat): (e: nat)
    requires k <= |s|
    ensures e <= k
    ensures forall i :: e <= i < k ==> IsWhiteSpace(s[i])
    ensures e > 0 ==> !IsWhiteSpace(s[e - 1])
  {
    if k == 0 || !IsWhiteSpace(s[k - 1]) then k else SkipWhiteBack(s, k - 1)
  }

  function TrimStart(s: string): (r: string)
    ensures |r| <= |s| && r == s[|s| - |r|..]
    ensures r == [] || !IsWhiteSpace(r[0])
    ensures forall i :: 0 <= i < |s| - |r| ==> IsWhiteSpace(s[i])
  {
    s[SkipWhiteFrom(s, 0)..]
  }

  function TrimEnd(s: string): (r: string)
    ensures |r| <= |s| && r == s[..|r|]
    ensures r == [] || !IsWhiteSpace(r[|r| - 1])
    ensures forall i :: |r| <= i < |s| ==> IsWhiteSpace(s[i])
  {
    s[..SkipWhiteBack(s, |s|)]
  }

  /** `string.Trim()` / JavaScript `trim()`: the slice of `s` left after
      removing white space at both ends. */
  function Trim(s: string): (r: string)
    ensures exists i :: 0 <= i <= |s| - |r| && OccursAt(s, r, i)
    ensures r == [] || (!IsWhiteSpace(r[0]) && !IsWhiteSpace(r[|r| - 1]))
  {
    var t := TrimStart(s);
    var r := TrimEnd(t);
    var a := |s| - |t|;
    assert s[a..a + |r|] == t[..|r|];
    assert OccursAt(s, r, a);
    r
  }

  /** A string with no white space at either end is its own trim. */
  lemma TrimOfTrimmed(s: string)
    requires s != [] && !IsWhiteSpace(s[0]) && !IsWhiteSpace(s[|s| - 1])
    ensures Trim(s) == s
  {
    assert SkipWhiteFrom(s, 0) == 0;
    assert TrimStart(s) == s;
    assert SkipWhiteBack(s, |s|) == |s|;
    assert TrimEnd(s) == s;
  }

  /** Trimming is idempotent. */
  lemma TrimIdempotent(s: string)
    ensures Trim(Trim(s)) == Trim(s)
  {
    var r := Trim(s);
    if r != [] {
      TrimOfTrimmed(r);
    }
  }

  /** A string is empty after trimming exactly when it is all white space. */
  lemma TrimEmptyIffWhiteSpace(s: string)
    ensures Trim(s) == [] <==> AllWhiteSpace(s)
  {
    var t := TrimStart(s);
    if !AllWhiteSpace(s) {
      var k :| 0 <= k < |s| && !IsWhiteSpace(s[k]);
      var j := k - (|s| - |t|);
      assert t[j] == s[k];
      assert j < |TrimEnd(t)|;
    } else {
      assert t == [];
    }
  }

  function ToLowerChar(c: char): char {
    if 'A' <= c <= 'Z' then (c as int + 32) as char else c
  }

  /** `ToLower()` (ASCII letters only). */
  function ToLower(s: string): (r: string)
    ensures |r| == |s|
    ensures forall i :: 0 <= i < |s| ==> r[i] == ToLowerChar(s[i])
  {
    seq(|s|, i requires 0 <= i < |s| => ToLowerChar(s[i]))
  }

  function ToUpperChar(c: char): char {
    if 'a' <= c <= 'z' then (c as int - 32) as char else c
  }

  /** `ToUpperInvariant()` (ASCII letters only), as used for normalized
      user names and e-mail addresses. */
  function ToUpper(s: string): (r: string)
    ensures |r| == |s|
    ensures forall i :: 0 <= i < |s| ==> r[i] == ToUpperChar(s[i])
  {
    seq(|s|, i requires 0 <= i < |s| => ToUpperChar(s[i]))
  }

  /** `t` occurs in `s` starting at position `i`. */
  predicate OccursAt(s: string, t: string, i: int) {
    0 <= i <= |s| - |t| && s[i..i + |t|] == t
  }

  /** `string.Contains(string)` (ordinal). */
  predicate Contains(s: string, t: string) {
    exists i :: 0 <= i <= |s| - |t| && OccursAt(s, t, i)
  }

  /** `s.Split(c)[0]`: the part of `s` before the first `c`, or all of `s`. */
  function BeforeFirst(s: string, c: char): (r: string)
    ensures |r| <= |s| && r == s[..|r|]
    ensures c !in r
    ensures c in s ==> |r| < |s| && s[|r|] == c
    ensures c !in s ==> r == s
  {
    if s == [] || s[0] == c then []
    else
      var r := [s[0]] + BeforeFirst(s[1..], c);
      assert s == [s[0]] + s[1..];
      r
  }

  /** `s.Split(c, StringSplitOptions.RemoveEmptyEntries)`. */
  function SplitRemoveEmpty(s: string, c: char): (pieces: seq<string>)
    ensures forall i :: 0 <= i < |pieces| ==> pieces[i] != [] && c !in pieces[i]
  {
    var head := BeforeFirst(s, c);
    var rest := if |head| < |s| then SplitRemoveEmpty(s[|head| + 1..], c) else [];
    if head == [] then rest else [head] + rest
  }

  function Concat(pieces: seq<string>): string {
    if pieces == [] then [] else pieces[0] + Concat(pieces[1..])
  }

  /** `s` with every occurrence of `c` taken out. */
  function Without(s: string, c: char): (r: string)
    ensures c !in r
  {
    if s == [] then []
    else if s[0] == c then Without(s[1..], c)
    else [s[0]] + Without(s[1..], c)
  }

  lemma {:induction false} WithoutAppend(a: string, b: string, c: char)
    ensures Without(a + b, c) == Without(a, c) + Without(b, c)
  {
    if a != [] {
      assert (a + b)[0] == a[0];
      assert (a + b)[1..] == a[1..] + b;
      WithoutAppend(a[1..], b, c);
    } else {
      assert a + b == b;
    }
  }

  /** Splitting loses nothing but the separators: gluing the pieces back
      together gives `s` with every separator removed. */
  lemma {:induction false} SplitLosesOnlySeparators(s: string, c: char)
    ensures Concat(SplitRemoveEmpty(s, c)) == Without(s, c)
    decreases |s|
  {
    var head := BeforeFirst(s, c);
    if |head| < |s| {
      var tail := s[|head| + 1..];
      SplitAtSeparator(s, c);
      SplitLosesOnlySeparators(tail, c);
      WithoutAtSeparator(s, c);
    } else {
      assert SplitRemoveEmpty(s, c) == if head == [] then [] else [head];
      WithoutNoOccurrence(head, c);
      ConcatCons(head, []);
    }
  }

  /** Gluing the pieces of `s` is gluing the first piece to the pieces
      after the first separator. */
  lemma SplitAtSeparator(s: string, c: char)
    requires |BeforeFirst(s, c)| < |s|
    ensures var head := BeforeFirst(s, c);
            Concat(SplitRemoveEmpty(s, c)) == head + Concat(SplitRemoveEmpty(s[|head| + 1..], c))
  {
    var head := BeforeFirst(s, c);
    var rest := SplitRemoveEmpty(s[|head| + 1..], c);
    SplitUnfold(s, c);
    ConcatCons(head, rest);
  }

  lemma SplitUnfold(s: string, c: char)
    requires |BeforeFirst(s, c)| < |s|
    ensures var head := BeforeFirst(s, c);
            var rest := SplitRemoveEmpty(s[|head| + 1..], c);
            SplitRemoveEmpty(s, c) == if head == [] then rest else [head] + rest
  {
  }

  /** Removing `c` from `s` keeps the part before the first `c` and
      removes `c` from the rest. */
  lemma WithoutAtSeparator(s: string, c: char)
    requires |BeforeFirst(s, c)| < |s|
    ensures var head := BeforeFirst(s, c);
            Without(s, c) == head + Without(s[|head| + 1..], c)
  {
    var head := BeforeFirst(s, c);
    var tail := s[|head| + 1..];
    assert s == head + [c] + tail;
    WithoutAroundSeparator(head, tail, c);
  }

  /** A non-empty string without the separator splits into itself. */
  lemma SplitWithoutSeparator(s: string, c: char)
    requires s != [] && c !in s
    ensures SplitRemoveEmpty(s, c) == [s]
  {
    assert BeforeFirst(s, c) == s;
  }

  /** Taking `c` out of a piece free of `c`, a `c`, and a tail leaves the
      piece followed by the tail without `c`. */
  lemma WithoutAroundSeparator(head: string, tail: string, c: char)
    requires c !in head
    ensures Without(head + [c] + tail, c) == head + Without(tail, c)
  {
    WithoutNoOccurrence(head, c);
    WithoutAppend(head + [c], tail, c);
    WithoutAppend(head, [c], c);
    assert Without([c], c) == [];
  }

  /** Putting a piece in front, unless it is empty, puts it in front of the
      concatenation. */
  lemma ConcatCons(head: string, rest: seq<string>)
    ensures Concat(if head == [] then rest else [head] + rest) == head + Concat(rest)
  {
    if head != [] {
      assert ([head] + rest)[1..] == rest;
    }
  }

  lemma {:induction false} WithoutNoOccurrence(s: string, c: char)
    requires c !in s
    ensures Without(s, c) == s
  {
    if s != [] {
      WithoutNoOccurrence(s[1..], c);
    }
  }

  /** `string.Join(sep, parts)`. */
  function Join(sep: string, parts: seq<string>): string {
    if parts == [] then []
    else if |parts| == 1 then parts[0]
    else parts[0] + sep + Join(sep, parts[1..])
  }

  /** `s.indexOf(sep, i)`: the first position at or after `i` where `sep`
      occurs. */
  function FindFrom(s: string, sep: string, i: nat): (r: Option<nat>)
    decreases |s| - i
    ensures r.Some? ==> i <= r.value && OccursAt(s, sep, r.value)
    ensures r.Some? ==> forall j :: i <= j < r.value ==> !OccursAt(s, sep, j)
    ensures r.None? ==> forall j :: i <= j ==> !OccursAt(s, sep, j)
  {
    if i + |sep| > |s| then None
    else if s[i..i + |sep|] == sep then Some(i)
    else FindFrom(s, sep, i + 1)
  }

  /** JavaScript's `s.split(sep)` for a non-empty separator: the pieces
      between the occurrences of `sep`, found left to right. */
  function SplitOn(s: string, sep: string): (pieces: seq<string>)
    requires sep != []
    decreases |s|
    ensures pieces != []
  {
    match FindFrom(s, sep, 0)
    case None => [s]
    case Some(j) => [s[..j]] + SplitOn(s[j + |sep|..], sep)
  }

  /** In `part + sep` the first occurrence of `sep` is the appended one:
      no occurrence starts inside `part`. */
  predicate EndsBeforeSeparator(part: string, sep: string) {
    forall j :: 0 <= j < |part| ==> !OccursAt(part + sep, sep, j)
  }

  lemma FindInJoined(part: string, sep: string, rest: string)
    requires EndsBeforeSeparator(part, sep)
    ensures FindFrom(part + sep + rest, sep, 0) == Some(|part|)
  {
    var s := part + sep + rest;
    assert s[|part|..|part| + |sep|] == sep;
    assert OccursAt(s, sep, |part|);
    forall j | 0 <= j < |part| ensures !OccursAt(s, sep, j) {
      assert !OccursAt(part + sep, sep, j);
      assert s[j..j + |sep|] == (part + sep)[j..j + |sep|];
    }
  }

  lemma FindInLast(part: string, sep: string)
    requires sep != [] && EndsBeforeSeparator(part, sep)
    ensures FindFrom(part, sep, 0).None?
  {
    forall j | 0 <= j ensures !OccursAt(part, sep, j) {
      if j + |sep| <= |part| {
        assert !OccursAt(part + sep, sep, j);
        assert part[j..j + |sep|] == (part + sep)[j..j + |sep|];
      }
    }
  }

  /** A part that ends before the separator splits off first. */
  lemma SplitStep(part: string, sep: string, rest: string)
    requires sep != [] && EndsBeforeSeparator(part, sep)
    ensures SplitOn(part + sep + rest, sep) == [part] + SplitOn(rest, sep)
  {
    var s := part + sep + rest;
    FindInJoined(part, sep, rest);
    assert s[..|part|] == part;
    assert s[|part| + |sep|..] == rest;
  }

  /** Splitting a join on its separator gives the parts back, provided no
      part could be mistaken for the start of a separator. */
  lemma {:induction false} SplitJoinRoundTrip(sep: string, parts: seq<string>)
    requires sep != [] && parts != []
    requires forall i :: 0 <= i < |parts| ==> EndsBeforeSeparator(parts[i], sep)
    ensures SplitOn(Join(sep, parts), sep) == parts
  {
    if |parts| == 1 {
      FindInLast(parts[0], sep);
    } else {
      assert EndsBeforeSeparator(parts[0], sep);
      SplitStep(parts[0], sep, Join(sep, parts[1..]));
      SplitJoinRoundTrip(sep, parts[1..]);
      assert parts == [parts[0]] + parts[1..];
    }
  }

  function DigitChar(d: int): char
    requires 0 <= d < 10
  {
    ['0', '1', '2', '3', '4', '5', '6', '7', '8', '9'][d]
  }

  function DigitValue(c: char): int {
    if '0' <= c <= '9' then c as int - '0' as int else 0
  }

  predicate IsDigit(c: char) {
    '0' <= c <= '9'
  }

  function NatToString(n: nat): (r: string)
    ensures r != [] && forall i :: 0 <= i < |r| ==> IsDigit(r[i])
  {
    if n < 10 then [DigitChar(n)] else NatToString(n / 10) + [DigitChar(n % 10)]
  }

  /** `int.ToString()` (invariant culture). */
  function IntToString(n: int): string {
    if n < 0 then "-" + NatToString(-n) else NatToString(n)
  }

  function ParseNat(s: string): nat {
    if s == [] then 0 else ParseNat(s[..|s| - 1]) * 10 + DigitValue(s[|s| - 1])
  }

  function ParseInt(s: string): int {
    if s != [] && s[0] == '-' then -(ParseNat(s[1..]) as int) else ParseNat(s)
  }

  lemma {:induction false} ParseNatToString(n: nat)
    ensures ParseNat(NatToString(n)) == n
  {
    if n >= 10 {
      ParseNatToString(n / 10);
      var s := NatToString(n / 10) + [DigitChar(n % 10)];
      assert s[..|s| - 1] == NatToString(n / 10);
    }
  }

  /** `int.ToString()` can be read back: parsing its output gives the number. */
  lemma IntToStringRoundTrip(n: int)
    ensures ParseInt(IntToString(n)) == n
  {
    if n < 0 {
      var digits := NatToString(-n);
      ParseNatToString(-n);
      assert IntToString(n) == "-" + digits;
      assert ("-" + digits)[0] == '-';
      assert ("-" + digits)[1..] == digits;
    } else {
      var digits := NatToString(n);
      ParseNatToString(n);
      assert IntToString(n) == digits;
      assert digits[0] != '-' by {
        assert IsDigit(digits[0]);
      }
    }
  }

  /** Different numbers print differently, so group names derived from
      distinct ids are distinct. */
  lemma IntToStringInjective(a: int, b: int)
    requires IntToString(a) == IntToString(b)
    ensures a == b
  {
    IntToStringRoundTrip(a);
    IntToStringRoundTrip(b);
  }

  /** Scan `path[..i]` backwards for the extension. */
  function ExtensionScan(path: string, i: nat): (r: string)
    requires i <= |path|
    requires forall j :: i <= j < |path| ==> path[j] != '.' && path[j] != '/'
    ensures |r| <= |path|
    ensures r == [] || (|r| >= 2 && r[0] == '.' && r == path[|path| - |r|..])
    ensures r == [] || ('.' !in r[1..] && '/' !in r)
    ensures r != [] ==> |path| - |r| < i
    decreases i
  {
    if i == 0 then []
    else if path[i - 1] == '.' then
      (if i == |path| then [] else path[i - 1..])
    else if path[i - 1] == '/' then []
    else ExtensionScan(path, i - 1)
  }

  /** `Path.GetExtension` with '/' as the directory separator: from the last
      '.' of the file name to the end, or "" when there is no '.' or it is
      the last character. */
  function GetExtension(path: string): (r: string)
    ensures |r| <= |path|
    ensures r == [] || (|r| >= 2 && r[0] == '.' && r == path[|path| - |r|..])
    ensures r == [] || ('.' !in r[1..] && '/' !in r)
  {
    ExtensionScan(path, |path|)
  }
}
