/** The Python string built-ins the answer path relies on: `str.strip()`,
    `str(n)` for a non-negative int, and `sep.join(parts)`. */
module PyText {

  /** The characters `str.strip()` with no argument removes: the code points
      for which Python's `str.isspace()` holds. */
  const PySpaces: set<char> := {
    '\t', '\n', '\U{B}', '\U{C}', '\r', '\U{1C}', '\U{1D}', '\U{1E}', '\U{1F}', ' ', '\U{85}', '\U{A0}',
    '\U{1680}', '\U{2000}', '\U{2001}', '\U{2002}', '\U{2003}', '\U{2004}', '\U{2005}', '\U{2006}',
    '\U{2007}', '\U{2008}', '\U{2009}', '\U{200A}', '\U{2028}', '\U{2029}', '\U{202F}', '\U{205F}', '\U{3000}'
  }

  predicate IsPySpace(c: char)
  {
    c in PySpaces
  }

  predicate AllSpace(s: string)
  {
    forall k :: 0 <= k < |s| ==> IsPySpace(s[k])
  }

  /** `s.lstrip()`: the longest suffix of `s` that does not start with whitespace. */
  function TrimStart(s: string): (r: string)
    ensures |r| <= |s| && r == s[|s| - |r|..]
    ensures forall k :: 0 <= k < |s| - |r| ==> IsPySpace(s[k])
    ensures r == [] || !IsPySpace(r[0])
  {
    if s != [] && IsPySpace(s[0]) then
      var r := TrimStart(s[1..]);
      assert forall k :: 1 <= k < |s| ==> s[1..][k - 1] == s[k];
      r
    else s
  }

  /** `s.rstrip()`: the longest prefix of `s` that does not end with whitespace. */
  function TrimEnd(s: string): (r: string)
    ensures |r| <= |s| && r == s[..|r|]
    ensures forall k :: |r| <= k < |s| ==> IsPySpace(s[k])
    ensures r == [] || !IsPySpace(r[|r| - 1])
  {
    if s != [] && IsPySpace(s[|s| - 1]) then
      var r := TrimEnd(s[..|s| - 1]);
      assert forall k :: 0 <= k < |s| - 1 ==> s[..|s| - 1][k] == s[k];
      r
    else s
  }

  /** `s.strip()`. */
  function Strip(s: string): (r: string)
    ensures |r| <= |s|
    ensures r == [] || (!IsPySpace(r[0]) && !IsPySpace(r[|r| - 1]))
  {
    TrimEnd(TrimStart(s))
  }

  /** Where the stripped text starts in `s`. */
  function StripStart(s: string): nat
  {
    |s| - |TrimStart(s)|
  }

  /** What `strip` returns is a slice of `s`, found after the leading
      whitespace. */
  lemma StripIsSlice(s: string)
    ensures StripStart(s) + |Strip(s)| <= |s|
    ensures Strip(s) == s[StripStart(s)..StripStart(s) + |Strip(s)|]
  {
    var t := TrimStart(s);
    PrefixOfSuffix(s, t, TrimEnd(t));
  }

  /** A prefix of a suffix of `s` is a slice of `s`. */
  lemma PrefixOfSuffix(s: string, t: string, r: string)
    requires |t| <= |s| && t == s[|s| - |t|..]
    requires |r| <= |t| && r == t[..|r|]
    ensures r == s[|s| - |t|..|s| - |t| + |r|]
  {
    var i := |s| - |t|;
    var u := s[i..i + |r|];
    forall k | 0 <= k < |r| ensures r[k] == u[k] {
      assert r[k] == t[k] == s[i + k];
    }
  }

  /** `strip` removes whitespace only: everything before and after the
      slice it returns is whitespace. */
  lemma StripRemovesOnlySpace(s: string)
    ensures StripStart(s) + |Strip(s)| <= |s|
    ensures forall k :: 0 <= k < StripStart(s) ==> IsPySpace(s[k])
    ensures forall k :: StripStart(s) + |Strip(s)| <= k < |s| ==> IsPySpace(s[k])
  {
    var t := TrimStart(s);
    SpaceTailOfSuffix(s, t, TrimEnd(t));
  }

  /** Whitespace after a prefix `r` of a suffix `t` of `s` is whitespace
      after the matching slice of `s`. */
  lemma SpaceTailOfSuffix(s: string, t: string, r: string)
    requires |t| <= |s| && t == s[|s| - |t|..]
    requires |r| <= |t| && forall k :: |r| <= k < |t| ==> IsPySpace(t[k])
    ensures forall k :: |s| - |t| + |r| <= k < |s| ==> IsPySpace(s[k])
  {
    var i := |s| - |t|;
    forall k | i + |r| <= k < |s| ensures IsPySpace(s[k]) {
      assert s[k] == t[k - i];
    }
  }

  /** A question is empty after `strip` exactly when it is all whitespace. */
  lemma StripEmptyIffBlank(s: string)
    ensures Strip(s) == [] <==> AllSpace(s)
  {
    if Strip(s) == [] {
      assert TrimStart(s) == [];
    }
  }

  /** Stripping twice changes nothing. */
  lemma StripIdempotent(s: string)
    ensures Strip(Strip(s)) == Strip(s)
  {
    var r := Strip(s);
    assert TrimStart(r) == r;
    assert TrimEnd(r) == r;
  }

  /** The digit character for `d`. */
  function DigitChar(d: nat): (c: char)
    requires d < 10
    ensures '0' <= c <= '9'
  {
    (48 + d) as char
  }

  function DigitValue(c: char): (d: nat)
    requires '0' <= c <= '9'
    ensures d < 10
  {
    c as int - 48
  }

  predicate AllDigits(s: string)
  {
    forall k :: 0 <= k < |s| ==> '0' <= s[k] <= '9'
  }

  /** `str(n)` for a non-negative int: decimal digits, no sign, no leading
      zero unless the number is zero. */
  function DecimalString(n: nat): (s: string)
    ensures |s| >= 1 && AllDigits(s)
    ensures (s[0] == '0') == (n == 0)
    decreases n
  {
    if n < 10 then [DigitChar(n)] else DecimalString(n / 10) + [DigitChar(n % 10)]
  }

  /** `int(s)` for a string of decimal digits (the empty string reads as 0). */
  function ParseDecimal(s: string): nat
    requires AllDigits(s)
  {
    if s == [] then 0 else ParseDecimal(s[..|s| - 1]) * 10 + DigitValue(s[|s| - 1])
  }

  /** Reading back the digits `str(n)` wrote gives `n`. */
  lemma {:induction false} DecimalRoundTrip(n: nat)
    ensures ParseDecimal(DecimalString(n)) == n
    decreases n
  {
    var s := DecimalString(n);
    if n < 10 {
      assert s[..0] == [];
    } else {
      DecimalRoundTrip(n / 10);
      assert s[..|s| - 1] == DecimalString(n / 10);
    }
  }

  /** Distinct numbers are written as distinct strings. */
  lemma DecimalInjective(m: nat, n: nat)
    requires DecimalString(m) == DecimalString(n)
    ensures m == n
  {
    DecimalRoundTrip(m);
    DecimalRoundTrip(n);
  }

  /** The total number of characters in the parts. */
  function TotalLength(parts: seq<string>): nat
    decreases |parts|
  {
    if parts == [] then 0 else TotalLength(parts[..|parts| - 1]) + |parts[|parts| - 1]|
  }

  /** `sep.join(parts)`: the empty string for no parts, and otherwise a
      string that opens with the first part. */
  function Join(sep: string, parts: seq<string>): (r: string)
    ensures parts == [] ==> r == []
    ensures parts != [] ==> parts[0] <= r
    decreases |parts|
  {
    if |parts| == 0 then ""
    else if |parts| == 1 then parts[0]
    else
      var init := parts[..|parts| - 1];
      assert init[0] == parts[0];
      Join(sep, init) + sep + parts[|parts| - 1]
  }

  /** `sep.join(parts)` holds every character of the parts and one
      separator between each two of them, and nothing else. */
  lemma {:induction false} JoinLength(sep: string, parts: seq<string>)
    requires parts != []
    ensures |Join(sep, parts)| + |sep| == TotalLength(parts) + |parts| * |sep|
    decreases |parts|
  {
    if |parts| == 1 {
      assert parts[..0] == [];
    } else {
      JoinLength(sep, parts[..|parts| - 1]);
      assert (|parts| - 1) * |sep| + |sep| == |parts| * |sep|;
    }
  }

  /** Joining a prefix of the parts gives a prefix of the joined string. */
  lemma {:induction false} JoinPrefix(sep: string, parts: seq<string>, k: nat)
    requires 1 <= k <= |parts|
    ensures Join(sep, parts[..k]) <= Join(sep, parts)
    decreases |parts|
  {
    if k < |parts| {
      var init := parts[..|parts| - 1];
      JoinPrefix(sep, init, k);
      assert init[..k] == parts[..k];
    } else {
      assert parts[..k] == parts;
    }
  }

  /** Where part `j` begins in `sep.join(parts)`. */
  function PieceStart(sep: string, parts: seq<string>, j: nat): nat
    requires j < |parts|
  {
    if j == 0 then 0 else |Join(sep, parts[..j])| + |sep|
  }

  /** Adding one more part adds the separator and that part. */
  lemma JoinStep(sep: string, parts: seq<string>, j: nat)
    requires 1 <= j < |parts|
    ensures Join(sep, parts[..j + 1]) == Join(sep, parts[..j]) + sep + parts[j]
  {
    assert parts[..j + 1][..j] == parts[..j];
  }

  /** Joining the parts up to and including `j` ends right after part `j`. */
  lemma JoinPrefixLength(sep: string, parts: seq<string>, j: nat)
    requires j < |parts|
    ensures |Join(sep, parts[..j + 1])| == PieceStart(sep, parts, j) + |parts[j]|
    ensures Join(sep, parts[..j + 1])[PieceStart(sep, parts, j)..] == parts[j]
  {
    if j == 0 {
      assert Join(sep, parts[..1]) == parts[0];
    } else {
      JoinStep(sep, parts, j);
    }
  }

  /** Part `j` appears whole in `sep.join(parts)` at `PieceStart`, and the
      last part ends the string. */
  lemma JoinPiece(sep: string, parts: seq<string>, j: nat)
    requires j < |parts|
    ensures PieceStart(sep, parts, j) + |parts[j]| <= |Join(sep, parts)|
    ensures Join(sep, parts)[PieceStart(sep, parts, j)..PieceStart(sep, parts, j) + |parts[j]|] == parts[j]
    ensures j + 1 == |parts| ==> PieceStart(sep, parts, j) + |parts[j]| == |Join(sep, parts)|
  {
    JoinPrefix(sep, parts, j + 1);
    JoinPrefixLength(sep, parts, j);
    var upto := Join(sep, parts[..j + 1]);
    var start := PieceStart(sep, parts, j);
    PrefixSlice(Join(sep, parts), upto, start, |parts[j]|);
    if j + 1 == |parts| {
      assert parts[..j + 1] == parts;
    }
  }

  /** Between part `j` and part `j + 1` there is exactly one separator. */
  lemma JoinSeparator(sep: string, parts: seq<string>, j: nat)
    requires j + 1 < |parts|
    ensures PieceStart(sep, parts, j + 1) == PieceStart(sep, parts, j) + |parts[j]| + |sep|
    ensures PieceStart(sep, parts, j + 1) <= |Join(sep, parts)|
    ensures Join(sep, parts)[PieceStart(sep, parts, j) + |parts[j]|..PieceStart(sep, parts, j + 1)] == sep
  {
    JoinPrefixLength(sep, parts, j);
    JoinStep(sep, parts, j + 1);
    JoinPrefix(sep, parts, j + 2);
    var upto := Join(sep, parts[..j + 1]);
    var upto2 := Join(sep, parts[..j + 2]);
    assert upto2 == upto + sep + parts[j + 1];
    assert Join(sep, parts)[|upto|..|upto| + |sep|] == upto2[|upto|..|upto| + |sep|];
  }

  /** A slice of a prefix of `s` is the same slice of `s`. */
  lemma PrefixSlice(s: string, t: string, i: nat, n: nat)
    requires t <= s && i + n <= |t|
    ensures s[i..i + n] == t[i..i + n]
  {
    var u, v := s[i..i + n], t[i..i + n];
    forall k | 0 <= k < n ensures u[k] == v[k] {
      assert t[i + k] == s[i + k];
    }
  }

  /** A slice of a piece found at offset `off` is found at the shifted offset. */
  lemma SliceOfSlice(s: string, off: nat, t: string, i: nat, n: nat)
    requires off + |t| <= |s| && s[off..off + |t|] == t && i + n <= |t|
    ensures s[off + i..off + i + n] == t[i..i + n]
  {
    var u, v := s[off + i..off + i + n], t[i..i + n];
    forall k | 0 <= k < n ensures u[k] == v[k] {
      assert s[off..off + |t|][i + k] == s[off + i + k];
    }
  }
}
