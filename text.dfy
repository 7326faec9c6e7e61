/**
 * The .NET string operations the EngLang front end relies on, written out
 * with ordinal (culture-independent) semantics: prefix tests, searching,
 * splitting, joining, replacing, trimming, and the decimal conversions
 * `int.ToString()` and `int.Parse`.
 */
module Text {
  import opened Wrappers

  /** `Environment.NewLine`, fixed to the Windows line terminator. */
  const NewLine: string := "\r\n"

  type Int32 = x: int | -0x8000_0000 <= x < 0x8000_0000

  /** `char.IsWhiteSpace`: the Unicode space separators, line and paragraph separators, U+0009..U+000D and U+0085. */
  predicate IsWhiteSpace(c: char) {
    c == ' ' || ('\t' <= c <= '\r') || c == '\U{85}' || c == '\U{A0}' || c == '\U{1680}'
    || ('\U{2000}' <= c <= '\U{200A}') || c == '\U{2028}' || c == '\U{2029}'
    || c == '\U{202F}' || c == '\U{205F}' || c == '\U{3000}'
  }

  // ---------------------------------------------------------------------------
  // Searching

  /** `pat` occurs in `s` starting at index `i`. */
  predicate OccursAt(s: string, pat: string, i: int) {
    0 <= i && i + |pat| <= |s| && s[i..i + |pat|] == pat
  }

  predicate Occurs(s: string, pat: string) {
    exists i :: 0 <= i <= |s| && OccursAt(s, pat, i)
  }

  /** `s.IndexOf(pat, StringComparison.Ordinal)`: the first index at which `pat` occurs. */
  function IndexOf(s: string, pat: string): (r: Option<nat>)
    requires |pat| > 0
    ensures r.Some? ==> OccursAt(s, pat, r.value)
    ensures r.Some? ==> forall j :: 0 <= j < r.value ==> !OccursAt(s, pat, j)
    ensures r.None? ==> forall j :: !OccursAt(s, pat, j)
    decreases |s|
  {
    if |s| < |pat| then
      None
    else if pat <= s then
      Some(0)
    else
      match IndexOf(s[1..], pat)
      case None =>
        assert forall j :: OccursAt(s, pat, j) && j > 0 ==> OccursAt(s[1..], pat, j - 1);
        None
      case Some(k) =>
        assert forall j :: 0 < j <= k && OccursAt(s, pat, j) ==> OccursAt(s[1..], pat, j - 1);
        Some(k + 1)
  }

  // ---------------------------------------------------------------------------
  // Joining and splitting

  /** `string.Join(sep, parts)`. */
  function Join(sep: string, parts: seq<string>): (r: string)
    ensures |parts| == 1 ==> r == parts[0]
  {
    if |parts| == 0 then ""
    else if |parts| == 1 then parts[0]
    else parts[0] + sep + Join(sep, parts[1..])
  }

  /** A joined string is at least as long as any part, plus one separator when there are several parts. */
  lemma {:induction false} JoinLength(sep: string, parts: seq<string>, k: nat)
    requires k < |parts|
    ensures |Join(sep, parts)| >= |parts[k]|
    ensures |parts| > 1 ==> |Join(sep, parts)| >= |parts[k]| + |sep|
  {
    if |parts| > 1 && k > 0 {
      JoinLength(sep, parts[1..], k - 1);
    }
  }

  /** Joining one more part adds a separator and the part at the end. */
  lemma {:induction false} JoinSnoc(sep: string, parts: seq<string>, last: string)
    requires |parts| >= 1
    ensures Join(sep, parts + [last]) == Join(sep, parts) + sep + last
  {
    if |parts| > 1 {
      assert (parts + [last])[1..] == parts[1..] + [last];
      JoinSnoc(sep, parts[1..], last);
    }
  }

  /** `s.Split(sep, 2)`: cut at the first occurrence of `sep`, if there is one. */
  function SplitFirst(s: string, sep: string): (r: seq<string>)
    requires |sep| > 0
    ensures 1 <= |r| <= 2
    ensures |r| == 1 <==> !Occurs(s, sep)
    ensures |r| == 1 ==> r[0] == s
    ensures |r| == 2 ==> s == r[0] + sep + r[1] && !Occurs(r[0], sep)
  {
    match IndexOf(s, sep)
    case None => [s]
    case Some(i) =>
      assert s == s[..i] + sep + s[i + |sep|..];
      assert forall j :: OccursAt(s[..i], sep, j) ==> OccursAt(s, sep, j) && j < i;
      [s[..i], s[i + |sep|..]]
  }

  /** `s.Split(sep)`: every maximal piece between occurrences of `sep`, scanning left to right. */
  function SplitAll(s: string, sep: string): (r: seq<string>)
    requires |sep| > 0
    ensures |r| >= 1
    ensures Join(sep, r) == s
    ensures forall k :: 0 <= k < |r| ==> !Occurs(r[k], sep)
    ensures !Occurs(s, sep) ==> r == [s]
    decreases |s|
  {
    match IndexOf(s, sep)
    case None => [s]
    case Some(i) =>
      var rest := SplitAll(s[i + |sep|..], sep);
      assert s == s[..i] + sep + s[i + |sep|..];
      assert forall j :: OccursAt(s[..i], sep, j) ==> OccursAt(s, sep, j) && j < i;
      assert ([s[..i]] + rest)[1..] == rest;
      [s[..i]] + rest
  }

  /** The first piece of a full split is the text before the first separator. */
  lemma SplitAllHead(s: string, sep: string)
    requires |sep| > 0
    ensures SplitAll(s, sep)[0] == SplitFirst(s, sep)[0]
  {
  }

  /** Splitting at a one-character separator that the first part does not contain gives back the two parts. */
  lemma SplitFirstAtChar(a: string, c: char, b: string)
    requires c !in a
    ensures SplitFirst(a + [c] + b, [c]) == [a, b]
  {
    var s := a + [c] + b;
    assert s[|a|..|a| + 1] == [c];
    forall j | 0 <= j < |a| ensures !OccursAt(s, [c], j) {
      assert s[j] == a[j];
    }
    assert OccursAt(s, [c], |a|);
    var k := IndexOf(s, [c]);
    assert k.Some? && k.value == |a|;
    assert s[..|a|] == a && s[|a| + 1..] == b;
  }

  /** Every piece of a split is no longer than the string, and strictly shorter once the separator occurs. */
  lemma SplitAllPieceLength(s: string, sep: string, k: nat)
    requires |sep| > 0 && k < |SplitAll(s, sep)|
    ensures |SplitAll(s, sep)[k]| <= |s|
    ensures |SplitAll(s, sep)| > 1 ==> |SplitAll(s, sep)[k]| < |s|
  {
    JoinLength(sep, SplitAll(s, sep), k);
  }

  /**
   * `string.Join(sep, s.Split(sep).Skip(1))`: the text after the first
   * separator, or the empty string when there is none.
   */
  lemma {:induction false} JoinSplitTail(s: string, sep: string)
    requires |sep| > 0
    ensures var parts := SplitAll(s, sep);
            Join(sep, parts[1..]) == if Occurs(s, sep) then SplitFirst(s, sep)[1] else ""
  {
    var parts := SplitAll(s, sep);
    match IndexOf(s, sep)
    case None =>
    case Some(i) =>
      assert parts[1..] == SplitAll(s[i + |sep|..], sep);
  }

  /** Keep only the non-empty strings, in order. */
  function NonEmpty(parts: seq<string>): (r: seq<string>)
    ensures |r| <= |parts|
    ensures forall k :: 0 <= k < |r| ==> r[k] != "" && r[k] in parts
  {
    if parts == [] then []
    else if parts[0] == "" then NonEmpty(parts[1..])
    else [parts[0]] + NonEmpty(parts[1..])
  }

  /** `s.Split(c, StringSplitOptions.RemoveEmptyEntries)`. */
  function SplitRemoveEmpty(s: string, c: char): (r: seq<string>)
    ensures forall k :: 0 <= k < |r| ==> r[k] != "" && c !in r[k] && |r[k]| <= |s|
  {
    var parts := SplitAll(s, [c]);
    forall k | 0 <= k < |parts| ensures c !in parts[k] && |parts[k]| <= |s| {
      SplitAllPieceLength(s, [c], k);
      if c in parts[k] {
        var j :| 0 <= j < |parts[k]| && parts[k][j] == c;
        assert OccursAt(parts[k], [c], j);
      }
    }
    NonEmpty(parts)
  }

  /**
   * The first position at which one of `seps` occurs, with the index of the
   * first separator (in array order) that occurs there.
   */
  function FindAny(s: string, seps: seq<string>, from: nat): (r: Option<(nat, nat)>)
    requires forall k :: 0 <= k < |seps| ==> |seps[k]| > 0
    requires from <= |s|
    ensures r.Some? ==> from <= r.value.0 <= |s| && r.value.1 < |seps| && OccursAt(s, seps[r.value.1], r.value.0)
    decreases |s| - from
  {
    if from == |s| then None
    else
      var hit := FirstAt(s, seps, from, 0);
      if hit.Some? then Some((from, hit.value)) else FindAny(s, seps, from + 1)
  }

  /** The first separator, from index `k` on, that occurs in `s` at position `at`. */
  function FirstAt(s: string, seps: seq<string>, at: nat, k: nat): (r: Option<nat>)
    requires k <= |seps|
    ensures r.Some? ==> k <= r.value < |seps| && OccursAt(s, seps[r.value], at)
    decreases |seps| - k
  {
    if k == |seps| then None
    else if OccursAt(s, seps[k], at) then Some(k)
    else FirstAt(s, seps, at, k + 1)
  }

  /** `s.Split(seps, StringSplitOptions.None)` with several separators. */
  function SplitAny(s: string, seps: seq<string>): (r: seq<string>)
    requires forall k :: 0 <= k < |seps| ==> |seps[k]| > 0
    ensures |r| >= 1
    decreases |s|
  {
    match FindAny(s, seps, 0)
    case None => [s]
    case Some((i, k)) => [s[..i]] + SplitAny(s[i + |seps[k]|..], seps)
  }

  // ---------------------------------------------------------------------------
  // Replacing

  /** `s.Replace(a, b)` for single characters. */
  function ReplaceChar(s: string, a: char, b: char): (r: string)
    ensures |r| == |s|
    ensures forall i :: 0 <= i < |s| ==> r[i] == if s[i] == a then b else s[i]
  {
    if s == [] then [] else [if s[0] == a then b else s[0]] + ReplaceChar(s[1..], a, b)
  }

  /** `s.Replace(pat, rep)` (ordinal): every non-overlapping occurrence, found scanning left to right, is replaced. */
  function ReplaceAll(s: string, pat: string, rep: string): (r: string)
    requires |pat| > 0
    ensures !Occurs(s, pat) ==> r == s
    ensures rep == "" ==> |r| <= |s|
    decreases |s|
  {
    if s == [] then []
    else if pat <= s then
      assert OccursAt(s, pat, 0);
      rep + ReplaceAll(s[|pat|..], pat, rep)
    else
      assert forall j :: OccursAt(s[1..], pat, j) ==> OccursAt(s, pat, j + 1);
      [s[0]] + ReplaceAll(s[1..], pat, rep)
  }

  /** A prefix in which no occurrence of `pat` starts comes through `ReplaceAll` unchanged. */
  lemma {:induction false} ReplaceAllKeepsPrefix(p: string, t: string, pat: string, rep: string)
    requires |pat| > 0
    requires forall j :: 0 <= j < |p| ==> !OccursAt(p + t, pat, j)
    ensures ReplaceAll(p + t, pat, rep) == p + ReplaceAll(t, pat, rep)
    decreases |p|
  {
    if p != [] {
      var s := p + t;
      assert s[1..] == p[1..] + t;
      assert ReplaceAll(s, pat, rep) == [s[0]] + ReplaceAll(p[1..] + t, pat, rep) by {
        assert !OccursAt(s, pat, 0);
      }
      var r := ReplaceAll(t, pat, rep);
      assert ReplaceAll(p[1..] + t, pat, rep) == p[1..] + r by {
        forall j | 0 <= j < |p| - 1 ensures !OccursAt(p[1..] + t, pat, j) {
          OccursAtShift(s, pat, j);
        }
        ReplaceAllKeepsPrefix(p[1..], t, pat, rep);
      }
      assert [s[0]] + (p[1..] + r) == ([s[0]] + p[1..]) + r;
      assert p == [s[0]] + p[1..];
    } else {
      assert p + t == t;
    }
  }

  /** A pattern that does not occur in a text does not occur in any prefix of it. */
  lemma PrefixKeepsNonOccurrence(s: string, n: nat, pat: string)
    requires n <= |s| && !Occurs(s, pat)
    ensures !Occurs(s[..n], pat)
  {
    forall j | 0 <= j <= n ensures !OccursAt(s[..n], pat, j) {
      assert !OccursAt(s, pat, j);
      if j + |pat| <= n {
        assert s[..n][j..j + |pat|] == s[j..j + |pat|];
      }
    }
  }

  /** Dropping the first character moves every occurrence one place to the left. */
  lemma OccursAtShift(s: string, pat: string, j: nat)
    requires |s| > 0
    ensures OccursAt(s[1..], pat, j) <==> OccursAt(s, pat, j + 1)
  {
    if j + |pat| <= |s| - 1 {
      assert s[1..][j..j + |pat|] == s[j + 1..j + 1 + |pat|];
    }
  }

  /** An occurrence of `pat` at the start is replaced, and the scan resumes after it. */
  lemma ReplaceAllLeadingMatch(t: string, pat: string, rep: string)
    requires |pat| > 0
    ensures ReplaceAll(pat + t, pat, rep) == rep + ReplaceAll(t, pat, rep)
  {
    assert pat <= pat + t;
    assert (pat + t)[|pat|..] == t;
  }

  // ---------------------------------------------------------------------------
  // Trimming

  /** `s.TrimStart()`: drop leading white space. */
  function TrimStart(s: string): (r: string)
    ensures |r| <= |s| && r == s[|s| - |r|..]
    ensures r == [] || !IsWhiteSpace(r[0])
    ensures forall i :: 0 <= i < |s| - |r| ==> IsWhiteSpace(s[i])
  {
    if s != [] && IsWhiteSpace(s[0]) then TrimStart(s[1..]) else s
  }

  /** `s.TrimEnd()`: drop trailing white space. */
  function TrimEnd(s: string): (r: string)
    ensures |r| <= |s| && r == s[..|r|]
    ensures r == [] || !IsWhiteSpace(r[|r| - 1])
    ensures forall i :: |r| <= i < |s| ==> IsWhiteSpace(s[i])
  {
    if s != [] && IsWhiteSpace(s[|s| - 1]) then TrimEnd(s[..|s| - 1]) else s
  }

  /** `s.Trim()`. */
  function Trim(s: string): (r: string)
    ensures |r| <= |s|
    ensures r == [] || (!IsWhiteSpace(r[0]) && !IsWhiteSpace(r[|r| - 1]))
  {
    TrimEnd(TrimStart(s))
  }

  /** `s.TrimEnd(c)`: drop every trailing `c`. */
  function TrimEndChar(s: string, c: char): (r: string)
    ensures |r| <= |s| && r == s[..|r|]
    ensures r == [] || r[|r| - 1] != c
    ensures forall i :: |r| <= i < |s| ==> s[i] == c
  {
    if s != [] && s[|s| - 1] == c then TrimEndChar(s[..|s| - 1], c) else s
  }

  /** `s.TrimStart(c)`: drop every leading `c`. */
  function TrimStartChar(s: string, c: char): (r: string)
    ensures |r| <= |s| && r == s[|s| - |r|..]
    ensures r == [] || r[0] != c
    ensures forall i :: 0 <= i < |s| - |r| ==> s[i] == c
  {
    if s != [] && s[0] == c then TrimStartChar(s[1..], c) else s
  }

  /** `s.Trim(c)`: drop every leading and trailing `c`. */
  function TrimChar(s: string, c: char): (r: string)
    ensures r == [] || (r[0] != c && r[|r| - 1] != c)
  {
    TrimEndChar(TrimStartChar(s, c), c)
  }

  // ---------------------------------------------------------------------------
  // Decimal conversion

  predicate IsDigit(c: char) {
    '0' <= c <= '9'
  }

  function DigitChar(d: nat): (c: char)
    requires d < 10
    ensures IsDigit(c)
  {
    ['0', '1', '2', '3', '4', '5', '6', '7', '8', '9'][d]
  }

  function DigitValue(c: char): (d: nat)
    requires IsDigit(c)
    ensures d < 10
  {
    (c as int - '0' as int) as nat
  }

  /** The decimal digits of `n`, most significant first, with no leading zero. */
  function NatToString(n: nat): (r: string)
    ensures |r| > 0 && forall i :: 0 <= i < |r| ==> IsDigit(r[i])
  {
    if n < 10 then [DigitChar(n)] else NatToString(n / 10) + [DigitChar(n % 10)]
  }

  /** `n.ToString()` for an integer, in the invariant culture. */
  function IntToString(n: int): (r: string)
    ensures |r| > 0
    ensures n < 0 <==> r[0] == '-'
  {
    if n < 0 then "-" + NatToString(-n) else NatToString(n)
  }

  /** The value of a string of decimal digits. */
  function DigitsValue(s: string): nat
    requires forall i :: 0 <= i < |s| ==> IsDigit(s[i])
  {
    if s == [] then 0 else 10 * DigitsValue(s[..|s| - 1]) + DigitValue(s[|s| - 1])
  }

  lemma {:induction false} DigitsValueOfNatToString(n: nat)
    ensures DigitsValue(NatToString(n)) == n
  {
    if n >= 10 {
      var s := NatToString(n);
      assert s[..|s| - 1] == NatToString(n / 10);
      DigitsValueOfNatToString(n / 10);
    }
  }

  /** The white space that `NumberStyles.Integer` allows around a number: U+0009..U+000D and U+0020. */
  predicate IsNumberWhite(c: char) {
    c == ' ' || ('\t' <= c <= '\r')
  }

  function TrimNumberWhite(s: string): (r: string)
    ensures |r| <= |s|
  {
    if s != [] && IsNumberWhite(s[0]) then TrimNumberWhite(s[1..])
    else if s != [] && IsNumberWhite(s[|s| - 1]) then TrimNumberWhite(s[..|s| - 1])
    else s
  }

  predicate AllDigits(s: string) {
    forall i :: 0 <= i < |s| ==> IsDigit(s[i])
  }

  /**
   * `int.Parse(s)`: optional surrounding white space, an optional sign and at
   * least one decimal digit. A malformed string throws FormatException; a
   * well-formed one outside the 32-bit range throws OverflowException.
   */
  function ParseInt32(s: string): (r: Result<Int32>)
    ensures r.Err? ==> r.error == FormatException || r.error == OverflowException
  {
    var t := TrimNumberWhite(s);
    var negative := t != [] && t[0] == '-';
    var digits := if t != [] && (t[0] == '-' || t[0] == '+') then t[1..] else t;
    if digits == [] || !AllDigits(digits) then Err(FormatException)
    else
      var magnitude: int := DigitsValue(digits);
      var v := if negative then -magnitude else magnitude;
      if -0x8000_0000 <= v < 0x8000_0000 then Ok(v) else Err(OverflowException)
  }

  /** `int.Parse` reads back what `int.ToString()` writes, for every 32-bit integer. */
  lemma ParseIntToString(n: Int32)
    ensures ParseInt32(IntToString(n)) == Ok(n)
  {
    var s := IntToString(n);
    var i: int := n;
    var m: nat := if i < 0 then -i else i;
    var d := NatToString(m);
    DigitsValueOfNatToString(m);
    assert s == (if n < 0 then "-" else "") + d;
    assert s[|s| - 1] == d[|d| - 1];
    assert !IsNumberWhite(s[0]) && !IsNumberWhite(s[|s| - 1]);
    assert TrimNumberWhite(s) == s;
    assert s[0] == '-' <==> n < 0;
    var digits := if s[0] == '-' || s[0] == '+' then s[1..] else s;
    assert digits == d;
  }
}
