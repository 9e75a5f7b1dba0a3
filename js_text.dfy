/**
 * The JavaScript string primitives the extension relies on, restricted to what
 * the source uses: ASCII case mapping, `trim`, `includes`, `split` on one
 * character, `substring(0, n)`, the `replace` calls over a few character
 * classes, and the number parser `parseInt` (one radix-less call shape).
 */
module JsText {
  import opened Base

  /** JavaScript white space and line terminators: what `trim`, `parseInt` and `\s` skip. */
  predicate IsSpace(c: char) {
    || c == '\t' || c == '\n' || c == '\U{000B}' || c == '\U{000C}' || c == '\r'
    || c == ' ' || c == '\U{00A0}' || c == '\U{1680}'
    || ('\U{2000}' <= c <= '\U{200A}')
    || c == '\U{2028}' || c == '\U{2029}' || c == '\U{202F}' || c == '\U{205F}'
    || c == '\U{3000}' || c == '\U{FEFF}'
  }

  predicate IsDigit(c: char) { '0' <= c <= '9' }

  predicate IsHexDigit(c: char) { IsDigit(c) || 'a' <= c <= 'f' || 'A' <= c <= 'F' }

  predicate IsUpperAscii(c: char) { 'A' <= c <= 'Z' }

  predicate IsLowerAscii(c: char) { 'a' <= c <= 'z' }

  /** `[a-z0-9]` */
  predicate IsLowerAlnum(c: char) { IsLowerAscii(c) || IsDigit(c) }

  // ---------------------------------------------------------------------------
  // Case mapping (ASCII only)
  // ---------------------------------------------------------------------------

  function LowerChar(c: char): (r: char)
    ensures !IsUpperAscii(r)
  {
    if IsUpperAscii(c) then (c as int + 32) as char else c
  }

  function UpperChar(c: char): (r: char)
    ensures !IsLowerAscii(r)
  {
    if IsLowerAscii(c) then (c as int - 32) as char else c
  }

  /** `toLowerCase()` on the ASCII range. */
  function Lower(s: string): (r: string)
    ensures |r| == |s|
    ensures forall i :: 0 <= i < |s| ==> r[i] == LowerChar(s[i])
  {
    seq(|s|, i requires 0 <= i < |s| => LowerChar(s[i]))
  }

  /** `toUpperCase()` on the ASCII range. */
  function Upper(s: string): (r: string)
    ensures |r| == |s|
    ensures forall i :: 0 <= i < |s| ==> r[i] == UpperChar(s[i])
  {
    seq(|s|, i requires 0 <= i < |s| => UpperChar(s[i]))
  }

  predicate NoUpper(s: string) { forall i :: 0 <= i < |s| ==> !IsUpperAscii(s[i]) }

  lemma LowerOfLower(s: string)
    requires NoUpper(s)
    ensures Lower(s) == s
  {
  }

  // ---------------------------------------------------------------------------
  // Searching
  // ---------------------------------------------------------------------------

  predicate StartsWith(s: string, p: string) { |p| <= |s| && s[..|p|] == p }

  /** `s.includes(p)` */
  predicate Contains(s: string, p: string)
    decreases |s|
  {
    StartsWith(s, p) || (|s| > 0 && Contains(s[1..], p))
  }

  lemma {:induction false} ContainsAt(s: string, p: string, i: nat)
    requires i + |p| <= |s| && s[i..i + |p|] == p
    ensures Contains(s, p)
  {
    if i > 0 {
      assert s[1..][i - 1..i - 1 + |p|] == p;
      ContainsAt(s[1..], p, i - 1);
    }
  }

  /** Where a contained pattern starts. */
  lemma {:induction false} ContainsWitness(s: string, p: string) returns (j: nat)
    requires Contains(s, p)
    ensures j <= |s| && StartsWith(s[j..], p)
    decreases |s|
  {
    if StartsWith(s, p) {
      j := 0;
    } else {
      var k := ContainsWitness(s[1..], p);
      assert s[1..][k..] == s[k + 1..];
      j := k + 1;
    }
  }

  /** A pattern whose first character does not occur in `s` is not contained in `s`. */
  lemma {:induction false} NotContainedFirstChar(s: string, p: string)
    requires |p| > 0 && p[0] !in s
    ensures !Contains(s, p)
  {
    if |s| > 0 {
      assert s[0] != p[0];
      NotContainedFirstChar(s[1..], p);
    }
  }

  lemma {:induction false} ContainsInPrefix(a: string, b: string, p: string)
    requires Contains(a, p)
    ensures Contains(a + b, p)
  {
    if StartsWith(a, p) {
      assert (a + b)[..|p|] == a[..|p|];
    } else {
      assert (a + b)[1..] == a[1..] + b;
      ContainsInPrefix(a[1..], b, p);
    }
  }

  /**
   * The leftmost position from `i` on where the pattern `at` matches the rest
   * of `s`: how a regular expression without the `g` flag picks its match.
   */
  function FirstMatch(s: string, i: nat, at: string -> bool): (r: Option<nat>)
    requires i <= |s|
    ensures r.Some? ==> i <= r.value <= |s| && at(s[r.value..])
    ensures r.Some? ==> forall j :: i <= j < r.value ==> !at(s[j..])
    ensures r.None? ==> forall j :: i <= j <= |s| ==> !at(s[j..])
    decreases |s| - i
  {
    if at(s[i..]) then Some(i)
    else if i == |s| then None
    else FirstMatch(s, i + 1, at)
  }

  /** A position where the pattern matches, with none before it from `i` on, is the one found. */
  lemma {:induction false} FirstMatchAt(s: string, i: nat, k: nat, at: string -> bool)
    requires i <= k <= |s| && at(s[k..])
    requires forall j :: i <= j < k ==> !at(s[j..])
    ensures FirstMatch(s, i, at) == Some(k)
    decreases k - i
  {
    if i < k {
      FirstMatchAt(s, i + 1, k, at);
    }
  }

  /** `s.substring(0, n)` */
  function Take(s: string, n: nat): (r: string)
    ensures |r| <= n && StartsWith(s, r)
    ensures |s| <= n ==> r == s
  {
    if |s| <= n then s else s[..n]
  }

  // ---------------------------------------------------------------------------
  // trim
  // ---------------------------------------------------------------------------

  function TrimStart(s: string): (r: string)
    ensures |r| <= |s| && r == s[|s| - |r|..]
    ensures r == [] || !IsSpace(r[0])
    ensures forall i :: 0 <= i < |s| - |r| ==> IsSpace(s[i])
  {
    if |s| > 0 && IsSpace(s[0]) then TrimStart(s[1..]) else s
  }

  function TrimEnd(s: string): (r: string)
    ensures |r| <= |s| && r == s[..|r|]
    ensures r == [] || !IsSpace(r[|r| - 1])
    ensures forall i :: |r| <= i < |s| ==> IsSpace(s[i])
  {
    if |s| > 0 && IsSpace(s[|s| - 1]) then TrimEnd(s[..|s| - 1]) else s
  }

  /** `s.trim()`: the longest infix with no white space at either end. */
  function Trim(s: string): (r: string)
    ensures |r| <= |s|
    ensures r == [] || (!IsSpace(r[0]) && !IsSpace(r[|r| - 1]))
    ensures s == [] || (!IsSpace(s[0]) && !IsSpace(s[|s| - 1])) ==> r == s
  {
    TrimEnd(TrimStart(s))
  }

  /** Trimming adds no character. */
  lemma TrimChars(s: string)
    ensures forall i :: 0 <= i < |Trim(s)| ==> Trim(s)[i] in s
  {
    var t := Trim(s);
    var a := TrimInfix(s);
    forall i | 0 <= i < |t|
      ensures t[i] in s
    {
      assert t[i] == s[a..a + |t|][i] == s[a + i];
    }
  }

  /** The trimmed string is an infix of the original, starting at `a`. */
  lemma TrimInfix(s: string) returns (a: nat)
    ensures a + |Trim(s)| <= |s| && Trim(s) == s[a..a + |Trim(s)|]
  {
    var t := TrimStart(s);
    a := |s| - |t|;
    var u := TrimEnd(t);
    PrefixOfSuffix(s, a, u);
  }

  /** A prefix of the suffix from `a` is the slice starting at `a`. */
  lemma PrefixOfSuffix(s: string, a: nat, u: string)
    requires a <= |s| && |u| <= |s| - a && u == s[a..][..|u|]
    ensures a + |u| <= |s| && u == s[a..a + |u|]
  {
  }

  predicate NoSpace(s: string) { forall i :: 0 <= i < |s| ==> !IsSpace(s[i]) }

  lemma TrimNoSpace(s: string)
    requires NoSpace(s)
    ensures Trim(s) == s
  {
  }

  // ---------------------------------------------------------------------------
  // split / join on one character
  // ---------------------------------------------------------------------------

  function IndexOfChar(s: string, c: char): (i: nat)
    requires c in s
    ensures i < |s| && s[i] == c && c !in s[..i]
  {
    if s[0] == c then 0 else IndexOfChar(s[1..], c) + 1
  }

  /** The first occurrence of `c` is the position before which `c` does not occur. */
  lemma {:induction false} IndexOfCharAt(s: string, c: char, j: nat)
    requires j < |s| && s[j] == c && c !in s[..j]
    ensures IndexOfChar(s, c) == j
  {
    if j > 0 {
      assert s[0] in s[..j];
      assert s[1..][..j - 1] == s[1..j];
      assert forall x :: x in s[1..j] ==> x in s[..j];
      IndexOfCharAt(s[1..], c, j - 1);
    }
  }

  /** `s.split(sep)` for a one-character separator: always at least one part, no part holds `sep`. */
  function Split(s: string, sep: char): (parts: seq<string>)
    ensures |parts| >= 1
    ensures forall k :: 0 <= k < |parts| ==> sep !in parts[k]
    decreases |s|
  {
    if sep !in s then [s]
    else
      var i := IndexOfChar(s, sep);
      [s[..i]] + Split(s[i + 1..], sep)
  }

  /** `parts.join(sep)` */
  function Join(parts: seq<string>, sep: string): string {
    if |parts| == 0 then ""
    else if |parts| == 1 then parts[0]
    else parts[0] + sep + Join(parts[1..], sep)
  }

  /** Splitting and joining back with the same separator gives the original string. */
  lemma {:induction false} JoinOfSplit(s: string, sep: char)
    ensures Join(Split(s, sep), [sep]) == s
    decreases |s|
  {
    if sep in s {
      var i := IndexOfChar(s, sep);
      var rest := Split(s[i + 1..], sep);
      JoinOfSplit(s[i + 1..], sep);
      var parts := [s[..i]] + rest;
      assert Split(s, sep) == parts;
      assert parts[0] == s[..i] && parts[1..] == rest && |parts| > 1;
      assert Join(parts, [sep]) == s[..i] + [sep] + Join(rest, [sep]);
      assert s == s[..i] + [sep] + s[i + 1..];
    }
  }

  /** Joining parts that do not contain the separator and splitting again gives the parts back. */
  lemma {:induction false} SplitOfJoin(parts: seq<string>, sep: char)
    requires |parts| >= 1
    requires forall k :: 0 <= k < |parts| ==> sep !in parts[k]
    ensures Split(Join(parts, [sep]), sep) == parts
  {
    if |parts| > 1 {
      var s := Join(parts, [sep]);
      var tail := Join(parts[1..], [sep]);
      assert s == parts[0] + [sep] + tail;
      assert s[|parts[0]|] == sep;
      assert sep in s;
      assert s[..|parts[0]|] == parts[0];
      IndexOfCharAt(s, sep, |parts[0]|);
      assert s[|parts[0]| + 1..] == tail;
      SplitOfJoin(parts[1..], sep);
    } else {
      assert Join(parts, [sep]) == parts[0];
    }
  }

  // ---------------------------------------------------------------------------
  // Character classes and the global `replace` calls built on them
  // ---------------------------------------------------------------------------

  /** The character classes the source's regular expressions use. */
  datatype CharClass =
    | Space                  // \s
    | DotOrSpace             // [.\s]
    | Hyphen                 // -
    | SpaceOrHyphen          // [\s-]
    | NotLowerAlnum          // [^a-z0-9]
    | NotLowerAlnumNorSpace  // [^a-z0-9\s]

  predicate InClass(c: char, k: CharClass) {
    match k
    case Space => IsSpace(c)
    case DotOrSpace => c == '.' || IsSpace(c)
    case Hyphen => c == '-'
    case SpaceOrHyphen => c == '-' || IsSpace(c)
    case NotLowerAlnum => !IsLowerAlnum(c)
    case NotLowerAlnumNorSpace => !IsLowerAlnum(c) && !IsSpace(c)
  }

  predicate NoneIn(s: string, k: CharClass) { forall i :: 0 <= i < |s| ==> !InClass(s[i], k) }

  /** Length of the longest prefix of `s` made of characters of class `k`. */
  function ClassRun(s: string, k: CharClass): (n: nat)
    ensures n <= |s|
    ensures forall i :: 0 <= i < n ==> InClass(s[i], k)
    ensures n < |s| ==> !InClass(s[n], k)
  {
    if |s| > 0 && InClass(s[0], k) then 1 + ClassRun(s[1..], k) else 0
  }

  /** The class-`k` run of `a + b` is all of `a` when `a` is in the class and `b` does not start with it. */
  lemma {:induction false} ClassRunOf(a: string, b: string, k: CharClass)
    requires forall i :: 0 <= i < |a| ==> InClass(a[i], k)
    requires b == [] || !InClass(b[0], k)
    ensures ClassRun(a + b, k) == |a|
  {
    if |a| > 0 {
      assert (a + b)[1..] == a[1..] + b;
      ClassRunOf(a[1..], b, k);
    }
  }

  /** `s.replace(/K+/g, rep)`: every maximal run of class-`k` characters becomes `rep`. */
  function ReplaceRuns(s: string, k: CharClass, rep: string): (r: string)
    ensures forall i :: 0 <= i < |r| ==> r[i] in s || r[i] in rep
    decreases |s|
  {
    if s == [] then []
    else if InClass(s[0], k) then rep + ReplaceRuns(s[ClassRun(s, k)..], k, rep)
    else [s[0]] + ReplaceRuns(s[1..], k, rep)
  }

  /**
   * Replacing every run of class `k` by the single class-`k` character `c`
   * leaves `c` as the only class-`k` character, never twice in a row, and
   * keeps whether the string starts with one.
   */
  lemma {:induction false} CollapsedRuns(s: string, k: CharClass, c: char)
    requires InClass(c, k)
    ensures var r := ReplaceRuns(s, k, [c]);
      && (forall i :: 0 <= i < |r| && InClass(r[i], k) ==> r[i] == c)
      && (forall i :: 0 <= i < |r| - 1 ==> !(InClass(r[i], k) && InClass(r[i + 1], k)))
      && ((|r| > 0 && InClass(r[0], k)) <==> (|s| > 0 && InClass(s[0], k)))
    decreases |s|
  {
    if s != [] {
      if InClass(s[0], k) {
        CollapsedRuns(s[ClassRun(s, k)..], k, c);
      } else {
        CollapsedRuns(s[1..], k, c);
      }
    }
  }

  /** `s.replace(/K/g, '')`: every class-`k` character is dropped. */
  function RemoveClass(s: string, k: CharClass): (r: string)
    ensures NoneIn(r, k)
    ensures |r| <= |s|
  {
    if s == [] then []
    else (if InClass(s[0], k) then [] else [s[0]]) + RemoveClass(s[1..], k)
  }

  /** Every class-`k` character is also of class `d`. */
  predicate SubClass(k: CharClass, d: CharClass) {
    forall c :: InClass(c, k) ==> InClass(c, d)
  }

  lemma {:induction false} RemoveConcat(a: string, b: string, k: CharClass)
    ensures RemoveClass(a + b, k) == RemoveClass(a, k) + RemoveClass(b, k)
  {
    if a == [] {
      assert a + b == b;
    } else {
      assert (a + b)[0] == a[0];
      assert (a + b)[1..] == a[1..] + b;
      RemoveConcat(a[1..], b, k);
      var head := if InClass(a[0], k) then [] else [a[0]];
      assert RemoveClass(a + b, k) == head + (RemoveClass(a[1..], k) + RemoveClass(b, k));
      assert head + (RemoveClass(a[1..], k) + RemoveClass(b, k)) == (head + RemoveClass(a[1..], k)) + RemoveClass(b, k);
    }
  }

  /** A leading run of class-`d` characters is dropped by the removal. */
  lemma {:induction false} RemoveRunPrefix(s: string, n: nat, d: CharClass)
    requires n <= |s| && forall i :: 0 <= i < n ==> InClass(s[i], d)
    ensures RemoveClass(s, d) == RemoveClass(s[n..], d)
    decreases n
  {
    if n > 0 {
      RemoveRunPrefix(s[1..], n - 1, d);
      assert s[1..][n - 1..] == s[n..];
    }
  }

  /**
   * Replacing the runs of class `k` by a text of class `d`, where `k` is
   * within `d`, leaves what survives the removal of class `d` unchanged.
   */
  lemma {:induction false} RemoveAfterReplaceRuns(s: string, k: CharClass, rep: string, d: CharClass)
    requires SubClass(k, d) && NoneOutside(rep, d)
    ensures RemoveClass(ReplaceRuns(s, k, rep), d) == RemoveClass(s, d)
    decreases |s|
  {
    if s != [] {
      if InClass(s[0], k) {
        var n := ClassRun(s, k);
        RemoveAfterReplaceRuns(s[n..], k, rep, d);
        RemoveReplacedRun(s, k, rep, d, n);
      } else {
        RemoveAfterReplaceRuns(s[1..], k, rep, d);
        RemoveConcat([s[0]], ReplaceRuns(s[1..], k, rep), d);
        assert [s[0]] + s[1..] == s;
      }
    }
  }

  /** The step of the lemma above for a text that starts with a run of class `k`. */
  lemma RemoveReplacedRun(s: string, k: CharClass, rep: string, d: CharClass, n: nat)
    requires SubClass(k, d) && NoneOutside(rep, d)
    requires s != [] && InClass(s[0], k) && n == ClassRun(s, k)
    requires RemoveClass(ReplaceRuns(s[n..], k, rep), d) == RemoveClass(s[n..], d)
    ensures RemoveClass(ReplaceRuns(s, k, rep), d) == RemoveClass(s, d)
  {
    assert ReplaceRuns(s, k, rep) == rep + ReplaceRuns(s[n..], k, rep);
    RemoveConcat(rep, ReplaceRuns(s[n..], k, rep), d);
    AllRemoved(rep, d);
    assert forall i :: 0 <= i < n ==> InClass(s[i], k);
    RemoveRunPrefix(s, n, d);
  }

  /** Every character of `s` is of class `d`. */
  predicate NoneOutside(s: string, d: CharClass) { forall i :: 0 <= i < |s| ==> InClass(s[i], d) }

  lemma {:induction false} AllRemoved(s: string, d: CharClass)
    requires NoneOutside(s, d)
    ensures RemoveClass(s, d) == []
  {
    if s != [] {
      AllRemoved(s[1..], d);
    }
  }

  /** Trimming removes only white space, so it keeps what survives the removal of a class containing white space. */
  lemma RemoveAfterTrim(s: string, d: CharClass)
    requires SubClass(Space, d)
    ensures RemoveClass(Trim(s), d) == RemoveClass(s, d)
  {
    RemoveAfterTrimStart(s, d);
    RemoveAfterTrimEnd(TrimStart(s), d);
  }

  lemma {:induction false} RemoveAfterTrimStart(s: string, d: CharClass)
    requires SubClass(Space, d)
    ensures RemoveClass(TrimStart(s), d) == RemoveClass(s, d)
  {
    if |s| > 0 && IsSpace(s[0]) {
      assert InClass(s[0], Space);
      RemoveAfterTrimStart(s[1..], d);
    }
  }

  lemma {:induction false} RemoveAfterTrimEnd(s: string, d: CharClass)
    requires SubClass(Space, d)
    ensures RemoveClass(TrimEnd(s), d) == RemoveClass(s, d)
    decreases |s|
  {
    if |s| > 0 && IsSpace(s[|s| - 1]) {
      var init := s[..|s| - 1];
      RemoveAfterTrimEnd(init, d);
      assert s == init + [s[|s| - 1]];
      RemoveConcat(init, [s[|s| - 1]], d);
      assert InClass(s[|s| - 1], Space);
    }
  }

  /** `s.replace(/c/g, d)`: every occurrence of the character `c` becomes `d`. */
  function ReplaceChar(s: string, c: char, d: char): (r: string)
    ensures |r| == |s|
  {
    seq(|s|, i requires 0 <= i < |s| => if s[i] == c then d else s[i])
  }

  lemma {:induction false} RemoveClassOfClean(s: string, k: CharClass)
    requires NoneIn(s, k)
    ensures RemoveClass(s, k) == s
  {
    if s != [] {
      RemoveClassOfClean(s[1..], k);
    }
  }

  lemma {:induction false} ReplaceRunsOfClean(s: string, k: CharClass, rep: string)
    requires NoneIn(s, k)
    ensures ReplaceRuns(s, k, rep) == s
  {
    if s != [] {
      ReplaceRunsOfClean(s[1..], k, rep);
    }
  }

  // ---------------------------------------------------------------------------
  // parseInt
  // ---------------------------------------------------------------------------

  /** A JavaScript number as `parseInt` produces it: an integer or `NaN`. */
  datatype Num = NaN | Int(value: int)

  /** `x || 0` (and `isNaN(x) ? 0 : x`) on a `parseInt` result: NaN and 0 both give 0. */
  function OrZero(n: Num): int {
    match n
    case NaN => 0
    case Int(v) => v
  }

  function DigitRun(s: string): (n: nat)
    ensures n <= |s|
    ensures forall i :: 0 <= i < n ==> IsDigit(s[i])
    ensures n < |s| ==> !IsDigit(s[n])
  {
    if |s| > 0 && IsDigit(s[0]) then 1 + DigitRun(s[1..]) else 0
  }

  lemma {:induction false} AllDigitsRun(s: string)
    requires forall i :: 0 <= i < |s| ==> IsDigit(s[i])
    ensures DigitRun(s) == |s|
  {
    if |s| > 0 {
      AllDigitsRun(s[1..]);
    }
  }

  /** The digit run of `a + b` is all of `a` when `a` is digits and `b` does not start with one. */
  lemma {:induction false} DigitRunOf(a: string, b: string)
    requires forall i :: 0 <= i < |a| ==> IsDigit(a[i])
    requires b == [] || !IsDigit(b[0])
    ensures DigitRun(a + b) == |a|
  {
    if |a| > 0 {
      assert (a + b)[1..] == a[1..] + b;
      DigitRunOf(a[1..], b);
    }
  }

  function HexRun(s: string): (n: nat)
    ensures n <= |s|
    ensures forall i :: 0 <= i < n ==> IsHexDigit(s[i])
  {
    if |s| > 0 && IsHexDigit(s[0]) then 1 + HexRun(s[1..]) else 0
  }

  function DigitValue(c: char): nat
    requires IsDigit(c)
  {
    c as int - '0' as int
  }

  function HexDigitValue(c: char): nat
    requires IsHexDigit(c)
  {
    if IsDigit(c) then DigitValue(c)
    else if 'a' <= c <= 'f' then c as int - 'a' as int + 10
    else c as int - 'A' as int + 10
  }

  /** The value of a string of decimal digits, most significant first. */
  function DecimalValue(ds: string): nat
    requires forall i :: 0 <= i < |ds| ==> IsDigit(ds[i])
  {
    if ds == [] then 0 else DecimalValue(ds[..|ds| - 1]) * 10 + DigitValue(ds[|ds| - 1])
  }

  function HexValue(ds: string): nat
    requires forall i :: 0 <= i < |ds| ==> IsHexDigit(ds[i])
  {
    if ds == [] then 0 else HexValue(ds[..|ds| - 1]) * 16 + HexDigitValue(ds[|ds| - 1])
  }

  /**
   * `parseInt(s)` without a radix: leading white space is skipped, one sign is
   * read, a `0x`/`0X` prefix switches to base 16, and the longest run of digits
   * that follows is the value; no digit at all gives NaN.
   */
  function ParseInt(s: string): (r: Num)
    ensures r.NaN? <==> MagnitudeDigits(Unsigned(TrimStart(s))) == 0
  {
    var t := TrimStart(s);
    var u := Unsigned(t);
    var negative := |t| > 0 && t[0] == '-';
    if MagnitudeDigits(u) == 0 then NaN
    else
      var m: int := Magnitude(u);
      Int(if negative then -m else m)
  }

  /** The text after an optional leading sign. */
  function Unsigned(t: string): string {
    if |t| > 0 && (t[0] == '-' || t[0] == '+') then t[1..] else t
  }

  predicate HasHexPrefix(u: string) { |u| >= 2 && u[0] == '0' && (u[1] == 'x' || u[1] == 'X') }

  /** How many digits of the number `parseInt` reads from `u`. */
  function MagnitudeDigits(u: string): nat {
    if HasHexPrefix(u) then HexRun(u[2..]) else DigitRun(u)
  }

  function Magnitude(u: string): nat {
    if HasHexPrefix(u) then HexValue(u[2..][..HexRun(u[2..])]) else DecimalValue(u[..DigitRun(u)])
  }

  // ---------------------------------------------------------------------------
  // Number to string
  // ---------------------------------------------------------------------------

  function DigitChar(d: nat): (c: char)
    requires d < 10
    ensures IsDigit(c) && DigitValue(c) == d
  {
    ('0' as int + d) as char
  }

  /** `String(n)` for a natural number. */
  function NatToString(n: nat): (s: string)
    ensures |s| >= 1
    ensures forall i :: 0 <= i < |s| ==> IsDigit(s[i])
    ensures |s| > 1 ==> s[0] != '0'
  {
    if n < 10 then [DigitChar(n)] else NatToString(n / 10) + [DigitChar(n % 10)]
  }

  lemma {:induction false} DecimalValueOfNatToString(n: nat)
    ensures DecimalValue(NatToString(n)) == n
  {
    var s := NatToString(n);
    if n >= 10 {
      DecimalValueOfNatToString(n / 10);
      assert s[..|s| - 1] == NatToString(n / 10);
    }
  }

  /** `parseInt(String(n)) === n`: the decimal rendering of a natural number parses back to it. */
  lemma ParseIntOfNatToString(n: nat)
    ensures ParseInt(NatToString(n)) == Int(n)
  {
    var s := NatToString(n);
    DecimalValueOfNatToString(n);
    ParseIntOfDigits(s);
  }

  /** A nonempty digit string parses to its decimal value (its second character is never an `x`). */
  lemma ParseIntOfDigits(s: string)
    requires |s| >= 1 && forall i :: 0 <= i < |s| ==> IsDigit(s[i])
    ensures ParseInt(s) == Int(DecimalValue(s))
  {
    assert !IsSpace(s[0]);
    assert TrimStart(s) == s;
    assert Unsigned(s) == s;
    DigitsMagnitude(s);
  }

  /** A digit string has no hex prefix and is read whole. */
  lemma DigitsMagnitude(s: string)
    requires |s| >= 1 && forall i :: 0 <= i < |s| ==> IsDigit(s[i])
    ensures MagnitudeDigits(s) == |s| && Magnitude(s) == DecimalValue(s)
  {
    assert !HasHexPrefix(s);
    AllDigitsRun(s);
    assert s[..|s|] == s;
  }

  /** `s.split(/K+/)`: the pieces between maximal runs of class-`k` characters, empty end pieces included. */
  function SplitRuns(s: string, k: CharClass): (parts: seq<string>)
    ensures |parts| >= 1
    ensures forall j :: 0 <= j < |parts| ==> NoneIn(parts[j], k)
    decreases |s|
  {
    var n := FirstInClass(s, k);
    if n == |s| then [s]
    else
      var m := ClassRun(s[n..], k);
      [s[..n]] + SplitRuns(s[n + m..], k)
  }

  /** The index of the first class-`k` character of `s`, or `|s|`. */
  function FirstInClass(s: string, k: CharClass): (n: nat)
    ensures n <= |s| && NoneIn(s[..n], k)
    ensures n < |s| ==> InClass(s[n], k)
  {
    if s == [] then 0
    else if InClass(s[0], k) then 0
    else
      var n := 1 + FirstInClass(s[1..], k);
      assert s[..n] == [s[0]] + s[1..][..n - 1];
      n
  }

  /**
   * Replacing every run of class `k` by a single separator `c` that occurs
   * nowhere else, then splitting at `c`, gives the pieces between the runs.
   */
  lemma {:induction false} SplitOfReplacedRuns(s: string, k: CharClass, c: char)
    requires c !in s && !InClass(c, k)
    ensures Split(ReplaceRuns(s, k, [c]), c) == SplitRuns(s, k)
    decreases |s|
  {
    var n := FirstInClass(s, k);
    if n == |s| {
      ReplaceRunsAfterClean(s, [], k, [c]);
      assert s + [] == s;
    } else {
      var m := ClassRun(s[n..], k);
      SplitReplacedStep(s, k, c, n, m);
      SplitRunsStep(s, k, n, m);
      SplitOfReplacedRuns(s[n + m..], k, c);
    }
  }

  /** One step of the split: the piece before the first run, then the rest after the run. */
  lemma SplitReplacedStep(s: string, k: CharClass, c: char, n: nat, m: nat)
    requires c !in s && n == FirstInClass(s, k) < |s| && m == ClassRun(s[n..], k)
    ensures n + m <= |s| && c !in s[n + m..]
    ensures Split(ReplaceRuns(s, k, [c]), c) == [s[..n]] + Split(ReplaceRuns(s[n + m..], k, [c]), c)
  {
    ReplaceAtFirstRun(s, k, [c], n, m);
    assert c !in s[..n] && c !in s[n + m..];
    SplitAtFirst(s[..n], c, ReplaceRuns(s[n + m..], k, [c]));
  }

  /** One step of `SplitRuns`, as its definition takes it. */
  lemma SplitRunsStep(s: string, k: CharClass, n: nat, m: nat)
    requires n == FirstInClass(s, k) < |s| && m == ClassRun(s[n..], k)
    ensures SplitRuns(s, k) == [s[..n]] + SplitRuns(s[n + m..], k)
  {
  }

  /** The first run of class `k` becomes `rep`; the text before it is kept. */
  lemma {:induction false} ReplaceAtFirstRun(s: string, k: CharClass, rep: string, n: nat, m: nat)
    requires n < |s| && NoneIn(s[..n], k) && InClass(s[n], k)
    requires m == ClassRun(s[n..], k)
    ensures ReplaceRuns(s, k, rep) == s[..n] + (rep + ReplaceRuns(s[n + m..], k, rep))
  {
    if n == 0 {
      assert s[n..] == s;
    } else {
      var t := s[1..];
      ShiftedRun(s, k, n);
      ReplaceAtFirstRun(t, k, rep, n - 1, m);
      ReplaceRunsKeepsHead(s, k, rep);
      ConsPrefix(s, n, rep + ReplaceRuns(s[n + m..], k, rep));
    }
  }

  /** Past a first character outside the class, the first run starts one place earlier. */
  lemma ShiftedRun(s: string, k: CharClass, n: nat)
    requires 0 < n < |s| && NoneIn(s[..n], k) && InClass(s[n], k)
    ensures NoneIn(s[1..][..n - 1], k) && s[1..][n - 1..] == s[n..] && !InClass(s[0], k)
  {
    assert s[..n][0] == s[0];
    var u := s[1..][..n - 1];
    forall i | 0 <= i < |u|
      ensures !InClass(u[i], k)
    {
      assert u[i] == s[..n][i + 1];
    }
  }

  lemma ReplaceRunsKeepsHead(s: string, k: CharClass, rep: string)
    requires s != [] && !InClass(s[0], k)
    ensures ReplaceRuns(s, k, rep) == [s[0]] + ReplaceRuns(s[1..], k, rep)
  {
  }

  lemma ConsPrefix(s: string, n: nat, x: string)
    requires 0 < n <= |s|
    ensures [s[0]] + (s[1..][..n - 1] + x) == s[..n] + x
  {
    assert [s[0]] + s[1..][..n - 1] == s[..n];
  }

  /** Splitting at the first separator: the piece before it, then the split of the rest. */
  lemma SplitAtFirst(x: string, c: char, rest: string)
    requires c !in x
    ensures Split(x + ([c] + rest), c) == [x] + Split(rest, c)
  {
    var r := x + ([c] + rest);
    assert r[|x|] == c && r[..|x|] == x;
    IndexOfCharAt(r, c, |x|);
    assert r[|x| + 1..] == rest;
  }

  /** A prefix with no class-`k` character passes through unchanged. */
  lemma {:induction false} ReplaceRunsAfterClean(x: string, y: string, k: CharClass, rep: string)
    requires NoneIn(x, k)
    ensures ReplaceRuns(x + y, k, rep) == x + ReplaceRuns(y, k, rep)
  {
    if x == [] {
      assert x + y == y;
    } else {
      assert (x + y)[0] == x[0];
      assert (x + y)[1..] == x[1..] + y;
      ReplaceRunsAfterClean(x[1..], y, k, rep);
    }
  }
}
