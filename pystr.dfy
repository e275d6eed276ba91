/** The Python text builtins the two scripts rely on, each defined as CPython behaves on `str`:
    `find`, slicing with negative and out-of-range bounds, `strip`, `split`, `replace`, the
    character-class substitutions and digit searches they do with `re`, `int()`, the
    `int(float(x) * 1000000)` frequency scaling, and `bytes.fromhex`.
    Serial lines reach the scripts as the `str()` of a `bytes` value, which is ASCII text;
    "digit" therefore means an ASCII digit throughout. */
module PyStr {
  import opened Results

  // ---------------------------------------------------------------- characters

  /** `c.isspace()`: what `strip()`, `int()` and `float()` treat as whitespace. */
  predicate IsSpace(c: char) {
    var n := c as int;
    n == 0x20 || (0x09 <= n <= 0x0D) || (0x1C <= n <= 0x1F) || n == 0x85 || n == 0xA0 ||
    n == 0x1680 || (0x2000 <= n <= 0x200A) || n == 0x2028 || n == 0x2029 || n == 0x202F ||
    n == 0x205F || n == 0x3000
  }

  /** The ASCII whitespace `bytes.fromhex` skips in front of a pair of hex digits. */
  predicate IsAsciiSpace(c: char) {
    c == ' ' || ('\t' <= c <= '\r')
  }

  predicate IsDigit(c: char) {
    '0' <= c <= '9'
  }

  predicate AllDigits(s: string) {
    forall k :: 0 <= k < |s| ==> IsDigit(s[k])
  }

  predicate IsHexDigit(c: char) {
    IsDigit(c) || ('a' <= c <= 'f') || ('A' <= c <= 'F')
  }

  function HexDigitValue(c: char): (v: nat)
    requires IsHexDigit(c)
    ensures v < 16
  {
    if IsDigit(c) then c as int - '0' as int
    else if 'a' <= c <= 'f' then c as int - 'a' as int + 10
    else c as int - 'A' as int + 10
  }

  /** The upper-case hex digit of a nibble; reading it back gives the nibble. */
  function UpperHexDigit(v: nat): (c: char)
    requires v < 16
    ensures IsHexDigit(c) && HexDigitValue(c) == v
    ensures !('a' <= c <= 'f')
  {
    if v < 10 then ('0' as int + v) as char else ('A' as int + v - 10) as char
  }

  // ---------------------------------------------------------------- find and slicing

  /** `p` occurs in `s` starting at index `k`. */
  predicate OccursAt(s: string, p: string, k: int) {
    0 <= k && k + |p| <= |s| && s[k..k + |p|] == p
  }

  function FindFrom(s: string, p: string, i: nat): (r: int)
    ensures r == -1 || (i <= r && OccursAt(s, p, r))
    ensures forall k :: i <= k && (r < 0 || k < r) ==> !OccursAt(s, p, k)
    decreases |s| + 1 - i
  {
    if i + |p| > |s| then -1
    else if s[i..i + |p|] == p then i
    else FindFrom(s, p, i + 1)
  }

  /** `s.find(p)`: the lowest index at which `p` occurs in `s`, or -1 when it does not occur. */
  function Find(s: string, p: string): (r: int)
    ensures r == -1 || (0 <= r && OccursAt(s, p, r))
    ensures forall k :: 0 <= k && (r < 0 || k < r) ==> !OccursAt(s, p, k)
  {
    FindFrom(s, p, 0)
  }

  /** `p` occurs in `s` at index `i` or later. */
  predicate ContainsFrom(s: string, p: string, i: nat)
    decreases |s| + 1 - i
  {
    i + |p| <= |s| && (s[i..i + |p|] == p || ContainsFrom(s, p, i + 1))
  }

  /** `p in s` */
  predicate Contains(s: string, p: string) {
    ContainsFrom(s, p, 0)
  }

  /** How Python reads a slice bound against a sequence of length `n`: a negative bound counts
      from the end, and the result is clamped to `0..n`. */
  function SliceIndex(n: nat, i: int): (r: nat)
    ensures r <= n
    ensures 0 <= i <= n ==> r == i
  {
    if i < 0 then (if i + n < 0 then 0 else i + n) else if i > n then n else i
  }

  /** `s[i:j]` */
  function Slice(s: string, i: int, j: int): string {
    var a, b := SliceIndex(|s|, i), SliceIndex(|s|, j);
    if a < b then s[a..b] else []
  }

  /** `s[i:]` */
  function SliceFrom(s: string, i: int): string {
    Slice(s, i, |s|)
  }

  // ---------------------------------------------------------------- strip, filter, replace, split

  /** The number of whitespace characters `s` starts with. */
  function LeadingSpaces(s: string): (n: nat)
    ensures n <= |s|
    ensures forall k :: 0 <= k < n ==> IsSpace(s[k])
    ensures n < |s| ==> !IsSpace(s[n])
    decreases |s|
  {
    if s != [] && IsSpace(s[0]) then 1 + LeadingSpaces(s[1..]) else 0
  }

  /** The number of whitespace characters `s` ends with. */
  function TrailingSpaces(s: string): (n: nat)
    ensures n <= |s|
    ensures forall k :: |s| - n <= k < |s| ==> IsSpace(s[k])
    ensures n < |s| ==> !IsSpace(s[|s| - 1 - n])
    decreases |s|
  {
    if s != [] && IsSpace(s[|s| - 1]) then 1 + TrailingSpaces(s[..|s| - 1]) else 0
  }

  /** `s.lstrip()` */
  function LStrip(s: string): string {
    s[LeadingSpaces(s)..]
  }

  /** `s.rstrip()` */
  function RStrip(s: string): string {
    s[..|s| - TrailingSpaces(s)]
  }

  /** `s.strip()` */
  function Strip(s: string): string {
    RStrip(LStrip(s))
  }

  /** The characters of `s` that `keep` accepts, in order: `re.sub('[^...]', '', s)`. */
  function Filter(s: string, keep: char -> bool): (r: string)
    ensures |r| <= |s|
    ensures forall k :: 0 <= k < |r| ==> keep(r[k])
    decreases |s|
  {
    if s == [] then [] else (if keep(s[0]) then [s[0]] else []) + Filter(s[1..], keep)
  }

  /** `re.sub(r'[^0-9]', '', s)` */
  function KeepDigits(s: string): string {
    Filter(s, IsDigit)
  }

  /** `s.replace(pat, rep)`: every non-overlapping occurrence of `pat`, found left to right. */
  function Replace(s: string, pat: string, rep: string): string
    requires pat != []
    decreases |s|
  {
    if |s| < |pat| then s
    else if s[..|pat|] == pat then rep + Replace(s[|pat|..], pat, rep)
    else [s[0]] + Replace(s[1..], pat, rep)
  }

  /** `s.count(c)` for a one-character string. */
  function Count(s: string, c: char): nat
    decreases |s|
  {
    if s == [] then 0 else (if s[0] == c then 1 else 0) + Count(s[1..], c)
  }

  /** `s.split(sep)` for a one-character separator: the pieces between separators. */
  function Split(s: string, sep: char): (parts: seq<string>)
    ensures |parts| >= 1
    decreases |s|
  {
    if s == [] then [[]]
    else
      var rest := Split(s[1..], sep);
      if s[0] == sep then [[]] + rest else [[s[0]] + rest[0]] + rest[1..]
  }

  // ---------------------------------------------------------------- re.findall(r'\d+', s)

  /** The length of the run of digits that `s` starts with. */
  function LeadingDigits(s: string): (n: nat)
    ensures n <= |s| && AllDigits(s[..n])
    ensures n < |s| ==> !IsDigit(s[n])
    decreases |s|
  {
    if s != [] && IsDigit(s[0]) then 1 + LeadingDigits(s[1..]) else 0
  }

  /** `re.findall(r'\d+', s)`: the maximal runs of digits of `s`, left to right. */
  function DigitRuns(s: string): (runs: seq<string>)
    ensures forall k :: 0 <= k < |runs| ==> runs[k] != [] && AllDigits(runs[k])
    decreases |s|
  {
    if s == [] then []
    else if !IsDigit(s[0]) then DigitRuns(s[1..])
    else
      var n := LeadingDigits(s);
      [s[..n]] + DigitRuns(s[n..])
  }

  // ---------------------------------------------------------------- numbers

  /** The value of a string of decimal digits. */
  function DigitsValue(d: string): nat
    requires AllDigits(d)
    decreases |d|
  {
    if d == [] then 0 else DigitsValue(d[..|d| - 1]) * 10 + (d[|d| - 1] as int - '0' as int)
  }

  /** Digits with single underscores between them: the numerals `int()` and `float()` accept. */
  predicate IsDigitGroup(t: string)
    decreases |t|
  {
    |t| > 0 && IsDigit(t[0]) &&
    (|t| == 1 || if t[1] == '_' then IsDigitGroup(t[2..]) else IsDigitGroup(t[1..]))
  }

  function GroupValue(t: string): nat
    requires IsDigitGroup(t)
  {
    DigitsValue(KeepDigits(t))
  }

  /** `int(s)`: optional surrounding whitespace, an optional sign, then a digit group. */
  function ParseInt(s: string): (r: Result<int>)
    ensures r.Failure? ==> r.error == ValueError
  {
    var t := Strip(s);
    if |t| > 0 && (t[0] == '+' || t[0] == '-') then
      if IsDigitGroup(t[1..]) then
        var v: int := GroupValue(t[1..]);
        Success(if t[0] == '-' then -v else v)
      else Failure(ValueError)
    else if IsDigitGroup(t) then Success(GroupValue(t))
    else Failure(ValueError)
  }

  /** The first six digits of a fraction, padded with zeros: its value in millionths, truncated. */
  function Millionths(frac: string): (m: nat)
    requires AllDigits(frac)
    ensures m < 1000000
  {
    var six := (frac + "000000")[..6];
    DigitsValueBound(six);
    DigitsValue(six)
  }

  lemma {:induction false} DigitsValueBound(d: string)
    requires AllDigits(d)
    ensures DigitsValue(d) < Pow10(|d|)
    decreases |d|
  {
    if d != [] {
      DigitsValueBound(d[..|d| - 1]);
    }
  }

  function Pow10(n: nat): (p: nat)
    ensures p >= 1
  {
    if n == 0 then 1 else 10 * Pow10(n - 1)
  }

  /** `int(float(s) * 1000000)` evaluated exactly: a decimal numeral with an optional sign, an
      optional whole part and an optional fraction (at least one of them), scaled by 10^6 and
      truncated toward zero. */
  function ParseMicros(s: string): (r: Result<int>)
    ensures r.Failure? ==> r.error == ValueError
  {
    var t := Strip(s);
    var body := if |t| > 0 && (t[0] == '+' || t[0] == '-') then t[1..] else t;
    var m :- UnsignedMicros(body);
    Success(if |t| > 0 && t[0] == '-' then -m else m)
  }

  /** The unsigned part of `ParseMicros`: whole part, point and fraction. */
  function UnsignedMicros(body: string): (r: Result<int>)
    ensures r.Failure? ==> r.error == ValueError
  {
    var dot := Find(body, ".");
    var whole := if dot < 0 then body else body[..dot];
    var frac := if dot < 0 then [] else body[dot + 1..];
    if (whole == [] && frac == []) || (whole != [] && !IsDigitGroup(whole))
       || (frac != [] && !IsDigitGroup(frac))
    then Failure(ValueError)
    else
      var w := if whole == [] then 0 else GroupValue(whole);
      Success(w * 1000000 + Millionths(KeepDigits(frac)))
  }

  // ---------------------------------------------------------------- bytes.fromhex

  /** The byte two hex digits spell, high nibble first. */
  function PairByte(hi: char, lo: char): byte
    requires IsHexDigit(hi) && IsHexDigit(lo)
  {
    (HexDigitValue(hi) * 16 + HexDigitValue(lo)) as byte
  }

  /** `bytes.fromhex(s)`: pairs of hex digits, with ASCII whitespace allowed before each pair. */
  function FromHex(s: string): (r: Result<seq<byte>>)
    ensures r.Failure? ==> r.error == ValueError
    decreases |s|
  {
    if s == [] then Success([])
    else if IsAsciiSpace(s[0]) then FromHex(s[1..])
    else if |s| >= 2 && IsHexDigit(s[0]) && IsHexDigit(s[1]) then
      match FromHex(s[2..])
      case Success(rest) => Success([PairByte(s[0], s[1])] + rest)
      case Failure(e) => Failure(e)
    else Failure(ValueError)
  }
  // ---------------------------------------------------------------- rendering bytes as hex text

  /** A byte as two upper-case hex digits. */
  function ByteHex(b: byte): string {
    [UpperHexDigit((b / 16) as nat), UpperHexDigit((b % 16) as nat)]
  }

  /** Bytes as contiguous hex, `AABBCC`. */
  function ContiguousHex(bs: seq<byte>): string
    decreases |bs|
  {
    if bs == [] then [] else ByteHex(bs[0]) + ContiguousHex(bs[1..])
  }

  /** Bytes as two-digit hex tokens joined by single spaces, `AA BB CC`. */
  function SpacedHex(bs: seq<byte>): string
    decreases |bs|
  {
    if |bs| <= 1 then ContiguousHex(bs) else ByteHex(bs[0]) + " " + SpacedHex(bs[1..])
  }

  predicate IsUpperHexDigit(c: char) {
    IsDigit(c) || ('A' <= c <= 'F')
  }

  /** Text of the form `aa BB 0c`: two-digit hex tokens, in either case, joined by single
      spaces. */
  predicate IsHexPairsText(d: string) {
    |d| % 3 == 2 &&
    forall k :: 0 <= k < |d| ==> if k % 3 == 2 then d[k] == ' ' else IsHexDigit(d[k])
  }

  /** Text of the form `AA BB CC`: upper-case two-digit tokens joined by single spaces. */
  predicate IsSpacedHexText(d: string) {
    |d| % 3 == 2 &&
    forall k :: 0 <= k < |d| ==> if k % 3 == 2 then d[k] == ' ' else IsUpperHexDigit(d[k])
  }

  /** Joins pieces with a separator; the inverse of `Split`. */
  function Join(parts: seq<string>, sep: char): string
    requires |parts| >= 1
    decreases |parts|
  {
    if |parts| == 1 then parts[0] else parts[0] + [sep] + Join(parts[1..], sep)
  }

  /** Concatenates pieces. */
  function Concat(parts: seq<string>): string
    decreases |parts|
  {
    if parts == [] then [] else parts[0] + Concat(parts[1..])
  }

  // ---------------------------------------------------------------- lemmas: find

  /** A first occurrence is what `find` returns. */
  lemma FindIsFirst(s: string, p: string, k: nat)
    requires OccursAt(s, p, k)
    requires forall j :: 0 <= j < k ==> !OccursAt(s, p, j)
    ensures Find(s, p) == k
  {
  }

  /** Searching for a one-character string finds the first copy of that character. */
  lemma FindChar(a: string, c: char, b: string)
    requires c !in a
    ensures Find(a + [c] + b, [c]) == |a|
  {
    var s := a + [c] + b;
    assert s[|a|..|a| + 1] == [c];
    forall j | 0 <= j < |a|
      ensures !OccursAt(s, [c], j)
    {
      assert s[j] == a[j];
      assert s[j..j + 1] == [s[j]];
    }
    FindIsFirst(s, [c], |a|);
  }

  lemma {:induction false} ContainsFromFind(s: string, p: string, i: nat)
    ensures ContainsFrom(s, p, i) <==> FindFrom(s, p, i) >= 0
    decreases |s| + 1 - i
  {
    if i + |p| <= |s| && s[i..i + |p|] != p {
      ContainsFromFind(s, p, i + 1);
    }
  }

  /** `p in s` exactly when `s.find(p)` finds it. */
  lemma ContainsFind(s: string, p: string)
    ensures Contains(s, p) <==> Find(s, p) >= 0
  {
    ContainsFromFind(s, p, 0);
  }

  /** A character that does not occur is not found. */
  lemma FindCharAbsent(s: string, c: char)
    requires c !in s
    ensures Find(s, [c]) == -1
  {
    if Find(s, [c]) >= 0 {
      var k := Find(s, [c]);
      assert s[k..k + 1] == [s[k]];
    }
  }

  /** A key that does not occur in `a`, behind a fence character the key does not contain, is found
      just after the fence. */
  lemma FindAfterFence(a: string, fence: char, b: string, p: string)
    requires !Contains(a, p) && fence !in p && |p| <= |b| && b[..|p|] == p
    ensures Find(a + [fence] + b, p) == |a| + 1
  {
    var s := a + [fence] + b;
    ContainsFind(a, p);
    assert s[|a| + 1..|a| + 1 + |p|] == b[..|p|];
    forall j | 0 <= j < |a| + 1
      ensures !OccursAt(s, p, j)
    {
      if j + |p| <= |a| {
        assert s[j..j + |p|] == a[j..j + |p|];
        assert !OccursAt(a, p, j);
      } else if j + |p| <= |s| {
        assert s[j..j + |p|][|a| - j] == s[|a|] == fence;
      }
    }
    FindIsFirst(s, p, |a| + 1);
  }

  /** Python slicing agrees with Dafny's on in-range bounds. */
  lemma SliceInRange(s: string, i: int, j: int)
    requires 0 <= i <= j <= |s|
    ensures Slice(s, i, j) == s[i..j]
  {
  }

  // ---------------------------------------------------------------- lemmas: filter, strip

  lemma {:induction false} FilterConcat(a: string, b: string, keep: char -> bool)
    ensures Filter(a + b, keep) == Filter(a, keep) + Filter(b, keep)
    decreases |a|
  {
    if a == [] {
      assert a + b == b;
    } else {
      assert (a + b)[1..] == a[1..] + b;
      FilterConcat(a[1..], b, keep);
    }
  }

  lemma {:induction false} FilterKeepsAll(s: string, keep: char -> bool)
    requires forall k :: 0 <= k < |s| ==> keep(s[k])
    ensures Filter(s, keep) == s
    decreases |s|
  {
    if s != [] {
      FilterKeepsAll(s[1..], keep);
    }
  }

  lemma {:induction false} FilterDropsAll(s: string, keep: char -> bool)
    requires forall k :: 0 <= k < |s| ==> !keep(s[k])
    ensures Filter(s, keep) == []
    decreases |s|
  {
    if s != [] {
      FilterDropsAll(s[1..], keep);
    }
  }

  /** Every character of a filtered string comes from the original. */
  lemma {:induction false} FilterFrom(s: string, keep: char -> bool)
    ensures forall k :: 0 <= k < |Filter(s, keep)| ==> Filter(s, keep)[k] in s
    decreases |s|
  {
    if s != [] {
      FilterFrom(s[1..], keep);
      var rest := Filter(s[1..], keep);
      forall k | 0 <= k < |Filter(s, keep)|
        ensures Filter(s, keep)[k] in s
      {
        if !(keep(s[0]) && k == 0) {
          var j := if keep(s[0]) then k - 1 else k;
          assert Filter(s, keep)[k] == rest[j];
          assert rest[j] in s[1..];
        }
      }
    }
  }

  /** `strip()` leaves text alone whose ends are not whitespace. */
  lemma StripUnchanged(s: string)
    requires s == [] || (!IsSpace(s[0]) && !IsSpace(s[|s| - 1]))
    ensures Strip(s) == s
  {
    assert LeadingSpaces(s) == 0;
    assert LStrip(s) == s;
    assert TrailingSpaces(s) == 0;
  }

  /** What `strip()` returns starts and ends with a non-whitespace character, and keeps every
      non-whitespace character of its argument. */
  lemma StripSpec(s: string)
    ensures var r := Strip(s); r == [] || (!IsSpace(r[0]) && !IsSpace(r[|r| - 1]))
    ensures forall k :: 0 <= k < |s| && !IsSpace(s[k]) ==> s[k] in Strip(s)
  {
    var t := LStrip(s);
    var n := LeadingSpaces(s);
    var m := TrailingSpaces(t);
    assert t == s[n..];
    var r := t[..|t| - m];
    assert Strip(s) == r;
    if r != [] {
      assert r[0] == t[0] == s[n];
      assert !IsSpace(r[|r| - 1]);
    }
    forall k | 0 <= k < |s| && !IsSpace(s[k])
      ensures s[k] in Strip(s)
    {
      assert n <= k;
      assert t[k - n] == s[k];
      assert k - n < |t| - m;
      assert r[k - n] == s[k];
    }
  }

  /** The characters `strip()` keeps all come from its argument. */
  lemma StripFrom(s: string)
    ensures forall k :: 0 <= k < |Strip(s)| ==> Strip(s)[k] in s
  {
    var n := LeadingSpaces(s);
    var t := s[n..];
    forall k | 0 <= k < |Strip(s)|
      ensures Strip(s)[k] in s
    {
      assert Strip(s)[k] == t[k] == s[n + k];
    }
  }

  // ---------------------------------------------------------------- lemmas: findall(r'\d+')

  lemma {:induction false} LeadingDigitsOf(d: string, b: string)
    requires AllDigits(d) && (b == [] || !IsDigit(b[0]))
    ensures LeadingDigits(d + b) == |d|
    decreases |d|
  {
    if d == [] {
      assert d + b == b;
    } else {
      assert (d + b)[1..] == d[1..] + b;
      LeadingDigitsOf(d[1..], b);
    }
  }

  /** Non-digits in front contribute no run. */
  lemma {:induction false} DigitRunsSkip(a: string, b: string)
    requires forall k :: 0 <= k < |a| ==> !IsDigit(a[k])
    ensures DigitRuns(a + b) == DigitRuns(b)
    decreases |a|
  {
    if a == [] {
      assert a + b == b;
    } else {
      assert (a + b)[1..] == a[1..] + b;
      DigitRunsSkip(a[1..], b);
    }
  }

  /** A run of digits followed by a non-digit (or by nothing) is one match. */
  lemma DigitRunsRun(d: string, b: string)
    requires d != [] && AllDigits(d) && (b == [] || !IsDigit(b[0]))
    ensures DigitRuns(d + b) == [d] + DigitRuns(b)
  {
    LeadingDigitsOf(d, b);
    assert (d + b)[..|d|] == d;
    assert (d + b)[|d|..] == b;
  }

  lemma ConcatCons(x: string, rest: seq<string>)
    ensures Concat([x] + rest) == x + Concat(rest)
  {
    assert ([x] + rest)[1..] == rest;
  }

  /** The digit runs, put back together, are exactly the digits of the text: `findall` and
      `sub('[^0-9]', '')` agree. */
  lemma {:induction false} DigitRunsAreTheDigits(s: string)
    ensures Concat(DigitRuns(s)) == KeepDigits(s)
    decreases |s|
  {
    if s != [] {
      if !IsDigit(s[0]) {
        DigitRunsAreTheDigits(s[1..]);
      } else {
        var n := LeadingDigits(s);
        DigitRunsAreTheDigits(s[n..]);
        ConcatCons(s[..n], DigitRuns(s[n..]));
        assert s == s[..n] + s[n..];
        FilterConcat(s[..n], s[n..], IsDigit);
        FilterKeepsAll(s[..n], IsDigit);
      }
    }
  }

  // ---------------------------------------------------------------- lemmas: numbers

  lemma {:induction false} DigitsAreAGroup(d: string)
    requires d != [] && AllDigits(d)
    ensures IsDigitGroup(d) && GroupValue(d) == DigitsValue(d)
    decreases |d|
  {
    FilterKeepsAll(d, IsDigit);
    if |d| > 1 {
      DigitsAreAGroup(d[1..]);
    }
  }

  /** A digit group holds nothing but digits and underscores. */
  lemma {:induction false} GroupChars(t: string, k: nat)
    requires IsDigitGroup(t) && k < |t|
    ensures IsDigit(t[k]) || t[k] == '_'
    decreases |t|
  {
    if k > 0 {
      if t[1] == '_' {
        if k >= 2 {
          GroupChars(t[2..], k - 2);
        }
      } else {
        GroupChars(t[1..], k - 1);
      }
    }
  }

  lemma DigitsHaveNoSpace(d: string)
    requires AllDigits(d)
    ensures Strip(d) == d
  {
    StripUnchanged(d);
  }

  /** `int()` of a non-empty string of digits is its decimal value; of the empty string it fails. */
  lemma ParseIntDigits(d: string)
    requires AllDigits(d)
    ensures d != [] ==> ParseInt(d) == Success(DigitsValue(d))
    ensures d == [] ==> ParseInt(d) == Failure(ValueError)
  {
    DigitsHaveNoSpace(d);
    if d != [] {
      DigitsAreAGroup(d);
    }
  }

  /** `int()` keeps a leading minus sign. */
  lemma {:induction false} ParseIntNegative(d: string)
    requires d != [] && AllDigits(d)
    ensures ParseInt("-" + d) == Success(-(DigitsValue(d) as int))
  {
    NegativeText(d);
    DigitsAreAGroup(d);
    ParseIntSigned("-" + d);
  }

  lemma {:induction false} NegativeText(d: string)
    requires d != [] && AllDigits(d)
    ensures var t := "-" + d; Strip(t) == t && |t| > 0 && t[0] == '-' && t[1..] == d
  {
    var t := "-" + d;
    assert t[0] == '-' && t[|t| - 1] == d[|d| - 1] && t[1..] == d;
    StripUnchanged(t);
  }

  lemma {:induction false} ParseIntSigned(t: string)
    requires Strip(t) == t && |t| > 0 && t[0] == '-' && IsDigitGroup(t[1..])
    ensures ParseInt(t) == Success(-(GroupValue(t[1..]) as int))
  {
  }

  /** `int()` rejects any text with a decimal point in it, so `int("7.5")` raises. */
  lemma ParseIntRejectsPoint(s: string)
    requires '.' in s
    ensures ParseInt(s) == Failure(ValueError)
  {
    var k :| 0 <= k < |s| && s[k] == '.';
    StripSpec(s);
    var t := Strip(s);
    assert '.' in t;
    var j :| 0 <= j < |t| && t[j] == '.';
    if |t| > 0 && (t[0] == '+' || t[0] == '-') {
      assert j > 0 && t[1..][j - 1] == '.';
      if IsDigitGroup(t[1..]) {
        GroupChars(t[1..], j - 1);
      }
    } else if IsDigitGroup(t) {
      GroupChars(t, j);
    }
  }

  /** `int(float(w + "." + f) * 1000000)` for digit strings `w` and `f`: the whole part in
      millionths plus the first six fraction digits, so `902.300000` gives 902300000. */
  lemma ParseMicrosDecimal(w: string, f: string)
    requires w != [] && AllDigits(w) && AllDigits(f)
    ensures ParseMicros(w + "." + f) == Success(DigitsValue(w) * 1000000 + Millionths(f))
  {
    var s := w + "." + f;
    DecimalEnds(w, f);
    UnsignedParseMicros(s);
    UnsignedMicrosDecimal(w, f);
  }

  lemma DecimalEnds(w: string, f: string)
    requires w != [] && AllDigits(w) && AllDigits(f)
    ensures var s := w + "." + f;
      IsDigit(s[0]) && (IsDigit(s[|s| - 1]) || s[|s| - 1] == '.')
  {
    var s := w + "." + f;
    assert s[0] == w[0];
    if f == [] {
      assert s[|s| - 1] == '.';
    } else {
      assert s[|s| - 1] == f[|f| - 1];
    }
  }

  /** Text starting with a digit and ending with a digit or a point is read without a sign. */
  lemma UnsignedParseMicros(s: string)
    requires s != [] && IsDigit(s[0]) && (IsDigit(s[|s| - 1]) || s[|s| - 1] == '.')
    ensures ParseMicros(s) == UnsignedMicros(s)
  {
    StripUnchanged(s);
  }

  lemma UnsignedMicrosDecimal(w: string, f: string)
    requires w != [] && AllDigits(w) && AllDigits(f)
    ensures UnsignedMicros(w + "." + f) == Success(DigitsValue(w) * 1000000 + Millionths(f))
  {
    var s := w + "." + f;
    assert '.' !in w;
    assert s == w + ['.'] + f;
    FindChar(w, '.', f);
    assert s[..|w|] == w;
    assert s[|w| + 1..] == f;
    DigitsAreAGroup(w);
    if f != [] {
      DigitsAreAGroup(f);
    }
    FilterKeepsAll(f, IsDigit);
  }

  // ---------------------------------------------------------------- lemmas: split

  lemma {:induction false} SplitCount(s: string, sep: char)
    ensures |Split(s, sep)| == Count(s, sep) + 1
    decreases |s|
  {
    if s != [] {
      SplitCount(s[1..], sep);
    }
  }

  lemma {:induction false} CountConcat(a: string, b: string, c: char)
    ensures Count(a + b, c) == Count(a, c) + Count(b, c)
    decreases |a|
  {
    if a == [] {
      assert a + b == b;
    } else {
      assert (a + b)[1..] == a[1..] + b;
      CountConcat(a[1..], b, c);
    }
  }

  /** A character that does not occur is counted zero times. */
  lemma {:induction false} CountAbsent(s: string, c: char)
    requires c !in s
    ensures Count(s, c) == 0
    decreases |s|
  {
    if s != [] {
      CountAbsent(s[1..], c);
    }
  }

  lemma CountLast(t: string, c: char)
    requires t != [] && t[|t| - 1] == c
    ensures Count(t, c) >= 1
  {
    assert t == t[..|t| - 1] + [c];
    CountConcat(t[..|t| - 1], [c], c);
  }

  /** The first piece of a split is the text before the first separator, or all of it. */
  lemma {:induction false} SplitFirst(a: string, sep: char, b: string)
    requires sep !in a
    ensures Split(a + [sep] + b, sep)[0] == a
    ensures Split(a, sep) == [a]
    decreases |a|
  {
    var s := a + [sep] + b;
    if a != [] {
      assert s[0] == a[0] && s[1..] == a[1..] + [sep] + b;
      SplitFirst(a[1..], sep, b);
      assert a == [a[0]] + a[1..];
    } else {
      assert s[1..] == b;
    }
  }

  /** The last piece of `split` is empty exactly when the text is empty or ends with the
      separator. */
  lemma {:induction false} SplitLast(s: string, sep: char)
    ensures var parts := Split(s, sep); parts[|parts| - 1] == [] <==> (s == [] || s[|s| - 1] == sep)
    decreases |s|
  {
    if s != [] {
      var t := s[1..];
      SplitLast(t, sep);
      SplitCount(t, sep);
      if t != [] {
        assert s[|s| - 1] == t[|t| - 1];
        if t[|t| - 1] == sep {
          CountLast(t, sep);
        }
      }
    }
  }

  /** Joining the pieces with the separator gives back the text; no piece contains it. */
  lemma {:induction false} SplitJoin(s: string, sep: char)
    ensures Join(Split(s, sep), sep) == s
    ensures forall k :: 0 <= k < |Split(s, sep)| ==> sep !in Split(s, sep)[k]
    decreases |s|
  {
    if s != [] {
      var rest := Split(s[1..], sep);
      SplitJoin(s[1..], sep);
      if s[0] == sep {
        assert ([[]] + rest)[1..] == rest;
      } else if |rest| == 1 {
        assert Join(rest, sep) == rest[0];
      } else {
        var parts := [[s[0]] + rest[0]] + rest[1..];
        assert parts[1..] == rest[1..];
        assert Join(rest, sep) == rest[0] + [sep] + Join(rest[1..], sep);
      }
    }
  }

  // ---------------------------------------------------------------- lemmas: replace

  /** Replacing a character that does not occur changes nothing. */
  lemma {:induction false} ReplaceAbsent(s: string, c: char, rep: string)
    requires c !in s
    ensures Replace(s, [c], rep) == s
    decreases |s|
  {
    if |s| >= 1 {
      assert s[..1] == [s[0]];
      ReplaceAbsent(s[1..], c, rep);
    }
  }

  /** Deleting with `replace` keeps only characters of the original. */
  lemma {:induction false} ReplaceDeleteFrom(s: string, pat: string)
    requires pat != []
    ensures forall k :: 0 <= k < |Replace(s, pat, [])| ==> Replace(s, pat, [])[k] in s
    decreases |s|
  {
    if |s| >= |pat| {
      if s[..|pat|] == pat {
        ReplaceDeleteFrom(s[|pat|..], pat);
        assert Replace(s, pat, []) == Replace(s[|pat|..], pat, []);
        forall k | 0 <= k < |Replace(s, pat, [])|
          ensures Replace(s, pat, [])[k] in s
        {
          assert Replace(s, pat, [])[k] in s[|pat|..];
        }
      } else {
        ReplaceDeleteFrom(s[1..], pat);
        var rest := Replace(s[1..], pat, []);
        forall k | 0 <= k < |Replace(s, pat, [])|
          ensures Replace(s, pat, [])[k] in s
        {
          if k > 0 {
            assert Replace(s, pat, [])[k] == rest[k - 1];
            assert rest[k - 1] in s[1..];
          }
        }
      }
    }
  }

  /** Deleting `rn` from text without an `r` removes just the `rn` at its end. */
  lemma {:induction false} ReplaceDropsTail(d: string)
    requires 'r' !in d
    ensures Replace(d + "rn", "rn", []) == d
    decreases |d|
  {
    var s := d + "rn";
    if d == [] {
      assert s[..2] == "rn" && s[2..] == [];
    } else {
      assert s[..2] != "rn" by {
        assert s[..2][0] == d[0];
      }
      assert s[1..] == d[1..] + "rn";
      ReplaceDropsTail(d[1..]);
      assert d == [d[0]] + d[1..];
    }
  }

  // ---------------------------------------------------------------- lemmas: hex round trips

  lemma UpperHexBack(c: char)
    requires IsUpperHexDigit(c)
    ensures IsHexDigit(c) && UpperHexDigit(HexDigitValue(c)) == c
  {
  }

  lemma ByteHexBack(b: byte)
    ensures var h := ByteHex(b);
      (IsHexDigit(h[0]) && IsHexDigit(h[1]) && !IsAsciiSpace(h[0]) && PairByte(h[0], h[1]) == b)
  {
    assert (b / 16) * 16 + b % 16 == b;
  }

  /** `bytes.fromhex` reads contiguous hex back to the bytes it came from. */
  lemma {:induction false} FromHexContiguous(bs: seq<byte>)
    ensures FromHex(ContiguousHex(bs)) == Success(bs)
    decreases |bs|
  {
    if bs != [] {
      var s := ContiguousHex(bs);
      ByteHexBack(bs[0]);
      assert s[2..] == ContiguousHex(bs[1..]);
      FromHexContiguous(bs[1..]);
      assert [bs[0]] + bs[1..] == bs;
    }
  }

  lemma {:induction false} ContiguousHexLength(bs: seq<byte>)
    ensures |ContiguousHex(bs)| == 2 * |bs|
    ensures ' ' !in ContiguousHex(bs)
    decreases |bs|
  {
    if bs != [] {
      ContiguousHexLength(bs[1..]);
      var h := ByteHex(bs[0]);
      assert h[0] != ' ' && h[1] != ' ';
      assert ContiguousHex(bs) == h + ContiguousHex(bs[1..]);
    }
  }

  /** Removing the spaces from `AA BB CC` gives `AABBCC`. */
  lemma {:induction false} SpacedHexWithoutSpaces(bs: seq<byte>)
    ensures Replace(SpacedHex(bs), " ", []) == ContiguousHex(bs)
    decreases |bs|
  {
    if |bs| <= 1 {
      ContiguousHexLength(bs);
      ReplaceAbsent(ContiguousHex(bs), ' ', []);
    } else {
      var h := ByteHex(bs[0]);
      var t := SpacedHex(bs[1..]);
      var s := SpacedHex(bs);
      ByteHexShape(bs[0]);
      assert s == h + " " + t;
      assert s[0] == h[0] && s[1] == h[1] && s[2] == ' ' && s[3..] == t;
      ReplaceSpaceStep(s);
      ReplaceSpaceStep(s[1..]);
      ReplaceSpaceStep(s[2..]);
      assert s[1..][1..] == s[2..] && s[2..][1..] == s[3..];
      SpacedHexWithoutSpaces(bs[1..]);
      assert [h[0]] + [h[1]] == h;
    }
  }

  /** Removing spaces handles one character at a time. */
  lemma ReplaceSpaceStep(s: string)
    requires s != []
    ensures Replace(s, " ", []) == (if s[0] == ' ' then [] else [s[0]]) + Replace(s[1..], " ", [])
  {
    assert s[..1] == [s[0]];
  }

  lemma SpacedHexSingle(bs: seq<byte>)
    requires |bs| == 1
    ensures SpacedHex(bs) == ByteHex(bs[0])
  {
    assert bs[1..] == [];
    assert ContiguousHex(bs[1..]) == [];
  }

  lemma ByteHexShape(b: byte)
    ensures var h := ByteHex(b); h == [h[0], h[1]] && h[0] != ' ' && h[1] != ' ' && Count(h, ' ') == 0
  {
    var h := ByteHex(b);
    assert IsHexDigit(h[0]) && IsHexDigit(h[1]);
    assert h[1..] == [h[1]] && h[1..][1..] == [];
    assert Count(h[1..], ' ') == 0;
  }

  /** `AA BB CC` has one space fewer than it has tokens, and a hex digit last. */
  lemma {:induction false} SpacedHexSpaces(bs: seq<byte>)
    requires bs != []
    ensures var s := SpacedHex(bs); Count(s, ' ') == |bs| - 1 && s != [] && s[|s| - 1] != ' '
    decreases |bs|
  {
    var h := ByteHex(bs[0]);
    ByteHexShape(bs[0]);
    if |bs| == 1 {
      SpacedHexSingle(bs);
    } else {
      var t := SpacedHex(bs[1..]);
      SpacedHexSpaces(bs[1..]);
      var s := SpacedHex(bs);
      assert s == h + (" " + t);
      CountConcat(h, " " + t, ' ');
      assert (" " + t)[1..] == t;
      assert s[|s| - 1] == t[|t| - 1];
    }
  }

  /** What `SpacedHex` renders is spaced hex text. */
  lemma {:induction false} SpacedHexIsText(bs: seq<byte>)
    requires bs != []
    ensures IsSpacedHexText(SpacedHex(bs))
    decreases |bs|
  {
    var h := ByteHex(bs[0]);
    var s := SpacedHex(bs);
    ByteHexShape(bs[0]);
    if |bs| == 1 {
      SpacedHexSingle(bs);
    } else {
      var t := SpacedHex(bs[1..]);
      SpacedHexIsText(bs[1..]);
      assert s == h + " " + t;
      forall k | 0 <= k < |s|
        ensures if k % 3 == 2 then s[k] == ' ' else IsUpperHexDigit(s[k])
      {
        if k >= 3 {
          assert s[k] == t[k - 3];
          assert (k - 3) % 3 == k % 3;
        }
      }
    }
  }

  lemma SpacedHexTextTail(d: string)
    requires IsSpacedHexText(d) && |d| > 2
    ensures IsSpacedHexText(d[3..])
  {
    var t := d[3..];
    forall k | 0 <= k < |t|
      ensures if k % 3 == 2 then t[k] == ' ' else IsUpperHexDigit(t[k])
    {
      assert t[k] == d[k + 3];
      assert (k + 3) % 3 == k % 3;
    }
  }

  lemma HexPairsTail(d: string)
    requires IsHexPairsText(d) && |d| > 2
    ensures IsHexPairsText(d[3..])
  {
    var t := d[3..];
    forall k | 0 <= k < |t|
      ensures if k % 3 == 2 then t[k] == ' ' else IsHexDigit(t[k])
    {
      assert t[k] == d[k + 3];
      assert (k + 3) % 3 == k % 3;
    }
  }

  /** Upper-case spaced hex text is spaced hex text. */
  lemma SpacedIsPairs(d: string)
    requires IsSpacedHexText(d)
    ensures IsHexPairsText(d)
  {
  }

  /** The bytes spelled by spaced hex text, read three characters at a time. */
  function SpacedHexBytes(d: string): (bs: seq<byte>)
    requires IsHexPairsText(d)
    decreases |d|
  {
    assert IsHexDigit(d[0]) && IsHexDigit(d[1]);
    [PairByte(d[0], d[1])] +
      if |d| == 2 then [] else HexPairsTail(d); SpacedHexBytes(d[3..])
  }

  /** `bytes.fromhex` of spaced hex text in either case, with the spaces removed, is the bytes
      it spells. */
  lemma {:induction false} HexPairsDecode(d: string)
    requires IsHexPairsText(d)
    ensures FromHex(Replace(d, " ", [])) == Success(SpacedHexBytes(d))
    decreases |d|
  {
    var b := PairByte(d[0], d[1]);
    ReplaceSpaceStep(d);
    ReplaceSpaceStep(d[1..]);
    assert d[1..][1..] == d[2..];
    if |d| == 2 {
      assert d[2..] == [];
      assert Replace(d, " ", []) == [d[0], d[1]];
      assert FromHex([d[0], d[1]]) == Success([b] + []);
    } else {
      HexPairsTail(d);
      var t := d[3..];
      ReplaceSpaceStep(d[2..]);
      assert d[2..][1..] == t;
      var r := Replace(t, " ", []);
      assert Replace(d, " ", []) == [d[0]] + ([d[1]] + r);
      var s := [d[0], d[1]] + r;
      assert [d[0]] + ([d[1]] + r) == s;
      assert s[2..] == r;
      HexPairsDecode(t);
      assert FromHex(s) == Success([b] + SpacedHexBytes(t));
    }
  }

  /** Spaced hex text of n tokens holds n - 1 spaces and ends in a hex digit. */
  lemma {:induction false} HexPairsSpaces(d: string)
    requires IsHexPairsText(d)
    ensures Count(d, ' ') == |SpacedHexBytes(d)| - 1 && d[|d| - 1] != ' '
    decreases |d|
  {
    var h := [d[0], d[1]];
    assert IsHexDigit(d[0]) && IsHexDigit(d[1]);
    assert h[1..] == [d[1]] && h[1..][1..] == [];
    assert Count(h[1..], ' ') == 0;
    assert Count(h, ' ') == 0;
    if |d| == 2 {
      assert d == h;
    } else {
      HexPairsTail(d);
      var t := d[3..];
      HexPairsSpaces(t);
      assert d == h + (" " + t);
      CountConcat(h, " " + t, ' ');
      assert (" " + t)[1..] == t;
      assert d[|d| - 1] == t[|t| - 1];
    }
  }

  lemma ByteHexOfPair(hi: char, lo: char)
    requires IsUpperHexDigit(hi) && IsUpperHexDigit(lo)
    ensures ByteHex(PairByte(hi, lo)) == [hi, lo]
  {
    UpperHexBack(hi);
    UpperHexBack(lo);
    var b := PairByte(hi, lo);
    NibblesBack(HexDigitValue(hi), HexDigitValue(lo));
    assert (b / 16) as nat == HexDigitValue(hi) && (b % 16) as nat == HexDigitValue(lo);
  }

  lemma NibblesBack(a: nat, c: nat)
    requires a < 16 && c < 16
    ensures (a * 16 + c) / 16 == a && (a * 16 + c) % 16 == c
  {
  }

  /** Spaced hex text is the rendering of the bytes it spells. */
  lemma {:induction false} SpacedHexTextBack(d: string)
    requires IsSpacedHexText(d)
    ensures IsHexPairsText(d) && SpacedHex(SpacedHexBytes(d)) == d
    decreases |d|
  {
    SpacedIsPairs(d);
    assert IsUpperHexDigit(d[0]) && IsUpperHexDigit(d[1]);
    ByteHexOfPair(d[0], d[1]);
    var b := PairByte(d[0], d[1]);
    var bs := SpacedHexBytes(d);
    if |d| == 2 {
      assert bs == [b];
      assert SpacedHex(bs) == ByteHex(b) + ContiguousHex([]);
      assert d == [d[0], d[1]];
    } else {
      SpacedHexTextTail(d);
      var t := d[3..];
      SpacedHexTextBack(t);
      var rest := SpacedHexBytes(t);
      assert bs == [b] + rest;
      assert |t| > 0;
      assert rest != [];
      assert bs[1..] == rest;
      assert SpacedHex(bs) == ByteHex(b) + " " + SpacedHex(rest);
      assert d == [d[0], d[1]] + " " + t;
    }
  }

  /** The bytes `bytes.fromhex` makes of spaced hex text with the spaces removed, rendered as
      spaced hex again, are that text. */
  lemma SpacedHexRoundTrip(d: string)
    requires IsSpacedHexText(d)
    ensures IsHexPairsText(d)
    ensures FromHex(Replace(d, " ", [])) == Success(SpacedHexBytes(d))
    ensures SpacedHex(SpacedHexBytes(d)) == d
  {
    SpacedHexTextBack(d);
    HexPairsDecode(d);
  }
}
