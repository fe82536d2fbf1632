/**
  C strings, the line reader `fgets` and decimal numbers, as the text formats of
  the plugins use them.  One `char` stands for one byte; a C string holds no NUL.
 */
module CText {

  datatype Option<+T> = None | Some(value: T) {
    predicate IsFailure() { None? }
    function PropagateFailure<U>(): Option<U> requires None? { None }
    function Extract(): T requires Some? { value }
  }

  const NUL := '\0'
  const TWO_POW_63: int := 0x8000_0000_0000_0000
  const TWO_POW_64: int := 0x1_0000_0000_0000_0000

  /** Index of the first c in s, or |s| (strchr, strcspn). */
  function IndexOf(s: string, c: char): (n: nat)
    ensures n <= |s| && c !in s[..n]
    ensures n < |s| ==> s[n] == c
  {
    if s == [] || s[0] == c then 0
    else
      var n := 1 + IndexOf(s[1..], c);
      assert s[..n] == [s[0]] + s[1..][..n - 1];
      n
  }

  /** c's first occurrence in p + [c] + t is right after p when p has none. */
  lemma {:induction false} IndexOfAfter(p: string, c: char, t: string)
    requires c !in p
    ensures IndexOf(p + [c] + t, c) == |p|
  {
    if p != [] {
      IndexOfAfter(p[1..], c, t);
      assert (p + [c] + t)[1..] == p[1..] + [c] + t;
    }
  }

  lemma {:induction false} IndexOfAbsent(s: string, c: char)
    requires c !in s
    ensures IndexOf(s, c) == |s|
  {
    if s != [] {
      IndexOfAbsent(s[1..], c);
    }
  }

  /** What a C function sees of a buffer: the bytes before the first NUL. */
  function CStr(s: string): string {
    s[..IndexOf(s, NUL)]
  }

  lemma CStrId(s: string)
    requires NUL !in s
    ensures CStr(s) == s
  {
    IndexOfAbsent(s, NUL);
  }

  /** snprintf into a buffer of cap bytes. */
  function Clip(s: string, cap: nat): string
    requires cap > 0
  {
    if |s| < cap then s else s[..cap - 1]
  }

  // ---------------------------------------------------------------- fgets

  /** Bytes one `fgets(buf, cap, f)` takes from the rest of a file. */
  function FgetsLen(text: string, cap: nat): (n: nat)
    requires text != [] && cap >= 2
    ensures 0 < n <= |text|
  {
    var nl := IndexOf(text, '\n');
    var len := if nl < |text| then nl + 1 else nl;
    if len < cap then len else cap - 1
  }

  /** All buffers that a `while (fgets(...))` loop reads from a file. */
  function FileLines(text: string, cap: nat): seq<string>
    requires cap >= 2
    decreases |text|
  {
    if text == [] then []
    else
      var n := FgetsLen(text, cap);
      [text[..n]] + FileLines(text[n..], cap)
  }

  /** A line that ends in its only newline and fits the buffer is read whole. */
  lemma FgetsWhole(body: string, rest: string, cap: nat)
    requires cap >= 2 && '\n' !in body && |body| + 1 < cap
    ensures var text := body + "\n" + rest; var n := FgetsLen(text, cap);
      n == |body| + 1 && text[..n] == body + "\n" && text[n..] == rest
  {
    IndexOfAfter(body, '\n', rest);
  }

  lemma FileLinesCons(body: string, rest: string, cap: nat)
    requires cap >= 2 && '\n' !in body && |body| + 1 < cap
    ensures FileLines(body + "\n" + rest, cap) == [body + "\n"] + FileLines(rest, cap)
  {
    FgetsWhole(body, rest, cap);
  }

  ghost predicate OnlyLast(buffer: string) {
    forall k | 0 <= k < |buffer| - 1 :: buffer[k] != '\n'
  }

  /** A buffer fgets returns has a newline nowhere but at its end. */
  lemma {:induction false} FileLinesNewlines(text: string, cap: nat)
    requires cap >= 2
    ensures forall i | 0 <= i < |FileLines(text, cap)| :: OnlyLast(FileLines(text, cap)[i])
    decreases |text|
  {
    if text != [] {
      var n := FgetsLen(text, cap);
      FileLinesNewlines(text[n..], cap);
      var nl := IndexOf(text, '\n');
      assert forall k | 0 <= k < n - 1 :: text[..n][k] == text[..nl][k];
    }
  }

  // ---------------------------------------------------------------- concatenation

  /** The texts f writes for the items of s, one after the other. */
  function ConcatMap<T>(f: T -> string, s: seq<T>): string {
    if s == [] then [] else f(s[0]) + ConcatMap(f, s[1..])
  }

  function Terminated(line: string): string {
    line + "\n"
  }

  lemma {:induction false} ConcatMapAppend<T>(f: T -> string, a: seq<T>, b: seq<T>)
    ensures ConcatMap(f, a + b) == ConcatMap(f, a) + ConcatMap(f, b)
  {
    if a == [] {
      assert a + b == b;
    } else {
      ConcatMapAppend(f, a[1..], b);
      AppendHead(a, b);
    }
  }

  lemma ConcatMapOne<T>(f: T -> string, x: T)
    ensures ConcatMap(f, [x]) == f(x)
  {
    assert [x][1..] == [];
  }

  lemma AppendHead<T>(a: seq<T>, b: seq<T>)
    requires a != []
    ensures a + b != [] && (a + b)[0] == a[0] && (a + b)[1..] == a[1..] + b
  {
  }

  lemma ConcatAssoc<T>(a: seq<T>, b: seq<T>, c: seq<T>)
    ensures a + b + c == a + (b + c)
  {
  }

  lemma ConcatHead<T>(a: seq<T>, s: seq<T>)
    requires s != []
    ensures a + [s[0]] + s[1..] == a + s
  {
  }

  function Reverse<T>(s: seq<T>): (r: seq<T>)
    ensures |r| == |s| && forall i | 0 <= i < |r| :: r[i] == s[|s| - 1 - i]
  {
    seq(|s|, i requires 0 <= i < |s| => s[|s| - 1 - i])
  }

  lemma ReverseCons<T>(x: T, s: seq<T>)
    ensures Reverse([x] + s) == Reverse(s) + [x]
  {
  }

  lemma ReverseTwice<T>(s: seq<T>)
    ensures Reverse(Reverse(s)) == s
  {
  }

  lemma ReversePointwise<T>(s: seq<T>, was: seq<T>)
    requires |s| == |was| && forall k | 0 <= k < |s| :: s[k] == was[|was| - 1 - k]
    ensures s == Reverse(was)
  {
  }

  lemma ReverseMembers<T>(s: seq<T>)
    ensures forall x :: x in Reverse(s) <==> x in s
  {
    forall x | x in s
      ensures x in Reverse(s)
    {
      var i :| 0 <= i < |s| && s[i] == x;
      assert Reverse(s)[|s| - 1 - i] == x;
    }
  }

  // ---------------------------------------------------------------- blanks

  predicate IsEdge(c: char) {
    c == ' ' || c == '\t' || c == '\r' || c == '\n'
  }

  function TrimEnd(s: string): (t: string)
    ensures t <= s
    ensures t == [] || !IsEdge(t[|t| - 1])
  {
    if s != [] && IsEdge(s[|s| - 1]) then TrimEnd(s[..|s| - 1]) else s
  }

  lemma {:induction false} TrimEndCons(s: string, blanks: string)
    requires forall i | 0 <= i < |blanks| :: IsEdge(blanks[i])
    requires s == [] || !IsEdge(s[|s| - 1])
    ensures TrimEnd(s + blanks) == s
    decreases |blanks|
  {
    var all := s + blanks;
    if blanks == [] {
      assert all == s;
    } else {
      var front := blanks[..|blanks| - 1];
      assert all[..|all| - 1] == s + front;
      assert all[|all| - 1] == blanks[|blanks| - 1];
      TrimEndCons(s, front);
    }
  }

  predicate IsBlank(c: char) {
    c == ' ' || c == '\t'
  }

  function SkipBlanks(s: string): (t: string)
    ensures |t| <= |s| && t == s[|s| - |t|..]
    ensures t == [] || !IsBlank(t[0])
  {
    if s != [] && IsBlank(s[0]) then SkipBlanks(s[1..]) else s
  }

  /** Blanks off the front, blanks and line ends off the back. */
  function Trim(s: string): string {
    TrimEnd(SkipBlanks(s))
  }

  lemma {:induction false} TrimEndAfter(a: string, b: string)
    requires a != [] && !IsEdge(a[|a| - 1])
    ensures TrimEnd(a + b) == a + TrimEnd(b)
    decreases |b|
  {
    if b != [] && IsEdge(b[|b| - 1]) {
      var front := b[..|b| - 1];
      assert (a + b)[..|a + b| - 1] == a + front;
      TrimEndAfter(a, front);
    } else {
      assert b == [] ==> a + b == a;
    }
  }

  lemma {:induction false} TrimEndTwice(s: string)
    ensures TrimEnd(TrimEnd(s)) == TrimEnd(s)
  {
  }

  /** Dropping one trailing edge character first makes no difference to Trim. */
  lemma {:induction false} TrimOneEdge(s: string, c: char)
    requires IsEdge(c)
    ensures Trim(s + [c]) == Trim(s)
  {
    if s == [] {
      assert s + [c] == [c] && [c][1..] == [] && [c][..0] == [];
    } else if IsBlank(s[0]) {
      assert (s + [c])[1..] == s[1..] + [c];
      TrimOneEdge(s[1..], c);
    } else {
      assert (s + [c])[..|s|] == s;
    }
  }

  lemma {:induction false} TrimAfterTrimEnd(s: string)
    ensures Trim(TrimEnd(s)) == Trim(s)
  {
    if s != [] && IsEdge(s[|s| - 1]) {
      var front, last := s[..|s| - 1], s[|s| - 1];
      assert s == front + [last];
      TrimAfterTrimEnd(front);
      TrimOneEdge(front, last);
    }
  }

  lemma TrimTwice(s: string)
    ensures Trim(Trim(s)) == Trim(s)
  {
    var t := Trim(s);
    TrimEndTwice(SkipBlanks(s));
    assert t != [] ==> t[0] == SkipBlanks(s)[0];
  }

  lemma {:induction false} BlanksGone(blanks: string, s: string)
    requires (forall i | 0 <= i < |blanks| :: IsBlank(blanks[i])) && (s == "" || !IsBlank(s[0]))
    ensures SkipBlanks(blanks + s) == s
  {
    if blanks == "" {
      assert blanks + s == s;
    } else {
      assert (blanks + s)[1..] == blanks[1..] + s;
      BlanksGone(blanks[1..], s);
    }
  }

  /** Trimming takes the blanks off both ends, line ends off the back, and nothing else. */
  lemma TrimIs(before: string, s: string, behind: string)
    requires forall i | 0 <= i < |before| :: before[i] == ' ' || before[i] == '\t'
    requires forall i | 0 <= i < |behind| :: behind[i] in {' ', '\t', '\r', '\n'}
    requires s != "" && s[0] != ' ' && s[0] != '\t' && !IsEdge(s[|s| - 1])
    ensures Trim(before + s + behind) == s
  {
    assert before + s + behind == before + (s + behind);
    assert (s + behind)[0] == s[0];
    BlanksGone(before, s + behind);
    TrimEndCons(s, behind);
  }

  lemma TrimBlankFront(s: string)
    ensures Trim(" " + s) == Trim(s)
  {
    assert (" " + s)[1..] == s;
  }

  // ---------------------------------------------------------------- numbers

  predicate IsDigit(c: char) {
    '0' <= c <= '9'
  }

  predicate AllDigits(s: string) {
    forall i | 0 <= i < |s| :: IsDigit(s[i])
  }

  /** isspace() in the C locale. */
  predicate IsSpace(c: char) {
    c == ' ' || '\t' <= c <= '\r'
  }

  /** `%llu` */
  function Dec(n: nat): (s: string)
    ensures |s| > 0 && AllDigits(s)
  {
    var d := [('0' as int + n % 10) as char];
    if n < 10 then d else Dec(n / 10) + d
  }

  /** `%lld`, `%d` */
  function DecInt(i: int): string {
    if i < 0 then "-" + Dec(-i) else Dec(i)
  }

  function DigitsValue(s: string): nat
    requires AllDigits(s)
  {
    if s == [] then 0
    else 10 * DigitsValue(s[..|s| - 1]) + (s[|s| - 1] as int - '0' as int)
  }

  lemma {:induction false} DecValue(n: nat)
    ensures DigitsValue(Dec(n)) == n
  {
    var d := [('0' as int + n % 10) as char];
    if n >= 10 {
      DecValue(n / 10);
      assert Dec(n)[..|Dec(n)| - 1] == Dec(n / 10);
    } else {
      assert Dec(n) == d && d[..0] == [];
    }
  }

  /** The number of decimal digits grows with the number. */
  lemma {:induction false} DecLength(n: nat, k: nat, bound: nat)
    requires k > 0 && bound == Pow10(k) && n < bound
    ensures |Dec(n)| <= k
  {
    if n >= 10 {
      assert bound == 10 * Pow10(k - 1);
      DecLength(n / 10, k - 1, Pow10(k - 1));
    }
  }

  function Pow10(k: nat): nat {
    if k == 0 then 1 else 10 * Pow10(k - 1)
  }

  function SkipSpace(s: string, i: nat): (j: nat)
    requires i <= |s|
    ensures i <= j <= |s|
    decreases |s| - i
  {
    if i < |s| && IsSpace(s[i]) then SkipSpace(s, i + 1) else i
  }

  function SkipDigits(s: string, i: nat): (j: nat)
    requires i <= |s|
    ensures i <= j <= |s| && AllDigits(s[i..j])
    ensures j == |s| || !IsDigit(s[j])
    decreases |s| - i
  {
    if i < |s| && IsDigit(s[i]) then
      var j := SkipDigits(s, i + 1);
      assert s[i..j] == [s[i]] + s[i + 1..j];
      j
    else i
  }

  /** What the strto* family reads: sign, magnitude, and the index `end` points to (0 when no digits). */
  datatype Scan = Scan(neg: bool, mag: nat, end: nat)

  function ScanNumber(s: string): (r: Scan)
    ensures r.end <= |s|
  {
    var i := SkipSpace(s, 0);
    var neg := i < |s| && s[i] == '-';
    var d := if i < |s| && (s[i] == '-' || s[i] == '+') then i + 1 else i;
    var e := SkipDigits(s, d);
    if e == d then Scan(false, 0, 0) else Scan(neg, DigitsValue(s[d..e]), e)
  }

  /** strtoull(s, &end, 10): saturates, and negates modulo 2^64. */
  function Strtoull(s: string): nat {
    var r := ScanNumber(s);
    if r.mag >= TWO_POW_64 then TWO_POW_64 - 1
    else if r.neg && r.mag > 0 then TWO_POW_64 - r.mag
    else r.mag
  }

  /** strtoll(s, &end, 10): saturates at both ends of the 64-bit range. */
  function Strtoll(s: string): int {
    var r := ScanNumber(s);
    if r.neg then (if r.mag > TWO_POW_63 then -TWO_POW_63 else 0 - r.mag as int)
    else (if r.mag >= TWO_POW_63 then TWO_POW_63 - 1 else r.mag)
  }

  /** The whole of s is one number: `end` is not the start and points to the NUL. */
  predicate NumberOnly(s: string) {
    s != [] && ScanNumber(s).end == |s|
  }

  lemma {:induction false} SkipDigitsAll(s: string, i: nat)
    requires i <= |s| && AllDigits(s[i..])
    ensures SkipDigits(s, i) == |s|
    decreases |s| - i
  {
    if i < |s| {
      assert s[i] == s[i..][0];
      assert AllDigits(s[i + 1..]) by {
        assert s[i + 1..] == s[i..][1..];
      }
      SkipDigitsAll(s, i + 1);
    }
  }

  lemma ScanDec(n: nat)
    ensures ScanNumber(Dec(n)) == Scan(false, n, |Dec(n)|)
  {
    var s := Dec(n);
    assert s[0..] == s;
    SkipDigitsAll(s, 0);
    DecValue(n);
    assert IsDigit(s[0]);
    assert SkipSpace(s, 0) == 0;
    assert s[0..|s|] == s;
  }

  /** A number is read up to what is no digit. */
  lemma ScanBefore(n: nat, tail: string)
    requires tail == "" || !IsDigit(tail[0])
    ensures ScanNumber(Dec(n) + tail) == Scan(false, n, |Dec(n)|)
  {
    var s := Dec(n) + tail;
    DigitsBefore(Dec(n), tail, 0);
    DecValue(n);
    assert IsDigit(s[0]);
    assert SkipSpace(s, 0) == 0;
    assert s[0..|Dec(n)|] == Dec(n);
  }

  lemma {:induction false} DigitsBefore(digits: string, tail: string, i: nat)
    requires AllDigits(digits) && i <= |digits| && (tail == "" || !IsDigit(tail[0]))
    ensures SkipDigits(digits + tail, i) == |digits|
    decreases |digits| - i
  {
    if i < |digits| {
      DigitsBefore(digits, tail, i + 1);
    }
  }

  lemma ScanDecNeg(n: nat)
    requires n > 0
    ensures ScanNumber("-" + Dec(n)) == Scan(true, n, 1 + |Dec(n)|)
  {
    var s := "-" + Dec(n);
    assert s[1..] == Dec(n);
    SkipDigitsAll(s, 1);
    DecValue(n);
    assert s[0] == '-';
    assert SkipSpace(s, 0) == 0;
    assert s[1..|s|] == Dec(n);
  }

  lemma {:induction false} SpacesSkipped(s: string, k: nat, i: nat)
    requires k <= i <= |s| && (forall j | k <= j < i :: IsSpace(s[j])) && (i < |s| ==> !IsSpace(s[i]))
    ensures SkipSpace(s, k) == i
    decreases i - k
  {
    if k < i {
      SpacesSkipped(s, k + 1, i);
    }
  }

  lemma {:induction false} DigitsFrom(s: string, i: nat, digits: string, tail: string)
    requires i <= |s| && s[i..] == digits + tail && AllDigits(digits) && (tail == "" || !IsDigit(tail[0]))
    ensures SkipDigits(s, i) == i + |digits|
    decreases |digits|
  {
    if digits != "" {
      assert s[i] == s[i..][0] == digits[0];
      assert s[i + 1..] == s[i..][1..] == digits[1..] + tail;
      DigitsFrom(s, i + 1, digits[1..], tail);
    } else {
      assert digits + tail == tail;
    }
  }

  /** A number in a text: behind white space and one sign, as many digits as there are; no digit, no number. */
  lemma NumberRead(s: string, i: nat, signed: bool, neg: bool, digits: string, tail: string)
    requires i <= |s| && forall k | 0 <= k < i :: IsSpace(s[k])
    requires i < |s| ==> !IsSpace(s[i])
    requires SignAt(s, i, signed, neg) && s[if signed then i + 1 else i..] == digits + tail
    requires AllDigits(digits) && (tail == "" || !IsDigit(tail[0]))
    ensures ScanNumber(s) ==
            if digits == "" then Scan(false, 0, 0) else Scan(neg, DigitsValue(digits), (if signed then i + 1 else i) + |digits|)
  {
    var d := if signed then i + 1 else i;
    SpacesSkipped(s, 0, i);
    DigitsThere(s, d, digits, tail);
    DigitsFrom(s, d, digits, tail);
    ScanAt(s, i, signed, neg, digits);
  }

  lemma DigitsThere(s: string, d: nat, digits: string, tail: string)
    requires d <= |s| && s[d..] == digits + tail
    ensures d + |digits| <= |s| && s[d..d + |digits|] == digits
  {
    assert s[d..][..|digits|] == s[d..d + |digits|];
  }

  /** A sign there, or none. */
  ghost predicate SignAt(s: string, i: nat, signed: bool, neg: bool) {
    if signed then i < |s| && s[i] == if neg then '-' else '+'
    else !neg && (i >= |s| || (s[i] != '-' && s[i] != '+'))
  }

  lemma ScanAt(s: string, i: nat, signed: bool, neg: bool, digits: string)
    requires i <= |s| && SkipSpace(s, 0) == i && SignAt(s, i, signed, neg) && AllDigits(digits)
    requires var d := if signed then i + 1 else i;
      d + |digits| <= |s| && s[d..d + |digits|] == digits && SkipDigits(s, d) == d + |digits|
    ensures ScanNumber(s) ==
            if digits == "" then Scan(false, 0, 0) else Scan(neg, DigitsValue(digits), (if signed then i + 1 else i) + |digits|)
  {
  }

  /** Numbers that do not fit: strtoull and strtoll saturate, and strtoull takes a minus sign modulo 2^64. */
  lemma Saturates(n: nat)
    requires n > 0
    ensures Strtoull(Dec(n)) == if n < 0x1_0000_0000_0000_0000 then n else 0xffff_ffff_ffff_ffff
    ensures Strtoull("-" + Dec(n)) ==
            if n < 0x1_0000_0000_0000_0000 then 0x1_0000_0000_0000_0000 - n else 0xffff_ffff_ffff_ffff
    ensures Strtoll(Dec(n)) == if n < 0x8000_0000_0000_0000 then n else 0x7fff_ffff_ffff_ffff
    ensures Strtoll("-" + Dec(n)) == if n <= 0x8000_0000_0000_0000 then -(n as int) else -0x8000_0000_0000_0000
  {
    ScanDec(n);
    ScanDecNeg(n);
  }

  /** Reading back an unsigned 64-bit number printed with %llu. */
  lemma UnsignedRoundTrip(n: nat)
    requires n < TWO_POW_64
    ensures Strtoull(Dec(n)) == n && NumberOnly(Dec(n)) && |Dec(n)| <= 20
  {
    ScanDec(n);
    assert Pow10(20) == 100_000_000_000_000_000_000 by { Pow10At20(); }
    DecLength(n, 20, Pow10(20));
  }

  /** Reading back a signed 64-bit number printed with %lld. */
  lemma SignedRoundTrip(i: int)
    requires -TWO_POW_63 <= i < TWO_POW_63
    ensures Strtoll(DecInt(i)) == i && NumberOnly(DecInt(i)) && |DecInt(i)| <= 21
  {
    Pow10At20();
    if i < 0 {
      ScanDecNeg(-i);
      DecLength(-i, 20, Pow10(20));
    } else {
      ScanDec(i);
      DecLength(i, 20, Pow10(20));
    }
  }

  lemma Pow10At20()
    ensures Pow10(20) == 100_000_000_000_000_000_000
  {
    assert Pow10(5) == 100_000;
    assert Pow10(10) == 100_000 * 100_000;
    assert Pow10(15) == 100_000 * 100_000 * 100_000;
    assert Pow10(20) == 100_000 * Pow10(15);
  }

  /** The characters a printed number can hold. */
  lemma DecIntChars(i: int)
    ensures forall k | 0 <= k < |DecInt(i)| :: IsDigit(DecInt(i)[k]) || DecInt(i)[k] == '-'
  {
  }
}
