/** Text as the ledger frames it: decimal numbers, UTF-8 lengths, the byte order
    of strings, and length-prefixed fields. Strings are sequences of Unicode
    scalar values; a length is counted in UTF-8 bytes, as Go's len counts it. */
module Text {

  // ---- decimal numbers -------------------------------------------------

  const DIGITS := "0123456789"

  predicate IsDigit(c: char) {
    '0' <= c <= '9'
  }

  predicate AllDigits(s: string) {
    forall i :: 0 <= i < |s| ==> IsDigit(s[i])
  }

  function Digits(n: nat): (s: string)
    ensures |s| > 0 && AllDigits(s)
  {
    if n < 10 then [DIGITS[n]] else Digits(n / 10) + [DIGITS[n % 10]]
  }

  // strconv.Itoa and strconv.FormatInt(_, 10).
  function Itoa(n: int): (s: string)
    ensures |s| > 0
  {
    if n < 0 then "-" + Digits(-n) else Digits(n)
  }

  lemma {:induction false} DigitsInjective(m: nat, n: nat)
    requires Digits(m) == Digits(n)
    ensures m == n
  {
    var a, b := Digits(m), Digits(n);
    assert a[|a| - 1] == DIGITS[m % 10] && b[|b| - 1] == DIGITS[n % 10];
    if m >= 10 && n >= 10 {
      assert Digits(m / 10) == a[..|a| - 1] && Digits(n / 10) == b[..|b| - 1];
      DigitsInjective(m / 10, n / 10);
    }
  }

  lemma ItoaInjective(m: int, n: int)
    requires Itoa(m) == Itoa(n)
    ensures m == n
  {
    var a := Itoa(m);
    if m < 0 {
      assert a[0] == '-';
      assert n < 0;
      assert Digits(-m) == a[1..] == Digits(-n);
      DigitsInjective(-m, -n);
    } else {
      assert IsDigit(a[0]);
      assert n >= 0;
      DigitsInjective(m, n);
    }
  }

  lemma ItoaAvoids(n: int, c: char)
    requires !IsDigit(c) && c != '-'
    ensures c !in Itoa(n)
  {
  }

  function DigitsValue(s: string): nat
    requires AllDigits(s)
  {
    if s == "" then 0
    else
      assert AllDigits(s[..|s| - 1]);
      10 * DigitsValue(s[..|s| - 1]) + (s[|s| - 1] as int - '0' as int)
  }

  // A number reads back as it was written.
  lemma {:induction false} DigitsRoundTrip(n: nat)
    ensures DigitsValue(Digits(n)) == n
  {
    if n >= 10 {
      var s := Digits(n);
      assert s[..|s| - 1] == Digits(n / 10);
      DigitsRoundTrip(n / 10);
    }
  }

  // ---- splitting -------------------------------------------------------

  // A text is split uniquely at the first occurrence of a separator.
  lemma {:induction false} SplitAtFirst(c: char, a: string, x: string, b: string, y: string)
    requires c !in a && c !in b
    requires a + [c] + x == b + [c] + y
    ensures a == b && x == y
  {
    var left, right := a + [c] + x, b + [c] + y;
    assert left[|a|] == c && right[|b|] == c;
    assert forall i :: 0 <= i < |a| ==> left[i] == a[i];
    assert forall i :: 0 <= i < |b| ==> right[i] == b[i];
    assert |a| == |b|;
    assert a == left[..|a|] && b == right[..|b|];
    assert x == left[|a| + 1..] && y == right[|b| + 1..];
  }

  // And uniquely at the last occurrence, when what follows has none.
  lemma {:induction false} SplitAtLast(c: char, a: string, x: string, b: string, y: string)
    requires c !in x && c !in y
    requires a + [c] + x == b + [c] + y
    ensures a == b && x == y
  {
    var left, right := a + [c] + x, b + [c] + y;
    assert left[|a|] == c && right[|b|] == c;
    assert forall i :: |a| < i < |left| ==> left[i] == x[i - |a| - 1];
    assert forall i :: |b| < i < |right| ==> right[i] == y[i - |b| - 1];
    assert |a| == |b|;
    assert a == left[..|a|] && b == right[..|b|];
    assert x == left[|a| + 1..] && y == right[|b| + 1..];
  }

  // ---- UTF-8 lengths ---------------------------------------------------

  function Utf8Width(c: char): nat {
    if c as int < 0x80 then 1
    else if c as int < 0x800 then 2
    else if c as int < 0x10000 then 3
    else 4
  }

  function Utf8Len(s: string): nat {
    if s == "" then 0 else Utf8Width(s[0]) + Utf8Len(s[1..])
  }

  // A continuation byte holds the low six bits of what is left.
  function Continuation(n: nat): int {
    0x80 + n % 0x40
  }

  // A character's bytes, as section 3 of RFC 3629 lays them out.
  function Utf8Bytes(c: char): seq<int> {
    var n := c as int;
    var q := n / 0x40;
    var r := q / 0x40;
    if n < 0x80 then [n]
    else if n < 0x800 then [0xC0 + q, Continuation(n)]
    else if n < 0x10000 then [0xE0 + r, Continuation(q), Continuation(n)]
    else [0xF0 + r / 0x40, Continuation(r), Continuation(q), Continuation(n)]
  }

  // The number so far, and one more continuation byte.
  function Continued(n: int, b: int): int {
    n * 0x40 + (b - 0x80)
  }

  // The character a leading byte and its continuation bytes stand for.
  function Utf8Value(b: seq<int>): int
    requires |b| > 0
  {
    if b[0] < 0x80 then b[0]
    else if b[0] < 0xE0 && |b| == 2 then Continued(b[0] - 0xC0, b[1])
    else if b[0] < 0xF0 && |b| == 3 then Continued(Continued(b[0] - 0xE0, b[1]), b[2])
    else if |b| == 4 then Continued(Continued(Continued(b[0] - 0xF0, b[1]), b[2]), b[3])
    else -1
  }

  lemma ContinuationReadsBack(n: nat)
    ensures Continued(n / 0x40, Continuation(n)) == n && 0x80 <= Continuation(n) < 0xC0
  {
  }

  // The width counts them, they are bytes, and they give back the character.
  lemma Utf8WidthExactly(c: char)
    ensures |Utf8Bytes(c)| == Utf8Width(c)
    ensures Utf8Value(Utf8Bytes(c)) == c as int
    ensures 0 <= Utf8Bytes(c)[0] < 0x80 || 0xC2 <= Utf8Bytes(c)[0] < 0xF5
    ensures forall i :: 0 < i < |Utf8Bytes(c)| ==> 0x80 <= Utf8Bytes(c)[i] < 0xC0
  {
    hide Continued;
    hide Continuation;
    var n := c as int;
    ContinuationReadsBack(n);
    ContinuationReadsBack(n / 0x40);
    ContinuationReadsBack(n / 0x40 / 0x40);
  }

  // Two prefixes of one text with the same byte length are the same prefix.
  lemma {:induction false} PrefixByLength(a: string, x: string, b: string, y: string)
    requires a + x == b + y
    requires Utf8Len(a) == Utf8Len(b)
    ensures a == b && x == y
  {
    if a == "" || b == "" {
      assert a == "" && b == "";
      assert a + x == x && b + y == y;
    } else {
      assert (a + x)[0] == a[0] && (b + y)[0] == b[0];
      assert (a + x)[1..] == a[1..] + x && (b + y)[1..] == b[1..] + y;
      PrefixByLength(a[1..], x, b[1..], y);
    }
  }

  // ---- length-prefixed fields -------------------------------------------

  function LengthSafeField(f: string): (r: string)
    ensures |r| > 0
  {
    Itoa(Utf8Len(f)) + ":" + f
  }

  // lengthSafeFields: every field is preceded by its byte length and a colon.
  function LengthSafeFields(fields: seq<string>): string {
    if fields == [] then "" else LengthSafeField(fields[0]) + LengthSafeFields(fields[1..])
  }

  lemma LengthSafeFieldUnique(f: string, x: string, g: string, y: string)
    requires LengthSafeField(f) + x == LengthSafeField(g) + y
    ensures f == g && x == y
  {
    var m, n := Utf8Len(f), Utf8Len(g);
    ItoaAvoids(m, ':');
    ItoaAvoids(n, ':');
    assert LengthSafeField(f) + x == Itoa(m) + [':'] + (f + x);
    assert LengthSafeField(g) + y == Itoa(n) + [':'] + (g + y);
    SplitAtFirst(':', Itoa(m), f + x, Itoa(n), g + y);
    ItoaInjective(m, n);
    PrefixByLength(f, x, g, y);
  }

  lemma ConcatAssociative(a: string, b: string, c: string)
    ensures (a + b) + c == a + (b + c)
  {
  }

  // The same number of fields can be read back whatever follows them.
  lemma {:induction false} LengthSafeFieldsPrefix(fs: seq<string>, x: string, gs: seq<string>, y: string)
    requires |fs| == |gs|
    requires LengthSafeFields(fs) + x == LengthSafeFields(gs) + y
    ensures fs == gs && x == y
  {
    if fs == [] {
      assert LengthSafeFields(fs) + x == x && LengthSafeFields(gs) + y == y;
    } else {
      ConcatAssociative(LengthSafeField(fs[0]), LengthSafeFields(fs[1..]), x);
      ConcatAssociative(LengthSafeField(gs[0]), LengthSafeFields(gs[1..]), y);
      LengthSafeFieldUnique(fs[0], LengthSafeFields(fs[1..]) + x, gs[0], LengthSafeFields(gs[1..]) + y);
      LengthSafeFieldsPrefix(fs[1..], x, gs[1..], y);
    }
  }

  // Unique decodability: arbitrary contents, and even an unknown field count.
  lemma {:induction false} LengthSafeFieldsInjective(fs: seq<string>, gs: seq<string>)
    ensures LengthSafeFields(fs) == LengthSafeFields(gs) <==> fs == gs
  {
    if fs != [] && gs != [] && LengthSafeFields(fs) == LengthSafeFields(gs) {
      LengthSafeFieldUnique(fs[0], LengthSafeFields(fs[1..]), gs[0], LengthSafeFields(gs[1..]));
      LengthSafeFieldsInjective(fs[1..], gs[1..]);
    }
  }

  // ---- byte order of strings ---------------------------------------------

  // The order of sort.Strings and of SQLite's BINARY collation; UTF-8 keeps the
  // order of code points.
  predicate StringLe(a: string, b: string) {
    if a == "" then true
    else if b == "" then false
    else a[0] < b[0] || (a[0] == b[0] && StringLe(a[1..], b[1..]))
  }

  lemma {:induction false} StringLeTotal(a: string, b: string)
    ensures StringLe(a, b) || StringLe(b, a)
    ensures StringLe(a, b) && StringLe(b, a) ==> a == b
  {
    if a != "" && b != "" {
      StringLeTotal(a[1..], b[1..]);
      assert a == [a[0]] + a[1..] && b == [b[0]] + b[1..];
    }
  }

  lemma {:induction false} StringLeTransitive(a: string, b: string, c: string)
    requires StringLe(a, b) && StringLe(b, c)
    ensures StringLe(a, c)
  {
    if a != "" && b != "" && c != "" && a[0] == b[0] == c[0] {
      StringLeTransitive(a[1..], b[1..], c[1..]);
    }
  }

  // What the order compares: a beginning comes first, and so does the text that has
  // the smaller character where the two first differ.
  lemma StringLeExactly(a: string, b: string)
    ensures StringLe(a, b) <==>
            a <= b || exists i :: 0 <= i < |a| && i < |b| && a[i] < b[i] && a[..i] == b[..i]
  {
    hide StringLe;
    if StringLe(a, b) && !(a <= b) {
      var i := FirstDifference(a, b);
      assert a[i] < b[i] && a[..i] == b[..i];
    }
    if a <= b {
      DiffersAt(a, b, |a|);
    }
    forall i: nat | i < |a| && i < |b| && a[i] < b[i] && a[..i] == b[..i] ensures StringLe(a, b) {
      DiffersAt(a, b, i);
    }
  }

  lemma {:induction false} FirstDifference(a: string, b: string) returns (i: nat)
    requires StringLe(a, b) && !(a <= b)
    ensures i < |a| && i < |b| && a[i] < b[i] && a[..i] == b[..i]
  {
    i := 0;
    if a[0] == b[0] {
      assert a == [a[0]] + a[1..] && b == [b[0]] + b[1..];
      i := FirstDifference(a[1..], b[1..]);
      assert a[..i + 1] == [a[0]] + a[1..][..i] && b[..i + 1] == [b[0]] + b[1..][..i];
      i := i + 1;
    }
  }

  lemma {:induction false} DiffersAt(a: string, b: string, i: nat)
    requires i <= |a| && i <= |b| && a[..i] == b[..i]
    requires i == |a| || (i < |b| && a[i] < b[i])
    ensures StringLe(a, b)
    decreases i
  {
    if i > 0 {
      assert a[..i][0] == a[0] && b[..i][0] == b[0];
      assert a[1..][..i - 1] == a[..i][1..] && b[1..][..i - 1] == b[..i][1..];
      DiffersAt(a[1..], b[1..], i - 1);
    }
  }

  // ---- trimming ------------------------------------------------------------

  // unicode.IsSpace: the characters strings.TrimSpace removes.
  predicate IsSpace(c: char) {
    var n := c as int;
    n == 0x20 || 0x09 <= n <= 0x0D || n == 0x85 || n == 0xA0 || n == 0x1680
    || 0x2000 <= n <= 0x200A || n == 0x2028 || n == 0x2029 || n == 0x202F
    || n == 0x205F || n == 0x3000
  }

  function TrimLeft(s: string): string {
    if s != "" && IsSpace(s[0]) then TrimLeft(s[1..]) else s
  }

  function TrimRight(s: string): string {
    if s != "" && IsSpace(s[|s| - 1]) then TrimRight(s[..|s| - 1]) else s
  }

  function TrimSpace(s: string): string {
    TrimRight(TrimLeft(s))
  }

  // What is trimmed: spaces at both ends, all of them and nothing else.
  lemma {:induction false} TrimLeftExactly(s: string) returns (n: nat)
    ensures n <= |s| && TrimLeft(s) == s[n..] && (forall i :: 0 <= i < n ==> IsSpace(s[i]))
    ensures n < |s| ==> !IsSpace(s[n])
  {
    hide IsSpace;
    n := 0;
    if s != "" && IsSpace(s[0]) {
      n := TrimLeftExactly(s[1..]);
      n := n + 1;
    }
  }

  lemma {:induction false} TrimRightExactly(s: string) returns (n: nat)
    ensures n <= |s| && TrimRight(s) == s[..n] && (forall i :: n <= i < |s| ==> IsSpace(s[i]))
    ensures n > 0 ==> !IsSpace(s[n - 1])
  {
    hide IsSpace;
    n := |s|;
    if s != "" && IsSpace(s[|s| - 1]) {
      n := TrimRightExactly(s[..|s| - 1]);
    }
  }

  lemma TrimSpaceExactly(s: string) returns (from: nat, to: nat)
    ensures from <= to <= |s| && TrimSpace(s) == s[from..to]
    ensures forall i :: 0 <= i < from || to <= i < |s| ==> IsSpace(s[i])
    ensures from < to ==> !IsSpace(s[from]) && !IsSpace(s[to - 1])
  {
    hide IsSpace;
    from := TrimLeftExactly(s);
    var left := TrimLeft(s);
    var n := TrimRightExactly(left);
    to := from + n;
    assert forall i :: n <= i < |left| ==> left[i] == s[from + i];
    assert forall i :: to <= i < |s| ==> s[i] == left[i - from];
  }

  // A text is blank when trimming leaves nothing: it has only spaces.
  lemma BlankExactly(s: string)
    ensures TrimSpace(s) == "" <==> forall i :: 0 <= i < |s| ==> IsSpace(s[i])
  {
    hide IsSpace;
    hide TrimSpace;
    var from, to := TrimSpaceExactly(s);
    assert from < to ==> TrimSpace(s)[0] == s[from];
  }

  // ---- letter case ---------------------------------------------------------

  function LowerChar(c: char): char {
    if 'A' <= c <= 'Z' then (c as int + 32) as char else c
  }

  // strings.ToLower on ASCII text.
  function Lower(s: string): string {
    if s == "" then "" else [LowerChar(s[0])] + Lower(s[1..])
  }

  lemma {:induction false} LowerAt(s: string)
    ensures |Lower(s)| == |s|
    ensures forall i :: 0 <= i < |s| ==>
              Lower(s)[i] == if 'A' <= s[i] <= 'Z' then (s[i] as int - 'A' as int + 'a' as int) as char else s[i]
  {
    if s != "" {
      LowerAt(s[1..]);
    }
  }
}
