/** encoding/json's object encoding, as far as the ledger hashes it: fixed keys,
    string and integer values. Equal texts come only from equal values, and no
    text holds a line break. */
module CanonicalJson {
  import opened Text

  // A hexadecimal digit, 0-9 then a-f.
  function HexDigit(n: nat): (c: char)
    requires n < 16
    ensures '0' <= c
  {
    (if n < 10 then n + 48 else n + 87) as char
  }

  function Hex4(n: nat): (s: string)
    requires n < 0x10000
    ensures |s| == 4 && '\n' !in s
  {
    [HexDigit(n / 16 / 16 / 16), HexDigit(n / 16 / 16 % 16), HexDigit(n / 16 % 16), HexDigit(n % 16)]
  }

  lemma HexDigitInjective(a: nat, b: nat)
    requires a < 16 && b < 16 && HexDigit(a) == HexDigit(b)
    ensures a == b
  {
  }

  lemma Hex4Injective(m: nat, n: nat)
    requires m < 0x10000 && n < 0x10000 && Hex4(m) == Hex4(n)
    ensures m == n
  {
    hide HexDigit;
    assert Hex4(m)[0] == Hex4(n)[0] && Hex4(m)[1] == Hex4(n)[1] && Hex4(m)[2] == Hex4(n)[2] && Hex4(m)[3] == Hex4(n)[3];
    HexDigitInjective(m / 16 / 16 / 16, n / 16 / 16 / 16);
    HexDigitInjective(m / 16 / 16 % 16, n / 16 / 16 % 16);
    HexDigitInjective(m / 16 % 16, n / 16 % 16);
    HexDigitInjective(m % 16, n % 16);
  }

  // The characters json.Marshal does not copy: quotes, control characters, the
  // HTML-sensitive ones and the two line separators.
  predicate IsEscaped(c: char) {
    c == '\"' || c == '\\' || c as int < 0x20 || c == '<' || c == '>' || c == '&'
    || c as int == 0x2028 || c as int == 0x2029
  }

  function Escape(c: char): (s: string)
    ensures |s| > 0
  {
    if !IsEscaped(c) then [c]
    else if c == '\"' then ['\\', '\"']
    else if c == '\\' then ['\\', '\\']
    else if c as int == 0x08 then "\\b"
    else if c as int == 0x0C then "\\f"
    else if c as int == 0x0A then "\\n"
    else if c as int == 0x0D then "\\r"
    else if c as int == 0x09 then "\\t"
    else "\\u" + Hex4(c as int)
  }

  function EscapeAll(s: string): string {
    if s == "" then "" else Escape(s[0]) + EscapeAll(s[1..])
  }

  function Quote(s: string): string {
    "\"" + EscapeAll(s) + "\""
  }

  lemma EscapeNeverQuotes(c: char)
    ensures Escape(c)[0] != '\"'
    ensures Escape(c)[0] == '\\' <==> IsEscaped(c)
    ensures '\n' !in Escape(c)
  {
    hide HexDigit;
  }

  // The second character of an escape names it, unless it is numeric.
  lemma EscapePrefixFree(c: char, x: string, d: char, y: string)
    requires Escape(c) + x == Escape(d) + y
    ensures c == d && x == y
  {
    hide Hex4;
    var a, b := Escape(c), Escape(d);
    EscapeNeverQuotes(c);
    EscapeNeverQuotes(d);
    assert (a + x)[0] == a[0] && (b + y)[0] == b[0];
    if IsEscaped(c) {
      assert (a + x)[1] == a[1] && (b + y)[1] == b[1];
      if a[1] == 'u' {
        assert (a + x)[2..6] == Hex4(c as int) && (b + y)[2..6] == Hex4(d as int);
        Hex4Injective(c as int, d as int);
      }
    }
    assert c == d;
    assert x == (a + x)[|a|..] && y == (b + y)[|b|..];
  }

  // An escaped text closed by a quote, and what follows it.
  function Closed(s: string, rest: string): string {
    EscapeAll(s) + "\"" + rest
  }

  // It starts with the quote exactly when nothing is left to escape.
  lemma ClosedStart(s: string, rest: string)
    ensures |Closed(s, rest)| > 0
    ensures Closed(s, rest)[0] == '\"' <==> s == ""
    ensures s == "" ==> Closed(s, rest)[1..] == rest
    ensures s != "" ==> Closed(s, rest) == Escape(s[0]) + Closed(s[1..], rest)
  {
    hide Escape;
    if s != "" {
      EscapeNeverQuotes(s[0]);
      assert Closed(s, rest) == Escape(s[0]) + Closed(s[1..], rest);
    }
  }

  lemma {:induction false} EscapeAllEnds(a: string, x: string, b: string, y: string)
    requires Closed(a, x) == Closed(b, y)
    ensures a == b && x == y
  {
    hide Closed;
    hide Escape;
    ClosedStart(a, x);
    ClosedStart(b, y);
    if a != "" {
      EscapePrefixFree(a[0], Closed(a[1..], x), b[0], Closed(b[1..], y));
      EscapeAllEnds(a[1..], x, b[1..], y);
      assert a == [a[0]] + a[1..] && b == [b[0]] + b[1..];
    }
  }

  lemma QuoteEnds(a: string, x: string, b: string, y: string)
    requires Quote(a) + x == Quote(b) + y
    ensures a == b && x == y
  {
    hide EscapeAll;
    assert (Quote(a) + x)[1..] == Closed(a, x);
    assert (Quote(b) + y)[1..] == Closed(b, y);
    EscapeAllEnds(a, x, b, y);
  }

  lemma {:induction false} EscapeAllOneLine(s: string)
    ensures '\n' !in EscapeAll(s)
  {
    if s != "" {
      EscapeNeverQuotes(s[0]);
      EscapeAllOneLine(s[1..]);
    }
  }

  // ---- objects ----------------------------------------------------------------

  datatype Value = Str(text: string) | Num(number: int)

  function ValueText(v: Value): string {
    match v
    case Str(text) => Quote(text)
    case Num(number) => Itoa(number)
  }

  // Members after the first are preceded by a comma.
  function Members(keys: seq<string>, values: seq<Value>): string
    requires |keys| == |values|
  {
    if keys == [] then "}"
    else "," + Quote(keys[0]) + ":" + ValueText(values[0]) + Members(keys[1..], values[1..])
  }

  // json.Marshal of a struct with these field names.
  function Object(keys: seq<string>, values: seq<Value>): string
    requires |keys| == |values|
  {
    "{" + Members(keys, values)[1..]
  }

  predicate SameKinds(v: seq<Value>, w: seq<Value>) {
    |v| == |w| && forall k :: 0 <= k < |v| ==> (v[k].Str? <==> w[k].Str?)
  }

  lemma MembersStart(keys: seq<string>, values: seq<Value>)
    requires |keys| == |values|
    ensures var m := Members(keys, values);
            |m| > 0 && m[0] == if keys == [] then '}' else ','
  {
  }

  // A number ends at the first character that cannot belong to it.
  lemma NumberEnds(m: int, x: string, n: int, y: string)
    requires |x| > 0 && |y| > 0 && !IsDigit(x[0]) && !IsDigit(y[0]) && x[0] != '-' && y[0] != '-'
    requires Itoa(m) + x == Itoa(n) + y
    ensures m == n && x == y
  {
    var a, b := Itoa(m), Itoa(n);
    ItoaAvoids(m, x[0]);
    ItoaAvoids(n, x[0]);
    ItoaAvoids(m, y[0]);
    ItoaAvoids(n, y[0]);
    var left, right := a + x, b + y;
    assert left[|a|] == x[0] && right[|b|] == y[0];
    assert forall i :: 0 <= i < |a| ==> left[i] == a[i];
    assert forall i :: 0 <= i < |b| ==> right[i] == b[i];
    assert |a| == |b|;
    assert a == left[..|a|] && b == right[..|b|];
    ItoaInjective(m, n);
    assert x == left[|a|..] && y == right[|b|..];
  }

  lemma ValueEnds(v: Value, x: string, w: Value, y: string)
    requires v.Str? <==> w.Str?
    requires |x| > 0 && |y| > 0 && (x[0] == ',' || x[0] == '}') && (y[0] == ',' || y[0] == '}')
    requires ValueText(v) + x == ValueText(w) + y
    ensures v == w && x == y
  {
    match v
    case Str(text) => QuoteEnds(text, x, w.text, y);
    case Num(number) => NumberEnds(number, x, w.number, y);
  }

  lemma Prefixed(p: string, x: string, y: string)
    requires p + x == p + y
    ensures x == y
  {
    assert x == (p + x)[|p|..] && y == (p + y)[|p|..];
  }

  // The text of the first member, and of the members after it.
  lemma MembersSplit(keys: seq<string>, values: seq<Value>)
    requires |keys| == |values| > 0
    ensures Members(keys, values) ==
            ("," + Quote(keys[0]) + ":") + (ValueText(values[0]) + Members(keys[1..], values[1..]))
  {
    hide Quote;
    hide ValueText;
    ConcatAssociative("," + Quote(keys[0]) + ":", ValueText(values[0]), Members(keys[1..], values[1..]));
  }

  lemma {:induction false} MembersInjective(keys: seq<string>, v: seq<Value>, w: seq<Value>)
    requires |keys| == |v| && SameKinds(v, w)
    requires Members(keys, v) == Members(keys, w)
    ensures v == w
  {
    if keys != [] {
      MembersSplit(keys, v);
      MembersSplit(keys, w);
      MembersStart(keys[1..], v[1..]);
      MembersStart(keys[1..], w[1..]);
      hide Members;
      hide Quote;
      hide ValueText;
      var x, y := Members(keys[1..], v[1..]), Members(keys[1..], w[1..]);
      Prefixed("," + Quote(keys[0]) + ":", ValueText(v[0]) + x, ValueText(w[0]) + y);
      ValueEnds(v[0], x, w[0], y);
      MembersInjective(keys[1..], v[1..], w[1..]);
      assert v == [v[0]] + v[1..] && w == [w[0]] + w[1..];
    }
  }

  // Two objects of one struct type encode alike exactly when they are equal.
  lemma ObjectInjective(keys: seq<string>, v: seq<Value>, w: seq<Value>)
    requires |keys| == |v| && SameKinds(v, w)
    ensures Object(keys, v) == Object(keys, w) <==> v == w
  {
    hide Members;
    MembersStart(keys, v);
    MembersStart(keys, w);
    if Object(keys, v) == Object(keys, w) {
      var a, b := Members(keys, v), Members(keys, w);
      Prefixed("{", a[1..], b[1..]);
      assert a == [a[0]] + a[1..] && b == [b[0]] + b[1..];
      MembersInjective(keys, v, w);
    }
  }

  lemma {:induction false} MembersOneLine(keys: seq<string>, values: seq<Value>)
    requires |keys| == |values|
    ensures '\n' !in Members(keys, values)
  {
    hide EscapeAll;
    if keys != [] {
      EscapeAllOneLine(keys[0]);
      if values[0].Str? { EscapeAllOneLine(values[0].text); } else { ItoaAvoids(values[0].number, '\n'); }
      MembersOneLine(keys[1..], values[1..]);
    }
  }

  lemma ObjectOneLine(keys: seq<string>, values: seq<Value>)
    requires |keys| == |values|
    ensures '\n' !in Object(keys, values)
  {
    MembersStart(keys, values);
    MembersOneLine(keys, values);
  }

  // An encoded text can stand in HTML and in a script: it has none of the characters that
  // could end either, and no control character.
  predicate Harmless(c: char) {
    c != '<' && c != '>' && c != '&' && c as int >= 0x20 && c as int != 0x2028 && c as int != 0x2029
  }

  lemma EscapeIsHarmless(c: char)
    ensures forall i :: 0 <= i < |Escape(c)| ==> Harmless(Escape(c)[i])
  {
    HexIsHarmless(if c as int < 0x10000 then c as int else 0);
    hide Hex4;
    if c as int < 0x10000 && Escape(c) == "\\u" + Hex4(c as int) {
      assert forall i :: 2 <= i < |Escape(c)| ==> Escape(c)[i] == Hex4(c as int)[i - 2];
    }
  }

  lemma HexIsHarmless(n: nat)
    requires n < 0x10000
    ensures forall i :: 0 <= i < 4 ==> Harmless(Hex4(n)[i])
  {
  }

  lemma {:induction false} EscapeAllIsHarmless(s: string)
    ensures forall i :: 0 <= i < |EscapeAll(s)| ==> Harmless(EscapeAll(s)[i])
  {
    hide Escape;
    if s != "" {
      EscapeAllIsHarmless(s[1..]);
      EscapeIsHarmless(s[0]);
    }
  }

  // ---- reading a string back -----------------------------------------------------------

  datatype Read<T> = Nothing | Got(value: T, rest: string)

  function HexValue(c: char): int {
    if '0' <= c <= '9' then c as int - '0' as int
    else if 'a' <= c <= 'f' then c as int - 'a' as int + 10
    else if 'A' <= c <= 'F' then c as int - 'A' as int + 10
    else -1
  }

  // Four hexadecimal digits; surrogates are not characters.
  function ReadHex4(t: string): Read<char> {
    if |t| < 4 then Nothing
    else
      var a, b, c, d := HexValue(t[0]), HexValue(t[1]), HexValue(t[2]), HexValue(t[3]);
      if a < 0 || b < 0 || c < 0 || d < 0 then Nothing
      else
        var n := a * 4096 + b * 256 + c * 16 + d;
        if 0xD800 <= n < 0xE000 || n >= 0x10000 then Nothing else Got(n as char, t[4..])
  }

  // One character of a string, as section 7 of RFC 8259 defines it.
  function ReadChar(t: string): Read<char> {
    if t == "" || t[0] == '\"' || t[0] as int < 0x20 then Nothing
    else if t[0] != '\\' then Got(t[0], t[1..])
    else if |t| < 2 then Nothing
    else if t[1] == '\"' || t[1] == '\\' || t[1] == '/' then Got(t[1], t[2..])
    else if t[1] == 'b' then Got(8 as char, t[2..])
    else if t[1] == 'f' then Got(12 as char, t[2..])
    else if t[1] == 'n' then Got('\n', t[2..])
    else if t[1] == 'r' then Got('\r', t[2..])
    else if t[1] == 't' then Got('\t', t[2..])
    else if t[1] == 'u' then ReadHex4(t[2..])
    else Nothing
  }

  lemma ReadCharShrinks(t: string)
    ensures ReadChar(t).Got? ==> |ReadChar(t).rest| < |t|
  {
    hide HexValue;
  }

  // What follows an opening quote, up to the closing one.
  function ReadString(t: string): Read<string>
    decreases |t|
  {
    if t == "" then Nothing
    else if t[0] == '\"' then Got("", t[1..])
    else
      ReadCharShrinks(t);
      var c := ReadChar(t);
      if c.Nothing? then Nothing
      else
        var rest := ReadString(c.rest);
        if rest.Nothing? then Nothing else Got([c.value] + rest.value, rest.rest)
  }

  lemma HexReadsBack(n: nat, rest: string)
    requires n < 0xD800
    ensures ReadHex4(Hex4(n) + rest) == Got(n as char, rest)
  {
    var a, b, c, d := n / 16 / 16 / 16, n / 16 / 16 % 16, n / 16 % 16, n % 16;
    var t := Hex4(n) + rest;
    assert HexValue(t[0]) == a && HexValue(t[1]) == b && HexValue(t[2]) == c && HexValue(t[3]) == d;
    assert a * 4096 + b * 256 + c * 16 + d == n;
    assert t[4..] == rest;
  }

  lemma EscapeReadsBack(c: char, rest: string)
    ensures ReadChar(Escape(c) + rest) == Got(c, rest)
  {
    hide ReadHex4;
    hide Hex4;
    var t := Escape(c) + rest;
    if !IsEscaped(c) {
      assert t[1..] == rest;
    } else {
      assert |Escape(c)| == 2 ==> t[2..] == rest;
      if Escape(c) == "\\u" + Hex4(c as int) {
        assert t[2..] == Hex4(c as int) + rest;
        HexReadsBack(c as int, rest);
      }
    }
  }

  // Main result: whatever a text holds, its encoding is read back as that text, and what
  // follows it is left alone.
  lemma {:induction false} QuoteReadsBack(s: string, rest: string)
    ensures ReadString((Quote(s) + rest)[1..]) == Got(s, rest)
  {
    hide Escape;
    hide ReadChar;
    assert (Quote(s) + rest)[1..] == Closed(s, rest);
    ClosedStart(s, rest);
    if s != "" {
      assert (Quote(s[1..]) + rest)[1..] == Closed(s[1..], rest);
      QuoteReadsBack(s[1..], rest);
      EscapeReadsBack(s[0], Closed(s[1..], rest));
      assert s == [s[0]] + s[1..];
    }
  }

  // ---- reading an object back ------------------------------------------------------------

  datatype Pair = Pair(name: string, value: Value)

  lemma {:induction false} ReadStringShrinks(t: string)
    ensures ReadString(t).Got? ==> |ReadString(t).rest| < |t|
    decreases |t|
  {
    hide ReadChar;
    if t != "" && t[0] != '\"' {
      ReadCharShrinks(t);
      if ReadChar(t).Got? {
        ReadStringShrinks(ReadChar(t).rest);
      }
    }
  }

  // How many digits a text starts with.
  function DigitsAhead(t: string): (n: nat)
    ensures n <= |t| && AllDigits(t[..n])
  {
    if t == "" || !IsDigit(t[0]) then 0 else 1 + DigitsAhead(t[1..])
  }

  function ReadNumber(t: string): Read<int> {
    var signed := t != "" && t[0] == '-';
    var digits := if signed then t[1..] else t;
    var n := DigitsAhead(digits);
    if n == 0 then Nothing
    else Got(if signed then 0 - DigitsValue(digits[..n]) else DigitsValue(digits[..n]), digits[n..])
  }

  // A string or a whole number.
  function ReadValue(t: string): Read<Value> {
    if t != "" && t[0] == '\"' then
      match ReadString(t[1..])
      case Nothing => Nothing
      case Got(text, rest) => Got(Str(text), rest)
    else
      match ReadNumber(t)
      case Nothing => Nothing
      case Got(number, rest) => Got(Num(number), rest)
  }

  lemma ReadValueShrinks(t: string)
    ensures ReadValue(t).Got? ==> |ReadValue(t).rest| < |t|
  {
    hide ReadString;
    if t != "" && t[0] == '\"' {
      ReadStringShrinks(t[1..]);
    }
  }

  // A comma, a name, a colon and a value.
  function ReadPair(t: string): (r: Read<Pair>)
    ensures r.Got? ==> |r.rest| < |t|
  {
    if |t| < 2 || t[0] != ',' || t[1] != '\"' then Nothing
    else
      ReadStringShrinks(t[2..]);
      match ReadString(t[2..])
      case Nothing => Nothing
      case Got(name, rest) =>
        if rest == "" || rest[0] != ':' then Nothing
        else
          ReadValueShrinks(rest[1..]);
          match ReadValue(rest[1..])
          case Nothing => Nothing
          case Got(value, end) => Got(Pair(name, value), end)
  }

  function ReadPairs(t: string): Read<seq<Pair>>
    decreases |t|
  {
    if t != "" && t[0] == '}' then Got([], t[1..])
    else
      match ReadPair(t)
      case Nothing => Nothing
      case Got(pair, rest) =>
        match ReadPairs(rest)
        case Nothing => Nothing
        case Got(pairs, end) => Got([pair] + pairs, end)
  }

  // An object with at least one member.
  function ReadObject(t: string): Read<seq<Pair>> {
    if t == "" || t[0] != '{' then Nothing else ReadPairs("," + t[1..])
  }

  function Pairs(keys: seq<string>, values: seq<Value>): seq<Pair>
    requires |keys| == |values|
  {
    if keys == [] then [] else [Pair(keys[0], values[0])] + Pairs(keys[1..], values[1..])
  }

  lemma {:induction false} DigitsAheadOf(s: string, rest: string)
    requires AllDigits(s) && (rest == "" || !IsDigit(rest[0]))
    ensures DigitsAhead(s + rest) == |s|
  {
    if s == "" {
      assert s + rest == rest;
    } else {
      assert (s + rest)[1..] == s[1..] + rest;
      DigitsAheadOf(s[1..], rest);
    }
  }

  // A sign, if there is one, and the digits of a number.
  lemma SignedReadsBack(m: nat, sign: string, rest: string)
    requires (rest == "" || !IsDigit(rest[0])) && (sign == "" || sign == "-")
    ensures ReadNumber(sign + Digits(m) + rest) == Got(if sign == "-" then 0 - m else m, rest)
  {
    hide Digits;
    hide DigitsValue;
    hide DigitsAhead;
    var digits, t := Digits(m), sign + Digits(m) + rest;
    DigitsAheadOf(digits, rest);
    DigitsRoundTrip(m);
    assert IsDigit(digits[0]);
    assert t[|sign|..] == digits + rest;
    if sign == "" {
      assert t[0] == digits[0];
      assert t == digits + rest;
    } else {
      assert t[0] == '-' && t[1..] == digits + rest;
    }
    assert (digits + rest)[..|digits|] == digits && (digits + rest)[|digits|..] == rest;
  }

  lemma NumberReadsBack(n: int, rest: string)
    requires rest == "" || !IsDigit(rest[0])
    ensures ReadNumber(Itoa(n) + rest) == Got(n, rest)
  {
    hide Digits;
    hide ReadNumber;
    if n < 0 {
      SignedReadsBack(0 - n, "-", rest);
    } else {
      SignedReadsBack(n, "", rest);
      assert "" + Digits(n) + rest == Digits(n) + rest;
    }
  }

  lemma ValueReadsBack(v: Value, rest: string)
    requires rest == "" || !IsDigit(rest[0])
    ensures ReadValue(ValueText(v) + rest) == Got(v, rest)
  {
    hide ReadString;
    hide ReadNumber;
    hide Itoa;
    hide EscapeAll;
    match v
    case Str(text) => QuoteReadsBack(text, rest);
    case Num(number) =>
      NumberReadsBack(number, rest);
      NumberStarts(number);
  }

  lemma NumberStarts(n: int)
    ensures Itoa(n)[0] != '\"'
  {
    hide Digits;
    assert n >= 0 ==> IsDigit(Digits(n)[0]);
  }

  lemma {:induction false} MembersReadBack(keys: seq<string>, values: seq<Value>)
    requires |keys| == |values|
    ensures ReadPairs(Members(keys, values)) == Got(Pairs(keys, values), "")
  {
    hide ReadString;
    hide ReadValue;
    hide ValueText;
    hide Quote;
    if keys != [] {
      var tail := Members(keys[1..], values[1..]);
      MembersStart(keys[1..], values[1..]);
      MembersReadBack(keys[1..], values[1..]);
      MemberReadsBack(keys[0], values[0], tail);
    } else {
      assert "}"[1..] == "";
    }
  }

  lemma MemberReadsBack(key: string, value: Value, tail: string)
    requires tail == "" || !IsDigit(tail[0])
    ensures var t := "," + Quote(key) + ":" + ValueText(value) + tail;
            t[0] == ',' && ReadPair(t) == Got(Pair(key, value), tail)
  {
    hide ReadString;
    hide ReadValue;
    hide ValueText;
    var rest := ":" + ValueText(value) + tail;
    var t := "," + Quote(key) + ":" + ValueText(value) + tail;
    QuoteReadsBack(key, rest);
    ValueReadsBack(value, tail);
    assert t[2..] == (Quote(key) + rest)[1..];
    assert rest[1..] == ValueText(value) + tail;
  }

  // Main result: the encoded object is read back with the same names and values, in the
  // same order, whatever they hold.
  lemma ObjectReadsBack(keys: seq<string>, values: seq<Value>)
    requires |keys| == |values| && keys != []
    ensures ReadObject(Object(keys, values)) == Got(Pairs(keys, values), "")
  {
    hide ReadPairs;
    hide Members;
    MembersStart(keys, values);
    MembersReadBack(keys, values);
    assert "," + Object(keys, values)[1..] == Members(keys, values);
  }
}
