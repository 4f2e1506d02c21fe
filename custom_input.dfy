/** The custom array input (`parseCustomArray`): the text is split at commas,
    each token is trimmed and read with JavaScript's `parseInt`, tokens that
    are not a number or not positive are dropped, and the rest are clamped to
    the largest bar value. */
module CustomInput {
  import opened Steps

  /** `MAX_ARRAY_VALUE`, `MIN_ARRAY_VALUE` and `DEFAULT_ARRAY_SIZE`. */
  const MaxArrayValue := 400
  const MinArrayValue := 10
  const DefaultArraySize := 15

  // ---- String.prototype.trim ----

  /** JavaScript's white space and line terminators, the characters `trim`
      and `parseInt` skip. */
  predicate IsSpace(c: char) {
    c == '\t' || c == '\n' || c == '\U{000B}' || c == '\U{000C}' || c == '\r' || c == ' ' ||
    c == '\U{00A0}' || c == '\U{1680}' || ('\U{2000}' <= c <= '\U{200A}') ||
    c == '\U{2028}' || c == '\U{2029}' || c == '\U{202F}' || c == '\U{205F}' ||
    c == '\U{3000}' || c == '\U{FEFF}'
  }

  /** The number of white space characters s starts with. */
  function LeadingSpaces(s: string): (n: nat)
    ensures n <= |s|
  {
    if |s| > 0 && IsSpace(s[0]) then 1 + LeadingSpaces(s[1..]) else 0
  }

  /** The number of white space characters s ends with. */
  function TrailingSpaces(s: string): (n: nat)
    ensures n <= |s|
  {
    if |s| > 0 && IsSpace(s[|s| - 1]) then 1 + TrailingSpaces(s[..|s| - 1]) else 0
  }

  function TrimStart(s: string): string {
    s[LeadingSpaces(s)..]
  }

  function TrimEnd(s: string): string {
    s[..|s| - TrailingSpaces(s)]
  }

  /** `trim()`: both ends without white space. */
  function Trim(s: string): string {
    TrimEnd(TrimStart(s))
  }

  /** TrimStart removes the longest prefix of white space: everything
      removed is white space, and what is left starts with something else. */
  lemma {:induction false} TrimStartRemovesSpaces(s: string)
    ensures forall k :: 0 <= k < LeadingSpaces(s) ==> IsSpace(s[k])
    ensures |TrimStart(s)| > 0 ==> !IsSpace(TrimStart(s)[0])
  {
    if |s| > 0 && IsSpace(s[0]) {
      TrimStartRemovesSpaces(s[1..]);
      assert TrimStart(s) == TrimStart(s[1..]);
      forall k | 0 <= k < LeadingSpaces(s) ensures IsSpace(s[k]) {
        if k > 0 {
          assert s[k] == s[1..][k - 1];
        }
      }
    }
  }

  /** TrimEnd removes the longest suffix of white space. */
  lemma {:induction false} TrimEndRemovesSpaces(s: string)
    ensures forall k :: |s| - TrailingSpaces(s) <= k < |s| ==> IsSpace(s[k])
    ensures |TrimEnd(s)| > 0 ==> !IsSpace(TrimEnd(s)[|TrimEnd(s)| - 1])
  {
    if |s| > 0 && IsSpace(s[|s| - 1]) {
      var init := s[..|s| - 1];
      TrimEndRemovesSpaces(init);
      assert TrimEnd(s) == TrimEnd(init);
      forall k | |s| - TrailingSpaces(s) <= k < |s| ensures IsSpace(s[k]) {
        if k < |s| - 1 {
          assert s[k] == init[k];
        }
      }
    }
  }

  /** A text that neither starts nor ends with white space is its own trim. */
  lemma TrimKeeps(s: string)
    requires |s| > 0 && !IsSpace(s[0]) && !IsSpace(s[|s| - 1])
    ensures Trim(s) == s
  {
    assert TrimStart(s) == s[0..] == s;
  }

  // ---- parseInt(s) with no radix ----

  predicate IsDigit(c: char, radix: int) {
    ('0' <= c <= '9') || (radix == 16 && (('a' <= c <= 'f') || ('A' <= c <= 'F')))
  }

  /** The value of a digit character; 0 for any other character. */
  function DigitOf(c: char): (d: nat)
    ensures d < 16 && (IsDigit(c, 10) ==> d < 10)
  {
    if '0' <= c <= '9' then c as int - '0' as int
    else if 'a' <= c <= 'f' then c as int - 'a' as int + 10
    else if 'A' <= c <= 'F' then c as int - 'A' as int + 10
    else 0
  }

  /** The length of the longest prefix of s made of digits of the radix. */
  function DigitRun(s: string, radix: int): (n: nat)
    ensures n <= |s|
  {
    if |s| > 0 && IsDigit(s[0], radix) then 1 + DigitRun(s[1..], radix) else 0
  }

  /** DigitRun is the longest run of digits: all digits, and the character
      after it (if any) is not one. */
  lemma {:induction false} DigitRunIsLongest(s: string, radix: int)
    ensures forall k :: 0 <= k < DigitRun(s, radix) ==> IsDigit(s[k], radix)
    ensures DigitRun(s, radix) < |s| ==> !IsDigit(s[DigitRun(s, radix)], radix)
  {
    if |s| > 0 && IsDigit(s[0], radix) {
      DigitRunIsLongest(s[1..], radix);
      forall k | 0 <= k < DigitRun(s, radix) ensures IsDigit(s[k], radix) {
        if k > 0 {
          assert s[k] == s[1..][k - 1];
        }
      }
    }
  }

  /** The value of a string of digits, most significant first. */
  function DigitsValue(ds: string, radix: nat): nat {
    if ds == [] then 0 else DigitsValue(ds[..|ds| - 1], radix) * radix + DigitOf(ds[|ds| - 1])
  }

  /** The body of a number after its sign: hexadecimal after a `0x` or `0X`
      prefix, decimal otherwise; None when no digit follows. */
  function ParseMagnitude(u: string): (r: Option<nat>) {
    var hex := |u| >= 2 && u[0] == '0' && (u[1] == 'x' || u[1] == 'X');
    var radix := if hex then 16 else 10;
    var d := if hex then u[2..] else u;
    var n := DigitRun(d, radix);
    if n == 0 then None else Some(DigitsValue(d[..n], radix))
  }

  /** `parseInt(s)`: leading white space is skipped, one sign is read, and the
      longest run of digits after it gives the value; None is NaN. */
  function ParseInt(s: string): Option<int> {
    var t := TrimStart(s);
    var signed := |t| > 0 && (t[0] == '-' || t[0] == '+');
    var m := ParseMagnitude(if signed then t[1..] else t);
    if m.None? then None
    else
      var v: int := m.value;
      if signed && t[0] == '-' then Some(-v) else Some(v)
  }

  // ---- the token filter ----

  /** One token: NaN and values up to 0 are dropped (`null`), larger ones are
      capped at MaxArrayValue. */
  function ParseToken(token: string): (r: Option<int>)
    ensures r.Some? ==> 1 <= r.value <= MaxArrayValue
  {
    var num := ParseInt(Trim(token));
    if num.None? || num.value <= 0 then None
    else if num.value < MaxArrayValue then Some(num.value)
    else Some(MaxArrayValue)
  }

  /** `split(sep)`: the pieces between separators, empty ones included. */
  function Split(s: string, sep: char): (r: seq<string>)
    ensures |r| >= 1
    ensures forall k :: 0 <= k < |r| ==> sep !in r[k]
  {
    if s == [] then [[]]
    else
      var rest := Split(s[1..], sep);
      if s[0] == sep then [[]] + rest
      else [[s[0]] + rest[0]] + rest[1..]
  }

  /** The pieces glued back together with the separator between them. */
  function Join(pieces: seq<string>, sep: char): string {
    if pieces == [] then []
    else if |pieces| == 1 then pieces[0]
    else pieces[0] + [sep] + Join(pieces[1..], sep)
  }

  /** `.map(f)`: f applied to every element, in order. */
  function Map<T, U>(f: T -> U, xs: seq<T>): (r: seq<U>)
    ensures |r| == |xs|
  {
    if xs == [] then [] else [f(xs[0])] + Map(f, xs[1..])
  }

  /** The i-th mapped element is f of the i-th element. */
  lemma {:induction false} MapAt<T, U>(f: T -> U, xs: seq<T>, i: int)
    requires 0 <= i < |xs|
    ensures Map(f, xs)[i] == f(xs[i])
  {
    if i > 0 {
      MapAt(f, xs[1..], i - 1);
    }
  }

  /** Mapping commutes with concatenation. */
  lemma {:induction false} MapAppends<T, U>(f: T -> U, x1: seq<T>, x2: seq<T>)
    ensures Map(f, x1 + x2) == Map(f, x1) + Map(f, x2)
  {
    if x1 != [] {
      MapAppends(f, x1[1..], x2);
      assert (x1 + x2)[0] == x1[0] && (x1 + x2)[1..] == x1[1..] + x2;
      assert Map(f, x1 + x2) == [f(x1[0])] + (Map(f, x1[1..]) + Map(f, x2));
    } else {
      assert x1 + x2 == x2;
    }
  }

  /** `.filter(n => n !== null)`: the present values, in order. */
  function Present(xs: seq<Option<int>>): (r: seq<int>)
    ensures |r| <= |xs|
    ensures forall k :: 0 <= k < |r| ==> exists p :: 0 <= p < |xs| && xs[p] == Some(r[k])
  {
    if xs == [] then []
    else
      var rest := Present(xs[1..]);
      assert forall k :: 0 <= k < |rest| ==> exists p :: 0 <= p < |xs| && xs[p] == Some(rest[k]) by {
        forall k | 0 <= k < |rest| ensures exists p :: 0 <= p < |xs| && xs[p] == Some(rest[k]) {
          var p :| 0 <= p < |xs[1..]| && xs[1..][p] == Some(rest[k]);
          assert xs[p + 1] == Some(rest[k]);
        }
      }
      if xs[0].Some? then [xs[0].value] + rest else rest
  }

  function ParseCustomArray(input: string): (r: seq<int>)
    ensures |r| <= |Split(input, ',')|
    ensures forall k :: 0 <= k < |r| ==> 1 <= r[k] <= MaxArrayValue
  {
    var tokens := Split(input, ',');
    var parsed := Map(ParseToken, tokens);
    var r := Present(parsed);
    assert forall k :: 0 <= k < |r| ==> 1 <= r[k] <= MaxArrayValue by {
      forall k | 0 <= k < |r| ensures 1 <= r[k] <= MaxArrayValue {
        var p :| 0 <= p < |parsed| && parsed[p] == Some(r[k]);
        MapAt(ParseToken, tokens, p);
      }
    }
    r
  }

  // ---- properties ----

  /** Splitting and joining are inverse. */
  lemma {:induction false} JoinSplit(s: string, sep: char)
    ensures Join(Split(s, sep), sep) == s
  {
    if s != [] {
      JoinSplit(s[1..], sep);
      var rest := Split(s[1..], sep);
      if s[0] == sep {
        assert s == [sep] + s[1..];
      } else if |rest| == 1 {
        assert s == [s[0]] + rest[0];
      } else {
        assert Join(rest, sep) == rest[0] + [sep] + Join(rest[1..], sep);
        assert s == [s[0]] + s[1..];
      }
    }
  }

  /** A separator splits the text into the pieces on either side of it. */
  lemma {:induction false} SplitAt(a: string, b: string, sep: char)
    requires sep !in a
    ensures Split(a + [sep] + b, sep) == Split(a, sep) + Split(b, sep)
  {
    if a == [] {
      assert [] + [sep] + b == [sep] + b;
      assert ([sep] + b)[1..] == b;
    } else {
      SplitAt(a[1..], b, sep);
      assert (a + [sep] + b)[1..] == a[1..] + [sep] + b;
    }
  }

  /** The filter keeps the order: values before others stay before them. */
  lemma {:induction false} PresentAppends(x1: seq<Option<int>>, x2: seq<Option<int>>)
    ensures Present(x1 + x2) == Present(x1) + Present(x2)
  {
    if x1 != [] {
      PresentAppends(x1[1..], x2);
      assert (x1 + x2)[0] == x1[0] && (x1 + x2)[1..] == x1[1..] + x2;
      var h := if x1[0].Some? then [x1[0].value] else [];
      assert Present(x1 + x2) == h + (Present(x1[1..]) + Present(x2));
      assert Present(x1) == h + Present(x1[1..]);
    } else {
      assert x1 + x2 == x2;
    }
  }

  /** Text before a comma is parsed before text after it. */
  lemma ParseConcat(a: string, b: string)
    requires ',' !in a
    ensures ParseCustomArray(a + [','] + b) == ParseCustomArray(a) + ParseCustomArray(b)
  {
    SplitAt(a, b, ',');
    MapAppends(ParseToken, Split(a, ','), Split(b, ','));
    PresentAppends(Map(ParseToken, Split(a, ',')), Map(ParseToken, Split(b, ',')));
  }

  /** A single token without a comma is one piece. */
  lemma {:induction false} SplitNone(s: string, sep: char)
    requires sep !in s
    ensures Split(s, sep) == [s]
  {
    if s != [] {
      SplitNone(s[1..], sep);
      assert s == [s[0]] + s[1..];
    }
  }

  // ---- decimal text and its round trip ----

  function DigitChar(d: nat): (c: char)
    requires d < 10
    ensures IsDigit(c, 10) && DigitOf(c) == d
  {
    ('0' as int + d) as char
  }

  /** The decimal text of n, as `String(n)` writes it. */
  function Decimal(n: nat): (s: string)
    ensures |s| > 0
    ensures forall k :: 0 <= k < |s| ==> IsDigit(s[k], 10)
  {
    if n < 10 then [DigitChar(n)] else Decimal(n / 10) + [DigitChar(n % 10)]
  }

  lemma {:induction false} DecimalValue(n: nat)
    ensures DigitsValue(Decimal(n), 10) == n
  {
    if n >= 10 {
      DecimalValue(n / 10);
      var s := Decimal(n);
      assert s[..|s| - 1] == Decimal(n / 10);
    }
  }

  /** A decimal text never looks like a hexadecimal prefix: a second
      character exists only for n >= 10, whose first digit is not 0. */
  lemma {:induction false} DecimalLeads(n: nat)
    ensures n >= 10 ==> Decimal(n)[0] != '0'
    ensures n < 10 ==> |Decimal(n)| == 1
  {
    if n >= 100 {
      DecimalLeads(n / 10);
    }
  }

  /** `parseInt` reads back the decimal text of every natural number. */
  lemma ParseDecimal(n: nat)
    ensures ParseInt(Decimal(n)) == Some(n)
  {
    var s := Decimal(n);
    DigitIsPlain(s[0]);
    assert LeadingSpaces(s) == 0;
    assert TrimStart(s) == s;
    MagnitudeOfDecimal(n);
  }

  /** A decimal digit is neither white space, nor a sign, nor a comma. */
  lemma DigitIsPlain(c: char)
    requires IsDigit(c, 10)
    ensures !IsSpace(c) && c != '-' && c != '+' && c != ','
  {
  }

  lemma MagnitudeOfDecimal(n: nat)
    ensures ParseMagnitude(Decimal(n)) == Some(n)
  {
    var s := Decimal(n);
    DecimalLeads(n);
    DecimalValue(n);
    DigitsAllRun(s, 10);
    assert s[..|s|] == s;
  }

  lemma {:induction false} DigitsAllRun(s: string, radix: int)
    requires forall k :: 0 <= k < |s| ==> IsDigit(s[k], radix)
    ensures DigitRun(s, radix) == |s|
  {
    if s != [] {
      DigitsAllRun(s[1..], radix);
    }
  }

  /** A token without a comma is parsed on its own. */
  lemma ParseOne(s: string)
    requires ',' !in s
    ensures ParseCustomArray(s) == Present([ParseToken(s)])
  {
    SplitNone(s, ',');
    assert Map(ParseToken, [s]) == [ParseToken(s)] + Map(ParseToken, []);
  }

  /** The decimal text of a bar value is read back as that value. */
  lemma ParseDecimalToken(x: nat)
    requires 1 <= x <= MaxArrayValue
    ensures ParseCustomArray(Decimal(x)) == [x]
  {
    var d := Decimal(x);
    TokenOfDecimal(x);
    DecimalHasNoComma(d);
    ParseOne(d);
    assert Present([Some(x)]) == [x] + Present([]);
  }

  /** The clamp: the decimal text of any number at or above the maximum
      is read back as the maximum, as a token and as a whole input. */
  lemma LargeValueClamped(n: nat)
    requires n >= MaxArrayValue
    ensures ParseToken(Decimal(n)) == Some(MaxArrayValue)
    ensures ParseCustomArray(Decimal(n)) == [MaxArrayValue]
  {
    var d := Decimal(n);
    DecimalTrimmed(n);
    ParseDecimal(n);
    DecimalHasNoComma(d);
    ParseOne(d);
    assert Present([Some(MaxArrayValue)]) == [MaxArrayValue] + Present([]);
  }

  /** The token value of the decimal text of a bar value. */
  lemma TokenOfDecimal(x: nat)
    requires 1 <= x <= MaxArrayValue
    ensures ParseToken(Decimal(x)) == Some(x)
  {
    DecimalTrimmed(x);
    ParseDecimal(x);
    TokenOfNumber(Decimal(x), x);
  }

  lemma DecimalTrimmed(x: nat)
    ensures Trim(Decimal(x)) == Decimal(x)
  {
    var d := Decimal(x);
    DigitIsPlain(d[0]);
    DigitIsPlain(d[|d| - 1]);
    TrimKeeps(d);
  }

  /** A token that reads as a bar value is kept as that value. */
  lemma TokenOfNumber(token: string, v: int)
    requires ParseInt(Trim(token)) == Some(v) && 1 <= v <= MaxArrayValue
    ensures ParseToken(token) == Some(v)
  {
  }

  lemma DecimalHasNoComma(d: string)
    requires forall k :: 0 <= k < |d| ==> IsDigit(d[k], 10)
    ensures ',' !in d
  {
    forall k | 0 <= k < |d| ensures d[k] != ',' {
      DigitIsPlain(d[k]);
    }
  }

  /** The array written out as comma separated decimals. */
  function Format(xs: seq<nat>): string {
    if xs == [] then []
    else if |xs| == 1 then Decimal(xs[0])
    else Decimal(xs[0]) + [','] + Format(xs[1..])
  }

  /** Parsing the text of an array of admissible bar values gives the array
      back. */
  lemma {:induction false} FormatRoundTrip(xs: seq<nat>)
    requires forall k :: 0 <= k < |xs| ==> 1 <= xs[k] <= MaxArrayValue
    ensures ParseCustomArray(Format(xs)) == xs
  {
    if xs != [] {
      var d := Decimal(xs[0]);
      ParseDecimalToken(xs[0]);
      if |xs| > 1 {
        FormatRoundTrip(xs[1..]);
        DecimalHasNoComma(d);
        ParseConcat(d, Format(xs[1..]));
        assert xs == [xs[0]] + xs[1..];
      }
    }
  }

  /** The example of the input's help text, with a word and a negative
      number added: those two are dropped, the numbers keep their order. */
  lemma ParseExample()
    ensures ParseCustomArray("5,350,120,abc,-3") == [5, 350, 120]
  {
    ExampleText();
    FiveTokens("5", "350", "120", "abc", "-3");
    ExampleNumbers();
    ExampleDropped();
    Gather(ParseCustomArray("5,350,120,abc,-3"), ParseCustomArray("5"), ParseCustomArray("350"),
           ParseCustomArray("120"), ParseCustomArray("abc"), ParseCustomArray("-3"));
  }

  lemma Gather(all: seq<int>, a: seq<int>, b: seq<int>, c: seq<int>, d: seq<int>, e: seq<int>)
    requires all == a + (b + (c + (d + e)))
    requires a == [5] && b == [350] && c == [120] && d == [] && e == []
    ensures all == [5, 350, 120]
  {
  }

  lemma ExampleText()
    ensures "5,350,120,abc,-3" == "5" + [','] + ("350" + [','] + ("120" + [','] + ("abc" + [','] + "-3")))
    ensures ',' !in "5" && ',' !in "350" && ',' !in "120" && ',' !in "abc"
  {
  }

  /** Five comma-free texts joined by commas are read one after the other. */
  lemma FiveTokens(a: string, b: string, c: string, d: string, e: string)
    requires ',' !in a && ',' !in b && ',' !in c && ',' !in d
    ensures ParseCustomArray(a + [','] + (b + [','] + (c + [','] + (d + [','] + e)))) ==
      ParseCustomArray(a) + (ParseCustomArray(b) + (ParseCustomArray(c) + (ParseCustomArray(d) + ParseCustomArray(e))))
  {
    ParseConcat(d, e);
    ParseConcat(c, d + [','] + e);
    ParseConcat(b, c + [','] + (d + [','] + e));
    ParseConcat(a, b + [','] + (c + [','] + (d + [','] + e)));
  }

  lemma ExampleDropped()
    ensures ParseCustomArray("abc") == [] && ParseCustomArray("-3") == []
  {
    ParseOne("abc");
    ParseOne("-3");
    ExampleWord();
    ExampleNegative();
    assert Present([None]) == [] + Present([]);
  }

  lemma ExampleWord()
    ensures ParseToken("abc") == None
  {
    var w := "abc";
    assert !IsDigit(w[0], 10) && !IsDigit(w[1], 10) && !IsDigit(w[2], 10);
    WordDropped(w);
  }

  lemma ExampleNegative()
    ensures ParseToken("-3") == None
  {
    var d := Decimal(3);
    assert d == ['3'];
    assert "-" + d == "-3";
    NegativeDropped(3);
  }

  lemma ExampleNumbers()
    ensures ParseCustomArray("5") == [5]
    ensures ParseCustomArray("350") == [350]
    ensures ParseCustomArray("120") == [120]
  {
    assert Decimal(5) == "5" && Decimal(350) == "350" && Decimal(120) == "120";
    ParseDecimalToken(5);
    ParseDecimalToken(350);
    ParseDecimalToken(120);
  }

  /** A token without a decimal digit is dropped: whatever trimming and the
      sign leave over cannot start a number, not even a `0x` prefix. */
  lemma WordDropped(token: string)
    requires forall k :: 0 <= k < |token| ==> !IsDigit(token[k], 10)
    ensures ParseToken(token) == None
  {
    var t := Trim(token);
    var lead := LeadingSpaces(token);
    forall k | 0 <= k < |t| ensures !IsDigit(t[k], 10) {
      assert t[k] == token[lead + k];
    }
    var t2 := TrimStart(t);
    forall k | 0 <= k < |t2| ensures !IsDigit(t2[k], 10) {
      assert t2[k] == t[LeadingSpaces(t) + k];
    }
    var signed := |t2| > 0 && (t2[0] == '-' || t2[0] == '+');
    var u := if signed then t2[1..] else t2;
    if |u| > 0 {
      assert u[0] == t2[if signed then 1 else 0];
      assert DigitRun(u, 10) == 0;
    }
    assert ParseMagnitude(u).None?;
  }

  /** A negative token is dropped: a minus sign before the decimal text of
      any number reads as zero or less. */
  lemma NegativeDropped(n: nat)
    ensures ParseToken("-" + Decimal(n)) == None
  {
    var s := "-" + Decimal(n);
    DigitIsPlain(s[|s| - 1]);
    TrimKeeps(s);
    assert LeadingSpaces(s) == 0;
    assert TrimStart(s) == s;
    assert s[1..] == Decimal(n);
    MagnitudeOfDecimal(n);
  }
}
