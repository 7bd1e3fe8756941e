/** The string operations that the address code uses: splitting, joining, hexadecimal, decimal. */
module Texts {
  import opened Wrappers

  predicate Free(s: string, c: char) {
    forall i :: 0 <= i < |s| ==> s[i] != c
  }

  // str.split(c)
  function Split(s: string, c: char): (r: seq<string>)
    ensures |r| > 0
  {
    if s == [] then [""]
    else
      var rest := Split(s[1..], c);
      if s[0] == c then [""] + rest else [[s[0]] + rest[0]] + rest[1..]
  }

  // c.join(parts)
  function Join(parts: seq<string>, c: char): string {
    if parts == [] then ""
    else if |parts| == 1 then parts[0]
    else parts[0] + [c] + Join(parts[1..], c)
  }

  // s.rsplit(c, 1)[0]
  function BeforeLast(s: string, c: char): string {
    if Free(s, c) then s
    else if s[|s| - 1] == c then s[..|s| - 1]
    else BeforeLast(s[..|s| - 1], c)
  }

  // The part after the last c, if there is one.
  function AfterLast(s: string, c: char): string {
    if s == [] || s[|s| - 1] == c then "" else AfterLast(s[..|s| - 1], c) + [s[|s| - 1]]
  }

  // s.count("::"), which counts occurrences that do not overlap
  function CountDouble(s: string): nat {
    if |s| < 2 then 0
    else if s[0] == ':' && s[1] == ':' then 1 + CountDouble(s[2..])
    else CountDouble(s[1..])
  }

  // ---- numerals ----

  function DigitValue(c: char): Option<nat> {
    if '0' <= c <= '9' then Some(c as int - '0' as int)
    else if 'a' <= c <= 'f' then Some(c as int - 'a' as int + 10)
    else if 'A' <= c <= 'F' then Some(c as int - 'A' as int + 10)
    else None
  }

  function Digit(d: nat): char
    requires d < 16
  {
    if d < 10 then ('0' as int + d) as char else ('a' as int + d - 10) as char
  }

  // A non-empty string of digits below base.
  function ParseNumber(s: string, base: nat): Option<nat> {
    if s == [] then None
    else
      match DigitValue(s[|s| - 1])
      case None => None
      case Some(d) =>
        if d >= base then None
        else if |s| == 1 then Some(d)
        else match ParseNumber(s[..|s| - 1], base)
             case None => None
             case Some(n) => Some(n * base + d)
  }

  // %x and %d
  function Numeral(n: nat, base: nat): string
    requires base == 10 || base == 16
  {
    if n < base then [Digit(n)] else Numeral(n / base, base) + [Digit(n % base)]
  }

  // %04x
  function Padded(s: string): string
    decreases 4 - |s|
  {
    if |s| >= 4 then s else Padded("0" + s)
  }

  lemma DigitRoundTrip(d: nat)
    requires d < 16
    ensures DigitValue(Digit(d)) == Some(d)
    ensures Digit(d) != ':' && Digit(d) != '.'
  {
  }

  lemma {:induction false} NumeralRoundTrip(n: nat, base: nat)
    requires base == 10 || base == 16
    ensures ParseNumber(Numeral(n, base), base) == Some(n)
    ensures Free(Numeral(n, base), ':') && Free(Numeral(n, base), '.')
  {
    DigitRoundTrip(n % base);
    if n >= base {
      NumeralRoundTrip(n / base, base);
      var s := Numeral(n, base);
      assert s[..|s| - 1] == Numeral(n / base, base);
    } else {
      DigitRoundTrip(n);
    }
  }

  lemma {:induction false} LeadingZero(s: string, base: nat)
    requires s != [] && base > 0
    ensures ParseNumber("0" + s, base) == ParseNumber(s, base)
  {
    var t := "0" + s;
    if |s| == 1 {
      assert t[..1] == "0";
      assert DigitValue('0') == Some(0);
    } else {
      assert t[..|t| - 1] == "0" + s[..|s| - 1];
      LeadingZero(s[..|s| - 1], base);
    }
  }

  lemma {:induction false} PaddedSame(s: string)
    requires s != [] && Free(s, ':') && Free(s, '.')
    ensures ParseNumber(Padded(s), 16) == ParseNumber(s, 16)
    ensures Padded(s) != [] && Free(Padded(s), ':') && Free(Padded(s), '.')
    decreases 4 - |s|
  {
    if |s| < 4 {
      LeadingZero(s, 16);
      PaddedSame("0" + s);
    }
  }

  // ---- splitting what was joined ----

  lemma {:induction false} SplitConcat(a: string, b: string, c: char)
    ensures Split(a + [c] + b, c) == Split(a, c) + Split(b, c)
  {
    if a == [] {
      assert ([] + [c] + b)[1..] == b;
      assert a + [c] + b == [c] + b;
    } else {
      assert (a + [c] + b)[1..] == a[1..] + [c] + b;
      SplitConcat(a[1..], b, c);
    }
  }

  lemma {:induction false} SplitFree(s: string, c: char)
    requires Free(s, c)
    ensures Split(s, c) == [s]
  {
    if s != [] {
      SplitFree(s[1..], c);
      assert [s[0]] + s[1..] == s;
    }
  }

  lemma {:induction false} SplitJoin(parts: seq<string>, c: char)
    requires forall i :: 0 <= i < |parts| ==> Free(parts[i], c)
    ensures Split(Join(parts, c), c) == if parts == [] then [""] else parts
  {
    if |parts| == 1 {
      SplitFree(parts[0], c);
    } else if |parts| > 1 {
      SplitFree(parts[0], c);
      SplitJoin(parts[1..], c);
      SplitConcat(parts[0], Join(parts[1..], c), c);
    }
  }

  lemma {:induction false} JoinAppend(parts: seq<string>, last: string, c: char)
    requires parts != []
    ensures Join(parts + [last], c) == Join(parts, c) + [c] + last
  {
    if |parts| == 1 {
      assert (parts + [last])[1..] == [last];
    } else {
      assert (parts + [last])[1..] == parts[1..] + [last];
      JoinAppend(parts[1..], last, c);
    }
  }

  lemma {:induction false} LastSplit(a: string, b: string, c: char)
    requires Free(b, c)
    ensures BeforeLast(a + [c] + b, c) == a && AfterLast(a + [c] + b, c) == b
    ensures !Free(a + [c] + b, c)
  {
    var s := a + [c] + b;
    assert s[|a|] == c;
    if b == [] {
      assert s[..|s| - 1] == a;
    } else {
      assert s[..|s| - 1] == a + [c] + b[..|b| - 1];
      LastSplit(a, b[..|b| - 1], c);
    }
  }

  lemma {:induction false} JoinFree(parts: seq<string>, c: char, d: char)
    requires c != d && forall i :: 0 <= i < |parts| ==> Free(parts[i], d)
    ensures Free(Join(parts, c), d)
  {
    if |parts| > 1 {
      JoinFree(parts[1..], c, d);
    }
  }

  // ---- counting "::" ----

  predicate NoDouble(s: string) {
    |s| < 2 || (!(s[0] == ':' && s[1] == ':') && NoDouble(s[1..]))
  }

  lemma {:induction false} CountNone(s: string)
    requires NoDouble(s)
    ensures CountDouble(s) == 0
  {
    if |s| >= 2 {
      CountNone(s[1..]);
    }
  }

  lemma {:induction false} CountOne(a: string, b: string)
    requires NoDouble(a) && (a == [] || a[|a| - 1] != ':')
    requires NoDouble(b) && (b == [] || b[0] != ':')
    ensures CountDouble(a + "::" + b) == 1
    decreases |a|
  {
    var s := a + "::" + b;
    if a == [] {
      assert s[2..] == b;
      CountNone(b);
    } else {
      assert s[1..] == a[1..] + "::" + b;
      CountOne(a[1..], b);
    }
  }

  lemma {:induction false} NoDoubleAppend(x: string, s: string)
    requires x != [] && Free(x, ':') && NoDouble(s) && s != [] && s[0] != ':'
    ensures NoDouble(x + ":" + s)
  {
    var t := x + ":" + s;
    assert t[1..] == x[1..] + ":" + s;
    if |x| == 1 {
      assert t[1..] == ":" + s;
      assert (":" + s)[1..] == s;
    } else {
      NoDoubleAppend(x[1..], s);
    }
  }

  lemma {:induction false} FreeNoDouble(s: string)
    requires Free(s, ':')
    ensures NoDouble(s)
  {
    if |s| >= 2 {
      FreeNoDouble(s[1..]);
    }
  }

  // Joined non-empty parts neither begin nor end with a colon, nor hold two in a row.
  lemma {:induction false} JoinClosed(parts: seq<string>)
    requires forall i :: 0 <= i < |parts| ==> parts[i] != [] && Free(parts[i], ':')
    ensures var s := Join(parts, ':');
      NoDouble(s) && (s == [] <==> parts == []) && (s != [] ==> s[0] != ':' && s[|s| - 1] != ':')
  {
    if |parts| == 1 {
      FreeNoDouble(parts[0]);
    } else if |parts| > 1 {
      JoinClosed(parts[1..]);
      NoDoubleAppend(parts[0], Join(parts[1..], ':'));
      assert parts[0] + [':'] + Join(parts[1..], ':') == parts[0] + ":" + Join(parts[1..], ':');
    }
  }

  // Only zero is printed with a leading zero.
  lemma {:induction false} NumeralHead(n: nat, base: nat)
    requires base == 10 || base == 16
    ensures |Numeral(n, base)| > 0
    ensures n > 0 ==> Numeral(n, base)[0] != '0'
    ensures n < base ==> |Numeral(n, base)| == 1
  {
    if n >= base {
      NumeralHead(n / base, base);
    }
  }

  // ---- what a numeral looks like ----

  predicate IsHex(s: string) {
    s != "" && forall i :: 0 <= i < |s| ==> s[i] in "0123456789abcdefABCDEF"
  }

  lemma {:induction false} NumberIffHex(s: string)
    ensures ParseNumber(s, 16).Some? <==> IsHex(s)
  {
    if s != "" {
      var n := |s| - 1;
      DigitIffHex(s[n]);
      assert s == s[..n] + [s[n]];
      if n > 0 {
        NumberIffHex(s[..n]);
      }
    }
  }

  lemma DigitIffHex(c: char)
    ensures DigitValue(c).Some? <==> c in "0123456789abcdefABCDEF"
  {
    var all := "0123456789abcdefABCDEF";
    if d :| DigitValue(c) == Some(d) {
      assert c == all[d] || (d >= 10 && c == all[d + 6]);
    }
  }

  // Letters count the same in either case.
  lemma {:induction false} CaseIsIgnored(s: string, t: string)
    requires |s| == |t|
    requires forall i :: 0 <= i < |s| ==> s[i] == t[i] || ('a' <= s[i] <= 'f' && t[i] as int == s[i] as int - 32)
    ensures ParseNumber(s, 16) == ParseNumber(t, 16)
  {
    if s != "" {
      CaseIsIgnored(s[..|s| - 1], t[..|s| - 1]);
    }
  }

  predicate LowerHex(s: string) {
    forall i :: 0 <= i < |s| ==> s[i] in "0123456789abcdef"
  }

  lemma {:induction false} NumeralIsLower(n: nat, base: nat)
    requires base == 10 || base == 16
    ensures LowerHex(Numeral(n, base))
  {
    DigitIsLower(n % base);
    if n >= base {
      NumeralIsLower(n / base, base);
    } else {
      DigitIsLower(n);
    }
  }

  lemma DigitIsLower(d: nat)
    requires d < 16
    ensures Digit(d) == "0123456789abcdef"[d]
  {
  }

  lemma NumeralShort(n: nat)
    requires n < 0x10000
    ensures 1 <= |Numeral(n, 16)| <= 4
  {
    NumeralHead(n / 16 / 16 / 16, 16);
    assert |Numeral(n / 16 / 16, 16)| <= 2;
    assert |Numeral(n / 16, 16)| <= 3;
  }

  lemma {:induction false} PaddedIsFour(s: string)
    requires |s| <= 4 && LowerHex(s)
    ensures |Padded(s)| == 4 && LowerHex(Padded(s))
    decreases 4 - |s|
  {
    if |s| < 4 {
      assert '0' == "0123456789abcdef"[0];
      PaddedIsFour("0" + s);
    }
  }

  lemma SplitEmpty(c: char)
    ensures Split([], c) == [[]]
  {
  }

  lemma {:induction false} SplitCount(s: string, c: char)
    ensures |Split(s, c)| == multiset(s)[c] + 1
  {
    if s != [] {
      assert s == [s[0]] + s[1..];
      SplitCount(s[1..], c);
    }
  }

  // Characters in front do not lower the count.
  lemma {:induction false} CountInFront(c: char, s: string)
    ensures CountDouble([c] + s) >= CountDouble(s)
    decreases |s|
  {
    assert ([c] + s)[1..] == s;
    if s != [] {
      assert ([c] + s)[2..] == s[1..];
      assert s == [s[0]] + s[1..];
      if |s| > 1 {
        assert s[1..] == [s[1]] + s[2..];
        CountInFront(s[1], s[2..]);
      }
    }
  }

  lemma {:induction false} CountMore(a: string, b: string)
    ensures CountDouble(a + "::" + b) >= 1 + CountDouble(b)
  {
    var s := a + "::" + b;
    if a == [] {
      assert s == "::" + b && s[2..] == b;
    } else {
      assert s == [a[0]] + (a[1..] + "::" + b);
      CountInFront(a[0], a[1..] + "::" + b);
      CountMore(a[1..], b);
    }
  }

  // A colon behind a text that does not end in one adds no pair.
  lemma {:induction false} ColonAtEnd(s: string)
    requires NoDouble(s) && (s == [] || s[|s| - 1] != ':')
    ensures CountDouble(s + [':']) == 0
  {
    if s != [] {
      assert (s + [':'])[1..] == s[1..] + [':'];
      ColonAtEnd(s[1..]);
    }
  }
}
