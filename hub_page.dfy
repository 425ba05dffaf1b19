/**
  * The local `getOrderedPictures` of the hustle-hub front page: it sorts the
  * caller's array in place with the comparator `aOrder - bOrder`, where the order
  * of an entry is `parseInt(entry.split('#')[0]) || 0`, and returns that same
  * array. Entries are kept whole, index prefix included.
  */
module HubPage {
  import opened Wrappers
  import opened Text
  import opened StableSort
  import ObjectUtils

  /** A JavaScript number as `parseInt` produces it: NaN or an integer (`-0` is `Num(0)`). */
  datatype ParsedInt = NaN | Num(value: int)

  predicate IsHexDigit(c: char) {
    IsDigit(c) || 'a' <= c <= 'f' || 'A' <= c <= 'F'
  }

  /** A digit of radix 10 or 16. */
  predicate IsRadixDigit(c: char, hex: bool) {
    if hex then IsHexDigit(c) else IsDigit(c)
  }

  function RadixDigitValue(c: char, hex: bool): nat
    requires IsRadixDigit(c, hex)
  {
    if IsDigit(c) then DigitValue(c)
    else if 'a' <= c <= 'f' then c as int - 'a' as int + 10
    else c as int - 'A' as int + 10
  }

  /** The length of the longest prefix of `s` made of digits of the radix. */
  function DigitRun(s: string, hex: bool): (n: nat)
    ensures n <= |s|
    ensures forall i :: 0 <= i < n ==> IsRadixDigit(s[i], hex)
    ensures n == |s| || !IsRadixDigit(s[n], hex)
  {
    if s != [] && IsRadixDigit(s[0], hex) then 1 + DigitRun(s[1..], hex) else 0
  }

  function RadixValue(s: string, hex: bool): nat
    requires forall i :: 0 <= i < |s| ==> IsRadixDigit(s[i], hex)
  {
    if s == [] then 0
    else (if hex then 16 else 10) * RadixValue(s[..|s| - 1], hex) + RadixDigitValue(s[|s| - 1], hex)
  }

  /** Reads an unsigned number: a `0x`/`0X` prefix selects radix 16, then the longest run of digits. */
  function ParseUnsigned(u: string): ParsedInt {
    var hex := |u| >= 2 && u[0] == '0' && (u[1] == 'x' || u[1] == 'X');
    var v := if hex then u[2..] else u;
    var n := DigitRun(v, hex);
    if n == 0 then NaN else Num(RadixValue(v[..n], hex))
  }

  function Negate(p: ParsedInt): ParsedInt {
    match p
    case NaN => NaN
    case Num(v) => Num(-v)
  }

  /**
    * `parseInt(s)` with no radix: leading white space is skipped, an optional
    * sign is read, and the rest is read by `ParseUnsigned`; no digit at all gives NaN.
    */
  function ParseInt(s: string): ParsedInt {
    var t := TrimStart(s);
    if t != [] && t[0] == '-' then Negate(ParseUnsigned(t[1..]))
    else if t != [] && t[0] == '+' then ParseUnsigned(t[1..])
    else ParseUnsigned(t)
  }

  /** `parseInt(...) || 0`: NaN (and `-0`) become 0. */
  function OrZero(p: ParsedInt): int {
    match p
    case NaN => 0
    case Num(v) => v
  }

  /** The sort key of an entry: the text before its first `'#'`, or the whole entry, read by `parseInt`. */
  function OrderKey(entry: string): int {
    OrZero(ParseInt(Split(entry, '#')[0]))
  }

  /** `pictures.sort(...)`, returning the same array. */
  method GetOrderedPictures(pictures: array<string>) returns (r: array<string>)
    modifies pictures
    ensures r == pictures
    ensures r[..] == SortByKey(old(pictures[..]), OrderKey)
  {
    SortInPlace(pictures, OrderKey);
    r := pictures;
  }

  /** The head piece of `split('#')` is the text before the first `'#'`, or the whole string. */
  lemma SplitHead(s: string)
    ensures Split(s, '#')[0] == if '#' in s then s[..IndexOf(s, '#')] else s
  {
  }

  lemma {:induction false} DigitRunPrefix(d: string, rest: string, hex: bool)
    requires forall i :: 0 <= i < |d| ==> IsRadixDigit(d[i], hex)
    requires rest == [] || !IsRadixDigit(rest[0], hex)
    ensures DigitRun(d + rest, hex) == |d|
  {
    if d != [] {
      assert (d + rest)[1..] == d[1..] + rest;
      DigitRunPrefix(d[1..], rest, hex);
    } else {
      assert d + rest == rest;
    }
  }

  lemma {:induction false} RadixValueDecimal(d: string)
    requires AllDigits(d)
    ensures RadixValue(d, false) == DecimalValue(d)
  {
    if d != [] {
      RadixValueDecimal(d[..|d| - 1]);
    }
  }

  /** A run of decimal digits followed by anything that does not continue the number. */
  lemma ParseUnsignedDecimal(d: string, rest: string)
    requires d != [] && AllDigits(d)
    requires rest == [] || !IsDigit(rest[0])
    requires !(d == "0" && rest != [] && (rest[0] == 'x' || rest[0] == 'X'))
    ensures ParseUnsigned(d + rest) == Num(DecimalValue(d))
  {
    var u := d + rest;
    assert u[0] == d[0];
    if |d| >= 2 {
      assert u[1] == d[1];
    }
    DigitRunPrefix(d, rest, false);
    assert u[..|d|] == d;
    RadixValueDecimal(d);
  }

  /**
    * White space, a run of decimal digits, then anything that does not continue
    * the number: `parseInt` gives the run's value.
    */
  lemma ParseIntDecimal(ws: string, d: string, rest: string)
    requires AllSpace(ws)
    requires d != [] && AllDigits(d)
    requires rest == [] || !IsDigit(rest[0])
    requires !(d == "0" && rest != [] && (rest[0] == 'x' || rest[0] == 'X'))
    ensures ParseInt(ws + (d + rest)) == Num(DecimalValue(d))
  {
    var u := d + rest;
    assert u[0] == d[0];
    ParseUnsignedDecimal(d, rest);
    ParseIntAfterSpace(ws, u);
    ParseIntDigit(u);
  }

  /** The same after a minus sign: the value is negated. */
  lemma ParseIntNegativeDecimal(ws: string, d: string, rest: string)
    requires AllSpace(ws)
    requires d != [] && AllDigits(d)
    requires rest == [] || !IsDigit(rest[0])
    requires !(d == "0" && rest != [] && (rest[0] == 'x' || rest[0] == 'X'))
    ensures ParseInt(ws + ("-" + (d + rest))) == Num(-(DecimalValue(d) as int))
  {
    var u := d + rest;
    ParseUnsignedDecimal(d, rest);
    ParseIntAfterSpace(ws, "-" + u);
    ParseIntMinus(u);
  }

  lemma ParseIntAfterSpace(ws: string, t: string)
    requires AllSpace(ws)
    requires t == [] || !IsJsSpace(t[0])
    ensures ParseInt(ws + t) == ParseInt(t)
  {
    TrimStartOfNonSpace(ws, t);
    TrimStartOfNonSpace("", t);
    assert "" + t == t;
  }

  lemma ParseIntMinus(u: string)
    ensures ParseInt("-" + u) == Negate(ParseUnsigned(u))
  {
    TrimStartOfNonSpace("", "-" + u);
    assert "" + ("-" + u) == "-" + u;
    assert ("-" + u)[1..] == u;
  }

  lemma ParseIntDigit(u: string)
    requires u != [] && IsDigit(u[0])
    ensures ParseInt(u) == ParseUnsigned(u)
  {
    TrimStartOfNonSpace("", u);
    assert "" + u == u;
  }

  /** The key of `head + "#" + rest` is read from `head` alone when `head` has no `'#'`. */
  lemma OrderKeyOfHead(head: string, rest: string)
    requires '#' !in head
    ensures OrderKey(head + "#" + rest) == OrZero(ParseInt(head))
  {
    var entry := head + "#" + rest;
    assert entry[|head|] == '#';
    assert IndexOf(entry, '#') == |head| by {
      forall i | 0 <= i < |head| ensures entry[i] != '#' {
        assert entry[i] == head[i];
      }
    }
    SplitHead(entry);
    assert entry[..|head|] == head;
  }

  /** `"<digits>#<rest>"` has the digits' value as key. */
  lemma OrderKeyOfDigits(d: string, rest: string)
    requires d != [] && AllDigits(d)
    ensures OrderKey(d + "#" + rest) == DecimalValue(d)
  {
    assert '#' !in d by {
      forall i | 0 <= i < |d| ensures d[i] != '#' {
        assert IsDigit(d[i]);
      }
    }
    OrderKeyOfHead(d, rest);
    ParseUnsignedDecimal(d, "");
    assert d + "" == d;
    ParseIntDigit(d);
  }

  /** The text `parseInt` reads its digits from: after leading white space and an optional sign. */
  function Unsigned(s: string): string {
    var t := TrimStart(s);
    if t != [] && (t[0] == '-' || t[0] == '+') then t[1..] else t
  }

  /**
    * An entry whose head, after white space and an optional sign, does not go
    * on with a digit (an empty head included) parses to NaN and has key 0.
    * One whose head does go on with a digit, other than a `0x` prefix, parses
    * to a number.
    */
  lemma NoLeadingNumberGivesZero(entry: string)
    ensures var u := Unsigned(Split(entry, '#')[0]);
      (u == [] || !IsDigit(u[0])) ==> ParseInt(Split(entry, '#')[0]) == NaN && OrderKey(entry) == 0
    ensures var u := Unsigned(Split(entry, '#')[0]);
      u != [] && IsDigit(u[0]) && !(|u| >= 2 && u[0] == '0' && (u[1] == 'x' || u[1] == 'X')) ==>
        ParseInt(Split(entry, '#')[0]).Num?
  {
  }

  /** A well-formed `"<digits>#<name>"` entry gets the same key as the index it has for `ObjectUtils`. */
  lemma OrderKeyAgreesWithParsedIndex(entry: string, e: ObjectUtils.Indexed)
    requires ObjectUtils.ParseEntry(entry) == Some(e)
    ensures OrderKey(entry) == e.index
  {
    var k: nat :| ObjectUtils.MatchesWithDigits(entry, k)
      && e == ObjectUtils.Indexed(DecimalValue(entry[..k]), entry[k + 1..]);
    assert entry == entry[..k] + "#" + entry[k + 1..];
    OrderKeyOfDigits(entry[..k], entry[k + 1..]);
  }

  /** Trailing junk after the digits is ignored: `"12ab#x"` has key 12. */
  lemma TrailingJunkIgnored(d: string, junk: string, rest: string)
    requires d != [] && AllDigits(d)
    requires junk != [] && !IsDigit(junk[0]) && junk[0] != 'x' && junk[0] != 'X' && '#' !in junk
    ensures OrderKey(d + junk + "#" + rest) == DecimalValue(d)
  {
    var head := d + junk;
    assert '#' !in head by {
      forall i | 0 <= i < |head| ensures head[i] != '#' {
        if i < |d| {
          assert IsDigit(d[i]);
        } else {
          assert head[i] == junk[i - |d|];
        }
      }
    }
    OrderKeyOfHead(head, rest);
    assert head[0] == d[0];
    ParseUnsignedDecimal(d, junk);
    ParseIntDigit(head);
  }

  /** A leading minus sign gives a negative key: `"-3#x"` has key -3. */
  lemma MinusSignNegates(d: string, rest: string)
    requires d != [] && AllDigits(d)
    ensures OrderKey("-" + d + "#" + rest) == -(DecimalValue(d) as int)
  {
    var head := "-" + d;
    assert '#' !in head by {
      forall i | 0 <= i < |head| ensures head[i] != '#' {
        if i > 0 {
          assert head[i] == d[i - 1];
          assert IsDigit(d[i - 1]);
        }
      }
    }
    OrderKeyOfHead(head, rest);
    assert d + "" == d;
    ParseUnsignedDecimal(d, "");
    ParseIntMinus(d);
  }

  /** Leading white space before the digits is skipped. */
  lemma LeadingSpaceSkipped(ws: string, d: string, rest: string)
    requires AllSpace(ws)
    requires d != [] && AllDigits(d)
    ensures OrderKey(ws + d + "#" + rest) == DecimalValue(d)
  {
    var head := ws + d;
    assert '#' !in head by {
      forall i | 0 <= i < |head| ensures head[i] != '#' {
        if i < |ws| {
          assert IsJsSpace(ws[i]);
        } else {
          assert head[i] == d[i - |ws|];
          assert IsDigit(d[i - |ws|]);
        }
      }
    }
    OrderKeyOfHead(head, rest);
    assert head == ws + (d + "");
    ParseIntDecimal(ws, d, "");
  }

  /** A `0x` prefix makes `parseInt` read hexadecimal digits: `"0x1A#x"` has key 26. */
  lemma HexPrefixReadsHex(h: string, rest: string)
    requires h != [] && forall i :: 0 <= i < |h| ==> IsHexDigit(h[i])
    ensures OrderKey("0x" + h + "#" + rest) == RadixValue(h, true)
  {
    var head := "0x" + h;
    assert '#' !in head by {
      forall i | 0 <= i < |head| ensures head[i] != '#' {
        if i >= 2 {
          assert head[i] == h[i - 2];
          assert IsHexDigit(h[i - 2]);
        }
      }
    }
    OrderKeyOfHead(head, rest);
    ParseIntDigit(head);
    ParseUnsignedHex(h);
  }

  lemma ParseUnsignedHex(h: string)
    requires h != [] && forall i :: 0 <= i < |h| ==> IsHexDigit(h[i])
    ensures ParseUnsigned("0x" + h) == Num(RadixValue(h, true))
  {
    var u := "0x" + h;
    assert u[0] == '0' && u[1] == 'x';
    assert u[2..] == h;
    assert DigitRun(h, true) == |h| by {
      DigitRunPrefix(h, "", true);
      assert h + "" == h;
    }
    assert h[..|h|] == h;
  }

  /** The sorted array holds the same entries, ordered by key, with ties in input order. */
  lemma SortedPictures(pictures: seq<string>)
    ensures multiset(SortByKey(pictures, OrderKey)) == multiset(pictures)
    ensures SortedBy(SortByKey(pictures, OrderKey), OrderKey)
    ensures forall k :: WithKey(SortByKey(pictures, OrderKey), OrderKey, k) == WithKey(pictures, OrderKey, k)
  {
    SortByKeyPermutes(pictures, OrderKey);
    SortByKeySorts(pictures, OrderKey);
    SortByKeySameOrderPerKey(pictures, OrderKey);
  }

  /** An entry `"<one digit>#<name>"` has that digit's value as key. */
  lemma OrderKeyOfDigitEntry(entry: string, c: char, name: string)
    requires IsDigit(c) && entry == [c] + "#" + name
    ensures OrderKey(entry) == DigitValue(c)
  {
    OrderKeyOfDigits([c], name);
    DecimalValueSingle(c);
  }

  /** The call on the page, `["1#picA.jpg", "2#picB.jpg"]`, leaves the array in its original order, whatever the names. */
  lemma PageExample(nameA: string, nameB: string)
    ensures SortByKey(["1#" + nameA, "2#" + nameB], OrderKey) == ["1#" + nameA, "2#" + nameB]
  {
    OrderKeyOfDigitEntry("1#" + nameA, '1', nameA);
    OrderKeyOfDigitEntry("2#" + nameB, '2', nameB);
    SortTwoInOrder("1#" + nameA, "2#" + nameB, OrderKey);
  }

  lemma SortTwoInOrder<T>(a: T, b: T, key: T -> int)
    requires key(a) <= key(b)
    ensures SortByKey([a, b], key) == [a, b]
  {
    assert SortedBy([a, b], key);
    SortByKeyOfSorted([a, b], key);
  }
}
