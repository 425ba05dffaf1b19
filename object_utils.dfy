/**
  * `getOrderedPictures` of `src/utils/objectUtils.ts`: each entry of a post's
  * `pictures` list is matched against `^(\d+)#(.+)$`; entries that do not match
  * are dropped, the rest are stably sorted by the decimal value of the digit run
  * and reduced to the text after the first `'#'`. The input is never modified:
  * the model is a function of the list.
  */
module ObjectUtils {
  import opened Wrappers
  import opened Text
  import opened StableSort

  /** A matched entry: the parsed index and the picture name. */
  datatype Indexed = Indexed(index: nat, name: string)

  predicate NoLineTerminator(s: string) {
    forall i :: 0 <= i < |s| ==> !IsLineTerminator(s[i])
  }

  /**
    * The regular expression `^(\d+)#(.+)$` matches `s` with the digit group
    * `s[..k]`: one or more ASCII digits, a `'#'`, then one or more characters
    * none of which is a line terminator, up to the end of the string.
    */
  predicate MatchesWithDigits(s: string, k: nat) {
    1 <= k && k + 1 < |s| && AllDigits(s[..k]) && s[k] == '#' && NoLineTerminator(s[k + 1..])
  }

  /** The entry is a well-formed picture reference. */
  ghost predicate IsPictureRef(s: string) {
    exists k: nat :: MatchesWithDigits(s, k)
  }

  /** The element of the `map` step: the parsed pair, or `null` when the pattern does not match. */
  function ParseEntry(pic: string): (r: Option<Indexed>)
    ensures r.None? ==> !IsPictureRef(pic)
    ensures r.Some? ==> exists k: nat :: MatchesWithDigits(pic, k) && r == Some(Indexed(DecimalValue(pic[..k]), pic[k + 1..]))
  {
    var k := IndexOf(pic, '#');
    if k >= 1 && k + 1 < |pic| && AllDigits(pic[..k]) && NoLineTerminator(pic[k + 1..]) then
      assert MatchesWithDigits(pic, k);
      Some(Indexed(DecimalValue(pic[..k]), pic[k + 1..]))
    else
      NotPictureRef(pic);
      None
  }

  /** An entry whose text around its first `'#'` does not fit the pattern does not match at all. */
  lemma NotPictureRef(pic: string)
    requires var k := IndexOf(pic, '#');
      !(k >= 1 && k + 1 < |pic| && AllDigits(pic[..k]) && NoLineTerminator(pic[k + 1..]))
    ensures !IsPictureRef(pic)
  {
    if IsPictureRef(pic) {
      var j: nat :| MatchesWithDigits(pic, j);
      DigitsHaveNoHash(pic, j);
    }
  }

  /** A digit run holds no `'#'`, so the group `(\d+)` always ends at the first `'#'`. */
  lemma DigitsHaveNoHash(s: string, k: nat)
    requires MatchesWithDigits(s, k)
    ensures IndexOf(s, '#') == k
  {
    forall i | 0 <= i < k ensures s[i] != '#' {
      assert s[..k][i] == s[i];
      assert IsDigit(s[..k][i]);
    }
  }

  /** A well-formed entry parses to its digit value and the text after its first `'#'`. */
  lemma ParseEntryOfMatch(pic: string, k: nat)
    requires MatchesWithDigits(pic, k)
    ensures ParseEntry(pic) == Some(Indexed(DecimalValue(pic[..k]), pic[k + 1..]))
  {
    DigitsHaveNoHash(pic, k);
  }

  /** A list holding one well-formed entry gives back that entry's name. */
  lemma SingleEntryName(pic: string, k: nat)
    requires MatchesWithDigits(pic, k)
    ensures GetOrderedPictures([pic]) == [pic[k + 1..]]
  {
    ParseEntryOfMatch(pic, k);
    OneParsedEntry(pic, Indexed(DecimalValue(pic[..k]), pic[k + 1..]));
  }

  /** A list holding one entry that parses gives back its name. */
  lemma OneParsedEntry(pic: string, e: Indexed)
    requires ParseEntry(pic) == Some(e)
    ensures GetOrderedPictures([pic]) == [e.name]
  {
    assert ParseAll([pic]) == [e] by {
      assert [pic][..0] == [];
    }
    assert SortByKey([e], IndexKey) == [e] by {
      assert SortedBy([e], IndexKey);
      SortByKeyOfSorted([e], IndexKey);
    }
  }

  /** The `map` and `filter` steps: the parsed well-formed entries, in input order. */
  function ParseAll(pictures: seq<string>): seq<Indexed> {
    if pictures == [] then []
    else
      ParseAll(pictures[..|pictures| - 1])
      + (match ParseEntry(pictures[|pictures| - 1]) case Some(e) => [e] case None => [])
  }

  function IndexKey(e: Indexed): int { e.index }

  /** The final `map` step. */
  function Names(entries: seq<Indexed>): (r: seq<string>)
    ensures |r| == |entries|
    ensures forall i :: 0 <= i < |r| ==> r[i] == entries[i].name
  {
    seq(|entries|, i requires 0 <= i < |entries| => entries[i].name)
  }

  /** The entries after the stable `sort` by `a.index - b.index`. */
  function OrderedEntries(pictures: seq<string>): seq<Indexed> {
    SortByKey(ParseAll(pictures), IndexKey)
  }

  /** `getOrderedPictures(pictures)`. */
  function GetOrderedPictures(pictures: seq<string>): seq<string> {
    Names(OrderedEntries(pictures))
  }

  /** The number of well-formed entries. */
  ghost function WellFormedCount(pictures: seq<string>): nat {
    if pictures == [] then 0
    else WellFormedCount(pictures[..|pictures| - 1]) + (if IsPictureRef(pictures[|pictures| - 1]) then 1 else 0)
  }

  /** The names of the well-formed entries, in input order. */
  ghost function WellFormedNames(pictures: seq<string>): seq<string> {
    if pictures == [] then []
    else
      var last := pictures[|pictures| - 1];
      WellFormedNames(pictures[..|pictures| - 1]) + (if IsPictureRef(last) then [last[IndexOf(last, '#') + 1..]] else [])
  }

  lemma {:induction false} ParseAllAgrees(pictures: seq<string>)
    ensures |ParseAll(pictures)| == WellFormedCount(pictures)
    ensures Names(ParseAll(pictures)) == WellFormedNames(pictures)
  {
    if pictures != [] {
      var init, last := pictures[..|pictures| - 1], pictures[|pictures| - 1];
      ParseAllAgrees(init);
      match ParseEntry(last)
      case Some(e) =>
        var k: nat :| MatchesWithDigits(last, k) && e == Indexed(DecimalValue(last[..k]), last[k + 1..]);
        DigitsHaveNoHash(last, k);
        NamesSnoc(ParseAll(init), e);
      case None =>
        assert ParseAll(pictures) == ParseAll(init);
    }
  }

  lemma NamesSnoc(s: seq<Indexed>, e: Indexed)
    ensures Names(s + [e]) == Names(s) + [e.name]
  {
  }

  lemma {:induction false} WellFormedCountBound(pictures: seq<string>)
    ensures WellFormedCount(pictures) <= |pictures|
  {
    if pictures != [] {
      WellFormedCountBound(pictures[..|pictures| - 1]);
    }
  }

  /** One output name per well-formed entry, so never more names than entries. */
  lemma OutputLength(pictures: seq<string>)
    ensures |GetOrderedPictures(pictures)| == WellFormedCount(pictures) <= |pictures|
  {
    ParseAllAgrees(pictures);
    WellFormedCountBound(pictures);
  }

  lemma {:induction false} NamesInsert(s: seq<Indexed>, x: Indexed)
    ensures multiset(Names(Insert(s, x, IndexKey))) == multiset(Names(s)) + multiset{x.name}
  {
    if s != [] && IndexKey(s[|s| - 1]) > IndexKey(x) {
      var init, last := s[..|s| - 1], s[|s| - 1];
      var ins := Insert(init, x, IndexKey);
      assert Insert(s, x, IndexKey) == ins + [last];
      NamesInsert(init, x);
      assert Names(ins + [last]) == Names(ins) + [last.name] by {
        NamesSnoc(ins, last);
      }
      assert Names(s) == Names(init) + [last.name] by {
        assert s == init + [last];
        NamesSnoc(init, last);
      }
    } else if s != [] {
      assert Insert(s, x, IndexKey) == s + [x];
      NamesSnoc(s, x);
    }
  }

  lemma {:induction false} NamesSortPermutes(s: seq<Indexed>)
    ensures multiset(Names(SortByKey(s, IndexKey))) == multiset(Names(s))
  {
    if s != [] {
      var init, last := s[..|s| - 1], s[|s| - 1];
      NamesSortPermutes(init);
      NamesInsert(SortByKey(init, IndexKey), last);
      assert s == init + [last];
      NamesSnoc(init, last);
    }
  }

  /** The output is a permutation of the names of the well-formed entries. */
  lemma OutputIsPermutation(pictures: seq<string>)
    ensures multiset(GetOrderedPictures(pictures)) == multiset(WellFormedNames(pictures))
  {
    NamesSortPermutes(ParseAll(pictures));
    ParseAllAgrees(pictures);
  }

  /** The output names come in non-decreasing index order. */
  lemma OutputOrderedByIndex(pictures: seq<string>)
    ensures GetOrderedPictures(pictures) == Names(OrderedEntries(pictures))
    ensures forall i, j :: 0 <= i < j < |OrderedEntries(pictures)| ==>
      OrderedEntries(pictures)[i].index <= OrderedEntries(pictures)[j].index
  {
    SortByKeySorts(ParseAll(pictures), IndexKey);
  }

  /** Entries with the same index keep their input order: the sort is stable. */
  lemma EqualIndexKeepsInputOrder(pictures: seq<string>, index: nat)
    ensures WithKey(OrderedEntries(pictures), IndexKey, index) == WithKey(ParseAll(pictures), IndexKey, index)
  {
    SortByKeyIsStable(ParseAll(pictures), IndexKey, index);
  }

  /** Further `'#'` characters stay in the name. */
  lemma ExampleExtraHash()
    ensures ParseEntry("1#a#b") == Some(Indexed(1, "a#b"))
    ensures GetOrderedPictures(["1#a#b"]) == ["a#b"]
  {
    DecimalValueSingle('1');
    ParseEntryOfParts("1", "a#b");
    assert "1" + "#" + "a#b" == "1#a#b";
    OneParsedEntry("1#a#b", Indexed(1, "a#b"));
  }

  lemma ParseEntryPlainIndex()
    ensures ParseEntry("2#y") == Some(Indexed(2, "y"))
  {
    DecimalValueSingle('2');
    ParseEntryOfParts("2", "y");
    assert "2" + "#" + "y" == "2#y";
  }

  /** Leading zeros do not change the index. */
  lemma ParseEntryLeadingZero()
    ensures ParseEntry("02#x") == Some(Indexed(2, "x"))
  {
    assert DecimalValue("02") == 2 by {
      DecimalValueSingle('0');
      DecimalValueSnoc("0", '2');
      assert "0" + ['2'] == "02";
    }
    ParseEntryOfParts("02", "x");
    assert "02" + "#" + "x" == "02#x";
  }

  /** `digits#name` parses to the digits' value and the name. */
  lemma ParseEntryOfParts(digits: string, name: string)
    requires digits != [] && AllDigits(digits) && name != [] && NoLineTerminator(name)
    ensures ParseEntry(digits + "#" + name) == Some(Indexed(DecimalValue(digits), name))
  {
    var s := digits + "#" + name;
    var k := |digits|;
    assert s[..k] == digits && s[k] == '#' && s[k + 1..] == name;
    assert MatchesWithDigits(s, k);
    ParseEntryOfMatch(s, k);
  }

  lemma ParseAllTwo(a: string, b: string, ea: Indexed, eb: Indexed)
    requires ParseEntry(a) == Some(ea) && ParseEntry(b) == Some(eb)
    ensures ParseAll([a, b]) == [ea, eb]
  {
    assert [a, b][..1] == [a] && [a][..0] == [];
    assert ParseAll([a]) == [ea];
    assert [a, b][|[a, b]| - 1] == b;
  }

  /** Two entries with equal indices come out as their names, in input order. */
  lemma TwoEntriesSameIndex(a: string, b: string, ea: Indexed, eb: Indexed)
    requires ParseEntry(a) == Some(ea) && ParseEntry(b) == Some(eb) && ea.index == eb.index
    ensures GetOrderedPictures([a, b]) == [ea.name, eb.name]
  {
    ParseAllTwo(a, b, ea, eb);
    assert SortedBy([ea, eb], IndexKey);
    SortByKeyOfSorted([ea, eb], IndexKey);
  }

  /** `"2#y"` and `"02#x"` have the same key, so they keep their input order. */
  lemma ExampleEqualKeys()
    ensures GetOrderedPictures(["2#y", "02#x"]) == ["y", "x"]
  {
    ParseEntryPlainIndex();
    ParseEntryLeadingZero();
    TwoEntriesSameIndex("2#y", "02#x", Indexed(2, "y"), Indexed(2, "x"));
  }

  /** Entries without digits, without a name, or with a line break in the name are dropped. */
  lemma ExampleMalformedDropped()
    ensures ParseEntry("#a") == None
    ensures ParseEntry("3#") == None
    ensures ParseEntry("x1#a") == None
    ensures ParseEntry("4#a\nb") == None
  {
    assert ParseEntry("x1#a") == None by {
      var s := "x1#a";
      assert s[0] != '#' && s[1] != '#' && s[2] == '#';
      assert IndexOf(s, '#') == 2;
      assert !IsDigit(s[..2][0]);
    }
    assert ParseEntry("4#a\nb") == None by {
      var s := "4#a\nb";
      assert s[0] != '#' && s[1] == '#';
      assert IndexOf(s, '#') == 1;
      assert IsLineTerminator(s[2..][1]);
    }
  }
}
