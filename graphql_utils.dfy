/**
  * `extractFieldsFromQuery` of `src/utils/graphql-utils.ts`: the leftmost match
  * of `/{\s*([\w\s]+)\s*}/` in the query, its group trimmed and split on runs of
  * white space; `[]` when the expression does not match anywhere.
  */
module GraphqlUtils {
  import opened Wrappers
  import opened Text

  /** The class `\w`: ASCII letters, digits and `_`. */
  predicate IsWordChar(c: char) {
    'A' <= c <= 'Z' || 'a' <= c <= 'z' || IsDigit(c) || c == '_'
  }

  /** The class `[\w\s]`. */
  predicate IsGroupChar(c: char) { IsWordChar(c) || IsJsSpace(c) }

  predicate AllGroupChars(s: string) { forall i :: 0 <= i < |s| ==> IsGroupChar(s[i]) }

  predicate AllWordChars(s: string) { forall i :: 0 <= i < |s| ==> IsWordChar(s[i]) }

  /** The length of the longest prefix of `[\w\s]` characters. */
  function RunLen(s: string): (n: nat)
    ensures n <= |s|
  {
    if s != [] && IsGroupChar(s[0]) then 1 + RunLen(s[1..]) else 0
  }

  /** The run holds only `[\w\s]` characters and stops before a character outside the class. */
  lemma {:induction false} RunLenIsMaximal(s: string)
    ensures forall i :: 0 <= i < RunLen(s) ==> IsGroupChar(s[i])
    ensures RunLen(s) < |s| ==> !IsGroupChar(s[RunLen(s)])
  {
    if s != [] && IsGroupChar(s[0]) {
      RunLenIsMaximal(s[1..]);
      assert forall i :: 1 <= i < |s| ==> s[i] == s[1..][i - 1];
    }
  }

  /** The characters `q[a..b]` are all white space. */
  ghost predicate SpaceBetween(q: string, a: nat, b: nat) {
    a <= b <= |q| && forall t :: a <= t < b ==> IsJsSpace(q[t])
  }

  /** The characters `q[a..b]` all belong to `[\w\s]`. */
  ghost predicate GroupBetween(q: string, a: nat, b: nat) {
    a <= b <= |q| && forall t :: a <= t < b ==> IsGroupChar(q[t])
  }

  /**
    * The expression matches at position p: a `'{'`, white space up to i, the
    * group `q[i..j]` of one or more `[\w\s]` characters, white space up to k,
    * and a `'}'` at k.
    */
  ghost predicate RegexMatchAt(q: string, p: nat) {
    p < |q| && q[p] == '{' &&
    exists i: nat, j: nat, k: nat ::
      p + 1 <= i < j <= k < |q| && SpaceBetween(q, p + 1, i) && GroupBetween(q, i, j) && SpaceBetween(q, j, k) && q[k] == '}'
  }

  /** The maximal `[\w\s]` run after position p. */
  function RunAfter(q: string, p: nat): (run: string)
    requires p < |q|
  {
    q[p + 1..p + 1 + RunLen(q[p + 1..])]
  }

  lemma RunAfterGroupChars(q: string, p: nat)
    requires p < |q|
    ensures AllGroupChars(RunAfter(q, p))
  {
    RunLenIsMaximal(q[p + 1..]);
    forall i | 0 <= i < |RunAfter(q, p)| ensures IsGroupChar(RunAfter(q, p)[i]) {
      assert RunAfter(q, p)[i] == q[p + 1..][i];
    }
  }

  /** A non-empty `[\w\s]` run stopped by a `'}'`. */
  predicate ClosedRun(s: string) {
    var n := RunLen(s); 1 <= n < |s| && s[n] == '}'
  }

  /** The direct test for a match at p: the run after a `'{'` is non-empty and a `'}'` follows it. */
  predicate MatchHere(q: string, p: nat) {
    p < |q| && q[p] == '{' && ClosedRun(q[p + 1..])
  }

  /**
    * The text the group captures from a run: `\s*` takes the leading white space
    * and the group the rest; when the run is all white space the engine backtracks
    * so that the group takes its last character. (At a match the run is never empty.)
    */
  function Captured(run: string): string {
    var t := TrimStart(run);
    if t != [] || run == [] then t else [run[|run| - 1]]
  }

  /** The leftmost position at or after `from` where the expression matches. */
  function FirstMatchFrom(q: string, from: nat): (r: Option<nat>)
    requires from <= |q|
    ensures r.Some? ==> from <= r.value < |q|
    decreases |q| - from
  {
    if from == |q| then None
    else if MatchHere(q, from) then Some(from)
    else FirstMatchFrom(q, from + 1)
  }

  /** The search finds a match, and none before it; or it finds nothing and there is no match. */
  lemma {:induction false} FirstMatchFromIsLeftmost(q: string, from: nat)
    requires from <= |q|
    ensures FirstMatchFrom(q, from).Some? ==> MatchHere(q, FirstMatchFrom(q, from).value)
    ensures FirstMatchFrom(q, from).Some? ==> forall p :: from <= p < FirstMatchFrom(q, from).value ==> !MatchHere(q, p)
    ensures FirstMatchFrom(q, from).None? ==> forall p :: from <= p < |q| ==> !MatchHere(q, p)
    decreases |q| - from
  {
    if from < |q| && !MatchHere(q, from) {
      FirstMatchFromIsLeftmost(q, from + 1);
    }
  }

  /** The position of the first white-space character, or `|s|`. */
  function FirstSpace(s: string): (k: nat)
    ensures k <= |s|
    ensures forall i :: 0 <= i < k ==> !IsJsSpace(s[i])
    ensures k < |s| ==> IsJsSpace(s[k])
  {
    if s == [] || IsJsSpace(s[0]) then 0 else 1 + FirstSpace(s[1..])
  }

  predicate NoSpace(s: string) { forall i :: 0 <= i < |s| ==> !IsJsSpace(s[i]) }

  /** `s.split(/\s+/)`: the pieces between the maximal runs of white space. */
  function SplitWs(s: string): (r: seq<string>)
    ensures |r| >= 1
    ensures forall i :: 0 <= i < |r| ==> NoSpace(r[i])
    decreases |s|
  {
    var k := FirstSpace(s);
    if k == |s| then [s] else [s[..k]] + SplitWs(TrimStart(s[k..]))
  }

  /** `extractFieldsFromQuery(query)`. */
  function ExtractFieldsFromQuery(query: string): seq<string> {
    match FirstMatchFrom(query, 0)
    case None => []
    case Some(p) => SplitWs(Trim(Captured(RunAfter(query, p))))
  }

  // ---------------------------------------------------------------------------
  // The match

  lemma {:induction false} RunLenOf(run: string, rest: string)
    requires AllGroupChars(run)
    requires rest == [] || !IsGroupChar(rest[0])
    ensures RunLen(run + rest) == |run|
  {
    if run != [] {
      assert (run + rest)[1..] == run[1..] + rest;
      RunLenOf(run[1..], rest);
    } else {
      assert run + rest == rest;
    }
  }

  /** The direct test agrees with the regular expression's definition of a match. */
  lemma MatchHereIff(q: string, p: nat)
    ensures MatchHere(q, p) <==> RegexMatchAt(q, p)
  {
    if MatchHere(q, p) {
      MatchHereIsRegexMatch(q, p);
    }
    if RegexMatchAt(q, p) {
      RegexMatchIsMatchHere(q, p);
    }
  }

  /** A direct match is a regular-expression match: no space before the run, none after it. */
  lemma MatchHereIsRegexMatch(q: string, p: nat)
    requires MatchHere(q, p)
    ensures RegexMatchAt(q, p)
  {
    var n := RunLen(q[p + 1..]);
    var j := p + 1 + n;
    RunLenIsMaximal(q[p + 1..]);
    assert SpaceBetween(q, p + 1, p + 1);
    assert GroupBetween(q, p + 1, j) by {
      forall t | p + 1 <= t < j ensures IsGroupChar(q[t]) {
        assert q[t] == q[p + 1..][t - p - 1];
      }
    }
    assert SpaceBetween(q, j, j);
  }

  /** A regular-expression match is a direct one: the spaces around the group are group characters too. */
  lemma RegexMatchIsMatchHere(q: string, p: nat)
    requires RegexMatchAt(q, p)
    ensures MatchHere(q, p)
  {
    var i: nat, j: nat, k: nat :| p + 1 <= i < j <= k < |q| && SpaceBetween(q, p + 1, i) && GroupBetween(q, i, j) && SpaceBetween(q, j, k) && q[k] == '}';
    var run, rest := q[p + 1..k], q[k..];
    assert AllGroupChars(run) by {
      forall t | 0 <= t < |run| ensures IsGroupChar(run[t]) {
        assert run[t] == q[p + 1 + t];
        if p + 1 + t < i {
          assert IsJsSpace(q[p + 1 + t]);
        } else if p + 1 + t >= j {
          assert IsJsSpace(q[p + 1 + t]);
        }
      }
    }
    assert rest[0] == '}';
    assert q[p + 1..] == run + rest;
    RunLenOf(run, rest);
  }

  /** The leftmost match is the first position where `MatchHere` holds. */
  lemma {:induction false} FirstMatchIs(q: string, from: nat, p: nat)
    requires from <= p < |q| && MatchHere(q, p)
    requires forall p' :: from <= p' < p ==> !MatchHere(q, p')
    ensures FirstMatchFrom(q, from) == Some(p)
    decreases p - from
  {
    if from < p {
      FirstMatchIs(q, from + 1, p);
    }
  }

  /** Positions where the expression does not match are passed over by the search. */
  lemma {:induction false} SkipNoMatch(q: string, from: nat, stop: nat)
    requires from <= stop <= |q|
    requires forall i :: from <= i < stop ==> !MatchHere(q, i)
    ensures FirstMatchFrom(q, from) == FirstMatchFrom(q, stop)
    decreases stop - from
  {
    if from < stop {
      SkipNoMatch(q, from + 1, stop);
    }
  }

  /** A match in `rest` is a match at the shifted position in `pre + rest`, with the same run. */
  lemma MatchShift(pre: string, rest: string, p: nat)
    requires p < |rest|
    ensures MatchHere(pre + rest, |pre| + p) == MatchHere(rest, p)
    ensures RunAfter(pre + rest, |pre| + p) == RunAfter(rest, p)
  {
    assert (pre + rest)[|pre| + p + 1..] == rest[p + 1..];
    assert (pre + rest)[|pre| + p] == rest[p];
  }

  lemma {:induction false} FirstMatchShift(pre: string, rest: string, from: nat)
    requires from <= |rest|
    ensures FirstMatchFrom(rest, from).None? ==> FirstMatchFrom(pre + rest, |pre| + from).None?
    ensures FirstMatchFrom(rest, from).Some? ==> FirstMatchFrom(pre + rest, |pre| + from) == Some(|pre| + FirstMatchFrom(rest, from).value)
    decreases |rest| - from
  {
    if from < |rest| {
      MatchShift(pre, rest, from);
      if !MatchHere(rest, from) {
        FirstMatchShift(pre, rest, from + 1);
      }
    }
  }

  /** A prefix in which the expression matches nowhere does not change the result. */
  lemma SkipPrefix(pre: string, rest: string)
    requires forall p :: 0 <= p < |pre| ==> !MatchHere(pre + rest, p)
    ensures ExtractFieldsFromQuery(pre + rest) == ExtractFieldsFromQuery(rest)
  {
    var q := pre + rest;
    assert FirstMatchFrom(q, 0) == FirstMatchFrom(q, |pre|) by {
      SkipNoMatch(q, 0, |pre|);
    }
    FirstMatchShift(pre, rest, 0);
    if FirstMatchFrom(rest, 0).Some? {
      var p := FirstMatchFrom(rest, 0).value;
      MatchShift(pre, rest, p);
    }
    SameFirstRunSameFields(q, rest);
  }

  /** Two queries whose leftmost matches capture the same run give the same fields. */
  lemma SameFirstRunSameFields(q1: string, q2: string)
    requires FirstMatchFrom(q1, 0).None? <==> FirstMatchFrom(q2, 0).None?
    requires FirstMatchFrom(q1, 0).Some? ==>
      FirstMatchFrom(q2, 0).Some? && RunAfter(q1, FirstMatchFrom(q1, 0).value) == RunAfter(q2, FirstMatchFrom(q2, 0).value)
    ensures ExtractFieldsFromQuery(q1) == ExtractFieldsFromQuery(q2)
  {
  }

  // ---------------------------------------------------------------------------
  // Trimming and splitting

  /** Trimming the captured group gives the trimmed run: the group choice does not matter after `trim`. */
  lemma TrimCaptured(run: string)
    requires run != []
    ensures Trim(Captured(run)) == Trim(run)
  {
    var t := TrimStart(run);
    if t == [] {
      TrimStartAllSpace(run);
      assert Trim(run) == TrimEnd([]) == [];
      var g := [run[|run| - 1]];
      assert TrimStart(g) == TrimStart(g[1..]);
      assert g[1..] == [];
    } else {
      TrimStartIdempotent(run);
    }
  }

  lemma {:induction false} TrimStartAllSpace(s: string)
    requires TrimStart(s) == []
    ensures AllSpace(s)
  {
    if s != [] {
      if IsJsSpace(s[0]) {
        TrimStartAllSpace(s[1..]);
        assert forall i :: 1 <= i < |s| ==> s[i] == s[1..][i - 1];
      }
    }
  }

  lemma {:induction false} TrimStartIdempotent(s: string)
    ensures TrimStart(TrimStart(s)) == TrimStart(s)
  {
    if s != [] && IsJsSpace(s[0]) {
      TrimStartIdempotent(s[1..]);
    }
  }

  /** Each maximal white-space run replaced by one space: the reference for the split's order. */
  function CollapseSpaces(s: string): string
    decreases |s|
  {
    if s == [] then []
    else if IsJsSpace(s[0]) then " " + CollapseSpaces(TrimStart(s))
    else [s[0]] + CollapseSpaces(s[1..])
  }

  lemma {:induction false} CollapseNoSpacePrefix(s: string, k: nat)
    requires k <= |s| && forall i :: 0 <= i < k ==> !IsJsSpace(s[i])
    ensures CollapseSpaces(s) == s[..k] + CollapseSpaces(s[k..])
  {
    if k > 0 {
      CollapseNoSpacePrefix(s[1..], k - 1);
      assert s[1..][k - 1..] == s[k..];
      assert s[..k] == [s[0]] + s[1..][..k - 1];
    }
  }

  /** The tokens, joined by single spaces, give the text with its white-space runs collapsed: tokens come in source order. */
  lemma {:induction false} JoinSplitWs(s: string)
    ensures Join(SplitWs(s), " ") == CollapseSpaces(s)
    decreases |s|
  {
    var k := FirstSpace(s);
    CollapseNoSpacePrefix(s, k);
    if k == |s| {
      assert s[..k] == s && s[k..] == [];
    } else {
      var rest := TrimStart(s[k..]);
      JoinSplitWs(rest);
      JoinCons(s[..k], SplitWs(rest), " ");
    }
  }

  /** Splitting words joined by white-space runs gives the words back. */
  lemma {:induction false} SplitWsOfJoin(words: seq<string>, sep: string)
    requires |words| >= 1
    requires forall i :: 0 <= i < |words| ==> words[i] != [] && NoSpace(words[i])
    requires sep != [] && AllSpace(sep)
    ensures SplitWs(Join(words, sep)) == words
    decreases |words|
  {
    var w := words[0];
    FirstSpaceOf(w, []);
    if |words| == 1 {
      assert w + [] == w;
    } else {
      var tail := Join(words[1..], sep);
      JoinCons(w, words[1..], sep);
      assert words == [w] + words[1..];
      var s := w + sep + tail;
      assert s == w + (sep + tail);
      FirstSpaceOf(w, sep + tail);
      assert s[..|w|] == w && s[|w|..] == sep + tail;
      JoinHead(words[1..], sep);
      TrimStartOfNonSpace(sep, tail);
      SplitWsOfJoin(words[1..], sep);
    }
  }

  lemma {:induction false} FirstSpaceOf(w: string, rest: string)
    requires NoSpace(w)
    requires rest == [] || IsJsSpace(rest[0])
    ensures FirstSpace(w + rest) == |w|
  {
    if w != [] {
      assert (w + rest)[1..] == w[1..] + rest;
      FirstSpaceOf(w[1..], rest);
    } else {
      assert w + rest == rest;
    }
  }

  /** A join of non-empty words starts with the first word's first character. */
  lemma JoinHead(words: seq<string>, sep: string)
    requires |words| >= 1 && words[0] != []
    ensures Join(words, sep) != [] && Join(words, sep)[0] == words[0][0]
  {
    if |words| > 1 {
      JoinCons(words[0], words[1..], sep);
      assert words == [words[0]] + words[1..];
    }
  }

  // ---------------------------------------------------------------------------
  // Properties of extractFieldsFromQuery

  /** The result is `[]` exactly when the expression matches nowhere, e.g. for `"{}"`. */
  lemma EmptyIffNoMatch(query: string)
    ensures ExtractFieldsFromQuery(query) == [] <==> forall p: nat :: !RegexMatchAt(query, p)
  {
    FirstMatchFromIsLeftmost(query, 0);
    forall p: nat ensures MatchHere(query, p) <==> RegexMatchAt(query, p) {
      MatchHereIff(query, p);
    }
  }

  /** On a match, the fields are the white-space separated pieces of the trimmed run after the leftmost qualifying `'{'`. */
  lemma FieldsOfLeftmostMatch(query: string, p: nat)
    requires RegexMatchAt(query, p)
    requires forall p': nat :: p' < p ==> !RegexMatchAt(query, p')
    ensures ExtractFieldsFromQuery(query) == SplitWs(Trim(RunAfter(query, p)))
  {
    MatchHereIff(query, p);
    forall p': nat | p' < p ensures !MatchHere(query, p') {
      MatchHereIff(query, p');
    }
    FirstMatchIs(query, 0, p);
    TrimCaptured(RunAfter(query, p));
  }

  /** Every field is a non-empty run of `[A-Za-z0-9_]`, except the single `""` a blank group gives. */
  lemma FieldsAreWords(query: string)
    ensures var r := ExtractFieldsFromQuery(query);
      r == [""] || forall i :: 0 <= i < |r| ==> r[i] != [] && AllWordChars(r[i])
  {
    match FirstMatchFrom(query, 0)
    case None =>
    case Some(p) =>
      var run := RunAfter(query, p);
      FirstMatchFromIsLeftmost(query, 0);
      RunAfterGroupChars(query, p);
      TrimCaptured(run);
      var t := Trim(run);
      TrimOfGroupChars(run);
      if t != [] {
        SplitWsPieces(t);
      }
  }

  /** A trimmed run of `[\w\s]` characters is either empty or starts and ends with a word character. */
  lemma TrimOfGroupChars(run: string)
    requires AllGroupChars(run)
    ensures AllGroupChars(Trim(run))
    ensures Trim(run) == [] || (!IsJsSpace(Trim(run)[0]) && !IsJsSpace(Trim(run)[|Trim(run)| - 1]))
  {
    TrimStartSuffix(run);
    var a := TrimStart(run);
    TrimEndPrefix(a);
    var b := TrimEnd(a);
    if b != [] {
      assert b[0] == a[0];
    }
  }

  lemma {:induction false} TrimStartSuffix(s: string)
    ensures TrimStart(s) == s[|s| - |TrimStart(s)|..]
  {
    if s != [] && IsJsSpace(s[0]) {
      TrimStartSuffix(s[1..]);
    }
  }

  lemma {:induction false} TrimEndPrefix(s: string)
    ensures TrimEnd(s) == s[..|TrimEnd(s)|]
  {
    if s != [] && IsJsSpace(s[|s| - 1]) {
      TrimEndPrefix(s[..|s| - 1]);
    }
  }

  /** A string ending in a non-space character keeps that character after `trimStart`. */
  lemma {:induction false} TrimStartKeepsLast(s: string)
    requires s != [] && !IsJsSpace(s[|s| - 1])
    ensures TrimStart(s) != []
  {
    if IsJsSpace(s[0]) {
      assert |s| > 1;
      TrimStartKeepsLast(s[1..]);
    }
  }

  /** The pieces of a non-empty trimmed run of `[\w\s]` characters are non-empty words. */
  lemma {:induction false} SplitWsPieces(t: string)
    requires t != [] && AllGroupChars(t) && !IsJsSpace(t[0]) && !IsJsSpace(t[|t| - 1])
    ensures forall i :: 0 <= i < |SplitWs(t)| ==> SplitWs(t)[i] != [] && AllWordChars(SplitWs(t)[i])
    decreases |t|
  {
    var k := FirstSpace(t);
    SplitWsHead(t);
    if k < |t| {
      var rest := TrimStart(t[k..]);
      SplitWsRest(t);
      SplitWsPieces(rest);
      var r := SplitWs(t);
      forall i | 0 <= i < |r| ensures r[i] != [] && AllWordChars(r[i]) {
        if i > 0 {
          assert r[i] == SplitWs(rest)[i - 1];
        }
      }
    }
  }

  /** The first piece of such a run is a non-empty word, and the only piece when the run has no space. */
  lemma SplitWsHead(t: string)
    requires t != [] && AllGroupChars(t) && !IsJsSpace(t[0])
    ensures var k := FirstSpace(t);
      && k >= 1 && AllWordChars(t[..k])
      && (k == |t| ==> SplitWs(t) == [t[..k]])
  {
    var k := FirstSpace(t);
    var head := t[..k];
    forall i | 0 <= i < |head| ensures IsWordChar(head[i]) {
      assert head[i] == t[i];
    }
    if k == |t| {
      assert head == t;
    }
  }

  /** After the first space, the trimmed remainder is again such a run, and its pieces follow the first. */
  lemma SplitWsRest(t: string)
    requires t != [] && AllGroupChars(t) && !IsJsSpace(t[|t| - 1]) && FirstSpace(t) < |t|
    ensures var rest := TrimStart(t[FirstSpace(t)..]);
      && rest != [] && AllGroupChars(rest) && !IsJsSpace(rest[0]) && !IsJsSpace(rest[|rest| - 1])
      && |rest| < |t|
      && SplitWs(t) == [t[..FirstSpace(t)]] + SplitWs(rest)
  {
    var k := FirstSpace(t);
    var u := t[k..];
    var rest := TrimStart(u);
    assert SplitWs(t) == [t[..k]] + SplitWs(rest);
    assert rest == u[|u| - |rest|..] by {
      TrimStartSuffix(u);
    }
    assert rest != [] by {
      TrimStartKeepsLast(u);
    }
    forall i | 0 <= i < |rest| ensures rest[i] == t[|t| - |rest| + i] {
      assert rest[i] == u[|u| - |rest| + i];
    }
  }

  /** A blank group such as `"{   }"` gives `[""]`, not `[]`. */
  lemma BlankGroupGivesEmptyField(ws: string)
    requires ws != [] && AllSpace(ws)
    ensures ExtractFieldsFromQuery("{" + ws + "}") == [""]
  {
    var q := "{" + ws + "}";
    assert q[1..] == ws + "}";
    assert AllGroupChars(ws);
    RunLenOf(ws, "}");
    assert RunAfter(q, 0) == ws;
    assert MatchHere(q, 0);
    TrimCaptured(ws);
    TrimStartOfNonSpace(ws, []);
    assert ws + [] == ws;
  }

  /** `"{}"` has no group, so the result is `[]`. */
  lemma EmptyBracesGiveNothing()
    ensures ExtractFieldsFromQuery("{}") == []
  {
    assert !MatchHere("{}", 0);
    assert !MatchHere("{}", 1);
  }

  // ---------------------------------------------------------------------------
  // The searchUser query of src/graphql/queries.ts

  /** Text without a `'{'` in front of the query is passed over. */
  lemma SkipBraceless(a: string, rest: string)
    requires '{' !in a
    ensures ExtractFieldsFromQuery(a + rest) == ExtractFieldsFromQuery(rest)
  {
    forall p | 0 <= p < |a| ensures !MatchHere(a + rest, p) {
      assert (a + rest)[p] == a[p];
    }
    SkipPrefix(a, rest);
  }

  /**
    * A `'{'` whose run is stopped by a character other than `'}'`, such as the
    * `'('` after an operation name, does not qualify and is passed over.
    */
  lemma SkipBlockedBrace(b: string, rest: string)
    requires '{' !in b
    requires RunLen(b) < |b| && b[RunLen(b)] != '}'
    ensures ExtractFieldsFromQuery("{" + b + rest) == ExtractFieldsFromQuery(rest)
  {
    var pre := "{" + b;
    var q := pre + rest;
    forall p | 0 <= p < |pre| ensures !MatchHere(q, p) {
      if p == 0 {
        BlockedBraceNoMatch(b, rest);
      } else {
        assert q[p] == b[p - 1];
      }
    }
    SkipPrefix(pre, rest);
  }

  lemma BlockedBraceNoMatch(b: string, rest: string)
    requires RunLen(b) < |b| && b[RunLen(b)] != '}'
    ensures !MatchHere("{" + b + rest, 0)
  {
    var q := "{" + b + rest;
    TailOfCons('{', b + rest);
    assert q == ['{'] + (b + rest);
    RunLenPrefix(b, rest);
    assert (b + rest)[RunLen(b)] == b[RunLen(b)];
  }

  lemma TailOfCons(c: char, s: string)
    ensures ([c] + s)[1..] == s
  {
  }

  /** A `'{'`, a non-empty run of `[\w\s]` characters and a `'}'` give the words of the run. */
  lemma FieldsOfGroup(g: string, c: string)
    requires g != [] && AllGroupChars(g)
    ensures ExtractFieldsFromQuery("{" + g + "}" + c) == SplitWs(Trim(g))
  {
    var q := "{" + g + "}" + c;
    assert q[1..] == g + ("}" + c);
    RunLenOf(g, "}" + c);
    assert RunAfter(q, 0) == g;
    assert MatchHere(q, 0);
    TrimCaptured(g);
  }

  /**
    * Where a query has the shape `A{B{G}C`, with no `'{'` in A or B and the run
    * after the first `'{'` stopped by a character other than `'}'`, the fields
    * are the words of G.
    */
  lemma FieldsOfNestedQuery(a: string, b: string, g: string, c: string)
    requires '{' !in a && '{' !in b
    requires RunLen(b) < |b| && b[RunLen(b)] != '}'
    requires g != [] && AllGroupChars(g)
    ensures ExtractFieldsFromQuery(a + "{" + b + "{" + g + "}" + c) == SplitWs(Trim(g))
  {
    var inner := "{" + g + "}" + c;
    NestedShape(a, b, g, c);
    SkipBraceless(a, "{" + b + inner);
    SkipBlockedBrace(b, inner);
    FieldsOfGroup(g, c);
  }

  lemma NestedShape(a: string, b: string, g: string, c: string)
    ensures a + "{" + b + "{" + g + "}" + c == a + ("{" + b + ("{" + g + "}" + c))
  {
  }

  /** The run of a string is decided by its prefix when the prefix already holds a stopping character. */
  lemma {:induction false} RunLenPrefix(b: string, rest: string)
    requires RunLen(b) < |b|
    ensures RunLen(b + rest) == RunLen(b)
  {
    if IsGroupChar(b[0]) {
      assert (b + rest)[1..] == b[1..] + rest;
      RunLenPrefix(b[1..], rest);
    }
  }

  const SearchUserFields: seq<string> := ["userId", "picturePath", "picture", "preview", "givenName", "familyName"]

  /**
    * The text of a query shaped like `searchUser`, line by line: the operation,
    * the resolver call, then each field on its own line, indented by six spaces.
    */
  function SearchUserQuery(fields: seq<string>): string {
    "\n  query searchUser($search: String!) " + "{"
    + "\n    searchUser" + "(search: $search) " + "{"
    + "\n      " + Join(fields, "\n      ") + "\n    " + "}"
    + "\n  }\n"
  }

  /** The `searchUser` query of `src/graphql/queries.ts`. */
  const SearchUser: string := SearchUserQuery(SearchUserFields)

  /** For any list of field names, the outer operation braces are skipped and the field list is returned. */
  lemma FieldsOfSearchUserShape(fields: seq<string>)
    requires |fields| >= 1
    requires forall i :: 0 <= i < |fields| ==> fields[i] != [] && AllWordChars(fields[i])
    ensures ExtractFieldsFromQuery(SearchUserQuery(fields)) == fields
  {
    var sep, tail := "\n      ", "\n    ";
    var g := sep + Join(fields, sep) + tail;
    SearchUserQueryParts(fields);
    ResolverCallStops();
    PaddedWordsAreGroupChars(fields, sep, tail);
    FieldsOfNestedQuery("\n  query searchUser($search: String!) ", "\n    searchUser" + "(search: $search) ", g, "\n  }\n");
    WordsArePieces(fields, sep, tail);
  }

  lemma SearchUserQueryParts(fields: seq<string>)
    ensures SearchUserQuery(fields) ==
      "\n  query searchUser($search: String!) " + "{" + ("\n    searchUser" + "(search: $search) ") + "{"
      + ("\n      " + Join(fields, "\n      ") + "\n    ") + "}" + "\n  }\n"
  {
  }

  /** The run after the `'{'` of the operation is stopped by the `'('` of the resolver call. */
  lemma ResolverCallStops()
    ensures var b := "\n    searchUser" + "(search: $search) ";
      '{' !in b && RunLen(b) < |b| && b[RunLen(b)] != '}'
  {
    RunLenOf("\n    searchUser", "(search: $search) ");
  }

  lemma PaddedWordsAreGroupChars(words: seq<string>, sep: string, tail: string)
    requires forall i :: 0 <= i < |words| ==> AllWordChars(words[i])
    requires AllSpace(sep) && AllSpace(tail)
    ensures AllGroupChars(sep + Join(words, sep) + tail)
  {
    var body := Join(words, sep);
    var g := sep + body + tail;
    WordsJoinGroupChars(words, sep);
    forall i | 0 <= i < |g| ensures IsGroupChar(g[i]) {
      if i < |sep| {
        assert g[i] == sep[i];
      } else if i < |sep| + |body| {
        assert g[i] == body[i - |sep|];
      } else {
        assert g[i] == tail[i - |sep| - |body|];
      }
    }
  }

  /** Words joined and padded by white space are split back into the words. */
  lemma WordsArePieces(words: seq<string>, sep: string, tail: string)
    requires |words| >= 1
    requires forall i :: 0 <= i < |words| ==> words[i] != [] && AllWordChars(words[i])
    requires sep != [] && AllSpace(sep) && AllSpace(tail)
    ensures SplitWs(Trim(sep + Join(words, sep) + tail)) == words
  {
    var body := Join(words, sep);
    JoinHead(words, sep);
    JoinLast(words, sep);
    WordCharNotSpace(words[0][0]);
    WordCharNotSpace(words[|words| - 1][|words[|words| - 1]| - 1]);
    TrimOfPadded(sep, body, tail);
    forall i | 0 <= i < |words| ensures NoSpace(words[i]) {
      forall j | 0 <= j < |words[i]| ensures !IsJsSpace(words[i][j]) {
        WordCharNotSpace(words[i][j]);
      }
    }
    SplitWsOfJoin(words, sep);
  }

  lemma WordCharNotSpace(c: char)
    requires IsWordChar(c)
    ensures !IsJsSpace(c)
  {
  }

  /** `extractFieldsFromQuery(searchUser)` is the resolver's field list. */
  lemma SearchUserFieldsExtracted()
    ensures ExtractFieldsFromQuery(SearchUser) == SearchUserFields
  {
    FieldsOfSearchUserShape(SearchUserFields);
  }

  lemma {:induction false} WordsJoinGroupChars(words: seq<string>, sep: string)
    requires forall i :: 0 <= i < |words| ==> AllWordChars(words[i])
    requires AllSpace(sep)
    ensures AllGroupChars(Join(words, sep))
    decreases |words|
  {
    if |words| > 1 {
      WordsJoinGroupChars(words[1..], sep);
    }
  }

  /** A join of non-empty words ends with the last word's last character. */
  lemma {:induction false} JoinLast(words: seq<string>, sep: string)
    requires |words| >= 1 && words[|words| - 1] != []
    ensures Join(words, sep) != [] && Join(words, sep)[|Join(words, sep)| - 1] == words[|words| - 1][|words[|words| - 1]| - 1]
    decreases |words|
  {
    if |words| > 1 {
      JoinLast(words[1..], sep);
    }
  }
}
