/**
  * `apps/admin-app/src/utils/clearAuth.ts`: signing out of the admin app in
  * the browser. Local storage is cleared, every cookie fragment of
  * `document.cookie` is written back with its value replaced by an expiry
  * stamp, and the Amplify session is signed out, with a sign-out error
  * caught and only logged. The browser's storage, cookie writes and clock
  * are modelled as state and parameters.
  */
module ClearAuth {
  import opened Text

  /** `.replace(/^ +/, "")`: the leading space characters, and no other white space. */
  function StripLeadingSpaces(s: string): string {
    if s != [] && s[0] == ' ' then StripLeadingSpaces(s[1..]) else s
  }

  /** The strip removes a prefix made of spaces only, and the rest does not start with one. */
  lemma {:induction false} StripLeadingSpacesShape(s: string)
    ensures var r := StripLeadingSpaces(s);
      && |r| <= |s| && r == s[|s| - |r|..]
      && (r == [] || r[0] != ' ')
      && forall i :: 0 <= i < |s| - |r| ==> s[i] == ' '
  {
    if s != [] && s[0] == ' ' {
      var t := s[1..];
      StripLeadingSpacesShape(t);
      var r := StripLeadingSpaces(t);
      assert StripLeadingSpaces(s) == r;
      assert t[|t| - |r|..] == s[|s| - |r|..];
      forall i | 0 <= i < |s| - |r|
        ensures s[i] == ' '
      {
        if i > 0 {
          assert s[i] == t[i - 1];
        }
      }
    }
  }

  /** Where the regular-expression `.*` stops: the first line terminator, or the end. */
  function LineEnd(s: string): (r: nat)
    ensures r <= |s|
    ensures forall i :: 0 <= i < r ==> !IsLineTerminator(s[i])
    ensures r < |s| ==> IsLineTerminator(s[r])
  {
    if s == [] || IsLineTerminator(s[0]) then 0 else 1 + LineEnd(s[1..])
  }

  function Expiry(date: string): string {
    "=;expires=" + date + ";path=/"
  }

  /** `.replace(/=.*\/, "=;expires=" + date + ";path=/")`: from the first `'='` to the end of its line. */
  function ExpireValue(s: string, date: string): string {
    var i := IndexOf(s, '=');
    if i < 0 then s
    else
      var rest := s[i + 1..];
      s[..i] + Expiry(date) + rest[LineEnd(rest)..]
  }

  /** The string assigned to `document.cookie` for one fragment. */
  function Rewrite(fragment: string, date: string): string {
    ExpireValue(StripLeadingSpaces(fragment), date)
  }

  /** A string with no line terminator. */
  predicate SingleLine(s: string) {
    forall i :: 0 <= i < |s| ==> !IsLineTerminator(s[i])
  }

  /** Any run of spaces before a fragment is dropped, and nothing after it. */
  lemma {:induction false} SpacesStripped(spaces: string, t: string)
    requires forall i :: 0 <= i < |spaces| ==> spaces[i] == ' '
    requires t == [] || t[0] != ' '
    ensures StripLeadingSpaces(spaces + t) == t
  {
    if spaces != [] {
      assert (spaces + t)[1..] == spaces[1..] + t;
      SpacesStripped(spaces[1..], t);
    } else {
      assert spaces + t == t;
    }
  }

  /** A leading tab is not stripped, and neither is any space behind it. */
  lemma TabKept(rest: string)
    ensures StripLeadingSpaces(['\t'] + rest) == ['\t'] + rest
  {
  }

  /** A fragment with no `'='` is written back as it is, apart from its leading spaces, with no expiry. */
  lemma NoEqualsUnchanged(fragment: string, date: string)
    requires '=' !in StripLeadingSpaces(fragment)
    ensures Rewrite(fragment, date) == StripLeadingSpaces(fragment)
  {
  }

  /** The first `'='` of `name=tail` is the one after the name. */
  lemma ExpireValueOfPair(name: string, tail: string, date: string)
    requires '=' !in name
    ensures ExpireValue(name + "=" + tail, date) == name + Expiry(date) + tail[LineEnd(tail)..]
  {
    var s := name + "=" + tail;
    var i := IndexOf(s, '=');
    assert s[|name|] == '=';
    assert s[..|name|] == name;
    assert i == |name|;
    assert s[i + 1..] == tail;
  }

  /** A one-line `name=value` keeps its name, up to the first `'='`, and gets the expiry in place of the value. */
  lemma NameKeptValueExpired(name: string, value: string, date: string)
    requires '=' !in name && (name == [] || name[0] != ' ')
    requires SingleLine(value)
    ensures Rewrite(name + "=" + value, date) == name + Expiry(date)
  {
    assert StripLeadingSpaces(name + "=" + value) == name + "=" + value;
    ExpireValueOfPair(name, value, date);
    assert LineEnd(value) == |value|;
  }

  /** As written, `.` stops at a line break: whatever follows it in the value survives the rewrite. */
  lemma LineBreakSurvives(name: string, value: string, rest: string, date: string)
    requires '=' !in name && (name == [] || name[0] != ' ')
    requires SingleLine(value) && rest != [] && IsLineTerminator(rest[0])
    ensures Rewrite(name + "=" + (value + rest), date) == name + Expiry(date) + rest
  {
    assert StripLeadingSpaces(name + "=" + (value + rest)) == name + "=" + (value + rest);
    ExpireValueOfPair(name, value + rest, date);
    LineEndOfSingleLine(value, rest);
    assert (value + rest)[|value|..] == rest;
  }

  lemma {:induction false} LineEndOfSingleLine(a: string, b: string)
    requires SingleLine(a) && b != [] && IsLineTerminator(b[0])
    ensures LineEnd(a + b) == |a|
  {
    if a != [] {
      assert (a + b)[1..] == a[1..] + b;
      LineEndOfSingleLine(a[1..], b);
    } else {
      assert a + b == b;
    }
  }

  /** A browser effect, in the order the function makes them. */
  datatype Effect = StorageCleared | CookieAssigned(cookie: string) | SignOutCalled

  /** The assignments of the `forEach`, the `i`-th stamped with the clock's `i`-th reading. */
  function Assignments(fragments: seq<string>, clock: nat -> string): (r: seq<Effect>)
    ensures |r| == |fragments|
  {
    if fragments == [] then []
    else
      var last := |fragments| - 1;
      Assignments(fragments[..last], clock) + [CookieAssigned(Rewrite(fragments[last], clock(last)))]
  }

  lemma AssignmentsSnoc(fragments: seq<string>, clock: nat -> string, i: nat)
    requires i < |fragments|
    ensures Assignments(fragments[..i + 1], clock) == Assignments(fragments[..i], clock) + [CookieAssigned(Rewrite(fragments[i], clock(i)))]
  {
    assert fragments[..i + 1][..i] == fragments[..i];
  }

  /** The `i`-th assignment rewrites the `i`-th fragment. */
  lemma {:induction false} AssignmentAt(fragments: seq<string>, clock: nat -> string, i: nat)
    requires i < |fragments|
    ensures Assignments(fragments, clock)[i] == CookieAssigned(Rewrite(fragments[i], clock(i)))
  {
    if i < |fragments| - 1 {
      AssignmentAt(fragments[..|fragments| - 1], clock, i);
    }
  }

  /** One assignment per fragment: one more than the number of `';'`. */
  lemma OneAssignmentPerFragment(cookie: string, clock: nat -> string)
    ensures |Assignments(Split(cookie, ';'), clock)| == Occurrences(cookie, ';') + 1
  {
    SplitLength(cookie, ';');
  }

  /** An empty cookie string still makes one assignment, of the empty string. */
  lemma EmptyCookieOneAssignment(clock: nat -> string)
    ensures Assignments(Split("", ';'), clock) == [CookieAssigned("")]
  {
    assert Split("", ';') == [""];
  }

  /** The browser state that `clearAuthState` touches. */
  class Browser {
    var localStorage: map<string, string>
    var signedIn: bool
    var effects: seq<Effect>

    /**
      * `clearAuthState`, given what `document.cookie` reads, the clock's
      * readings and whether `signOut` throws. The throw is caught, so the
      * effects are the same either way.
      */
    method ClearAuthState(cookie: string, clock: nat -> string, signOutThrows: bool)
      modifies this
      ensures localStorage == map[]
      ensures effects == old(effects) + [StorageCleared] + Assignments(Split(cookie, ';'), clock) + [SignOutCalled]
      ensures signedIn == (old(signedIn) && signOutThrows)
    {
      localStorage := map[];
      effects := effects + [StorageCleared];
      AssignCookies(Split(cookie, ';'), clock);
      effects := effects + [SignOutCalled];
      signedIn := signedIn && signOutThrows;
    }

    /** The `forEach`: one `document.cookie` assignment per fragment, in order. */
    method AssignCookies(fragments: seq<string>, clock: nat -> string)
      modifies this
      ensures effects == old(effects) + Assignments(fragments, clock)
      ensures localStorage == old(localStorage) && signedIn == old(signedIn)
    {
      for i := 0 to |fragments|
        invariant effects == old(effects) + Assignments(fragments[..i], clock)
        invariant localStorage == old(localStorage) && signedIn == old(signedIn)
      {
        var e := CookieAssigned(Rewrite(fragments[i], clock(i)));
        assert old(effects) + Assignments(fragments[..i + 1], clock) == effects + [e] by {
          AssignmentsSnoc(fragments, clock, i);
        }
        effects := effects + [e];
      }
      assert fragments[..|fragments|] == fragments;
    }
  }
}
