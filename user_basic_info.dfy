/**
  * `apps/admin-app/src/components/userBasicInfo.tsx`: the avatar and name of
  * a user profile. The avatar is the profile's preview picture, or else a
  * badge with the upper-cased initials of the given and family names.
  */
module UserBasicInfo {
  import opened Wrappers

  /** The fields of the `TUser` record of `packages/types/index.ts` that the card and the user picker read. */
  datatype User = User(userId: string, givenName: Option<string>, familyName: Option<string>, preview: Option<string>)

  predicate IsLowerAscii(c: char) { 'a' <= c <= 'z' }

  /** `toUpperCase` on one character, for the ASCII letters. */
  function UpperAscii(c: char): (r: char)
    ensures !IsLowerAscii(r)
    ensures IsLowerAscii(c) ==> r as int == c as int - 32
    ensures !IsLowerAscii(c) ==> r == c
  {
    if IsLowerAscii(c) then (c as int - 32) as char else c
  }

  /** `toUpperCase` character by character. */
  function ToUpper(s: string): (r: string)
    ensures |r| == |s|
    ensures forall i :: 0 <= i < |s| ==> r[i] == UpperAscii(s[i])
  {
    if s == [] then [] else [UpperAscii(s[0])] + ToUpper(s[1..])
  }

  /** `name?.[0] || ""`: the first character, or nothing for a missing or empty name. */
  function FirstChar(name: Option<string>): string {
    if name.Some? && name.value != [] then [name.value[0]] else ""
  }

  function Initials(givenName: Option<string>, familyName: Option<string>): string {
    ToUpper(FirstChar(givenName) + FirstChar(familyName))
  }

  /** The number of initials is the number of non-empty names; each is the upper-cased first letter. */
  lemma InitialsShape(givenName: Option<string>, familyName: Option<string>)
    ensures var r := Initials(givenName, familyName);
      && |r| == (if Present(givenName) then 1 else 0) + (if Present(familyName) then 1 else 0)
      && |r| <= 2
      && (Present(givenName) ==> r[0] == UpperAscii(givenName.value[0]))
      && (Present(familyName) ==> r[|r| - 1] == UpperAscii(familyName.value[0]))
      && forall i :: 0 <= i < |r| ==> !IsLowerAscii(r[i])
  {
    var r := Initials(givenName, familyName);
    var raw := FirstChar(givenName) + FirstChar(familyName);
    assert |r| == |raw|;
    if Present(givenName) {
      assert raw[0] == givenName.value[0];
    }
    if Present(familyName) {
      assert raw[|raw| - 1] == familyName.value[0];
    }
  }

  /** Names that start with the same characters give the same initials. */
  lemma InitialsDependOnFirstChars(g1: Option<string>, f1: Option<string>, g2: Option<string>, f2: Option<string>)
    requires FirstChar(g1) == FirstChar(g2) && FirstChar(f1) == FirstChar(f2)
    ensures Initials(g1, f1) == Initials(g2, f2)
  {
  }

  /** The avatar: the preview picture, or the initials badge. */
  datatype Avatar = Picture(src: string) | InitialsBadge(initials: string)

  /** A rendered card: the avatar and the name line. */
  datatype Card = Card(avatar: Avatar, name: string)

  /** A template-literal interpolation of a `string | undefined`. */
  function Shown(s: Option<string>): string {
    if s.Some? then s.value else "undefined"
  }

  /** `UserBasicInfo`: nothing for a missing profile. */
  function Render(profile: Option<User>): Option<Card> {
    if profile.None? then None
    else
      var u := profile.value;
      var avatar := if Present(u.preview) then Picture(u.preview.value) else InitialsBadge(Initials(u.givenName, u.familyName));
      Some(Card(avatar, Shown(u.givenName) + " " + Shown(u.familyName)))
  }

  /** The initials are shown exactly when the preview is falsy, and the picture otherwise. */
  lemma AvatarChoice(profile: Option<User>)
    ensures Render(profile).None? <==> profile.None?
    ensures profile.Some? ==>
      var u := profile.value;
      && (Render(profile).value.avatar.InitialsBadge? <==> !Present(u.preview))
      && (Render(profile).value.avatar.InitialsBadge? ==> Render(profile).value.avatar.initials == Initials(u.givenName, u.familyName))
      && (Render(profile).value.avatar.Picture? ==> Render(profile).value.avatar.src == u.preview.value)
  {
  }

  /** A missing given name is printed as the word `undefined`. */
  lemma MissingNamePrintsUndefined(u: User)
    requires u.givenName.None?
    ensures var name := Render(Some(u)).value.name;
      |name| >= 10 && name[..10] == "undefined "
  {
    var name := Render(Some(u)).value.name;
    assert name == "undefined " + Shown(u.familyName);
  }
}
