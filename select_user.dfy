/**
  * `apps/admin-app/src/components/SelectUser.tsx`: the user picker. Each new
  * search term searches the users; a single match becomes the `userId`
  * query parameter and the selection, anything else clears both. Picking an
  * option selects it. The search lambda and the router are foreign: the
  * lambda's answer is a parameter, the search terms sent are logged, and
  * `replace` is the assignment of the new pairs to `query`.
  */
module SelectUser {
  import opened Wrappers
  import opened QueryParams
  import opened UserBasicInfo

  /** What `searchUser` gives back: some value (an array, or `undefined`/`null`), or a throw. */
  datatype UsersOutcome = Users(result: Option<seq<User>>) | UsersThrew

  /** The query pairs after a search: only a single match sets `userId`. */
  function ParamsAfterSearch(ps: seq<Param>, result: Option<seq<User>>): seq<Param> {
    if result.Some? && |result.value| == 1 then WithParam(ps, "userId", result.value[0].userId)
    else WithoutParam(ps, "userId")
  }

  function SelectionAfterSearch(result: Option<seq<User>>): Option<string> {
    if result.Some? && |result.value| == 1 then Some(result.value[0].userId) else None
  }

  /** `option ? option.value : null`, then the `userId` parameter set or deleted by its truthiness. */
  function ParamsAfterChange(ps: seq<Param>, newUserId: Option<string>): seq<Param> {
    if Present(newUserId) then WithParam(ps, "userId", newUserId.value) else WithoutParam(ps, "userId")
  }

  /** The first user with that id, as `find` gives it. */
  function FindUser(users: seq<User>, id: string): (r: Option<User>)
    ensures r.Some? ==> r.value in users && r.value.userId == id
    ensures r.Some? ==> exists i :: 0 <= i < |users| && users[i] == r.value && forall j :: 0 <= j < i ==> users[j].userId != id
    ensures r.None? <==> forall u :: u in users ==> u.userId != id
  {
    if users == [] then None
    else if users[0].userId == id then Some(users[0])
    else
      var r := FindUser(users[1..], id);
      assert r.Some? ==> exists i :: 1 <= i < |users| && users[i] == r.value && forall j :: 0 <= j < i ==> users[j].userId != id by {
        if r.Some? {
          var i :| 0 <= i < |users[1..]| && users[1..][i] == r.value && forall j :: 0 <= j < i ==> users[1..][j].userId != id;
          assert forall j :: 1 <= j < i + 1 ==> users[j].userId != id by {
            forall j | 1 <= j < i + 1 ensures users[j].userId != id {
              assert users[j] == users[1..][j - 1];
            }
          }
          assert users[i + 1] == r.value;
        }
      }
      r
  }

  /** `isDisabled`. */
  predicate Disabled(isLoading: bool, options: seq<User>) {
    isLoading || |options| == 0
  }

  /** The large card under the picker: a selected user found among the options. */
  function DetailCard(selectedUserId: Option<string>, showUserInfo: bool, options: seq<User>): Option<User> {
    if Present(selectedUserId) && showUserInfo then FindUser(options, selectedUserId.value) else None
  }

  class SelectUser {
    var query: seq<Param>
    var options: seq<User>
    var selectedUserId: Option<string>
    var isLoading: bool
    var requests: seq<string>

    constructor(query0: seq<Param>)
      ensures query == query0 && options == [] && selectedUserId == None && isLoading && requests == []
    {
      query := query0;
      options := [];
      selectedUserId := None;
      isLoading := true;
      requests := [];
    }

    function IsDisabled(): bool
      reads this
    {
      Disabled(isLoading, options)
    }

    /** The effect runs on every search term, even an empty one: loading starts and the lambda is called. */
    method StartSearch(searchTerm: string)
      modifies this
      ensures isLoading && requests == old(requests) + [searchTerm]
      ensures query == old(query) && options == old(options) && selectedUserId == old(selectedUserId)
    {
      isLoading := true;
      requests := requests + [searchTerm];
    }

    /** The rest of `fetchUsers`, once the lambda has answered or thrown; loading ends either way. */
    method FinishSearch(outcome: UsersOutcome)
      modifies this
      ensures !isLoading && requests == old(requests)
      ensures outcome.UsersThrew? ==>
        && query == old(query) && options == old(options) && selectedUserId == old(selectedUserId)
      ensures outcome.Users? ==>
        && query == ParamsAfterSearch(old(query), outcome.result)
        && selectedUserId == SelectionAfterSearch(outcome.result)
        && options == (if outcome.result.Some? then outcome.result.value else [])
    {
      if outcome.Users? {
        var usersArray := outcome.result;
        var params := new SearchParams(query);
        if usersArray.Some? && |usersArray.value| == 1 {
          params.Set("userId", usersArray.value[0].userId);
          selectedUserId := Some(usersArray.value[0].userId);
        } else {
          params.Delete("userId");
          selectedUserId := None;
        }
        query := params.entries;
        options := if usersArray.Some? then usersArray.value else [];
      }
      isLoading := false;
    }

    /** `handleChange`: the option's value, or `null` for a cleared picker. */
    method HandleChange(option: Option<string>)
      modifies this
      ensures selectedUserId == option
      ensures query == ParamsAfterChange(old(query), option)
      ensures options == old(options) && isLoading == old(isLoading) && requests == old(requests)
    {
      var newUserId := option;
      selectedUserId := newUserId;
      var params := new SearchParams(query);
      if newUserId.Some? && newUserId.value != "" {
        params.Set("userId", newUserId.value);
      } else {
        params.Delete("userId");
      }
      query := params.entries;
    }
  }

  /** A single match sets the parameter and the selection to its id. */
  lemma OneMatchSelects(ps: seq<Param>, u: User)
    ensures ParamValue(ParamsAfterSearch(ps, Some([u])), "userId") == Some(u.userId)
    ensures SelectionAfterSearch(Some([u])) == Some(u.userId)
  {
    WithParamValue(ps, "userId", u.userId);
  }

  /** No match, several matches or no array: the parameter is removed, and never written as `"null"`. */
  lemma OtherCountsClear(ps: seq<Param>, result: Option<seq<User>>)
    requires result.None? || |result.value| != 1
    ensures ParamValue(ParamsAfterSearch(ps, result), "userId") == None
    ensures Count(ParamsAfterSearch(ps, result), "userId") == 0
    ensures SelectionAfterSearch(result) == None
  {
    WithoutParamRemoves(ps, "userId");
  }

  /** A search keeps every other pair, in order. */
  lemma SearchKeepsOtherParams(ps: seq<Param>, result: Option<seq<User>>)
    ensures WithoutParam(ParamsAfterSearch(ps, result), "userId") == WithoutParam(ps, "userId")
  {
    if result.Some? && |result.value| == 1 {
      WithParamKeepsOthers(ps, "userId", result.value[0].userId);
    } else {
      WithoutParamIdempotent(ps, "userId");
    }
  }

  /** Picking an option sets the parameter to its value; clearing the picker removes it. Nothing else changes. */
  lemma ChangeParams(ps: seq<Param>, newUserId: Option<string>)
    ensures Present(newUserId) ==> ParamValue(ParamsAfterChange(ps, newUserId), "userId") == newUserId
    ensures !Present(newUserId) ==> ParamValue(ParamsAfterChange(ps, newUserId), "userId") == None
    ensures WithoutParam(ParamsAfterChange(ps, newUserId), "userId") == WithoutParam(ps, "userId")
  {
    if Present(newUserId) {
      WithParamValue(ps, "userId", newUserId.value);
      WithParamKeepsOthers(ps, "userId", newUserId.value);
    } else {
      WithoutParamRemoves(ps, "userId");
      WithoutParamIdempotent(ps, "userId");
    }
  }

  /** After a search has answered, the picker is disabled exactly when no user came back. */
  lemma DisabledAfterSearch(result: Option<seq<User>>)
    ensures Disabled(false, if result.Some? then result.value else []) <==> result.None? || result.value == []
  {
  }

  /** The detail card shows a user only when that user is selected and listed among the options. */
  lemma DetailCardOnlyForListedUser(selectedUserId: Option<string>, showUserInfo: bool, options: seq<User>)
    ensures var card := DetailCard(selectedUserId, showUserInfo, options);
      && (card.Some? <==> Present(selectedUserId) && showUserInfo && exists u :: u in options && u.userId == selectedUserId.value)
      && (card.Some? ==> card.value in options && card.value.userId == selectedUserId.value)
  {
    var card := DetailCard(selectedUserId, showUserInfo, options);
    if Present(selectedUserId) && showUserInfo && card.None? {
      assert forall u :: u in options ==> u.userId != selectedUserId.value;
    }
  }

  /** After a search, the single match is both selected and shown in the card. */
  lemma SingleMatchShowsCard(u: User)
    requires u.userId != ""
    ensures DetailCard(SelectionAfterSearch(Some([u])), true, [u]) == Some(u)
  {
  }
}
