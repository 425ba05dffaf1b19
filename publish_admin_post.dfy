/**
  * `publishAdminPost` of `src/actions/publishAdminPost.ts`: a sequence of store
  * steps with early exits. The post is marked published; the caller must be its
  * owner; a chat record is put; the owner's post counter is bumped; the feed
  * fan-out is handed off without being awaited. Any throw inside the `try`
  * yields `{success: false}` and leaves the steps already done in place. The
  * clock is a parameter, as is which service call fails.
  */
module PublishAdminPost {
  import opened Wrappers
  import opened Text
  import opened Records
  import CreateAdminPost

  /** Which store calls throw. */
  datatype Faults = Faults(postUpdateFails: bool, chatPutFails: bool, counterUpdateFails: bool)

  /** `{success: true, data: newChat}` or `{success: false, error}`. */
  datatype Outcome = Published(chat: Item) | Failed

  /**
    * The id split at its first `'_'`: `substring(0, i)` and `substring(i + 1)`.
    * Without a `'_'`, `i` is -1, `substring(0, -1)` is `""` and `substring(0)`
    * the whole id.
    */
  function SplitId(postId: string): (string, string) {
    var i := IndexOf(postId, '_');
    if i < 0 then ("", postId) else (postId[..i], postId[i + 1..])
  }

  function PostKey(postId: string): Key { Key(EventTable, postId, "post_detail") }

  /** The chat's event id: the post's suffix behind `chat_`. */
  function ChatEventId(suffix: string): string { "chat_" + suffix }

  function ChatKey(suffix: string): Key { Key(EventTable, ChatEventId(suffix), "chat_detail") }

  function StatusKey(userId: string): Key { Key(UserTable, userId, "post_status") }

  /** The attributes the first update sets. */
  function PublishedAttrs(prefix: string, newDate: string): Item {
    map["lastStatus" := Str("published"), "updated" := Str(prefix + "_active_published_" + newDate)]
  }

  /** The fields `newChat` sets itself. */
  function ChatBase(suffix: string, newDate: string): Item {
    map[
      "eventId" := Str(ChatEventId(suffix)), "eventType" := Str("chat_detail"),
      "created" := Str(newDate), "updated" := Str("chat_active_published_" + newDate),
      "lastStatus" := Str("published"), "comments" := Num(0), "likes" := Num(0)]
  }

  /** `newChat`: fresh status fields, fields copied from the updated post, and the goal extras spread last. */
  function NewChat(post: Item, prefix: string, suffix: string, newDate: string): Item {
    GoalExtras(Spread(ChatBase(suffix, newDate), post, CopiedFields), post, prefix)
  }

  /** The fields `newChat` copies from the updated post. */
  const CopiedFields: set<string> := {"userId", "forId", "title", "description", "pictures", "picturePath", "preview", "privacy"}

  /** `...(prefixType === "goal" && {...})`: spreading `false` adds nothing. */
  function GoalExtras(item: Item, post: Item, prefix: string): Item {
    if prefix == "goal" then Spread(item["balance" := Num(0)]["nbContribution" := Num(0)], post, {"value", "privacy"})
    else item
  }

  /** What `newPost.pictures[0].split("#")[1] || ""` does. */
  datatype PictureStep = NoPicture | Picture(name: string) | Throws

  /** The second `'#'`-piece of a string, or `""` when it is missing or empty. */
  function SecondPiece(s: string): string {
    var parts := Split(s, '#');
    if |parts| >= 2 then parts[1] else ""
  }

  /**
    * The picture step on the post's `pictures` attribute. A falsy value skips
    * it. An array yields the second piece of its first element, and throws
    * when that element is missing or is not a string. A string is indexed
    * character-wise: the second piece of a one-character string is always
    * empty. An object is read at its field `"0"`, and throws unless that
    * field holds a string. A truthy number or boolean has no element 0 and
    * throws.
    */
  function PictureOf(pictures: Option<Value>): PictureStep {
    if !Truthy(pictures) then NoPicture
    else match pictures.value
      case List(items) =>
        if items == [] then Throws
        else if items[0].Str? then Picture(SecondPiece(items[0].s))
        else Throws
      case Str(s) => Picture(SecondPiece(s[..1]))
      case Object(fields) =>
        if "0" in fields && fields["0"].Str? then Picture(SecondPiece(fields["0"].s)) else Throws
      case _ => Throws
  }

  /** The counter a prefix bumps: `published` for goals, `written` otherwise. */
  function CounterName(prefix: string): string {
    if prefix == "goal" then "published" else "written"
  }

  /**
    * The attributes the counter update sets, or `None` when the update is
    * rejected by the store: the item or its counter does not exist or is not a
    * number, or an expression value is `undefined` and so dropped.
    */
  function CounterAttrs(status: Option<Item>, post: Item, prefix: string, newDate: string, picture: PictureStep): Option<Item>
    requires !picture.Throws?
  {
    var counter := CounterName(prefix);
    if status.None? || counter !in status.value || !status.value[counter].Num? then None
    else
      var base := map[counter := Num(status.value[counter].n + 1), "updated" := Str(newDate)];
      if picture.NoPicture? then Some(base)
      else if "preview" !in post || "picturePath" !in post then None
      else Some(base["picture" := Str(picture.name)]["preview" := post["preview"]]["picturePath" := post["picturePath"]])
  }

  /** The effect of one call: the store afterwards, the fan-out handed off, and the result. */
  datatype Run = Run(items: map<Key, Item>, handoff: Option<Handoff>, outcome: Outcome)

  /** The whole call as a function of the store before it and the inputs. */
  function PublishRun(items: map<Key, Item>, postId: string, userId: string, newDate: string, faults: Faults): Run {
    var (prefix, suffix) := SplitId(postId);
    if faults.postUpdateFails then Run(items, None, Failed)
    else
      var newPost := Updated(items, PostKey(postId), PublishedAttrs(prefix, newDate));
      var items1 := items[PostKey(postId) := newPost];
      if Get(newPost, "userId") != Some(Str(userId)) || faults.chatPutFails then Run(items1, None, Failed)
      else
        var chat := NewChat(newPost, prefix, suffix, newDate);
        CounterStep(items1[ChatKey(suffix) := chat], newPost, chat, prefix, suffix, userId, newDate, faults.counterUpdateFails)
  }

  /** The steps after the chat is put: the picture, the counter update and the hand-off. */
  function CounterStep(items2: map<Key, Item>, newPost: Item, chat: Item, prefix: string, suffix: string,
                       userId: string, newDate: string, counterFails: bool): Run {
    var picture := PictureOf(Get(newPost, "pictures"));
    if picture.Throws? then Run(items2, None, Failed)
    else
      var status := if StatusKey(userId) in items2 then Some(items2[StatusKey(userId)]) else None;
      var attrs := CounterAttrs(status, newPost, prefix, newDate, picture);
      if counterFails || attrs.None? then Run(items2, None, Failed)
      else
        var items3 := items2[StatusKey(userId) := Updated(items2, StatusKey(userId), attrs.value)];
        Run(items3, Some(Handoff(newDate, ChatEventId(suffix), userId)), Published(chat))
  }

  /** `publishAdminPost`, step by step. */
  method Publish(store: Store, postId: string, userId: string, newDate: string, faults: Faults) returns (outcome: Outcome)
    modifies store
    ensures var run := PublishRun(old(store.items), postId, userId, newDate, faults);
      && store.items == run.items && outcome == run.outcome
      && store.handoffs == old(store.handoffs) + (if run.handoff.Some? then [run.handoff.value] else [])
    ensures store.uploads == old(store.uploads) && store.feedLog == old(store.feedLog)
  {
    var (prefixType, eventId) := SplitId(postId);
    if faults.postUpdateFails {
      return Failed;
    }
    var newPost := store.SetAttributes(PostKey(postId), PublishedAttrs(prefixType, newDate));
    if Get(newPost, "userId") != Some(Str(userId)) {
      return Failed;
    }
    var newChat := NewChat(newPost, prefixType, eventId, newDate);
    if faults.chatPutFails {
      return Failed;
    }
    store.Put(ChatKey(eventId), newChat);
    var picture := PictureOf(Get(newPost, "pictures"));
    if picture.Throws? {
      return Failed;
    }
    var status := if StatusKey(userId) in store.items then Some(store.items[StatusKey(userId)]) else None;
    var attrs := CounterAttrs(status, newPost, prefixType, newDate, picture);
    if faults.counterUpdateFails || attrs.None? {
      return Failed;
    }
    var _ := store.SetAttributes(StatusKey(userId), attrs.value);
    store.HandOff(Handoff(newDate, ChatEventId(eventId), userId));
    return Published(newChat);
  }

  // ---------------------------------------------------------------------------
  // The id split

  /** Without a `'_'` the prefix is empty and the suffix is the whole id. */
  lemma SplitIdWithoutUnderscore(postId: string)
    requires '_' !in postId
    ensures SplitId(postId) == ("", postId)
  {
  }

  /** With a `'_'`, the prefix holds none and prefix, `'_'` and suffix give back the id. */
  lemma SplitIdRoundTrip(postId: string)
    requires '_' in postId
    ensures var (prefix, suffix) := SplitId(postId); '_' !in prefix && prefix + "_" + suffix == postId
  {
    var i := IndexOf(postId, '_');
    assert postId == postId[..i] + "_" + postId[i + 1..];
  }

  /** A prefix without `'_'` is split off again, so the suffix may hold further `'_'`s. */
  lemma SplitIdOfJoin(prefix: string, suffix: string)
    requires '_' !in prefix
    ensures SplitId(prefix + "_" + suffix) == (prefix, suffix)
  {
    var id := prefix + "_" + suffix;
    assert id[|prefix|] == '_';
    assert id[..|prefix|] == prefix && id[|prefix| + 1..] == suffix;
    forall j | 0 <= j < |prefix| ensures id[j] != '_' {
      assert id[j] == prefix[j];
    }
  }

  /** A post made by `createAdminPost` has prefix `"flash"` and the UUID as suffix, and so bumps `written`. */
  lemma CreatedPostSplits(input: CreateAdminPost.PostInput, createdAt: string, uuid: string, fileName: string, preview: string)
    ensures var post := CreateAdminPost.NewPostDetail(input, createdAt, uuid, fileName, preview);
      SplitId(post.eventId) == ("flash", uuid) && CounterName("flash") == "written"
  {
    SplitIdOfJoin("flash", uuid);
    assert "flash" + "_" + uuid == "flash_" + uuid;
  }

  // ---------------------------------------------------------------------------
  // The steps

  lemma KeysDiffer(postId: string, suffix: string, userId: string)
    ensures PostKey(postId) != ChatKey(suffix) && PostKey(postId) != StatusKey(userId) && ChatKey(suffix) != StatusKey(userId)
  {
    assert PostKey(postId).sort[0] != ChatKey(suffix).sort[0];
  }

  /**
    * Unless the first update throws, the post ends up marked published, with
    * `updated` carrying the prefix, whatever happens afterwards.
    */
  lemma PostStaysPublished(items: map<Key, Item>, postId: string, userId: string, newDate: string, faults: Faults)
    requires !faults.postUpdateFails
    ensures var run := PublishRun(items, postId, userId, newDate, faults);
      && PostKey(postId) in run.items
      && run.items[PostKey(postId)] == Updated(items, PostKey(postId), PublishedAttrs(SplitId(postId).0, newDate))
      && Get(run.items[PostKey(postId)], "lastStatus") == Some(Str("published"))
      && Get(run.items[PostKey(postId)], "updated") == Some(Str(SplitId(postId).0 + "_active_published_" + newDate))
  {
    var (prefix, suffix) := SplitId(postId);
    KeysDiffer(postId, suffix, userId);
    var newPost := Updated(items, PostKey(postId), PublishedAttrs(prefix, newDate));
    if Get(newPost, "userId") == Some(Str(userId)) && !faults.chatPutFails {
      var chat := NewChat(newPost, prefix, suffix, newDate);
      var items2 := items[PostKey(postId) := newPost][ChatKey(suffix) := chat];
      assert PublishRun(items, postId, userId, newDate, faults) == CounterStep(items2, newPost, chat, prefix, suffix, userId, newDate, faults.counterUpdateFails);
      CounterStepKeeps(items2, newPost, chat, prefix, suffix, userId, newDate, faults.counterUpdateFails, PostKey(postId));
    }
    UpdatedGet(items, PostKey(postId), PublishedAttrs(prefix, newDate), "lastStatus");
    UpdatedGet(items, PostKey(postId), PublishedAttrs(prefix, newDate), "updated");
  }

  /** The counter step writes only the owner's status item. */
  lemma CounterStepKeeps(items2: map<Key, Item>, newPost: Item, chat: Item, prefix: string, suffix: string,
                         userId: string, newDate: string, counterFails: bool, k: Key)
    requires k != StatusKey(userId)
    ensures var after := CounterStep(items2, newPost, chat, prefix, suffix, userId, newDate, counterFails).items;
      (k in after <==> k in items2) && (k in items2 ==> after[k] == items2[k])
  {
  }


  /** A caller who is not the owner gets `{success: false}`; only the post has changed and no fan-out starts. */
  lemma OwnerMismatchFails(items: map<Key, Item>, postId: string, userId: string, newDate: string, faults: Faults)
    requires !faults.postUpdateFails
    requires Get(Updated(items, PostKey(postId), PublishedAttrs(SplitId(postId).0, newDate)), "userId") != Some(Str(userId))
    ensures var run := PublishRun(items, postId, userId, newDate, faults);
      && run.outcome == Failed && run.handoff == None
      && run.items == items[PostKey(postId) := Updated(items, PostKey(postId), PublishedAttrs(SplitId(postId).0, newDate))]
  {
  }

  /** The goal extras touch only their four fields. */
  lemma GoalExtrasGet(item: Item, post: Item, prefix: string, k: string)
    ensures Get(GoalExtras(item, post, prefix), k) ==
      if prefix != "goal" then Get(item, k)
      else if k == "balance" || k == "nbContribution" then Some(Num(0))
      else if k == "value" || k == "privacy" then Get(post, k)
      else Get(item, k)
  {
    if prefix == "goal" {
      SpreadGet(item["balance" := Num(0)]["nbContribution" := Num(0)], post, {"value", "privacy"}, k);
    }
  }

  /** Any field of the chat, by where it comes from. */
  lemma NewChatGet(post: Item, prefix: string, suffix: string, newDate: string, k: string)
    ensures Get(NewChat(post, prefix, suffix, newDate), k) ==
      if prefix == "goal" && (k == "balance" || k == "nbContribution") then Some(Num(0))
      else if prefix == "goal" && (k == "value" || k == "privacy") then Get(post, k)
      else if k in CopiedFields then Get(post, k)
      else Get(ChatBase(suffix, newDate), k)
  {
    var copied := Spread(ChatBase(suffix, newDate), post, CopiedFields);
    SpreadGet(ChatBase(suffix, newDate), post, CopiedFields, k);
    GoalExtrasGet(copied, post, prefix, k);
  }

  /** The chat's key and creation fields. */
  lemma ChatIdentity(post: Item, prefix: string, suffix: string, newDate: string)
    ensures var chat := NewChat(post, prefix, suffix, newDate);
      && Get(chat, "eventId") == Some(Str(ChatEventId(suffix))) && Get(chat, "eventType") == Some(Str("chat_detail"))
      && Get(chat, "created") == Some(Str(newDate)) && Get(chat, "updated") == Some(Str("chat_active_published_" + newDate))
  {
    var chat := NewChat(post, prefix, suffix, newDate);
    ChatCarriesEventId(post, prefix, suffix, newDate);
    assert Get(chat, "eventType") == Some(Str("chat_detail")) by { NewChatGet(post, prefix, suffix, newDate, "eventType"); }
    assert Get(chat, "created") == Some(Str(newDate)) by { NewChatGet(post, prefix, suffix, newDate, "created"); }
    NewChatGet(post, prefix, suffix, newDate, "updated");
  }

  /** The chat's `eventId` is the one made from the post id's suffix, whatever the post holds. */
  lemma ChatCarriesEventId(post: Item, prefix: string, suffix: string, newDate: string)
    ensures Get(NewChat(post, prefix, suffix, newDate), "eventId") == Some(Str(ChatEventId(suffix)))
  {
    NewChatGet(post, prefix, suffix, newDate, "eventId");
    assert "eventId" !in CopiedFields;
    assert ChatBase(suffix, newDate)["eventId"] == Str(ChatEventId(suffix));
  }

  /** The chat starts published, with no comments and no likes. */
  lemma ChatStatusFields(post: Item, prefix: string, suffix: string, newDate: string)
    ensures var chat := NewChat(post, prefix, suffix, newDate);
      && Get(chat, "lastStatus") == Some(Str("published"))
      && Get(chat, "comments") == Some(Num(0)) && Get(chat, "likes") == Some(Num(0))
  {
    var chat := NewChat(post, prefix, suffix, newDate);
    assert Get(chat, "lastStatus") == Some(Str("published")) by { NewChatGet(post, prefix, suffix, newDate, "lastStatus"); }
    assert Get(chat, "comments") == Some(Num(0)) by { NewChatGet(post, prefix, suffix, newDate, "comments"); }
    NewChatGet(post, prefix, suffix, newDate, "likes");
  }

  /** The fields the chat copies from the updated post; an `undefined` one is absent from both. */
  lemma ChatCopiedFields(post: Item, prefix: string, suffix: string, newDate: string, k: string)
    requires k in CopiedFields
    ensures Get(NewChat(post, prefix, suffix, newDate), k) == Get(post, k)
  {
    NewChatGet(post, prefix, suffix, newDate, k);
  }

  /** Only a goal gets `balance` 0, `nbContribution` 0 and the post's `value`. */
  lemma GoalExtrasOnlyForGoals(post: Item, prefix: string, suffix: string, newDate: string)
    ensures var chat := NewChat(post, prefix, suffix, newDate);
      && Get(chat, "balance") == (if prefix == "goal" then Some(Num(0)) else None)
      && Get(chat, "nbContribution") == (if prefix == "goal" then Some(Num(0)) else None)
      && Get(chat, "value") == (if prefix == "goal" then Get(post, "value") else None)
  {
    NewChatGet(post, prefix, suffix, newDate, "balance");
    NewChatGet(post, prefix, suffix, newDate, "nbContribution");
    NewChatGet(post, prefix, suffix, newDate, "value");
  }

  /** The picture name is the text between the first and the second `'#'`. */
  lemma SecondPieceBetweenHashes(a: string, b: string, c: string)
    requires '#' !in a && '#' !in b
    ensures SecondPiece(a + "#" + b + "#" + c) == b
  {
    var rest := b + "#" + c;
    assert a + "#" + b + "#" + c == a + "#" + rest;
    SplitAtHash(a, rest);
    SplitAtHash(b, c);
    var parts := [a] + ([b] + Split(c, '#'));
    assert Split(a + "#" + rest, '#') == parts;
    assert parts[1] == b;
  }

  /** With a single `'#'`, the picture name is the text after it. */
  lemma SecondPieceAfterOnlyHash(a: string, b: string)
    requires '#' !in a && '#' !in b
    ensures SecondPiece(a + "#" + b) == b
  {
    SplitAtHash(a, b);
    SplitWithoutHash(b);
    assert Split(a + "#" + b, '#') == [a, b];
  }

  /** Splitting at a first `'#'`: the text before it, then the pieces of the rest. */
  lemma SplitAtHash(a: string, rest: string)
    requires '#' !in a
    ensures Split(a + "#" + rest, '#') == [a] + Split(rest, '#')
  {
    var s := a + "#" + rest;
    assert s == a + ("#" + rest);
    FirstHash(a, "#" + rest);
    assert s[..|a|] == a && s[|a| + 1..] == rest;
  }

  /** The first `'#'` of `a + rest` is where `rest` starts, when `a` has none and `rest` starts with one. */
  lemma FirstHash(a: string, rest: string)
    requires '#' !in a && rest != [] && rest[0] == '#'
    ensures IndexOf(a + rest, '#') == |a|
  {
    var s := a + rest;
    assert s[|a|] == '#';
    assert forall i | 0 <= i < |a| :: s[i] == a[i];
  }

  lemma SplitWithoutHash(s: string)
    requires '#' !in s
    ensures Split(s, '#') == [s]
  {
  }

  /** Without a `'#'` there is no second piece, and the name is `""`. */
  lemma SecondPieceWithoutHash(s: string)
    requires '#' !in s
    ensures SecondPiece(s) == ""
  {
  }

  /**
    * An empty `pictures` array is truthy, so `pictures[0].split` throws after
    * the chat is put: the result is `{success: false}` with the chat written,
    * the counter untouched and no fan-out.
    */
  lemma EmptyPicturesThrowAfterChat(items: map<Key, Item>, postId: string, userId: string, newDate: string, faults: Faults)
    requires !faults.postUpdateFails && !faults.chatPutFails
    requires var newPost := Updated(items, PostKey(postId), PublishedAttrs(SplitId(postId).0, newDate));
      Get(newPost, "userId") == Some(Str(userId)) && Get(newPost, "pictures") == Some(List([]))
    ensures var run := PublishRun(items, postId, userId, newDate, faults);
      && run.outcome == Failed && run.handoff == None
      && ChatKey(SplitId(postId).1) in run.items
      && (StatusKey(userId) in run.items <==> StatusKey(userId) in items)
      && (StatusKey(userId) in items ==> run.items[StatusKey(userId)] == items[StatusKey(userId)])
  {
    KeysDiffer(postId, SplitId(postId).1, userId);
  }

  /** The counter a prefix leaves alone. */
  function OtherCounter(prefix: string): string {
    if prefix == "goal" then "written" else "published"
  }

  /** Accepted counter attributes add one to the existing counter, set the date, and leave the other counter out. */
  lemma CounterAttrsBump(status: Option<Item>, post: Item, prefix: string, newDate: string, picture: PictureStep)
    requires !picture.Throws?
    requires CounterAttrs(status, post, prefix, newDate, picture).Some?
    ensures var attrs := CounterAttrs(status, post, prefix, newDate, picture).value;
      && status.Some? && CounterName(prefix) in status.value && status.value[CounterName(prefix)].Num?
      && CounterName(prefix) in attrs && attrs[CounterName(prefix)] == Num(status.value[CounterName(prefix)].n + 1)
      && "updated" in attrs && attrs["updated"] == Str(newDate)
      && OtherCounter(prefix) !in attrs
  {
  }

  /** A successful counter step bumps the counter of the item it finds under the owner's status key. */
  lemma CounterStepBumps(items2: map<Key, Item>, newPost: Item, chat: Item, prefix: string, suffix: string,
                         userId: string, newDate: string, counterFails: bool)
    requires CounterStep(items2, newPost, chat, prefix, suffix, userId, newDate, counterFails).outcome.Published?
    ensures var after := CounterStep(items2, newPost, chat, prefix, suffix, userId, newDate, counterFails).items;
      && StatusKey(userId) in items2 && CounterName(prefix) in items2[StatusKey(userId)]
      && items2[StatusKey(userId)][CounterName(prefix)].Num?
      && StatusKey(userId) in after
      && Get(after[StatusKey(userId)], CounterName(prefix)) == Some(Num(items2[StatusKey(userId)][CounterName(prefix)].n + 1))
      && Get(after[StatusKey(userId)], "updated") == Some(Str(newDate))
      && Get(after[StatusKey(userId)], OtherCounter(prefix)) == Get(items2[StatusKey(userId)], OtherCounter(prefix))
  {
    var picture := PictureOf(Get(newPost, "pictures"));
    var status := if StatusKey(userId) in items2 then Some(items2[StatusKey(userId)]) else None;
    var attrs := CounterAttrs(status, newPost, prefix, newDate, picture);
    CounterAttrsBump(status, newPost, prefix, newDate, picture);
    UpdatedGet(items2, StatusKey(userId), attrs.value, CounterName(prefix));
    UpdatedGet(items2, StatusKey(userId), attrs.value, "updated");
    UpdatedGet(items2, StatusKey(userId), attrs.value, OtherCounter(prefix));
  }

  /**
    * With a picture, an accepted update also sets `picture` to its name and
    * copies `preview` and `picturePath` from the post; without one it sets
    * neither of the three.
    */
  lemma CounterAttrsPicture(status: Option<Item>, post: Item, prefix: string, newDate: string, picture: PictureStep)
    requires !picture.Throws?
    requires CounterAttrs(status, post, prefix, newDate, picture).Some?
    ensures var attrs := CounterAttrs(status, post, prefix, newDate, picture).value;
      && (picture.Picture? ==>
            && Get(attrs, "picture") == Some(Str(picture.name))
            && "preview" in post && Get(attrs, "preview") == Get(post, "preview")
            && "picturePath" in post && Get(attrs, "picturePath") == Get(post, "picturePath"))
      && (picture.NoPicture? ==> "picture" !in attrs && "preview" !in attrs && "picturePath" !in attrs)
  {
  }

  /**
    * Success bumps exactly one counter, `published` for a goal and `written`
    * otherwise, sets `updated` to the date, and leaves the other counter as it
    * was.
    */
  lemma OneCounterBumped(items: map<Key, Item>, postId: string, userId: string, newDate: string, faults: Faults)
    requires PublishRun(items, postId, userId, newDate, faults).outcome.Published?
    ensures var run := PublishRun(items, postId, userId, newDate, faults);
      var prefix := SplitId(postId).0;
      && StatusKey(userId) in items && CounterName(prefix) in items[StatusKey(userId)]
      && items[StatusKey(userId)][CounterName(prefix)].Num?
      && StatusKey(userId) in run.items
      && Get(run.items[StatusKey(userId)], CounterName(prefix)) == Some(Num(items[StatusKey(userId)][CounterName(prefix)].n + 1))
      && Get(run.items[StatusKey(userId)], "updated") == Some(Str(newDate))
      && Get(run.items[StatusKey(userId)], OtherCounter(prefix)) == Get(items[StatusKey(userId)], OtherCounter(prefix))
  {
    var (prefix, suffix) := SplitId(postId);
    KeysDiffer(postId, suffix, userId);
    var newPost := Updated(items, PostKey(postId), PublishedAttrs(prefix, newDate));
    var chat := NewChat(newPost, prefix, suffix, newDate);
    var items2 := items[PostKey(postId) := newPost][ChatKey(suffix) := chat];
    assert PublishRun(items, postId, userId, newDate, faults) == CounterStep(items2, newPost, chat, prefix, suffix, userId, newDate, faults.counterUpdateFails);
    CounterStepBumps(items2, newPost, chat, prefix, suffix, userId, newDate, faults.counterUpdateFails);
  }

  /**
    * The fan-out is handed off exactly when the call succeeds, with the date,
    * the id of the chat it returns and the owner. The result never depends on
    * the fan-out.
    */
  lemma HandoffOnlyOnSuccess(items: map<Key, Item>, postId: string, userId: string, newDate: string, faults: Faults)
    ensures var run := PublishRun(items, postId, userId, newDate, faults);
      && (run.outcome.Published? <==> run.handoff.Some?)
      && (run.handoff.Some? ==> run.handoff.value == Handoff(newDate, ChatEventId(SplitId(postId).1), userId))
  {
    var (prefix, suffix) := SplitId(postId);
    if !faults.postUpdateFails {
      var newPost := Updated(items, PostKey(postId), PublishedAttrs(prefix, newDate));
      if Get(newPost, "userId") == Some(Str(userId)) && !faults.chatPutFails {
        var chat := NewChat(newPost, prefix, suffix, newDate);
        var items2 := items[PostKey(postId) := newPost][ChatKey(suffix) := chat];
        assert PublishRun(items, postId, userId, newDate, faults) == CounterStep(items2, newPost, chat, prefix, suffix, userId, newDate, faults.counterUpdateFails);
        CounterStepHandoff(items2, newPost, chat, prefix, suffix, userId, newDate, faults.counterUpdateFails);
      }
    }
  }

  /** The chat a successful call returns carries the event id the fan-out is given. */
  lemma ReturnedChatIsHandedOff(items: map<Key, Item>, postId: string, userId: string, newDate: string, faults: Faults)
    requires PublishRun(items, postId, userId, newDate, faults).outcome.Published?
    ensures var run := PublishRun(items, postId, userId, newDate, faults);
      run.handoff.Some? && Get(run.outcome.chat, "eventId") == Some(Str(run.handoff.value.newChatEventId))
  {
    var (prefix, suffix) := SplitId(postId);
    var newPost := Updated(items, PostKey(postId), PublishedAttrs(prefix, newDate));
    var chat := NewChat(newPost, prefix, suffix, newDate);
    var items2 := items[PostKey(postId) := newPost][ChatKey(suffix) := chat];
    assert PublishRun(items, postId, userId, newDate, faults) == CounterStep(items2, newPost, chat, prefix, suffix, userId, newDate, faults.counterUpdateFails);
    CounterStepHandoff(items2, newPost, chat, prefix, suffix, userId, newDate, faults.counterUpdateFails);
    ChatCarriesEventId(newPost, prefix, suffix, newDate);
  }

  /** The counter step hands off the fan-out exactly when it succeeds, and returns the chat it was given. */
  lemma CounterStepHandoff(items2: map<Key, Item>, newPost: Item, chat: Item, prefix: string, suffix: string,
                           userId: string, newDate: string, counterFails: bool)
    ensures var run := CounterStep(items2, newPost, chat, prefix, suffix, userId, newDate, counterFails);
      && (run.outcome.Published? <==> run.handoff.Some?)
      && (run.outcome.Published? ==> run.outcome.chat == chat && run.handoff.value == Handoff(newDate, ChatEventId(suffix), userId))
  {
  }


}
