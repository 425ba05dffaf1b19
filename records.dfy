/**
  * The abstract back end the server actions talk to: a record store keyed by
  * (table, partition key, sort key) whose items are attribute maps, and the
  * append-only logs of object-store uploads, feed-fanout calls and background
  * hand-offs. The document client is configured with `removeUndefinedValues`
  * (`apps/admin-app/src/utils/dbConfig.ts`), so an attribute whose value is
  * `undefined` is never stored.
  */
module Records {
  import opened Wrappers

  /** An attribute value as the document client marshals it: a string, number, boolean, list or nested object. */
  datatype Value = Str(s: string) | Num(n: int) | Bool(b: bool) | List(items: seq<Value>) | Object(fields: map<string, Value>)

  /** A stored item: attribute name to value. */
  type Item = map<string, Value>

  datatype Table = EventTable | UserTable | KnowledgeTable

  /** The primary key of an item: its table and the values of its two key attributes. */
  datatype Key = Key(table: Table, partition: string, sort: string)

  /** The name of each table's partition-key attribute. */
  function PartitionAttr(t: Table): string {
    match t
    case EventTable => "eventId"
    case UserTable => "userId"
    case KnowledgeTable => "PK"
  }

  /** The name of each table's sort-key attribute. */
  function SortAttr(t: Table): string {
    match t
    case EventTable => "eventType"
    case UserTable => "primarySK"
    case KnowledgeTable => "SK"
  }

  /** The item an update creates when no item has the key: just the key attributes. */
  function KeyItem(k: Key): (item: Item)
    ensures HasKey(item, k)
    ensures item.Keys == {PartitionAttr(k.table), SortAttr(k.table)}
  {
    map[PartitionAttr(k.table) := Str(k.partition), SortAttr(k.table) := Str(k.sort)]
  }

  /** The item holds its own key attributes. */
  predicate HasKey(item: Item, k: Key) {
    && PartitionAttr(k.table) in item && item[PartitionAttr(k.table)] == Str(k.partition)
    && SortAttr(k.table) in item && item[SortAttr(k.table)] == Str(k.sort)
  }

  /** Reading an attribute: a missing attribute reads as `undefined`. */
  function Get(item: Item, name: string): (r: Option<Value>)
    ensures r.Some? <==> name in item
    ensures r.Some? ==> r.value == item[name]
  {
    if name in item then Some(item[name]) else None
  }

  /** JavaScript truthiness of an attribute read: `""`, `0`, `false` and `undefined` are falsy; every array and object is truthy. */
  predicate Truthy(v: Option<Value>) {
    match v
    case None => false
    case Some(Str(s)) => s != []
    case Some(Num(n)) => n != 0
    case Some(Bool(b)) => b
    case Some(List(_)) => true
    case Some(Object(_)) => true
  }

  /**
    * One field of an object literal as the document client stores it: a later
    * field overrides an earlier one of the same name, and a field whose value
    * is `undefined` is dropped.
    */
  function With(item: Item, name: string, v: Option<Value>): Item {
    if v.Some? then item[name := v.value] else item - {name}
  }

  /** Reading back a field: the value just written (or `undefined`) under its name, the old value elsewhere. */
  lemma WithGet(item: Item, name: string, v: Option<Value>, other: string)
    ensures Get(With(item, name, v), name) == v
    ensures other != name ==> Get(With(item, name, v), other) == Get(item, other)
  {
  }

  /**
    * Spreading the named fields of `from` over `item`, in any order since the
    * names differ: each reads as in `from` afterwards, and one that is
    * `undefined` there is dropped.
    */
  function Spread(item: Item, from: Item, names: set<string>): Item {
    map k | k in item.Keys + from.Keys && (if k in names then k in from else k in item) ::
      if k in names then from[k] else item[k]
  }

  /** Reading back a spread: a named field as in `from`, any other as before. */
  lemma SpreadGet(item: Item, from: Item, names: set<string>, k: string)
    ensures Get(Spread(item, from, names), k) == if k in names then Get(from, k) else Get(item, k)
  {
  }

  /** The item after an update that sets `attrs`: created from its key when absent (`ReturnValues: "ALL_NEW"`). */
  function Updated(db: map<Key, Item>, key: Key, attrs: Item): Item {
    (if key in db then db[key] else KeyItem(key)) + attrs
  }

  /** Reading back an updated item: a set attribute as set, any other as stored before. */
  lemma UpdatedGet(db: map<Key, Item>, key: Key, attrs: Item, a: string)
    ensures Get(Updated(db, key, attrs), a) ==
      if a in attrs then Some(attrs[a]) else Get(if key in db then db[key] else KeyItem(key), a)
  {
  }

  /** The `TPost` record of `packages/types/index.ts`. */
  datatype Post = Post(
    eventId: string, eventType: string, userId: string, forId: string,
    created: string, updated: string, title: string, description: string,
    picturePath: string, pictures: seq<string>, preview: string, privacy: string,
    lastStatus: string, comments: int, likes: int, secret: bool)

  function StrList(ss: seq<string>): (r: seq<Value>)
    ensures |r| == |ss| && forall i :: 0 <= i < |ss| ==> r[i] == Str(ss[i])
  {
    seq(|ss|, i requires 0 <= i < |ss| => Str(ss[i]))
  }

  /** A post as the item the document client stores. */
  function PostItem(p: Post): Item {
    map[
      "eventId" := Str(p.eventId), "eventType" := Str(p.eventType), "userId" := Str(p.userId),
      "forId" := Str(p.forId), "created" := Str(p.created), "updated" := Str(p.updated),
      "title" := Str(p.title), "description" := Str(p.description), "picturePath" := Str(p.picturePath),
      "pictures" := List(StrList(p.pictures)), "preview" := Str(p.preview), "privacy" := Str(p.privacy),
      "lastStatus" := Str(p.lastStatus), "comments" := Num(p.comments), "likes" := Num(p.likes),
      "secret" := Bool(p.secret)]
  }

  /** A post stored under its event id and type carries that key. */
  lemma PostItemHasKey(p: Post)
    ensures HasKey(PostItem(p), Key(EventTable, p.eventId, p.eventType))
  {
  }

  /** One `put` request of a feed fan-out batch. */
  datatype FeedPut = FeedPut(userId: Option<Value>, primarySK: string, friendId: string)

  /** A call the feed fan-out makes: a user scan from a start key, or a batch write. */
  datatype FeedEvent = Scan(filterValue: string, startKey: Option<string>) | BatchWrite(puts: seq<FeedPut>)

  /** The background feed update handed off by a publish: its three parameters. */
  datatype Handoff = Handoff(newDate: string, newChatEventId: string, postUserId: string)

  /** An object written to the bucket: its key and the width of the resized image it holds. */
  datatype Upload = Upload(key: string, width: nat)

  /** The back end's state. Methods change one part and keep the rest. */
  class Store {
    var items: map<Key, Item>
    var uploads: seq<Upload>
    var feedLog: seq<FeedEvent>
    var handoffs: seq<Handoff>

    constructor(items0: map<Key, Item>)
      ensures items == items0 && uploads == [] && feedLog == [] && handoffs == []
    {
      items := items0;
      uploads := [];
      feedLog := [];
      handoffs := [];
    }

    /** `PutCommand`: the item replaces whatever had its key. */
    method Put(key: Key, item: Item)
      modifies this
      ensures items == old(items)[key := item]
      ensures uploads == old(uploads) && feedLog == old(feedLog) && handoffs == old(handoffs)
    {
      items := items[key := item];
    }

    /** `UpdateCommand` with a `set` of plain attributes, returning the new item. */
    method SetAttributes(key: Key, attrs: Item) returns (updated: Item)
      modifies this
      ensures updated == Updated(old(items), key, attrs)
      ensures items == old(items)[key := updated]
      ensures uploads == old(uploads) && feedLog == old(feedLog) && handoffs == old(handoffs)
    {
      updated := Updated(items, key, attrs);
      items := items[key := updated];
    }

    /** `PutObjectCommand` to the bucket. */
    method PutObject(u: Upload)
      modifies this
      ensures uploads == old(uploads) + [u]
      ensures items == old(items) && feedLog == old(feedLog) && handoffs == old(handoffs)
    {
      uploads := uploads + [u];
    }

    /** A scan or batch-write call of the feed fan-out. */
    method LogFeed(e: FeedEvent)
      modifies this
      ensures feedLog == old(feedLog) + [e]
      ensures items == old(items) && uploads == old(uploads) && handoffs == old(handoffs)
    {
      feedLog := feedLog + [e];
    }

    /** Starting the background feed update without awaiting it. */
    method HandOff(h: Handoff)
      modifies this
      ensures handoffs == old(handoffs) + [h]
      ensures items == old(items) && uploads == old(uploads) && feedLog == old(feedLog)
    {
      handoffs := handoffs + [h];
    }
  }
}
