/**
  * The knowledge-resource actions of `apps/admin-app/src/actions/side-hustle.ts`:
  * `addResource` builds a record from the caller's fields and generated ones
  * and puts it; `updateResource` walks the update's entries with `forEach`,
  * collecting one `SET` clause and two expression-attribute mappings per entry
  * other than `resourceId`, and sends the update. The clock, the generated id
  * and whether the store call throws are parameters.
  */
module SideHustle {
  import opened Wrappers
  import opened Text
  import opened Records

  /** Knowledge items are keyed by `{PK: resourceId, SK}`. */
  function ResourceKey(resourceId: string, sk: string): Key { Key(KnowledgeTable, resourceId, sk) }

  /** The fields `addResource` generates, spread after the caller's fields. */
  const GeneratedFields: set<string> := {"resourceId", "PK", "SK", "dateAdded", "lastModified"}

  /** `{...resource, resourceId, PK: resourceId, SK: now, dateAdded: now, lastModified: now}`. */
  function NewResource(resource: Item, resourceId: string, now: string): Item {
    resource["resourceId" := Str(resourceId)]["PK" := Str(resourceId)]
      ["SK" := Str(now)]["dateAdded" := Str(now)]["lastModified" := Str(now)]
  }

  /**
    * The generated fields always win over the caller's: the id twice, the one
    * timestamp three times. Every other field is the caller's.
    */
  lemma NewResourceFields(resource: Item, resourceId: string, now: string, k: string)
    ensures Get(NewResource(resource, resourceId, now), k) ==
      if k == "resourceId" || k == "PK" then Some(Str(resourceId))
      else if k == "SK" || k == "dateAdded" || k == "lastModified" then Some(Str(now))
      else Get(resource, k)
    ensures k !in GeneratedFields ==> Get(NewResource(resource, resourceId, now), k) == Get(resource, k)
  {
  }

  /** The new record carries the key it is put under. */
  lemma NewResourceHasKey(resource: Item, resourceId: string, now: string)
    ensures HasKey(NewResource(resource, resourceId, now), ResourceKey(resourceId, now))
  {
  }

  /** `{success: true, data}` or `{success: false, error}`. */
  datatype ActionOutcome = Succeeded(data: Item) | ActionFailed(error: string)

  const AddError := "Failed to add resource"
  const UpdateError := "Failed to update resource"

  /** `addResource`: the record returned is the record put. */
  method AddResource(store: Store, resource: Item, resourceId: string, now: string, putFails: bool) returns (outcome: ActionOutcome)
    modifies store
    ensures putFails ==> outcome == ActionFailed(AddError) && store.items == old(store.items)
    ensures !putFails ==>
      && outcome == Succeeded(NewResource(resource, resourceId, now))
      && store.items == old(store.items)[ResourceKey(resourceId, now) := NewResource(resource, resourceId, now)]
    ensures store.uploads == old(store.uploads) && store.feedLog == old(store.feedLog) && store.handoffs == old(store.handoffs)
  {
    var newResource := NewResource(resource, resourceId, now);
    if putFails {
      return ActionFailed(AddError);
    }
    store.Put(ResourceKey(resourceId, now), newResource);
    return Succeeded(newResource);
  }

  /** One entry of `Object.entries(updates)`. */
  type Entry = (string, Value)

  /** The `UpdateCommand` input: the key, the update expression and the two mappings. */
  datatype UpdateCommand = UpdateCommand(key: Key, expression: string, values: map<string, Value>, names: map<string, string>)

  /** The clause for one attribute: `#k = :k`. */
  function Clause(k: string): string { "#" + k + " = :" + k }

  /** The keys the `forEach` acts on: all but `resourceId`, in entry order. */
  function KeptKeys(updates: seq<Entry>): seq<string> {
    if updates == [] then []
    else
      var last := updates[|updates| - 1];
      KeptKeys(updates[..|updates| - 1]) + (if last.0 != "resourceId" then [last.0] else [])
  }

  /** `updateExpressions` after the entries have been walked. */
  function Clauses(updates: seq<Entry>): seq<string> {
    if updates == [] then []
    else
      var last := updates[|updates| - 1];
      Clauses(updates[..|updates| - 1]) + (if last.0 != "resourceId" then [Clause(last.0)] else [])
  }

  /** `expressionAttributeNames` after the entries have been walked. */
  function NamesOf(updates: seq<Entry>): map<string, string> {
    if updates == [] then map[]
    else
      var last := updates[|updates| - 1];
      var before := NamesOf(updates[..|updates| - 1]);
      if last.0 != "resourceId" then before["#" + last.0 := last.0] else before
  }

  /** `expressionAttributeValues` after the entries have been walked. */
  function ValuesOf(updates: seq<Entry>): map<string, Value> {
    if updates == [] then map[]
    else
      var last := updates[|updates| - 1];
      var before := ValuesOf(updates[..|updates| - 1]);
      if last.0 != "resourceId" then before[":" + last.0 := last.1] else before
  }

  const LastModifiedClause := ", lastModified = :lastModified"

  /** `SET ${updateExpressions.join(", ")}, lastModified = :lastModified`. */
  function Expression(updates: seq<Entry>): string {
    "SET " + Join(Clauses(updates), ", ") + LastModifiedClause
  }

  /** The command `updateResource` sends; the fresh time is spread last into the values. */
  function UpdateCommandOf(sk: string, resourceId: string, updates: seq<Entry>, now: string): UpdateCommand {
    UpdateCommand(ResourceKey(resourceId, sk), Expression(updates), ValuesOf(updates)[":lastModified" := Str(now)], NamesOf(updates))
  }

  /** The `forEach` of `updateResource` and the command built from what it collects. */
  method BuildUpdate(sk: string, resourceId: string, updates: seq<Entry>, now: string) returns (cmd: UpdateCommand)
    ensures cmd == UpdateCommandOf(sk, resourceId, updates, now)
  {
    var updateExpressions: seq<string> := [];
    var expressionAttributeValues: map<string, Value> := map[];
    var expressionAttributeNames: map<string, string> := map[];
    var i := 0;
    while i < |updates|
      invariant 0 <= i <= |updates|
      invariant updateExpressions == Clauses(updates[..i])
      invariant expressionAttributeValues == ValuesOf(updates[..i])
      invariant expressionAttributeNames == NamesOf(updates[..i])
    {
      var (key, value) := updates[i];
      if key != "resourceId" {
        updateExpressions := updateExpressions + [Clause(key)];
        expressionAttributeValues := expressionAttributeValues[":" + key := value];
        expressionAttributeNames := expressionAttributeNames["#" + key := key];
      }
      assert updates[..i + 1][..i] == updates[..i];
      i := i + 1;
    }
    assert updates[..|updates|] == updates;
    cmd := UpdateCommand(ResourceKey(resourceId, sk), "SET " + Join(updateExpressions, ", ") + LastModifiedClause,
      expressionAttributeValues[":lastModified" := Str(now)], expressionAttributeNames);
  }

  /** Some entry of the update has key `k`. */
  predicate HasEntry(updates: seq<Entry>, k: string) {
    exists i :: 0 <= i < |updates| && updates[i].0 == k
  }

  lemma HasEntrySnoc(updates: seq<Entry>, k: string)
    requires updates != []
    ensures HasEntry(updates, k) <==> HasEntry(updates[..|updates| - 1], k) || updates[|updates| - 1].0 == k
  {
    var init := updates[..|updates| - 1];
    if HasEntry(updates, k) && updates[|updates| - 1].0 != k {
      var i :| 0 <= i < |updates| && updates[i].0 == k;
      assert init[i].0 == k;
    }
    if HasEntry(init, k) {
      var i :| 0 <= i < |init| && init[i].0 == k;
      assert updates[i].0 == k;
    }
  }

  /** The kept keys are exactly the entries' keys other than `resourceId`. */
  lemma {:induction false} KeptKeysMembers(updates: seq<Entry>, k: string)
    ensures k in KeptKeys(updates) <==> k != "resourceId" && HasEntry(updates, k)
  {
    if updates != [] {
      KeptKeysMembers(updates[..|updates| - 1], k);
      HasEntrySnoc(updates, k);
    }
  }

  /** One clause per kept key, in entry order. */
  lemma {:induction false} ClausesInOrder(updates: seq<Entry>)
    ensures |Clauses(updates)| == |KeptKeys(updates)|
    ensures forall j :: 0 <= j < |Clauses(updates)| ==> Clauses(updates)[j] == Clause(KeptKeys(updates)[j])
  {
    if updates != [] {
      ClausesInOrder(updates[..|updates| - 1]);
    }
  }

  /** `#k` is mapped, to `k`, exactly for the kept keys. */
  lemma {:induction false} NamesOfMembers(updates: seq<Entry>, k: string)
    ensures "#" + k in NamesOf(updates) <==> k in KeptKeys(updates)
    ensures "#" + k in NamesOf(updates) ==> NamesOf(updates)["#" + k] == k
  {
    if updates != [] {
      var last := updates[|updates| - 1];
      NamesOfMembers(updates[..|updates| - 1], k);
      if last.0 != "resourceId" {
        PrefixedEqual('#', k, last.0);
      }
    }
  }

  /** `:k` is mapped exactly for the kept keys. */
  lemma {:induction false} ValuesOfMembers(updates: seq<Entry>, k: string)
    ensures ":" + k in ValuesOf(updates) <==> k in KeptKeys(updates)
  {
    if updates != [] {
      var last := updates[|updates| - 1];
      ValuesOfMembers(updates[..|updates| - 1], k);
      if last.0 != "resourceId" {
        PrefixedEqual(':', k, last.0);
      }
    }
  }

  /** The command's values: `:k` exactly for the kept keys and for `lastModified`, which always holds the fresh time. */
  lemma CommandValuesMembers(sk: string, resourceId: string, updates: seq<Entry>, now: string, k: string)
    ensures var cmd := UpdateCommandOf(sk, resourceId, updates, now);
      && (":" + k in cmd.values <==> k in KeptKeys(updates) || k == "lastModified")
      && cmd.values[":lastModified"] == Str(now)
  {
    ValuesOfMembers(updates, k);
    PrefixedEqual(':', k, "lastModified");
    assert ":" + "lastModified" == ":lastModified";
  }

  /** The keys of an update as `Object.entries` yields them: all different. */
  predicate DistinctKeys(updates: seq<Entry>) {
    forall i, j :: 0 <= i < j < |updates| ==> updates[i].0 != updates[j].0
  }

  /** With distinct keys, `:k` maps to the value of the entry for `k`. */
  lemma {:induction false} ValuesOfEntry(updates: seq<Entry>, i: int)
    requires DistinctKeys(updates)
    requires 0 <= i < |updates| && updates[i].0 != "resourceId"
    ensures ":" + updates[i].0 in ValuesOf(updates) && ValuesOf(updates)[":" + updates[i].0] == updates[i].1
  {
    var init, last := updates[..|updates| - 1], updates[|updates| - 1];
    if i < |updates| - 1 {
      assert init[i] == updates[i];
      ValuesOfEntry(init, i);
      if last.0 != "resourceId" {
        PrefixedEqual(':', updates[i].0, last.0);
      }
    }
  }

  lemma PrefixedEqual(c: char, a: string, b: string)
    ensures [c] + a == [c] + b <==> a == b
  {
    if [c] + a == [c] + b {
      assert a == ([c] + a)[1..] && b == ([c] + b)[1..];
    }
  }

  /** `resourceId` is never set: it has no name mapping and no value mapping. */
  lemma ResourceIdNeverSet(sk: string, resourceId: string, updates: seq<Entry>, now: string)
    ensures var cmd := UpdateCommandOf(sk, resourceId, updates, now);
      && "#resourceId" !in cmd.names && ":resourceId" !in cmd.values
      && cmd.key == ResourceKey(resourceId, sk)
  {
    NamesOfMembers(updates, "resourceId");
    ValuesOfMembers(updates, "resourceId");
    KeptKeysMembers(updates, "resourceId");
    assert "#" + "resourceId" == "#resourceId" && ":" + "resourceId" == ":resourceId";
  }

  /**
    * A caller's `lastModified` entry maps `:lastModified` to its value, but
    * the fresh time spread after it replaces that value.
    */
  lemma CallerLastModifiedReplaced(sk: string, resourceId: string, updates: seq<Entry>, now: string, v: Value)
    ensures var u := updates + [("lastModified", v)];
      && ":lastModified" in ValuesOf(u) && ValuesOf(u)[":lastModified"] == v
      && UpdateCommandOf(sk, resourceId, u, now).values[":lastModified"] == Str(now)
  {
    var u := updates + [("lastModified", v)];
    assert u[..|u| - 1] == updates && u[|u| - 1] == ("lastModified", v);
    assert ":" + "lastModified" == ":lastModified";
    assert ValuesOf(u) == ValuesOf(updates)[":lastModified" := v];
  }

  /** A `resourceId` entry changes nothing in the command. */
  lemma ResourceIdEntryIgnored(sk: string, resourceId: string, updates: seq<Entry>, now: string, v: Value)
    ensures UpdateCommandOf(sk, resourceId, updates + [("resourceId", v)], now) == UpdateCommandOf(sk, resourceId, updates, now)
  {
    var u := updates + [("resourceId", v)];
    assert u[..|u| - 1] == updates;
    assert Clauses(u) == Clauses(updates);
    assert NamesOf(u) == NamesOf(updates);
    assert ValuesOf(u) == ValuesOf(updates);
  }

  /**
    * With nothing to set, the expression is `"SET "` directly followed by the
    * fixed clause, whose leading `", "` is then left dangling.
    */
  lemma EmptyUpdateExpression(updates: seq<Entry>)
    requires KeptKeys(updates) == []
    ensures Expression(updates) == "SET " + LastModifiedClause
  {
    ClausesInOrder(updates);
    assert Clauses(updates) == [];
    assert "SET " + Join(Clauses(updates), ", ") == "SET ";
  }

  /** One attribute gives one clause before the fixed one. */
  lemma SingleUpdateExpression(updates: seq<Entry>, k: string)
    requires KeptKeys(updates) == [k]
    ensures Expression(updates) == "SET #" + k + " = :" + k + ", lastModified = :lastModified"
  {
    ClausesInOrder(updates);
    assert Clauses(updates) == [Clause(k)];
  }

  /** The attributes the `SET` expression assigns: each kept entry's value, then the fresh time. */
  function Assignments(updates: seq<Entry>, now: string): Item {
    AssignedValues(updates)["lastModified" := Str(now)]
  }

  function AssignedValues(updates: seq<Entry>): Item {
    if updates == [] then map[]
    else
      var last := updates[|updates| - 1];
      var before := AssignedValues(updates[..|updates| - 1]);
      if last.0 != "resourceId" then before[last.0 := last.1] else before
  }

  /**
    * The command denotes the assignments: every assigned attribute other than
    * `lastModified` has its `#k` name and its `:k` value in the command, and
    * `:lastModified` holds the assigned time.
    */
  lemma {:induction false} CommandDenotesAssignments(sk: string, resourceId: string, updates: seq<Entry>, now: string, k: string)
    ensures var cmd := UpdateCommandOf(sk, resourceId, updates, now);
      && (k in AssignedValues(updates) <==> k in KeptKeys(updates))
      && (k in AssignedValues(updates) && k != "lastModified" ==>
            && "#" + k in cmd.names && cmd.names["#" + k] == k
            && ":" + k in cmd.values && cmd.values[":" + k] == Assignments(updates, now)[k])
      && cmd.values[":lastModified"] == Assignments(updates, now)["lastModified"]
  {
    NamesOfMembers(updates, k);
    ValuesAgree(updates, k);
    if k != "lastModified" {
      PrefixedEqual(':', k, "lastModified");
      assert ":" + "lastModified" == ":lastModified";
    }
  }

  lemma {:induction false} ValuesAgree(updates: seq<Entry>, k: string)
    ensures (k in AssignedValues(updates) <==> k in KeptKeys(updates))
    ensures ":" + k in ValuesOf(updates) <==> k in AssignedValues(updates)
    ensures k in AssignedValues(updates) ==> ValuesOf(updates)[":" + k] == AssignedValues(updates)[k]
  {
    if updates != [] {
      var last := updates[|updates| - 1];
      ValuesAgree(updates[..|updates| - 1], k);
      if last.0 != "resourceId" {
        PrefixedEqual(':', k, last.0);
      }
    }
  }

  /** Some string occurs twice in `s`. */
  predicate HasRepeat(s: seq<string>) {
    exists i, j :: 0 <= i < j < |s| && s[i] == s[j]
  }

  /**
    * The commands the store refuses, so that the send throws. With no kept
    * key the expression is `SET , lastModified = ...`, which does not parse.
    * A `lastModified` entry, or two entries with one key, assign one
    * attribute twice, which the store refuses as overlapping paths. A `PK`
    * or `SK` entry assigns a key attribute, which an update may not change.
    */
  predicate StoreRejects(updates: seq<Entry>) {
    var kept := KeptKeys(updates);
    kept == [] || "lastModified" in kept || "PK" in kept || "SK" in kept || HasRepeat(kept)
  }

  /** Distinct entry keys give distinct kept keys. */
  lemma {:induction false} KeptKeysDistinct(updates: seq<Entry>)
    requires DistinctKeys(updates)
    ensures !HasRepeat(KeptKeys(updates))
  {
    if updates != [] {
      var init, last := updates[..|updates| - 1], updates[|updates| - 1];
      assert DistinctKeys(init) by {
        forall i, j | 0 <= i < j < |init| ensures init[i].0 != init[j].0 {
          assert init[i] == updates[i] && init[j] == updates[j];
        }
      }
      KeptKeysDistinct(init);
      if last.0 != "resourceId" {
        var kept := KeptKeys(init);
        assert last.0 !in kept by {
          KeptKeysMembers(init, last.0);
          forall i | 0 <= i < |init| ensures init[i].0 != last.0 {
            assert init[i] == updates[i];
          }
        }
        var full := kept + [last.0];
        assert KeptKeys(updates) == full;
        forall i, j | 0 <= i < j < |full| ensures full[i] != full[j] {
          if j < |full| - 1 {
            assert full[i] == kept[i] && full[j] == kept[j];
          } else {
            assert full[i] == kept[i] && full[j] == last.0;
          }
        }
      }
    }
  }

  /**
    * For the entries of an object, whose keys are distinct, the store refuses
    * the update exactly when every entry is `resourceId`, or some entry is
    * `lastModified`, `PK` or `SK`.
    */
  lemma StoreRejectsEntries(updates: seq<Entry>)
    requires DistinctKeys(updates)
    ensures StoreRejects(updates) <==>
      || (forall i :: 0 <= i < |updates| ==> updates[i].0 == "resourceId")
      || HasEntry(updates, "lastModified") || HasEntry(updates, "PK") || HasEntry(updates, "SK")
  {
    var kept := KeptKeys(updates);
    KeptKeysDistinct(updates);
    KeptKeysMembers(updates, "lastModified");
    KeptKeysMembers(updates, "PK");
    KeptKeysMembers(updates, "SK");
    if kept == [] {
      forall i | 0 <= i < |updates| ensures updates[i].0 == "resourceId" {
        KeptKeysMembers(updates, updates[i].0);
      }
    } else {
      KeptKeysMembers(updates, kept[0]);
      var i :| 0 <= i < |updates| && updates[i].0 == kept[0];
    }
  }

  /**
    * `updateResource`: the command is built, then sent. On success the item
    * under the given key receives the assignments (created when absent) and
    * is returned; a send that throws, because the store refuses the command
    * or for any other reason, returns the error and changes nothing.
    */
  method UpdateResource(store: Store, sk: string, resourceId: string, updates: seq<Entry>, now: string, sendFails: bool)
    returns (outcome: ActionOutcome)
    modifies store
    ensures var key := ResourceKey(resourceId, sk);
      && (sendFails || StoreRejects(updates) ==> outcome == ActionFailed(UpdateError) && store.items == old(store.items))
      && (!sendFails && !StoreRejects(updates) ==>
            && outcome == Succeeded(Updated(old(store.items), key, Assignments(updates, now)))
            && store.items == old(store.items)[key := Updated(old(store.items), key, Assignments(updates, now))])
    ensures store.uploads == old(store.uploads) && store.feedLog == old(store.feedLog) && store.handoffs == old(store.handoffs)
  {
    var cmd := BuildUpdate(sk, resourceId, updates, now);
    if sendFails || StoreRejects(updates) {
      return ActionFailed(UpdateError);
    }
    var attributes := store.SetAttributes(cmd.key, Assignments(updates, now));
    return Succeeded(attributes);
  }
}
