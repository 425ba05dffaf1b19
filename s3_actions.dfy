/**
  * `apps/admin-app/src/actions/s3Actions.ts`: the object-store key and URL
  * strings of `getS3ImageUrl` and `uploadKnowledgeFileToS3`, and its own copies
  * of `addResource` and `updateResource`, which are stated here to do exactly
  * what the side-hustle versions do. URL signing and the HTTP `PUT` are
  * foreign services: their outcomes are parameters.
  */
module S3Actions {
  import opened Wrappers
  import opened Text
  import opened Records
  import SideHustle
  import CreateAdminPost
  import ObjectUtils

  /** The two object-store commands that get pre-signed. */
  datatype S3Op = GetObject | PutObject

  /** What is handed to `getSignedUrl`: the command, its key and the lifetime in seconds. */
  datatype SignRequest = SignRequest(op: S3Op, key: string, expiresIn: nat)

  /** Both pre-signed URLs live for an hour. */
  const UrlLifetime: nat := 3600

  const ImageUrlError := "Failed to generate image URL"
  const UploadError := "Failed to upload file to S3"

  /** `protected/${picturePath}/${pictureName}`. */
  function ImageKey(picturePath: string, pictureName: string): string {
    "protected/" + picturePath + "/" + pictureName
  }

  function ImageUrlRequest(picturePath: string, pictureName: string): SignRequest {
    SignRequest(GetObject, ImageKey(picturePath, pictureName), UrlLifetime)
  }

  /** `getS3ImageUrl`: the signed URL, or the error a signing failure is turned into. */
  function GetS3ImageUrl(picturePath: string, pictureName: string, signer: SignRequest -> Option<string>): (r: Result<string, string>)
    ensures var asked := signer(SignRequest(GetObject, "protected/" + picturePath + "/" + pictureName, 3600));
      && (r.Ok? <==> asked.Some?)
      && (r.Ok? ==> r.value == asked.value)
      && (r.Err? ==> r.error == "Failed to generate image URL")
  {
    match signer(ImageUrlRequest(picturePath, pictureName))
    case Some(url) => Ok(url)
    case None => Err(ImageUrlError)
  }

  /**
    * The picture of a post made by `createAdminPost` is signed under the very
    * key its high-resolution file was uploaded to.
    */
  lemma ImageKeyOfCreatedPost(input: CreateAdminPost.PostInput, newDate: string, uuid: string, timestamp: nat, preview: string,
                               signer: SignRequest -> Option<string>)
    requires ObjectUtils.NoLineTerminator(input.userId)
    ensures var fileName := CreateAdminPost.HighResFileName(input.userId, timestamp);
      var post := CreateAdminPost.NewPostDetail(input, newDate, uuid, fileName, preview);
      var ordered := ObjectUtils.GetOrderedPictures(post.pictures);
      var asked := signer(SignRequest(GetObject, CreateAdminPost.UploadKey(fileName), UrlLifetime));
      && ordered == [fileName] && ImageKey(post.picturePath, ordered[0]) == CreateAdminPost.UploadKey(fileName)
      && (GetS3ImageUrl(post.picturePath, ordered[0], signer).Ok? <==> asked.Some?)
      && (asked.Some? ==> GetS3ImageUrl(post.picturePath, ordered[0], signer) == Ok(asked.value))
  {
    var fileName := CreateAdminPost.HighResFileName(input.userId, timestamp);
    CreateAdminPost.OrderedPicturesOfNewPost(input, newDate, uuid, timestamp, preview);
    CreateAdminPost.KeyFolderIsPicturePath(input, newDate, uuid, fileName, preview, "");
  }

  /** `${Date.now()}-${file.name}`. */
  function KnowledgeFileName(timestamp: nat, name: string): string {
    NatToString(timestamp) + "-" + name
  }

  const KnowledgeFolder := "protected/eu-west-1:knowledge/"

  function KnowledgeKey(fileName: string): string { KnowledgeFolder + fileName }

  /** What the `fetch` of the signed URL does: it answers with some status, or throws. */
  datatype FetchOutcome = Responded(status: int) | FetchThrew

  /**
    * `uploadKnowledgeFileToS3`: sign a `PUT` for the file's key, send the
    * file, return the permanent URL. The response status is not looked at.
    */
  function UploadKnowledgeFile(timestamp: nat, name: string, baseUrl: string,
                               signer: SignRequest -> Option<string>, fetch: FetchOutcome): Result<string, string> {
    var fileName := KnowledgeFileName(timestamp, name);
    match signer(SignRequest(PutObject, KnowledgeKey(fileName), UrlLifetime))
    case None => Err(UploadError)
    case Some(_) => if fetch.FetchThrew? then Err(UploadError) else Ok(baseUrl + "/" + fileName)
  }

  /** Any answer to the `PUT`, success or not, gives the same URL; only a throw is an error. */
  lemma UploadIgnoresStatus(timestamp: nat, name: string, baseUrl: string, signer: SignRequest -> Option<string>, status: int)
    ensures var fileName := KnowledgeFileName(timestamp, name);
      var signed := signer(SignRequest(PutObject, KnowledgeKey(fileName), UrlLifetime)).Some?;
      && UploadKnowledgeFile(timestamp, name, baseUrl, signer, Responded(status)) == (if signed then Ok(baseUrl + "/" + fileName) else Err(UploadError))
      && UploadKnowledgeFile(timestamp, name, baseUrl, signer, FetchThrew) == Err(UploadError)
  {
  }

  /** The key and the returned URL end in the same segment, the file name. */
  lemma KeyAndUrlShareFileName(timestamp: nat, name: string, baseUrl: string, signer: SignRequest -> Option<string>, fetch: FetchOutcome)
    requires UploadKnowledgeFile(timestamp, name, baseUrl, signer, fetch).Ok?
    ensures var fileName := KnowledgeFileName(timestamp, name);
      var url := UploadKnowledgeFile(timestamp, name, baseUrl, signer, fetch).value;
      var key := KnowledgeKey(fileName);
      && |url| > |fileName| && url[|url| - |fileName| - 1..] == "/" + fileName
      && |key| > |fileName| && key[|key| - |fileName| - 1..] == "/" + fileName
  {
    var fileName := KnowledgeFileName(timestamp, name);
    var url := baseUrl + "/" + fileName;
    assert url == baseUrl + ("/" + fileName);
    var key := KnowledgeKey(fileName);
    assert key == "protected/eu-west-1:knowledge" + ("/" + fileName);
  }

  /** The file name reads back: the digits before its first `'-'` are the timestamp, the rest is the name. */
  lemma KnowledgeFileNameReadBack(timestamp: nat, name: string)
    ensures var fileName := KnowledgeFileName(timestamp, name);
      var i := IndexOf(fileName, '-');
      && i == |NatToString(timestamp)|
      && AllDigits(fileName[..i]) && DecimalValue(fileName[..i]) == timestamp
      && fileName[i + 1..] == name
  {
    var digits := NatToString(timestamp);
    var fileName := KnowledgeFileName(timestamp, name);
    assert fileName[|digits|] == '-';
    assert forall j | 0 <= j < |digits| :: fileName[j] == digits[j] && IsDigit(digits[j]);
    assert fileName[..|digits|] == digits;
    assert fileName[|digits| + 1..] == name;
    DecimalValueOfNatToString(timestamp);
  }

  /** This file's `addResource`: the same record and outcome as the side-hustle one. */
  method AddResource(store: Store, resource: Item, resourceId: string, now: string, putFails: bool)
    returns (outcome: SideHustle.ActionOutcome)
    modifies store
    ensures putFails ==> outcome == SideHustle.ActionFailed(SideHustle.AddError) && store.items == old(store.items)
    ensures !putFails ==>
      && outcome == SideHustle.Succeeded(SideHustle.NewResource(resource, resourceId, now))
      && store.items == old(store.items)[SideHustle.ResourceKey(resourceId, now) := SideHustle.NewResource(resource, resourceId, now)]
    ensures store.uploads == old(store.uploads) && store.feedLog == old(store.feedLog) && store.handoffs == old(store.handoffs)
  {
    var newResource := resource["resourceId" := Str(resourceId)]["PK" := Str(resourceId)]
      ["SK" := Str(now)]["dateAdded" := Str(now)]["lastModified" := Str(now)];
    if putFails {
      return SideHustle.ActionFailed("Failed to add resource");
    }
    store.Put(Key(KnowledgeTable, resourceId, now), newResource);
    return SideHustle.Succeeded(newResource);
  }

  /** This file's `forEach` in `updateResource`: for equal inputs, the same command as the side-hustle one. */
  method BuildUpdate(sk: string, resourceId: string, updates: seq<SideHustle.Entry>, now: string) returns (cmd: SideHustle.UpdateCommand)
    ensures cmd == SideHustle.UpdateCommandOf(sk, resourceId, updates, now)
  {
    var updateExpressions: seq<string> := [];
    var expressionAttributeValues: map<string, Value> := map[];
    var expressionAttributeNames: map<string, string> := map[];
    for i := 0 to |updates|
      invariant updateExpressions == SideHustle.Clauses(updates[..i])
      invariant expressionAttributeValues == SideHustle.ValuesOf(updates[..i])
      invariant expressionAttributeNames == SideHustle.NamesOf(updates[..i])
    {
      var (key, value) := updates[i];
      if key != "resourceId" {
        updateExpressions := updateExpressions + ["#" + key + " = :" + key];
        expressionAttributeValues := expressionAttributeValues[":" + key := value];
        expressionAttributeNames := expressionAttributeNames["#" + key := key];
      }
      assert updates[..i + 1][..i] == updates[..i];
    }
    assert updates[..|updates|] == updates;
    cmd := SideHustle.UpdateCommand(Key(KnowledgeTable, resourceId, sk),
      "SET " + Join(updateExpressions, ", ") + ", lastModified = :lastModified",
      expressionAttributeValues[":lastModified" := Str(now)], expressionAttributeNames);
  }

  /** This file's `updateResource`: the same store effect and outcome as the side-hustle one. */
  method UpdateResource(store: Store, sk: string, resourceId: string, updates: seq<SideHustle.Entry>, now: string, sendFails: bool)
    returns (outcome: SideHustle.ActionOutcome)
    modifies store
    ensures var key := SideHustle.ResourceKey(resourceId, sk);
      var attrs := SideHustle.Assignments(updates, now);
      && (sendFails || SideHustle.StoreRejects(updates) ==> outcome == SideHustle.ActionFailed(SideHustle.UpdateError) && store.items == old(store.items))
      && (!sendFails && !SideHustle.StoreRejects(updates) ==>
            && outcome == SideHustle.Succeeded(Updated(old(store.items), key, attrs))
            && store.items == old(store.items)[key := Updated(old(store.items), key, attrs)])
    ensures store.uploads == old(store.uploads) && store.feedLog == old(store.feedLog) && store.handoffs == old(store.handoffs)
  {
    var cmd := BuildUpdate(sk, resourceId, updates, now);
    if sendFails || SideHustle.StoreRejects(updates) {
      return SideHustle.ActionFailed("Failed to update resource");
    }
    var attributes := store.SetAttributes(cmd.key, SideHustle.Assignments(updates, now));
    return SideHustle.Succeeded(attributes);
  }
}
