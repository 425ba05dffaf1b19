/**
  * `createAdminPost` of `src/actions/createAdminPost.ts`: the image is resized,
  * a low- and a high-resolution file are uploaded under file names sharing one
  * timestamp, and a `post_detail` record referring to the high-resolution file
  * is put. The clock, the UUID, the resized images and their base64 preview are
  * parameters; each service call may fail as its fault flag says.
  */
module CreateAdminPost {
  import opened Wrappers
  import opened Text
  import opened Records
  import ObjectUtils
  import StableSort

  /** The caller's input (`TPostInput`). */
  datatype PostInput = PostInput(userId: string, title: string, description: string, image: string)

  /** Which service calls throw. */
  datatype Faults = Faults(resizeFails: bool, lowUploadFails: bool, highUploadFails: bool, putFails: bool)

  /**
    * What the call returns: `{success, eventId, eventType}`, `{error}` (no
    * `success` field) when the put fails, or a rejected promise when the image
    * step throws before the `try`.
    */
  datatype Outcome = Created(eventId: string, eventType: string) | StoreError | Rejected

  /** The folder of the admin's images; also the record's `picturePath`. */
  const AdminFolder: string := "eu-west-1:admin"

  function LowResFileName(userId: string, timestamp: nat): string {
    userId + "_low_" + NatToString(timestamp) + ".jpg"
  }

  function HighResFileName(userId: string, timestamp: nat): string {
    userId + "_high_" + NatToString(timestamp) + ".jpg"
  }

  /** The object key `uploadImageToS3` writes. */
  function UploadKey(fileName: string): string {
    "protected/eu-west-1:admin/" + fileName
  }

  /** The URL `uploadImageToS3` returns (the caller discards it). */
  function UploadUrl(bucket: string, key: string): string {
    "https://" + bucket + ".s3.amazonaws.com/" + key
  }

  /** The preview: a data URL around the base64 text of the 50-pixel image. */
  function PreviewDataUrl(encoded: string): string {
    "data:image/jpeg;base64," + encoded
  }

  /** The key the post is stored under. */
  function PostKey(eventId: string): Key {
    Key(EventTable, eventId, "post_detail")
  }

  /** `newPostDetail`. */
  function NewPostDetail(input: PostInput, newDate: string, uuid: string, highResFileName: string, preview: string): Post {
    Post(
      eventId := "flash_" + uuid, eventType := "post_detail", userId := input.userId, forId := input.userId,
      created := newDate, updated := "flash_active_created_" + newDate,
      title := input.title, description := input.description,
      picturePath := AdminFolder, pictures := ["0#" + highResFileName], preview := preview,
      privacy := "public", lastStatus := "created", comments := 0, likes := 0, secret := false)
  }

  /** The effect of one call: the uploads made, the store afterwards and the result. */
  datatype Run = Run(uploads: seq<Upload>, items: map<Key, Item>, outcome: Outcome)

  /** The uploads `Promise.all` completes: both are attempted; one failing does not stop the other. */
  function UploadsMade(userId: string, timestamp: nat, faults: Faults): seq<Upload> {
    (if faults.lowUploadFails then [] else [Upload(UploadKey(LowResFileName(userId, timestamp)), 100)])
    + (if faults.highUploadFails then [] else [Upload(UploadKey(HighResFileName(userId, timestamp)), 800)])
  }

  /** The whole call as a function of the store before it and the inputs. */
  function CreateRun(items: map<Key, Item>, input: PostInput, newDate: string, timestamp: nat, uuid: string, encoded: string, faults: Faults): Run {
    if faults.resizeFails then Run([], items, Rejected)
    else
      var uploads := UploadsMade(input.userId, timestamp, faults);
      if faults.lowUploadFails || faults.highUploadFails then Run(uploads, items, Rejected)
      else if faults.putFails then Run(uploads, items, StoreError)
      else
        var post := NewPostDetail(input, newDate, uuid, HighResFileName(input.userId, timestamp), PreviewDataUrl(encoded));
        Run(uploads, items[PostKey(post.eventId) := PostItem(post)], Created(post.eventId, post.eventType))
  }

  /** `processAndUploadImage`: the file names, both uploads and the preview; fails if either upload fails. */
  method ProcessAndUploadImage(store: Store, userId: string, timestamp: nat, encoded: string, faults: Faults)
    returns (r: Option<(string, string, string)>)
    requires !faults.resizeFails
    modifies store
    ensures store.uploads == old(store.uploads) + UploadsMade(userId, timestamp, faults)
    ensures store.items == old(store.items) && store.feedLog == old(store.feedLog) && store.handoffs == old(store.handoffs)
    ensures r.None? <==> faults.lowUploadFails || faults.highUploadFails
    ensures r.Some? ==> r.value == (LowResFileName(userId, timestamp), HighResFileName(userId, timestamp), PreviewDataUrl(encoded))
  {
    var lowResFileName := LowResFileName(userId, timestamp);
    var highResFileName := HighResFileName(userId, timestamp);
    if !faults.lowUploadFails {
      store.PutObject(Upload(UploadKey(lowResFileName), 100));
    }
    if !faults.highUploadFails {
      store.PutObject(Upload(UploadKey(highResFileName), 800));
    }
    if faults.lowUploadFails || faults.highUploadFails {
      return None;
    }
    var preview := PreviewDataUrl(encoded);
    return Some((lowResFileName, highResFileName, preview));
  }

  /** `createAdminPost`, step by step. */
  method Create(store: Store, input: PostInput, newDate: string, timestamp: nat, uuid: string, encoded: string, faults: Faults)
    returns (outcome: Outcome)
    modifies store
    ensures var run := CreateRun(old(store.items), input, newDate, timestamp, uuid, encoded, faults);
      store.uploads == old(store.uploads) + run.uploads && store.items == run.items && outcome == run.outcome
    ensures store.feedLog == old(store.feedLog) && store.handoffs == old(store.handoffs)
  {
    if faults.resizeFails {
      return Rejected;
    }
    var processed := ProcessAndUploadImage(store, input.userId, timestamp, encoded, faults);
    if processed.None? {
      return Rejected;
    }
    var (_, highResFileName, preview) := processed.value;
    var newPostDetail := NewPostDetail(input, newDate, uuid, highResFileName, preview);
    if faults.putFails {
      return StoreError;
    }
    store.Put(PostKey(newPostDetail.eventId), PostItem(newPostDetail));
    return Created(newPostDetail.eventId, newPostDetail.eventType);
  }

  // ---------------------------------------------------------------------------
  // Properties

  /** The two file names share the user id and the timestamp, and never coincide, whatever the timestamps. */
  lemma FileNamesNeverCollide(userId: string, t1: nat, t2: nat)
    ensures LowResFileName(userId, t1)[..|userId|] == HighResFileName(userId, t2)[..|userId|] == userId
    ensures LowResFileName(userId, t1) != HighResFileName(userId, t2)
  {
    var low, high := LowResFileName(userId, t1), HighResFileName(userId, t2);
    assert low[|userId| + 1] == 'l';
    assert high[|userId| + 1] == 'h';
  }

  /** The timestamp can be read back from the file name's digits. */
  lemma TimestampReadBack(userId: string, timestamp: nat)
    ensures var name := HighResFileName(userId, timestamp);
      var digits := name[|userId| + 6..|name| - 4];
      AllDigits(digits) && DecimalValue(digits) == timestamp
  {
    var name := HighResFileName(userId, timestamp);
    assert name[|userId| + 6..|name| - 4] == NatToString(timestamp);
    DecimalValueOfNatToString(timestamp);
  }

  /** The key's folder segment is the record's `picturePath`, and the returned URL ends with the key. */
  lemma KeyFolderIsPicturePath(input: PostInput, newDate: string, uuid: string, fileName: string, preview: string, bucket: string)
    ensures UploadKey(fileName) == "protected/" + NewPostDetail(input, newDate, uuid, fileName, preview).picturePath + "/" + fileName
    ensures var url := UploadUrl(bucket, UploadKey(fileName)); url[|url| - |UploadKey(fileName)|..] == UploadKey(fileName)
  {
  }

  /**
    * On success the only item written is the new record, stored under its own
    * key: a public, non-secret draft with status `created`, no comments or
    * likes, and the `flash_active_created_` token for its date, referring to
    * the high-resolution file only, in the admin folder, with the data-URL
    * preview; both uploads were made.
    */
  lemma CreatedRecord(items: map<Key, Item>, input: PostInput, newDate: string, timestamp: nat, uuid: string, encoded: string, faults: Faults)
    requires !faults.resizeFails && !faults.lowUploadFails && !faults.highUploadFails && !faults.putFails
    ensures var run := CreateRun(items, input, newDate, timestamp, uuid, encoded, faults);
      var key := PostKey("flash_" + uuid);
      var post := NewPostDetail(input, newDate, uuid, HighResFileName(input.userId, timestamp), PreviewDataUrl(encoded));
      && run.outcome == Created("flash_" + uuid, "post_detail")
      && run.items == items[key := PostItem(post)]
      && HasKey(PostItem(post), key)
      && post.userId == post.forId == input.userId
      && post.lastStatus == "created" && post.privacy == "public"
      && post.comments == 0 && post.likes == 0 && !post.secret
      && post.created == newDate && post.updated == "flash_active_created_" + newDate
      && post.title == input.title && post.description == input.description
      && post.preview == "data:image/jpeg;base64," + encoded
      && post.pictures == ["0#" + HighResFileName(input.userId, timestamp)]
      && post.picturePath == AdminFolder
      && run.uploads == [Upload(UploadKey(LowResFileName(input.userId, timestamp)), 100), Upload(UploadKey(HighResFileName(input.userId, timestamp)), 800)]
  {
    PostItemHasKey(NewPostDetail(input, newDate, uuid, HighResFileName(input.userId, timestamp), PreviewDataUrl(encoded)));
  }

  /** The low-resolution file is uploaded but the record never refers to it. */
  lemma LowResNeverReferenced(input: PostInput, newDate: string, uuid: string, timestamp: nat, preview: string)
    ensures var post := NewPostDetail(input, newDate, uuid, HighResFileName(input.userId, timestamp), preview);
      forall i :: 0 <= i < |post.pictures| ==> !Includes(post.pictures[i], LowResFileName(input.userId, timestamp))
  {
    var u := |input.userId|;
    var low, high := LowResFileName(input.userId, timestamp), HighResFileName(input.userId, timestamp);
    var pic := "0#" + high;
    assert |pic| == |low| + 3;
    forall i: nat | i <= |pic| ensures !OccursAt(pic, low, i) {
      // low's 'w' (of "_low_") would have to face one of the letters of "high"
      if i <= 3 {
        var j := u + 3;
        assert low[j] == 'w';
        assert pic[i + j] == high[i + u + 1];
        assert high[u + 1] == 'h' && high[u + 2] == 'i' && high[u + 3] == 'g' && high[u + 4] == 'h';
        assert pic[i + j] != low[j];
      }
    }
  }

  /** Nothing is stored when a step throws, and only the put's failure yields `{error}`. */
  lemma FailuresLeaveStoreUnchanged(items: map<Key, Item>, input: PostInput, newDate: string, timestamp: nat, uuid: string, encoded: string, faults: Faults)
    ensures var run := CreateRun(items, input, newDate, timestamp, uuid, encoded, faults);
      && (run.outcome.Created? <==> !faults.resizeFails && !faults.lowUploadFails && !faults.highUploadFails && !faults.putFails)
      && (!run.outcome.Created? ==> run.items == items)
      && (run.outcome == StoreError <==> !faults.resizeFails && !faults.lowUploadFails && !faults.highUploadFails && faults.putFails)
      && (faults.resizeFails ==> run.uploads == [])
  {
  }

  /** The high-resolution file name is on one line when the user id is. */
  lemma HighResOneLine(userId: string, timestamp: nat)
    requires ObjectUtils.NoLineTerminator(userId)
    ensures ObjectUtils.NoLineTerminator(HighResFileName(userId, timestamp))
  {
    var high := HighResFileName(userId, timestamp);
    var u := |userId|;
    var digits := NatToString(timestamp);
    forall i | 0 <= i < |high|
      ensures !IsLineTerminator(high[i])
    {
      if i < u {
        assert high[i] == userId[i];
      } else if u + 6 <= i < u + 6 + |digits| {
        assert high[i] == digits[i - u - 6];
        assert IsDigit(digits[i - u - 6]);
      }
    }
  }

  /** `getOrderedPictures` of the new record's `pictures` gives back the high-resolution file name. */
  lemma OrderedPicturesOfNewPost(input: PostInput, newDate: string, uuid: string, timestamp: nat, preview: string)
    requires ObjectUtils.NoLineTerminator(input.userId)
    ensures var post := NewPostDetail(input, newDate, uuid, HighResFileName(input.userId, timestamp), preview);
      ObjectUtils.GetOrderedPictures(post.pictures) == [HighResFileName(input.userId, timestamp)]
  {
    var high := HighResFileName(input.userId, timestamp);
    var pic := "0#" + high;
    HighResOneLine(input.userId, timestamp);
    assert pic[..1] == "0" && pic[2..] == high;
    assert ObjectUtils.MatchesWithDigits(pic, 1);
    ObjectUtils.SingleEntryName(pic, 1);
    assert NewPostDetail(input, newDate, uuid, high, preview).pictures == [pic];
  }
}
