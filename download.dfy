/**
  The download lambda's readiness resolver (`LambdaS3Wrapper#get_download_url`).

  Given the key of an uploaded object, it reads the bucket and decides how far
  the background step function has got with it. The first check that matches
  wins:
    1. the derived output object exists: success, with a presigned GET URL;
    2. else the step-state marker exists: fail when its status is "fail",
       pending with that status otherwise;
    3. else the uploaded object was modified no more than 60 seconds ago:
       pending, the step function has not started yet;
    4. else fail, the caller should upload again.
  The resolver only reads the bucket. The bucket is a snapshot: a map from
  key to what the reads of that object return.
*/
module PresignedDownload {
  import opened Wrappers
  import RubyFile
  import Presign

  /** The `STATUS` table. */
  datatype Status = Pending | Success | Fail

  function StatusCode(s: Status): int {
    match s
    case Pending => 0
    case Success => 1
    case Fail => -1
  }

  /** Seconds after the upload during which a missing step-state marker means "not started yet". */
  const GraceSeconds: int := 60

  const SuccessMessage: string := "Success"
  const StepFailMessage: string := "Step Function Execution Fail"
  const StepStatusPrefix: string := "Step Function Status => "
  const WaitMessage: string := "Wait Step Function Execute"
  const RetryMessage: string := "Please retry fail"

  /** The status the step function sets to report that it failed. */
  const FailStatus: string := "fail"

  /**
    What `JSON.parse(body)["status"]` yields for an object's body: either the
    parse (or the lookup) raises, or the "status" field is read, as its text,
    or as None when the field is missing or null.
  */
  datatype StepDocument = Unparseable | Parsed(status: Option<string>)

  /** What the reads of one stored object return: its parsed body and head's `last_modified` (seconds). */
  datatype StoredObject = StoredObject(document: StepDocument, lastModified: Option<int>)

  /** A snapshot of the bucket: the objects that exist, by key. */
  type Bucket = map<string, StoredObject>

  /** The record `get_download_url` returns. */
  datatype Decision = Decision(statusCode: int, downloadUrl: Option<Presign.PresignedUrl>, message: string)

  /** The one error the resolver itself raises on a bucket it could read. */
  datatype ResolveError = MalformedStepState(key: string)

  /** The key of the CSV the step function writes for an upload: `output_<basename without extension>.csv`. */
  function OutputKey(objectKey: string): (k: string)
    ensures |k| >= 11 && k[..7] == "output_" && k[|k| - 4..] == ".csv"
    ensures !RubyFile.AllSeparators(objectKey) ==> '/' !in k
  {
    assert '/' !in "output_" && '/' !in ".csv";
    "output_" + RubyFile.BasenameWithoutExt(objectKey) + ".csv"
  }

  /** The key of the step function's status marker for an upload. */
  function StepStateKey(objectKey: string): (k: string)
    ensures "step-state-" <= k && k[|"step-state-"|..] == objectKey
  {
    "step-state-" + objectKey
  }

  /** The original upload is within its grace window at `now`. */
  predicate WithinGrace(bucket: Bucket, objectKey: string, now: int) {
    && objectKey in bucket
    && bucket[objectKey].lastModified.Some?
    && now <= bucket[objectKey].lastModified.value + GraceSeconds
  }

  /** `get_download_url` on bucket `bucketName`, whose contents are `bucket`, at time `now`. */
  function GetDownloadUrl(bucketName: string, bucket: Bucket, objectKey: string, now: int)
    : (r: Result<Decision, ResolveError>)
    ensures r.Err? <==>
      && OutputKey(objectKey) !in bucket
      && StepStateKey(objectKey) in bucket
      && bucket[StepStateKey(objectKey)].document.Unparseable?
    ensures r.Ok? ==> r.value.statusCode in {StatusCode(Pending), StatusCode(Success), StatusCode(Fail)}
    ensures r.Ok? ==> (r.value.statusCode == StatusCode(Success) <==> OutputKey(objectKey) in bucket)
    ensures r.Ok? ==> (r.value.downloadUrl.Some? <==> r.value.statusCode == StatusCode(Success))
    ensures r.Ok? && r.value.downloadUrl.Some? ==>
      && r.value.downloadUrl.value.key == OutputKey(objectKey)
      && r.value.downloadUrl.value.bucket == bucketName
      && r.value.downloadUrl.value.verb == Presign.Get
      && r.value.downloadUrl.value.expiresIn == 60
  {
    var outputKey := OutputKey(objectKey);
    if outputKey in bucket then
      Ok(Decision(StatusCode(Success), Some(Presign.PresignGet(bucketName, outputKey)), SuccessMessage))
    else
      var stepKey := StepStateKey(objectKey);
      if stepKey in bucket then
        match bucket[stepKey].document
        case Unparseable => Err(MalformedStepState(stepKey))
        case Parsed(status) =>
          if status == Some(FailStatus) then
            Ok(Decision(StatusCode(Fail), None, StepFailMessage))
          else
            Ok(Decision(StatusCode(Pending), None, StepStatusPrefix + status.GetOr("")))
      else if WithinGrace(bucket, objectKey, now) then
        Ok(Decision(StatusCode(Pending), None, WaitMessage))
      else
        Ok(Decision(StatusCode(Fail), None, RetryMessage))
  }

  // ---------------------------------------------------------------------
  // The status codes and the derived keys

  /** The three statuses have three different codes: pending 0, success 1, fail -1. */
  lemma StatusCodes(s: Status, t: Status)
    ensures StatusCode(Pending) == 0 && StatusCode(Success) == 1 && StatusCode(Fail) == -1
    ensures StatusCode(s) == StatusCode(t) ==> s == t
  {
  }

  /** An object `name.ext` has the output `output_name.csv`. */
  lemma OutputKeyOfName(name: string, ext: string)
    requires '/' !in name && '/' !in ext && '.' !in ext
    requires exists j :: 0 <= j < |name| && name[j] != '.'
    ensures OutputKey(name + "." + ext) == "output_" + name + ".csv"
  {
    RubyFile.BasenameWithoutExtOfName(name, ext);
  }

  /** An object `dir/name.ext` also has the output `output_name.csv`, at the bucket's root. */
  lemma OutputKeyOfPath(dir: string, name: string, ext: string)
    requires dir != [] && dir[|dir| - 1] == '/'
    requires '/' !in name && '/' !in ext && '.' !in ext
    requires exists j :: 0 <= j < |name| && name[j] != '.'
    ensures OutputKey(dir + name + "." + ext) == "output_" + name + ".csv"
  {
    RubyFile.BasenameWithoutExtOfJoin(dir, name, ext);
  }

  /** An object key is never its own output key. */
  lemma OutputKeyIsNotObjectKey(objectKey: string)
    ensures OutputKey(objectKey) != objectKey
  {
    RubyFile.NotOwnRenaming(objectKey, "output_", ".csv");
  }

  /** The three objects the resolver reads are three different objects. */
  lemma KeysDistinct(objectKey: string)
    ensures OutputKey(objectKey) != StepStateKey(objectKey)
    ensures StepStateKey(objectKey) != objectKey
    ensures OutputKey(objectKey) != objectKey
  {
    assert OutputKey(objectKey)[0] == 'o' && StepStateKey(objectKey)[0] == 's';
    OutputKeyIsNotObjectKey(objectKey);
  }

  // ---------------------------------------------------------------------
  // One lemma per branch, in the order the resolver tries them

  /** An existing output object wins, whatever the step state or the upload hold. */
  lemma OutputWins(bucketName: string, bucket: Bucket, objectKey: string, now: int)
    requires OutputKey(objectKey) in bucket
    ensures GetDownloadUrl(bucketName, bucket, objectKey, now)
      == Ok(Decision(1, Some(Presign.PresignGet(bucketName, OutputKey(objectKey))), "Success"))
  {
  }

  /** A step state whose status is "fail" is a failure, without a URL. */
  lemma StepStateFailed(bucketName: string, bucket: Bucket, objectKey: string, now: int)
    requires OutputKey(objectKey) !in bucket
    requires StepStateKey(objectKey) in bucket
    requires bucket[StepStateKey(objectKey)].document == Parsed(Some("fail"))
    ensures GetDownloadUrl(bucketName, bucket, objectKey, now)
      == Ok(Decision(-1, None, "Step Function Execution Fail"))
  {
  }

  /** Any other status, missing or empty included, is pending and is echoed verbatim. */
  lemma StepStateRunning(bucketName: string, bucket: Bucket, objectKey: string, now: int, status: Option<string>)
    requires OutputKey(objectKey) !in bucket
    requires StepStateKey(objectKey) in bucket
    requires bucket[StepStateKey(objectKey)].document == Parsed(status)
    requires status != Some("fail")
    ensures GetDownloadUrl(bucketName, bucket, objectKey, now)
      == Ok(Decision(0, None, "Step Function Status => " + status.GetOr("")))
  {
  }

  /** A step state that does not parse is an error, never a decision. */
  lemma StepStateMalformed(bucketName: string, bucket: Bucket, objectKey: string, now: int)
    requires OutputKey(objectKey) !in bucket
    requires StepStateKey(objectKey) in bucket
    requires bucket[StepStateKey(objectKey)].document.Unparseable?
    ensures GetDownloadUrl(bucketName, bucket, objectKey, now)
      == Err(MalformedStepState("step-state-" + objectKey))
  {
  }

  /** With no output and no step state, an upload at most 60 seconds old is pending. */
  lemma UploadWithinGrace(bucketName: string, bucket: Bucket, objectKey: string, now: int)
    requires OutputKey(objectKey) !in bucket && StepStateKey(objectKey) !in bucket
    requires objectKey in bucket && bucket[objectKey].lastModified.Some?
    requires now <= bucket[objectKey].lastModified.value + 60
    ensures GetDownloadUrl(bucketName, bucket, objectKey, now)
      == Ok(Decision(0, None, "Wait Step Function Execute"))
  {
  }

  /** Otherwise the caller is told to retry: no upload, no `last_modified`, or an upload older than 60 seconds. */
  lemma RetryFallback(bucketName: string, bucket: Bucket, objectKey: string, now: int)
    requires OutputKey(objectKey) !in bucket && StepStateKey(objectKey) !in bucket
    requires || objectKey !in bucket
             || bucket[objectKey].lastModified.None?
             || now > bucket[objectKey].lastModified.value + 60
    ensures GetDownloadUrl(bucketName, bucket, objectKey, now)
      == Ok(Decision(-1, None, "Please retry fail"))
  {
  }

  /**
    The end of the grace window belongs to it: at 60 seconds pending, at 61
    fail. The bucket holds only the upload, whose body is never read.
  */
  lemma GraceBoundary(bucketName: string, objectKey: string, lastModified: int)
    ensures
      var bucket := map[objectKey := StoredObject(Parsed(None), Some(lastModified))];
      && GetDownloadUrl(bucketName, bucket, objectKey, lastModified + 60)
           == Ok(Decision(0, None, "Wait Step Function Execute"))
      && GetDownloadUrl(bucketName, bucket, objectKey, lastModified + 61)
           == Ok(Decision(-1, None, "Please retry fail"))
  {
    var bucket := map[objectKey := StoredObject(Parsed(None), Some(lastModified))];
    KeysDistinct(objectKey);
    assert OutputKey(objectKey) !in bucket && StepStateKey(objectKey) !in bucket;
  }

  // ---------------------------------------------------------------------
  // Properties of the resolver as a whole

  /** The three outcomes, each stated as a condition on the bucket alone. */
  lemma OutcomeClassification(bucketName: string, bucket: Bucket, objectKey: string, now: int)
    ensures var r := GetDownloadUrl(bucketName, bucket, objectKey, now);
      var out, step := OutputKey(objectKey), StepStateKey(objectKey);
      && (r.Ok? && r.value.statusCode == 1 <==> out in bucket)
      && (r.Ok? && r.value.statusCode == 0 <==>
            && out !in bucket
            && (if step in bucket
                then bucket[step].document.Parsed? && bucket[step].document.status != Some("fail")
                else WithinGrace(bucket, objectKey, now)))
      && (r.Ok? && r.value.statusCode == -1 <==>
            && out !in bucket
            && (if step in bucket
                then bucket[step].document == Parsed(Some("fail"))
                else !WithinGrace(bucket, objectKey, now)))
  {
  }

  /** The resolver reads the output, step-state and uploaded objects and nothing else. */
  lemma ReadsOnlyItsThreeObjects(bucketName: string, b1: Bucket, b2: Bucket, objectKey: string, now: int)
    requires forall k :: k in {OutputKey(objectKey), StepStateKey(objectKey), objectKey} ==>
      (k in b1 <==> k in b2) && (k in b1 ==> b1[k] == b2[k])
    ensures GetDownloadUrl(bucketName, b1, objectKey, now) == GetDownloadUrl(bucketName, b2, objectKey, now)
  {
    var out, step := OutputKey(objectKey), StepStateKey(objectKey);
    assert out in {out, step, objectKey};
    assert step in {out, step, objectKey};
    assert objectKey in {out, step, objectKey};
  }

  /** With the bucket unchanged, a pending "wait" was also pending at every earlier time. */
  lemma WaitHoldsEarlier(bucketName: string, bucket: Bucket, objectKey: string, now: int, earlier: int)
    requires earlier <= now
    requires GetDownloadUrl(bucketName, bucket, objectKey, now) == Ok(Decision(0, None, WaitMessage))
    ensures GetDownloadUrl(bucketName, bucket, objectKey, earlier) == Ok(Decision(0, None, WaitMessage))
  {
  }

  /** With the bucket unchanged, a "retry" stays a "retry" as time goes on. */
  lemma RetryHoldsLater(bucketName: string, bucket: Bucket, objectKey: string, now: int, later: int)
    requires now <= later
    requires GetDownloadUrl(bucketName, bucket, objectKey, now) == Ok(Decision(-1, None, RetryMessage))
    ensures GetDownloadUrl(bucketName, bucket, objectKey, later) == Ok(Decision(-1, None, RetryMessage))
  {
  }
}
