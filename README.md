# Presigned upload and download lambdas, modelled in Dafny

The repository is two AWS Lambda functions written in Ruby, behind an API
gateway that authenticates users through Cognito.

* The **upload lambda** names a per-user bucket `<username>-<service_name>`.
  For each requested file it mints a 60-second presigned PUT URL. The URL
  carries the caller's username, email and subject as metadata. Its key is
  `<basename without extension>_<YYYYmmddHHMM>/<file_name>`.
* The **download lambda** is asked about one uploaded object. It reads the
  bucket and decides how far the background step function has got with it:
  1. The derived `output_<basename without extension>.csv` exists: success,
     with a 60-second presigned GET URL.
  2. Otherwise `step-state-<key>` exists: fail when its `status` is `"fail"`,
     pending (echoing the status) otherwise.
  3. Otherwise the upload was modified at most 60 seconds ago: pending.
  4. Otherwise fail, and the caller should upload again.

The project has seven modules:

| module | file | contents |
|---|---|---|
| `Wrappers` | `wrappers.dfy` | `Option` (Ruby's nil) and `Result` (an operation that may raise). |
| `RubyFile` | `ruby_file.dfy` | Ruby's `File.basename(path)` and `File.basename(path, '.*')` as pure string functions, following MRI's rules. Trailing separators are dropped, a path of separators only gives `/`, and leading dots never start an extension. |
| `Strftime` | `strftime.dfy` | `strftime('%Y%m%d%H%M')` of a reading to the minute, and a parser that reads a stamp back. |
| `Presign` | `presign.dfy` | A presigned URL as the request made of the signer: bucket, key, verb, lifetime and metadata. |
| `PresignedDownload` | `download.dfy` | `get_download_url` as a function of a bucket snapshot (a map from key to what reading that object returns) and of the current time in seconds. |
| `PresignedUpload` | `upload.dfy` | `generate_s3_bucket` and `generate_s3_key`, and the response body of `lambda_handler`. The handler is a method whose `file_names` loop builds the entry list. |
| `UploadThenDownload` | `upload_then_download.dfy` | What the download lambda looks for when it is asked about an object the upload lambda named. Neither lambda calls the other; the lemmas relate their two key schemes. |

Both `Time.now` readings are parameters:

* The download resolver takes `now` in whole seconds.
* The upload handler takes `clock`, where `clock(i)` is the minute read by
  the i-th `generate_s3_key` call of the request. Ruby reads the wall clock
  once per key, so two entries of one listing may carry different minutes.

A step-state body that `JSON.parse` rejects makes the Ruby method raise. The
model returns that case as `Err(MalformedStepState(key))`, which is distinct
from every decision.

## Model

| member | source | states |
|---|---|---|
| PresignedDownload.StatusCodes | lambda/presignedUrlDownload/lambda_function.rb:8-12 | The `STATUS` table, modelled by `StatusCode`, maps pending to 0, success to 1 and fail to -1, and the three codes are distinct. |
| PresignedDownload.OutputKey | lambda/presignedUrlDownload/lambda_function.rb:25 | The output key starts with `output_` and ends with `.csv`. It holds no separator unless the object key is made only of separators. |
| PresignedDownload.OutputKeyOfName | lambda/presignedUrlDownload/lambda_function.rb:25 | Object `name.ext` has output `output_name.csv` when `name` has no separator and a character other than '.', and `ext` has no '.' or separator: only the last extension is dropped. |
| PresignedDownload.OutputKeyOfPath | lambda/presignedUrlDownload/lambda_function.rb:25 | Object `dir/name.ext` also has output `output_name.csv`, under the same conditions on `name` and `ext`, because the directory part is dropped. |
| PresignedDownload.OutputKeyIsNotObjectKey | lambda/presignedUrlDownload/lambda_function.rb:25 | No object key is its own output key. |
| PresignedDownload.StepStateKey | lambda/presignedUrlDownload/lambda_function.rb:33 | The step-state key is `step-state-` followed by the whole object key. |
| PresignedDownload.KeysDistinct | lambda/presignedUrlDownload/lambda_function.rb:25-50 | The output, step-state and uploaded objects the resolver reads are three different keys. |
| PresignedDownload.GetDownloadUrl | lambda/presignedUrlDownload/lambda_function.rb:24-66 | It raises exactly when there is no output and the step state exists but does not parse. Otherwise the code is one of 0, 1 and -1. The code is 1 exactly when the output exists. A URL is present exactly on success, and it is a 60-second GET of the output key in the requested bucket. |
| PresignedDownload.OutputWins | lambda/presignedUrlDownload/lambda_function.rb:26-32 | An existing output gives code 1, a GET URL for it and "Success", whatever the rest of the bucket holds. |
| PresignedDownload.StepStateFailed | lambda/presignedUrlDownload/lambda_function.rb:33-42 | With no output and step status "fail", the result is -1 and "Step Function Execution Fail", with no URL. |
| PresignedDownload.StepStateRunning | lambda/presignedUrlDownload/lambda_function.rb:43-46 | Any other step status, missing included, gives 0 and "Step Function Status => " followed by the status as given. |
| PresignedDownload.StepStateMalformed | lambda/presignedUrlDownload/lambda_function.rb:35-36 | A step-state body that does not parse is an error, not a decision. |
| PresignedDownload.UploadWithinGrace | lambda/presignedUrlDownload/lambda_function.rb:48-59 | With neither output nor step state, an upload modified at most 60 s before `now` gives 0 and "Wait Step Function Execute". The predicate `WithinGrace` states this condition for lines 52-54. |
| PresignedDownload.RetryFallback | lambda/presignedUrlDownload/lambda_function.rb:48-65 | With neither output nor step state, the result is -1 and "Please retry fail" in three cases: no upload, no `last_modified`, or an upload older than 60 s. |
| PresignedDownload.GraceBoundary | lambda/presignedUrlDownload/lambda_function.rb:54 | The grace window is closed: 60 s after the upload is pending, 61 s is fail. |
| PresignedDownload.OutcomeClassification | lambda/presignedUrlDownload/lambda_function.rb:24-66 | Success, pending and fail are each characterised, in both directions, by a condition on the bucket and `now` alone. |
| PresignedDownload.ReadsOnlyItsThreeObjects | lambda/presignedUrlDownload/lambda_function.rb:24-66 | Two buckets that agree on the output, step-state and uploaded objects get the same answer. |
| PresignedDownload.WaitHoldsEarlier | lambda/presignedUrlDownload/lambda_function.rb:54-59 | If the bucket is unchanged, a "wait" answer would also have been given at any earlier time. |
| PresignedDownload.RetryHoldsLater | lambda/presignedUrlDownload/lambda_function.rb:54-65 | If the bucket is unchanged, a "retry" answer stays "retry" at any later time. |
| UploadThenDownload.OutputKeyOfUploadedKey | lambda/presignedUrlDownload/lambda_function.rb:25 | For any file name that is not made only of separators, directories included, the output looked up for the generated key is the output of the file name itself. |
| UploadThenDownload.UploadsShareOutputKey | lambda/presignedUrlDownload/lambda_function.rb:25 | For any file name that is not made only of separators, two uploads in different minutes are different objects but share a single output key. |
| UploadThenDownload.OutputKeyOfSeparatorUpload | lambda/presignedUrlDownload/lambda_function.rb:25 | For a file name made only of separators, "" included, the output key is `output__<stamp>.csv`. |
| UploadThenDownload.SeparatorUploadsKeepOutputsApart | lambda/presignedUrlDownload/lambda_function.rb:25 | For those file names, two uploads in different minutes get different output keys. This is the one case where the sharing above does not happen. |
| RubyFile.Basename | lambda/presignedUrlDownload/lambda_function.rb:25 | `File.basename`: "" stays "", a path of separators only gives "/", and any other path gives a non-empty name with no separator. |
| RubyFile.BasenameOfJoinTrailing | lambda/presignedUrlDownload/lambda_function.rb:25 | Trailing separators are dropped: a directory, then a separator-free name, then separators, has that name as its base name (`"a/b/"` gives `"b"`). |
| RubyFile.BasenameParts | lambda/presignedUrlDownload/lambda_function.rb:25 | Every path that is not all separators splits into a directory part (empty or ending in '/'), its base name, and trailing separators only. |
| RubyFile.BasenameUnderDir | lambda/presignedUrlUpload/lambda_function.rb:120 | Putting a directory in front of a path that is not all separators leaves its base name unchanged. |
| RubyFile.StripExtension | lambda/presignedUrlDownload/lambda_function.rb:25 | The result is a prefix of the name, non-empty when the name is. When something is cut, the cut is at a '.' after the leading dots. |
| RubyFile.StripExtensionDots | lambda/presignedUrlDownload/lambda_function.rb:25 | The name is kept whole exactly when no '.' follows its leading dots. Otherwise the cut is at the last '.'. |
| RubyFile.BasenameWithoutExt | lambda/presignedUrlUpload/lambda_function.rb:119 | `File.basename(path, '.*')` of a path that is not all separators is non-empty and has no separator. |
| RubyFile.BasenameOfJoin | lambda/presignedUrlUpload/lambda_function.rb:120 | A separator-free file name after a directory is its own base name. |
| RubyFile.BasenameOfName | lambda/presignedUrlUpload/lambda_function.rb:119 | A non-empty, separator-free name is its own base name. |
| RubyFile.BasenameIdempotent | lambda/presignedUrlDownload/lambda_function.rb:25 | Taking the base name twice gives the same result as taking it once. |
| RubyFile.StripExtensionOf | lambda/presignedUrlDownload/lambda_function.rb:25 | Stripping `name.ext` gives `name` when `ext` has no dot and `name` is not all dots. |
| RubyFile.BasenameWithoutExtOfName | lambda/presignedUrlUpload/lambda_function.rb:119 | `File.basename("name.ext", '.*')` is `name` when `name` has no separator and a character other than '.', and `ext` has no '.' or separator. |
| RubyFile.BasenameWithoutExtOfJoin | lambda/presignedUrlDownload/lambda_function.rb:25 | `File.basename("dir/name.ext", '.*')` is `name` under the same conditions on `name` and `ext`. |
| RubyFile.NotOwnRenaming | lambda/presignedUrlDownload/lambda_function.rb:25 | A path never equals its own extension-less base name with a prefix put in front and an extension put after it. |
| Strftime.FixedDigits | lambda/presignedUrlUpload/lambda_function.rb:119 | Zero-padded decimal rendering: exactly `width` characters, all digits. |
| Strftime.FixedDigitsRoundTrip | lambda/presignedUrlUpload/lambda_function.rb:119 | Reading back the padded digits of a number below 10^width gives the number. |
| Strftime.FormatYmdHM | lambda/presignedUrlUpload/lambda_function.rb:119 | The `%Y%m%d%H%M` stamp is exactly twelve digits. |
| Strftime.ParseYmdHM | lambda/presignedUrlUpload/lambda_function.rb:119 | A stamp is accepted exactly when it is twelve digits. |
| Strftime.FormatParseRoundTrip | lambda/presignedUrlUpload/lambda_function.rb:119 | Parsing a formatted stamp gives back the reading. |
| Strftime.FormatInjective | lambda/presignedUrlUpload/lambda_function.rb:119 | Different readings give different stamps. |
| PresignedUpload.GenerateS3Bucket | lambda/presignedUrlUpload/lambda_function.rb:114-116 | The bucket name is the username, '-', then the service name, at those positions. |
| PresignedUpload.SplitAtFirst | lambda/presignedUrlUpload/lambda_function.rb:114-116 | Splitting at the first separator fails exactly when there is none. Otherwise it returns a separator-free head and a tail that rebuild the input. |
| PresignedUpload.BucketNameSplits | lambda/presignedUrlUpload/lambda_function.rb:114-116 | If the username has no '-', the bucket name splits back into the username and the service name. |
| PresignedUpload.GenerateS3Key | lambda/presignedUrlUpload/lambda_function.rb:118-120 | A generated key is longer than the file name and ends with "/" and the file name. The folder in front of it is the function `Folder` (line 119). |
| PresignedUpload.GeneratedKeyStamp | lambda/presignedUrlUpload/lambda_function.rb:119 | The folder ends with '_' and twelve digits, and those digits parse back to the minute the key was made. |
| PresignedUpload.BasenameOfGeneratedKey | lambda/presignedUrlUpload/lambda_function.rb:118-120 | For any file name that is not all separators, the base name of the generated key is the base name of the file name. That is the file name itself when it has no separator. |
| PresignedUpload.BasenameOfSeparatorKey | lambda/presignedUrlUpload/lambda_function.rb:118-120 | For a file name made only of separators, the base name of the generated key is '_' followed by the stamp. |
| PresignedUpload.GeneratedKeyOf | lambda/presignedUrlUpload/lambda_function.rb:118-120 | The key for `name.ext` is `name_<stamp>/name.ext` when `name` has no separator and a character other than '.', and `ext` has no '.' or separator. |
| PresignedUpload.KeysDifferAcrossMinutes | lambda/presignedUrlUpload/lambda_function.rb:119 | The same file asked for in two different minutes gets two different keys. |
| PresignedUpload.CollectEntries | lambda/presignedUrlUpload/lambda_function.rb:144-150 | The loop yields one entry per name, in input order. The j-th entry is what the block builds for the j-th name. |
| PresignedUpload.LambdaHandler | lambda/presignedUrlUpload/lambda_function.rb:123-153 | The bucket is `generate_s3_bucket`. A non-nil `file_name` gives a single upload URL made with the first clock reading, and `file_names` is ignored. Otherwise a non-empty `file_names` gives one entry per name, in order, each carrying its name and a URL whose key was made at that entry's clock reading. Otherwise the body is nil. The metadata is `MetadataOf` the claims (line 132), and each entry is `EntryFor` its name (lines 146-149). |
| PresignedUpload.UploadUrlFacts | lambda/presignedUrlUpload/lambda_function.rb:101-104 | An upload URL is a 60-second PUT into the handler's bucket. It carries the caller's metadata, and its key ends with "/" and the file name. |

## Left out

- The `assume_role` STS call and the `ROLE_ARN` / `ROLE_SESSION_NAME` environment reads are credential I/O; the model assumes they succeed.
- `bucket_create`, `set_cors` and `bucket_event_bridge_enable` are straight AWS API calls with no decision logic.
- Signing a presigned URL (AWS Signature V4) and `URI(url)` parsing are foreign library code. A URL is modelled as the request made of the signer.
- `log` and `puts` only write to the console.
- The Lambda envelope is transport plumbing: `JSON.parse` of the event, the 200 and 403 responses, the CORS header and `JSON.generate`.
- A storage service error raised by `exists?`, `get` or `head` is not modelled. The bucket is a snapshot that every read succeeds on.
- A non-string `status` value (a number, say) is represented only by its text.
- Request fields that are not strings, and a `file_names` that is not an array, are not represented.
- Times are whole seconds. Ruby compares `Time.now`, which has sub-second precision, with `last_modified + 60`.
- `Time.parse(last_modified.to_s)` is taken to give back the head's `last_modified`.
- RubyFile.Basename: a path containing a NUL character makes `File.basename` raise ArgumentError, so both handlers answer 403; the model returns a name for it.
- Strftime.FormatYmdHM: years after 9999 are outside `Minute`. Ruby prints more than four year digits for them, so its stamp is then longer than twelve digits.
- The wall clock is not modelled. `now` (download) and `clock` (upload) are parameters.
- The download lambda's own `lambda_handler`, which reads `bucket_name` and `file_name` from the request, is envelope plumbing around `get_download_url`.
- Presign.PresignGet and Presign.PresignPut carry no contract of their own. The URL facts are stated by PresignedDownload.GetDownloadUrl and PresignedUpload.UploadUrlFacts.
