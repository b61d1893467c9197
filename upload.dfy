/**
  The upload lambda: the bucket name and object keys it builds, and the
  response body of its handler, one presigned PUT URL per requested file.

  The wall clock that `generate_s3_key` reads is a parameter: `clock(i)` is
  the reading taken by the i-th key generated while serving one request.
*/
module PresignedUpload {
  import opened Wrappers
  import RubyFile
  import Strftime
  import Presign

  /** `generate_s3_bucket`: the caller's username and the service name, joined by '-'. */
  function GenerateS3Bucket(username: string, serviceName: string): (r: string)
    ensures |r| == |username| + 1 + |serviceName|
    ensures r[..|username|] == username && r[|username|] == '-' && r[|username| + 1..] == serviceName
  {
    username + "-" + serviceName
  }

  /** The text before the first `sep` of s and the text after it; None when s has no `sep`. */
  function SplitAtFirst(s: string, sep: char): (r: Option<(string, string)>)
    ensures r.None? <==> sep !in s
    ensures r.Some? ==> sep !in r.value.0 && s == r.value.0 + [sep] + r.value.1
  {
    if s == [] then None
    else if s[0] == sep then Some(([], s[1..]))
    else match SplitAtFirst(s[1..], sep)
      case None => None
      case Some((before, after)) =>
        assert s == [s[0]] + s[1..];
        Some(([s[0]] + before, after))
  }

  /** Splitting at the first `sep` undoes a join around `sep` whose left part has none. */
  lemma {:induction false} SplitAtFirstOfJoin(before: string, after: string, sep: char)
    requires sep !in before
    ensures SplitAtFirst(before + [sep] + after, sep) == Some((before, after))
  {
    var s := before + [sep] + after;
    if before != [] {
      assert s[1..] == before[1..] + [sep] + after;
      SplitAtFirstOfJoin(before[1..], after, sep);
      assert [s[0]] + before[1..] == before;
    }
  }

  /** A username without '-' can be read back from the bucket name, and so can the service. */
  lemma BucketNameSplits(username: string, serviceName: string)
    requires '-' !in username
    ensures SplitAtFirst(GenerateS3Bucket(username, serviceName), '-') == Some((username, serviceName))
  {
    SplitAtFirstOfJoin(username, serviceName, '-');
  }

  /** The folder of an upload: the file's base name without extension, '_', and the minute stamp. */
  function Folder(fileName: string, at: Strftime.Minute): string {
    RubyFile.BasenameWithoutExt(fileName) + "_" + Strftime.FormatYmdHM(at)
  }

  /** The key of a file under a folder: `"#{folder}/#{file_name}"`. */
  function JoinUnder(folder: string, fileName: string): (key: string)
    ensures |key| == |folder| + 1 + |fileName|
    ensures key[..|folder|] == folder
    ensures key[|folder|..] == "/" + fileName
  {
    folder + "/" + fileName
  }

  /** `generate_s3_key`: the file, under a folder named after it and the minute it was asked for. */
  function GenerateS3Key(fileName: string, at: Strftime.Minute): (key: string)
    ensures |key| > |fileName| && key[|key| - |fileName| - 1..] == "/" + fileName
  {
    JoinUnder(Folder(fileName, at), fileName)
  }

  /** The folder of a key ends in '_' and the twelve digits of the minute the key was made, which read back as that minute. */
  lemma GeneratedKeyStamp(fileName: string, at: Strftime.Minute)
    ensures var key, stampEnd := GenerateS3Key(fileName, at), |GenerateS3Key(fileName, at)| - |fileName| - 1;
      && key[stampEnd - 13] == '_'
      && key[stampEnd - 12..stampEnd] == Strftime.FormatYmdHM(at)
      && Strftime.AllDigits(key[stampEnd - 12..stampEnd])
      && Strftime.ParseYmdHM(key[stampEnd - 12..stampEnd]) == Some(at)
  {
    var folder := Folder(fileName, at);
    var key := GenerateS3Key(fileName, at);
    assert key == JoinUnder(folder, fileName);
    assert key[..|folder|] == folder;
    assert folder[|folder| - 13] == '_';
    assert folder[|folder| - 12..] == Strftime.FormatYmdHM(at);
    Strftime.FormatParseRoundTrip(at);
  }

  /**
    The base name of a generated key is the base name of the uploaded file
    name, which is the file name itself when it has no separator.
  */
  lemma BasenameOfGeneratedKey(fileName: string, at: Strftime.Minute)
    requires !RubyFile.AllSeparators(fileName)
    ensures RubyFile.Basename(GenerateS3Key(fileName, at)) == RubyFile.Basename(fileName)
    ensures '/' !in fileName ==> RubyFile.Basename(GenerateS3Key(fileName, at)) == fileName
  {
    var folder := Folder(fileName, at);
    assert GenerateS3Key(fileName, at) == (folder + "/") + fileName;
    RubyFile.BasenameUnderDir(folder + "/", fileName);
    if '/' !in fileName {
      RubyFile.BasenameOfName(fileName);
    }
  }

  /** For a file name made only of separators ("" included) the base name of the key is '_' and the stamp. */
  lemma BasenameOfSeparatorKey(fileName: string, at: Strftime.Minute)
    requires RubyFile.AllSeparators(fileName)
    ensures RubyFile.Basename(GenerateS3Key(fileName, at)) == "_" + Strftime.FormatYmdHM(at)
  {
    var b := RubyFile.BasenameWithoutExt(fileName);
    assert b == [] || b == "/";
    var stamp := Strftime.FormatYmdHM(at);
    var name, seps := "_" + stamp, "/" + fileName;
    assert '/' !in name by {
      assert forall i :: 1 <= i < |name| ==> name[i] == stamp[i - 1];
    }
    assert RubyFile.AllSeparators(seps) by {
      assert forall i :: 1 <= i < |seps| ==> seps[i] == fileName[i - 1];
    }
    var folder := Folder(fileName, at);
    assert folder == b + name;
    assert GenerateS3Key(fileName, at) == folder + seps;
    RubyFile.BasenameOfJoinTrailing(b, name, seps);
  }

  /** For `name.ext` the key is `name_<stamp>/name.ext`. */
  lemma GeneratedKeyOf(name: string, ext: string, at: Strftime.Minute)
    requires '/' !in name && '/' !in ext && '.' !in ext
    requires exists j :: 0 <= j < |name| && name[j] != '.'
    ensures GenerateS3Key(name + "." + ext, at) == (name + "_" + Strftime.FormatYmdHM(at)) + "/" + (name + "." + ext)
  {
    var file, stamp := name + "." + ext, Strftime.FormatYmdHM(at);
    RubyFile.BasenameWithoutExtOfName(name, ext);
    assert Folder(file, at) == name + "_" + stamp;
    assert GenerateS3Key(file, at) == (name + "_" + stamp) + "/" + file;
  }

  /** The same file asked for in two different minutes gets two different keys. */
  lemma KeysDifferAcrossMinutes(fileName: string, t: Strftime.Minute, u: Strftime.Minute)
    requires t != u
    ensures GenerateS3Key(fileName, t) != GenerateS3Key(fileName, u)
  {
    if GenerateS3Key(fileName, t) == GenerateS3Key(fileName, u) {
      var k := GenerateS3Key(fileName, t);
      var b := RubyFile.BasenameWithoutExt(fileName);
      var st, su := Strftime.FormatYmdHM(t), Strftime.FormatYmdHM(u);
      assert k == b + "_" + st + "/" + fileName;
      assert k == b + "_" + su + "/" + fileName;
      assert k[|b| + 1..|b| + 13] == st;
      assert k[|b| + 1..|b| + 13] == su;
      Strftime.FormatInjective(t, u);
    }
  }

  /** The Cognito claims of the caller. */
  datatype Claims = Claims(sub: string, email: string, username: string)

  /** The handler's view of the request body: `service_name`, `file_name` and `file_names` (nil is None). */
  datatype UploadRequest = UploadRequest(
    serviceName: string,
    fileName: Option<string>,
    fileNames: Option<seq<string>>)

  datatype UploadEntry = UploadEntry(fileName: string, uploadUrl: Presign.PresignedUrl)

  /** `{upload_url:}` for one file, or the list of `{file_name:, upload_url:}` for several. */
  datatype ResponseBody = Single(uploadUrl: Presign.PresignedUrl) | Listing(files: seq<UploadEntry>)

  /** The user metadata every upload carries. */
  function MetadataOf(claims: Claims): Presign.Metadata {
    Presign.Metadata(claims.username, claims.email, claims.sub)
  }

  /** `get_presigned_url(generate_s3_key(fileName), metadata)`. */
  function UploadUrl(bucket: string, fileName: string, at: Strftime.Minute, metadata: Presign.Metadata)
    : Presign.PresignedUrl
  {
    Presign.PresignPut(bucket, GenerateS3Key(fileName, at), metadata)
  }

  /** The list entry for one requested file. */
  function EntryFor(bucket: string, fileName: string, at: Strftime.Minute, metadata: Presign.Metadata)
    : UploadEntry
  {
    UploadEntry(fileName, UploadUrl(bucket, fileName, at, metadata))
  }

  /** files holds one entry per name, in the order of the names, the j-th key made at `clock(j)`. */
  predicate ListsUploads(files: seq<UploadEntry>, bucket: string, names: seq<string>,
                         clock: nat -> Strftime.Minute, metadata: Presign.Metadata)
  {
    && |files| == |names|
    && forall j :: 0 <= j < |names| ==> files[j] == EntryFor(bucket, names[j], clock(j), metadata)
  }

  /**
    The `file_names.each_with_index` loop: `block(name, j)` is the entry the
    loop's block builds for the j-th name, and the entries are kept in order.
  */
  method CollectEntries(names: seq<string>, block: (string, nat) -> UploadEntry)
    returns (files: seq<UploadEntry>)
    ensures |files| == |names|
    ensures forall j :: 0 <= j < |names| ==> files[j] == block(names[j], j)
  {
    files := [];
    var i := 0;
    while i < |names|
      invariant 0 <= i <= |names|
      invariant |files| == i
      invariant forall j :: 0 <= j < i ==> files[j] == block(names[j], j)
    {
      files := files + [block(names[i], i)];
      i := i + 1;
    }
  }

  /**
    The bucket and the response body of `lambda_handler`. A `file_name` wins
    over `file_names`; `file_names` gives one entry per name, in order; with
    neither the body is nil.
  */
  method LambdaHandler(claims: Claims, request: UploadRequest, clock: nat -> Strftime.Minute)
    returns (bucket: string, body: Option<ResponseBody>)
    ensures bucket == GenerateS3Bucket(claims.username, request.serviceName)
    ensures request.fileName.Some? ==>
      body == Some(Single(UploadUrl(bucket, request.fileName.value, clock(0), MetadataOf(claims))))
    ensures request.fileName.None? && request.fileNames.Some? && request.fileNames.value != [] ==>
      && body.Some? && body.value.Listing?
      && ListsUploads(body.value.files, bucket, request.fileNames.value, clock, MetadataOf(claims))
    ensures request.fileName.None? && (request.fileNames.None? || request.fileNames.value == []) ==>
      body.None?
  {
    var metadata := MetadataOf(claims);
    bucket := GenerateS3Bucket(claims.username, request.serviceName);
    body := None;
    if request.fileName.Some? {
      body := Some(Single(UploadUrl(bucket, request.fileName.value, clock(0), metadata)));
    } else if request.fileNames.Some? && |request.fileNames.value| > 0 {
      var block := (name: string, j: nat) => EntryFor(bucket, name, clock(j), metadata);
      var files := CollectEntries(request.fileNames.value, block);
      body := Some(Listing(files));
    }
  }

  /** An upload URL is a 60-second PUT that carries the metadata, for a key ending in the file's name. */
  lemma UploadUrlFacts(bucket: string, fileName: string, at: Strftime.Minute, metadata: Presign.Metadata)
    ensures var u := UploadUrl(bucket, fileName, at, metadata);
      && u.bucket == bucket && u.verb == Presign.Put && u.expiresIn == 60
      && u.metadata == Some(metadata)
      && |u.key| > |fileName| && u.key[|u.key| - |fileName| - 1..] == "/" + fileName
  {
  }
}
