/**
  What the download lambda finds for objects the upload lambda made.

  The two lambdas share a bucket: the upload lambda names each object
  `<basename without extension>_<stamp>/<file_name>`, and the download
  lambda derives the output it looks for from the base name of that key.
  These lemmas relate the two key schemes; neither lambda calls the other.
*/
module UploadThenDownload {
  import RubyFile
  import Strftime
  import Upload = PresignedUpload
  import Download = PresignedDownload

  /**
    The output looked up for a key the upload lambda made is the output of
    the uploaded file name, whatever directories that name carries.
  */
  lemma OutputKeyOfUploadedKey(fileName: string, at: Strftime.Minute)
    requires !RubyFile.AllSeparators(fileName)
    ensures Download.OutputKey(Upload.GenerateS3Key(fileName, at)) == Download.OutputKey(fileName)
  {
    Upload.BasenameOfGeneratedKey(fileName, at);
  }

  /**
    Two uploads of the same file in different minutes are two objects, yet
    the resolver looks for one and the same output object for both.
  */
  lemma UploadsShareOutputKey(fileName: string, t: Strftime.Minute, u: Strftime.Minute)
    requires !RubyFile.AllSeparators(fileName)
    requires t != u
    ensures Upload.GenerateS3Key(fileName, t) != Upload.GenerateS3Key(fileName, u)
    ensures Download.OutputKey(Upload.GenerateS3Key(fileName, t)) == Download.OutputKey(Upload.GenerateS3Key(fileName, u))
  {
    Upload.KeysDifferAcrossMinutes(fileName, t, u);
    OutputKeyOfUploadedKey(fileName, t);
    OutputKeyOfUploadedKey(fileName, u);
  }

  /**
    A file name made only of separators ("" included) leaves the folder as
    the last segment of the key, so the output is named after the stamp.
  */
  lemma OutputKeyOfSeparatorUpload(fileName: string, at: Strftime.Minute)
    requires RubyFile.AllSeparators(fileName)
    ensures Download.OutputKey(Upload.GenerateS3Key(fileName, at)) == "output_" + ("_" + Strftime.FormatYmdHM(at)) + ".csv"
  {
    var stamp := Strftime.FormatYmdHM(at);
    var name := "_" + stamp;
    Upload.BasenameOfSeparatorKey(fileName, at);
    assert forall i :: 0 <= i < |name| ==> name[i] != '.' by {
      assert forall i :: 1 <= i < |name| ==> name[i] == stamp[i - 1];
    }
    RubyFile.StripExtensionDots(name);
  }

  /** Output keys named after two stamps of equal length are equal only when the stamps are. */
  lemma StampedOutputsDiffer(st: string, su: string)
    requires |st| == |su| && st != su
    ensures "output_" + ("_" + st) + ".csv" != "output_" + ("_" + su) + ".csv"
  {
    var kt, ku := "output_" + ("_" + st) + ".csv", "output_" + ("_" + su) + ".csv";
    assert kt[8..8 + |st|] == st;
    assert ku[8..8 + |su|] == su;
  }

  /** For those file names two uploads in different minutes do get different outputs. */
  lemma SeparatorUploadsKeepOutputsApart(fileName: string, t: Strftime.Minute, u: Strftime.Minute)
    requires RubyFile.AllSeparators(fileName)
    requires t != u
    ensures Download.OutputKey(Upload.GenerateS3Key(fileName, t)) != Download.OutputKey(Upload.GenerateS3Key(fileName, u))
  {
    OutputKeyOfSeparatorUpload(fileName, t);
    OutputKeyOfSeparatorUpload(fileName, u);
    if Strftime.FormatYmdHM(t) == Strftime.FormatYmdHM(u) {
      Strftime.FormatInjective(t, u);
    }
    StampedOutputsDiffer(Strftime.FormatYmdHM(t), Strftime.FormatYmdHM(u));
  }
}
