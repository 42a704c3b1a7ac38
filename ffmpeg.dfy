/** `convert_file` (src/ffmpeg.rs): turns a chosen file and a selector label
    into an `ffmpeg` command line, rejecting unknown labels and no-op
    conversions, and classifies what the run reports. The run itself is a
    parameter: the model only sees the argument vector it is handed and the
    outcome it returns. */
module Ffmpeg {
  import opened Paths

  /** What running `ffmpeg` reports: a successful exit status, any other
      status together with its standard-error text, or a failure to start
      the process with the system's error text. */
  datatype Outcome = Succeeded | Failed(stderr: string) | SpawnFailed(error: string)

  /** `Result<String, (String, String)>`: an error is a message and a detail
      (a hint, or the diagnostic text). */
  datatype Result<T> = Ok(value: T) | Err(message: string, detail: string)

  /** A recognised target: its extension and the codec arguments it adds. */
  datatype Target = Target(ext: string, codecArgs: seq<string>)

  const UnsupportedMessage: string := "Unsupported format selected."
  const UnsupportedHint: string := "Choose a valid format."
  const SameFormatMessage: string := "Already correct format."
  const SameFormatHint: string := "No conversion needed."
  const RunFailedMessage: string := "FFmpeg failed."
  const SpawnFailedMessage: string := "Failed to run FFmpeg."

  const SupportedLabels: set<string> :=
    {"MP4 (H.264)", "PNG (lossless)", "JPG (compressed)", "WEBP (for web)", "AVIF (modern)"}

  /** The label table: which extension a label targets and which codec it
      forces; `None` for a label outside the table. */
  function TargetFor(choice: string): (r: Option<Target>)
    ensures r.Some? <==> choice in SupportedLabels
  {
    match choice
    case "MP4 (H.264)" => Some(Target("mp4", ["-c:v", "libx264"]))
    case "PNG (lossless)" => Some(Target("png", []))
    case "JPG (compressed)" => Some(Target("jpg", []))
    case "WEBP (for web)" => Some(Target("webp", []))
    case "AVIF (modern)" => Some(Target("avif", ["-c:v", "libaom-av1"]))
    case _ => None
  }

  /** Only the two formats that need a particular encoder add arguments, and
      those two select the video codec: H.264 for MP4, AV1 for AVIF. */
  lemma CodecArguments(choice: string)
    requires choice in SupportedLabels
    ensures var t := TargetFor(choice).value;
            (t.codecArgs == [] <==> choice !in {"MP4 (H.264)", "AVIF (modern)"}) &&
            (t.codecArgs != [] ==> |t.codecArgs| == 2 && t.codecArgs[0] == "-c:v") &&
            (t.ext == "mp4" ==> t.codecArgs[1] == "libx264") &&
            (t.ext == "avif" ==> t.codecArgs[1] == "libaom-av1")
  {
  }

  /** The checks before anything is built: an unknown label is refused
      first; then a target equal to the input's own lower-cased extension
      (the raw extension, not a normalised one). */
  function Validate(p: InputPath, choice: string): (r: Result<Target>)
    ensures TargetFor(choice).None? ==> r == Err(UnsupportedMessage, UnsupportedHint)
    ensures TargetFor(choice).Some? && ExtensionOf(p) == TargetFor(choice).value.ext ==>
              r == Err(SameFormatMessage, SameFormatHint)
    ensures r.Ok? <==> TargetFor(choice).Some? && ExtensionOf(p) != TargetFor(choice).value.ext
    ensures r.Ok? ==> r.value == TargetFor(choice).value
  {
    match TargetFor(choice)
    case None => Err(UnsupportedMessage, UnsupportedHint)
    case Some(t) =>
      if ExtensionOf(p) == t.ext then Err(SameFormatMessage, SameFormatHint) else Ok(t)
  }

  /** `<stem>_converted.<ext>`, with "output" for a missing stem. */
  function OutputName(stem: Option<string>, ext: string): (r: string)
    ensures var s := stem.UnwrapOr("output");
            |r| == |s| + 11 + |ext| && r[..|s|] == s &&
            r[|s|..|s| + 11] == "_converted." && r[|s| + 11..] == ext
  {
    stem.UnwrapOr("output") + "_converted." + ext
  }

  /** The output file: the converted name next to the input, in "." when
      the input has no parent. */
  function OutputPath(p: InputPath, ext: string): (r: string)
    ensures var dir, name := p.parent.UnwrapOr("."), OutputName(p.stem, ext);
            r == dir + name || r == dir + "/" + name
    ensures var dir, name := p.parent.UnwrapOr("."), OutputName(p.stem, ext);
            r == dir + name <==> dir == [] || dir[|dir| - 1] == '/'
    ensures p.parent.None? ==> r == "./" + OutputName(p.stem, ext)
  {
    Join(p.parent.UnwrapOr("."), OutputName(p.stem, ext))
  }

  /** The output sits in the input's directory under exactly the converted
      name (a real file stem and a target extension hold no separator). */
  lemma OutputBesideInput(p: InputPath, ext: string)
    requires p.stem.Some? ==> '/' !in p.stem.value
    requires '/' !in ext
    ensures var dir := p.parent.UnwrapOr(".");
            OutputPath(p, ext)[..|dir|] == dir &&
            AfterLastSlash(OutputPath(p, ext)) == OutputName(p.stem, ext)
    ensures p.parent == Some("") ==> OutputPath(p, ext) == OutputName(p.stem, ext)
  {
    var name := OutputName(p.stem, ext);
    assert name == p.stem.UnwrapOr("output") + ("_converted." + ext);
    assert "output" == ['o', 'u', 't', 'p', 'u', 't'];
    assert "_converted." + ext == ['_', 'c', 'o', 'n', 'v', 'e', 'r', 't', 'e', 'd', '.'] + ext;
    assert '/' !in name;
    JoinKeepsName(p.parent.UnwrapOr("."), name);
  }

  /** The argument vector: overwrite, the input, the codec arguments, the
      output, in that order. */
  predicate IsCommandLine(args: seq<string>, input: string, codecArgs: seq<string>, output: string)
  {
    |args| == |codecArgs| + 4 &&
    args[..3] == ["-y", "-i", input] &&
    args[3..|args| - 1] == codecArgs &&
    args[|args| - 1] == output
  }

  /** The result of a run: the output path on success, otherwise an error
      that carries the tool's diagnostic text unchanged. */
  function Classify(o: Outcome, output: string): (r: Result<string>)
    ensures r.Ok? <==> o.Succeeded?
    ensures r.Ok? ==> r.value == output
    ensures o.Failed? ==> r == Err(RunFailedMessage, o.stderr)
    ensures o.SpawnFailed? ==> r == Err(SpawnFailedMessage, o.error)
  {
    match o
    case Succeeded => Ok(output)
    case Failed(stderr) => Err(RunFailedMessage, stderr)
    case SpawnFailed(error) => Err(SpawnFailedMessage, error)
  }

  /** Different outcomes of one run never produce the same result, and a run
      never produces one of the two rejections. */
  lemma ClassifyDistinguishes(o1: Outcome, o2: Outcome, output: string)
    ensures Classify(o1, output) == Classify(o2, output) ==> o1 == o2
    ensures Classify(o1, output).Err? ==>
              Classify(o1, output).message != UnsupportedMessage &&
              Classify(o1, output).message != SameFormatMessage
  {
    assert |RunFailedMessage| != |SpawnFailedMessage|;
    assert |RunFailedMessage| != |UnsupportedMessage| && |RunFailedMessage| != |SameFormatMessage|;
    assert |SpawnFailedMessage| != |UnsupportedMessage| && |SpawnFailedMessage| != |SameFormatMessage|;
  }

  /** `convert_file`. `run` stands for `Command::new("ffmpeg").args(..).output()`;
      `invoked` is the argument vector handed to it, `None` when the request
      is rejected and nothing is run. */
  method ConvertFile(p: InputPath, choice: string, run: seq<string> -> Outcome)
    returns (invoked: Option<seq<string>>, r: Result<string>)
    ensures invoked.None? <==> Validate(p, choice).Err?
    ensures Validate(p, choice).Err? ==>
              r == Err(Validate(p, choice).message, Validate(p, choice).detail)
    ensures Validate(p, choice).Ok? ==>
              var t := Validate(p, choice).value;
              var output := OutputPath(p, t.ext);
              invoked.Some? &&
              IsCommandLine(invoked.value, p.text, t.codecArgs, output) &&
              r == Classify(run(invoked.value), output)
    ensures invoked.Some? ==>
              |invoked.value| == if choice in {"MP4 (H.264)", "AVIF (modern)"} then 6 else 4
  {
    var ext := ExtensionOf(p);
    var target := TargetFor(choice);
    if target.None? {
      return None, Err(UnsupportedMessage, UnsupportedHint);
    }
    var t := target.value;
    if ext == t.ext {
      return None, Err(SameFormatMessage, SameFormatHint);
    }
    var inputStr := p.text;
    var outputStr := OutputPath(p, t.ext);
    var args := ["-y", "-i", inputStr];
    args := args + t.codecArgs;
    args := args + [outputStr];
    CodecArguments(choice);
    invoked := Some(args);
    r := Classify(run(args), outputStr);
  }

  /** The same-format check compares the raw lower-cased extension: JPEG
      and MOV inputs pass for JPG and MP4 targets, while an upper-case PNG
      input is refused for PNG. */
  lemma RawExtensionCompared(p: InputPath)
    ensures p.extension == Some("jpeg") ==> Validate(p, "JPG (compressed)").Ok?
    ensures p.extension == Some("mov") ==> Validate(p, "MP4 (H.264)").Ok?
    ensures p.extension == Some("PNG") ==> Validate(p, "PNG (lossless)") == Err(SameFormatMessage, SameFormatHint)
  {
  }

  /** The media kind of the input is not checked: a PNG input passes
      validation for an MP4 target. */
  lemma KindNotChecked(p: InputPath)
    requires p.extension == Some("png")
    ensures Validate(p, "MP4 (H.264)") == Ok(Target("mp4", ["-c:v", "libx264"]))
  {
  }

  /** PNG chosen for /tmp/photo.heic passes validation... */
  lemma HeicToPngAccepted(p: InputPath)
    requires p.extension == Some("heic")
    ensures Validate(p, "PNG (lossless)") == Ok(Target("png", []))
  {
    assert ExtensionOf(p) == "heic";
  }

  /** ...and is written as /tmp/photo_converted.png. */
  lemma HeicToPngOutput(p: InputPath)
    requires p.parent == Some("/tmp") && p.stem == Some("photo")
    ensures OutputPath(p, "png") == "/tmp/photo_converted.png"
  {
    var name := OutputName(p.stem, "png");
    assert name == "photo" + "_converted." + "png";
    assert OutputPath(p, "png") == Join("/tmp", name);
    assert "/tmp"[3] != '/';
    assert Join("/tmp", name) == "/tmp" + "/" + name;
    assert "/tmp" + "/" + ("photo" + "_converted." + "png") == "/tmp/photo_converted.png";
  }
}
