/** The format-compatibility logic of the file-chooser callback in
    `build_ui` (src/gui.rs): normalising the chosen file's extension,
    picking the output pool, dropping the input's own format, and the
    "Will output" preview; and the state that callback updates. */
module Gui {
  import opened Paths

  /** Every extension `ext_map` recognises. */
  const RecognisedInputs: set<string> :=
    {"jpg", "jpeg", "png", "webp", "avif", "heic", "mp4", "mov", "avi", "webm"}
  const ImageKinds: set<string> := {"jpg", "png", "webp", "avif"}

  /** `ext_map`: collapses synonyms onto one normalised extension; `""` for
      anything it does not know. */
  function Normalize(e: string): (r: string)
    ensures r == "jpg" <==> e in {"jpg", "jpeg", "heic"}
    ensures r == "mp4" <==> e in {"mp4", "mov", "avi", "webm"}
    ensures e in {"png", "webp", "avif"} ==> r == e
    ensures r in {"png", "webp", "avif"} <==> e in {"png", "webp", "avif"}
    ensures r == "" <==> e !in RecognisedInputs
  {
    match e
    case "jpg" | "jpeg" => "jpg"
    case "png" => "png"
    case "webp" => "webp"
    case "avif" => "avif"
    case "heic" => "jpg"
    case "mp4" | "mov" | "avi" | "webm" => "mp4"
    case _ => ""
  }

  /** Normal forms are fixed points: normalising twice changes nothing. */
  lemma NormalizeIdempotent(e: string)
    ensures Normalize(Normalize(e)) == Normalize(e)
  {
  }

  /** An output choice of the two pools: its normalised extension and the
      label shown in the format selector. */
  datatype Format = Png | Jpg | Webp | Avif | Mp4 {
    function Ext(): (r: string) {
      match this
      case Png => "png"
      case Jpg => "jpg"
      case Webp => "webp"
      case Avif => "avif"
      case Mp4 => "mp4"
    }

    function Display(): (r: string) {
      match this
      case Png => "PNG (lossless)"
      case Jpg => "JPG (compressed)"
      case Webp => "WEBP (for web)"
      case Avif => "AVIF (modern)"
      case Mp4 => "MP4 (H.264)"
    }
  }

  /** The extension of every output format is its own normal form. */
  lemma NormalizeFixesOutputs(f: Format)
    ensures Normalize(f.Ext()) == f.Ext()
    ensures '/' !in f.Ext()
  {
  }

  const ImageOutputs: seq<Format> := [Png, Jpg, Webp, Avif]
  const VideoOutputs: seq<Format> := [Mp4]

  /** The output pool for a normalised extension. */
  function Pool(n: string): (r: seq<Format>)
    ensures r == ImageOutputs <==> n in ImageKinds
    ensures r == VideoOutputs <==> n == "mp4"
    ensures r == [] <==> n !in ImageKinds && n != "mp4"
  {
    match n
    case "jpg" | "png" | "webp" | "avif" => ImageOutputs
    case "mp4" => VideoOutputs
    case _ => []
  }

  /** The `filter(|(e, _)| *e != input_normalized)` step. */
  function Without(pool: seq<Format>, n: string): (r: seq<Format>)
    ensures |r| <= |pool|
  {
    if pool == [] then []
    else (if pool[0].Ext() != n then [pool[0]] else []) + Without(pool[1..], n)
  }

  /** Filtering keeps exactly the entries whose extension differs from `n`. */
  lemma {:induction false} WithoutMembers(pool: seq<Format>, n: string)
    ensures forall f :: f in Without(pool, n) <==> f in pool && f.Ext() != n
  {
    if pool != [] {
      WithoutMembers(pool[1..], n);
      assert pool == [pool[0]] + pool[1..];
    }
  }

  /** No entry it keeps has the extension `n`. */
  lemma {:induction false} WithoutExcludes(pool: seq<Format>, n: string)
    ensures forall i :: 0 <= i < |Without(pool, n)| ==> Without(pool, n)[i].Ext() != n
  {
    if pool != [] {
      WithoutExcludes(pool[1..], n);
    }
  }

  /** A pool without the extension `n` passes through unchanged. */
  lemma {:induction false} WithoutUnchanged(pool: seq<Format>, n: string)
    requires forall i :: 0 <= i < |pool| ==> pool[i].Ext() != n
    ensures Without(pool, n) == pool
  {
    if pool != [] {
      WithoutUnchanged(pool[1..], n);
      assert pool == [pool[0]] + pool[1..];
    }
  }

  /** Filtering a non-empty pool: its first entry, kept or dropped, then
      the filtered rest. */
  lemma WithoutFirst(pool: seq<Format>, n: string)
    requires pool != []
    ensures Without(pool, n) == Without([pool[0]], n) + Without(pool[1..], n)
  {
    assert [pool[0]][1..] == [];
  }

  /** Filtering keeps declaration order: it distributes over concatenation. */
  lemma {:induction false} WithoutAppend(a: seq<Format>, b: seq<Format>, n: string)
    ensures Without(a + b, n) == Without(a, n) + Without(b, n)
  {
    if a == [] {
      assert a + b == b;
    } else {
      var head, tail := Without([a[0]], n), a[1..];
      assert (a + b)[0] == a[0];
      assert (a + b)[1..] == tail + b;
      calc {
        Without(a + b, n);
      == { WithoutFirst(a + b, n); }
        head + Without(tail + b, n);
      == { WithoutAppend(tail, b, n); }
        head + (Without(tail, n) + Without(b, n));
      ==
        (head + Without(tail, n)) + Without(b, n);
      == { WithoutFirst(a, n); }
        Without(a, n) + Without(b, n);
      }
    }
  }

  /** The `map(|(_, label)| label)` step. */
  function Labels(formats: seq<Format>): (r: seq<string>)
    ensures |r| == |formats|
    ensures forall i :: 0 <= i < |formats| ==> r[i] == formats[i].Display()
  {
    if formats == [] then [] else [formats[0].Display()] + Labels(formats[1..])
  }

  lemma LabelsContain(formats: seq<Format>)
    ensures forall f :: f in formats ==> f.Display() in Labels(formats)
  {
    forall f | f in formats
      ensures f.Display() in Labels(formats)
    {
      var i :| 0 <= i < |formats| && formats[i] == f;
      assert Labels(formats)[i] == f.Display();
    }
  }

  /** The label -> extension `match` that feeds the preview. */
  function LabelToExt(choice: string): (r: string)
    ensures r == "unknown" || r == "mp4" || r in ImageKinds
  {
    match choice
    case "PNG (lossless)" => "png"
    case "JPG (compressed)" => "jpg"
    case "WEBP (for web)" => "webp"
    case "AVIF (modern)" => "avif"
    case "MP4 (H.264)" => "mp4"
    case _ => "unknown"
  }

  /** `LabelToExt` undoes the pairing of label and extension in the pools,
      and knows no other label. */
  lemma LabelToExtInverts(choice: string)
    ensures forall f: Format :: LabelToExt(f.Display()) == f.Ext()
    ensures LabelToExt(choice) == "unknown" <==> forall f: Format :: f.Display() != choice
  {
    forall f: Format
      ensures LabelToExt(f.Display()) == f.Ext() != "unknown"
    {
    }
    match choice
    case "PNG (lossless)" => assert Png.Display() == choice;
    case "JPG (compressed)" => assert Jpg.Display() == choice;
    case "WEBP (for web)" => assert Webp.Display() == choice;
    case "AVIF (modern)" => assert Avif.Display() == choice;
    case "MP4 (H.264)" => assert Mp4.Display() == choice;
    case _ =>
  }

  /** `valid_outputs`, from the lower-cased extension `ext`: the labels of
      the pool of its kind without the input's own normalised format. */
  function Resolve(ext: string): (r: seq<string>)
    ensures |r| <= |Pool(Normalize(ext))|
    ensures Normalize(ext) !in ImageKinds ==> r == []
  {
    var n := Normalize(ext);
    Labels(Without(Pool(n), n))
  }

  /** The list never offers the input's own format. */
  lemma ResolveExcludesInput(ext: string)
    ensures forall i :: 0 <= i < |Resolve(ext)| ==> LabelToExt(Resolve(ext)[i]) != Normalize(ext)
  {
    var n := Normalize(ext);
    LabelToExtInverts("");
    WithoutExcludes(Pool(n), n);
  }

  /** Every other member of the pool is offered. */
  lemma ResolveOffersRest(ext: string)
    ensures forall f :: f in Pool(Normalize(ext)) && f.Ext() != Normalize(ext) ==> f.Display() in Resolve(ext)
  {
    var n := Normalize(ext);
    var rest := Without(Pool(n), n);
    assert Resolve(ext) == Labels(rest);
    WithoutMembers(Pool(n), n);
    LabelsContain(rest);
  }

  /** What the callback computes for a chosen file. */
  function ValidOutputs(p: InputPath): (r: seq<string>)
    ensures p.extension.None? ==> r == []
  {
    Resolve(ExtensionOf(p))
  }

  /** An image input yields its pool minus the entry at index `k` of its own
      format, order kept: exactly three labels. */
  lemma ResolveImage(ext: string, k: nat)
    requires k < |ImageOutputs| && ImageOutputs[k].Ext() == Normalize(ext)
    ensures Resolve(ext) == Labels(ImageOutputs[..k] + ImageOutputs[k + 1..])
    ensures |Resolve(ext)| == 3
  {
    var n := Normalize(ext);
    var rest := ImageOutputs[..k] + ImageOutputs[k + 1..];
    assert Pool(n) == ImageOutputs;
    if k == 0 {
      assert rest == [Jpg, Webp, Avif];
      assert Without(ImageOutputs, "png") == [Jpg, Webp, Avif];
    } else if k == 1 {
      assert rest == [Png, Webp, Avif];
      assert Without(ImageOutputs, "jpg") == [Png, Webp, Avif];
    } else if k == 2 {
      assert rest == [Png, Jpg, Avif];
      assert Without(ImageOutputs, "webp") == [Png, Jpg, Avif];
    } else {
      assert rest == [Png, Jpg, Webp];
      assert Without(ImageOutputs, "avif") == [Png, Jpg, Webp];
    }
  }

  /** Every recognised image input format yields exactly three labels. */
  lemma ImageInputsYieldThree(ext: string)
    requires Normalize(ext) in ImageKinds
    ensures |Resolve(ext)| == 3
  {
    var n := Normalize(ext);
    var k :| k in {0, 1, 2, 3} && ImageOutputs[k].Ext() == n;
    ResolveImage(ext, k);
  }

  /** Video inputs and unrecognised extensions offer nothing. */
  lemma VideoAndUnknownYieldNothing(ext: string)
    requires Normalize(ext) !in ImageKinds
    ensures Resolve(ext) == []
  {
  }

  lemma LabelsOfThree(a: Format, b: Format, c: Format)
    ensures Labels([a, b, c]) == [a.Display(), b.Display(), c.Display()]
  {
  }

  /** HEIC is resolved as JPEG is, and JPG is never offered for it. */
  lemma HeicResolvesAsJpeg()
    ensures Resolve("heic") == Resolve("jpg") == Resolve("jpeg")
    ensures Resolve("heic") == ["PNG (lossless)", "WEBP (for web)", "AVIF (modern)"]
  {
    ResolveImage("heic", 1);
    ResolveImage("jpg", 1);
    ResolveImage("jpeg", 1);
    assert ImageOutputs[..1] + ImageOutputs[2..] == [Png, Webp, Avif];
    LabelsOfThree(Png, Webp, Avif);
  }

  /** The case of the extension never matters: the callback sees the same
      list for `photo.JPG`, `photo.jpg` and `photo.Jpg`. */
  lemma ValidOutputsIgnoreCase(p: InputPath, e1: string, e2: string)
    requires p.extension == Some(e1) && Lower(e1) == Lower(e2)
    ensures ValidOutputs(p.(extension := Some(e2))) == ValidOutputs(p)
  {
  }

  /** In particular the lower- and upper-cased spellings of an extension. */
  lemma ValidOutputsOfCaseForms(p: InputPath, e: string)
    requires p.extension == Some(e)
    ensures ValidOutputs(p.(extension := Some(Lower(e)))) == ValidOutputs(p)
    ensures ValidOutputs(p.(extension := Some(Upper(e)))) == ValidOutputs(p)
  {
    LowerIdempotent(e);
    ValidOutputsIgnoreCase(p, e, Lower(e));
    LowerOfUpper(e);
    ValidOutputsIgnoreCase(p, e, Upper(e));
  }

  /** A file without an extension is treated as one with an empty extension. */
  lemma MissingExtensionIsEmpty(p: InputPath)
    requires p.extension.None?
    ensures ValidOutputs(p) == ValidOutputs(p.(extension := Some(""))) == []
  {
  }

  /** The extension shown in the preview: that of the first, default,
      choice, or "unknown" when nothing can be offered. */
  function PreviewExt(valid: seq<string>): (r: string)
    ensures valid == [] ==> r == "unknown"
  {
    if valid == [] then "unknown" else LabelToExt(valid[0])
  }

  /** The preview's file name and the label text. */
  function PreviewName(stem: Option<string>, valid: seq<string>): (r: string)
    ensures var s := stem.UnwrapOr("output");
            |r| == |s| + 11 + |PreviewExt(valid)| && r[..|s|] == s &&
            r[|s|..|s| + 11] == "_converted." && r[|s| + 11..] == PreviewExt(valid)
  {
    stem.UnwrapOr("output") + "_converted." + PreviewExt(valid)
  }

  function PreviewText(stem: Option<string>, valid: seq<string>): (r: string)
    ensures |r| == 13 + |PreviewName(stem, valid)|
    ensures r[..13] == "Will output: " && r[13..] == PreviewName(stem, valid)
  {
    "Will output: " + PreviewName(stem, valid)
  }

  /** The preview names the first entry left in the pool, which is never
      the input's own format; with an empty list it says "unknown". */
  lemma PreviewOfResolve(ext: string)
    ensures var n := Normalize(ext);
            var rest := Without(Pool(n), n);
            PreviewExt(Resolve(ext)) == if rest == [] then "unknown" else rest[0].Ext()
    ensures Resolve(ext) != [] ==> PreviewExt(Resolve(ext)) != Normalize(ext)
  {
    LabelToExtInverts("");
    var n := Normalize(ext);
    var rest := Without(Pool(n), n);
    if rest != [] {
      WithoutMembers(Pool(n), n);
      assert rest[0] in rest;
    }
  }

  const InitialPreview: string := "\U{1F4A1} Select a file to see output preview"

  /** The format selector (`ComboBoxText`): the labels it lists. */
  class Selector {
    var items: seq<string>

    constructor ()
      ensures items == []
    {
      items := [];
    }

    /** `remove_all`. */
    method RemoveAll()
      modifies this
      ensures items == []
    {
      items := [];
    }

    /** `append_text`. */
    method AppendText(text: string)
      modifies this
      ensures items == old(items) + [text]
    {
      items := items + [text];
    }
  }

  /** The values the file-chooser callback shares with the rest of the
      window: the stored input path, `format_map`, the format selector and
      the preview label's text. */
  class Chooser {
    var inputPath: Option<InputPath>
    var formatMap: seq<string>
    const selector: Selector
    var preview: string

    /** After any sequence of callbacks the selector lists `format_map`,
        which is the resolution of the stored file, and the preview matches. */
    ghost predicate Valid()
      reads this, selector
    {
      selector.items == formatMap &&
      match inputPath
      case None => formatMap == [] && preview == InitialPreview
      case Some(p) => formatMap == ValidOutputs(p) && preview == PreviewText(p.stem, formatMap)
    }

    constructor ()
      ensures Valid() && fresh(selector)
      ensures inputPath == None && formatMap == [] && selector.items == [] && preview == InitialPreview
    {
      inputPath := None;
      formatMap := [];
      selector := new Selector();
      preview := InitialPreview;
    }

    /** The dialog's response handler: only an accepted dialog with a local
        path changes anything. */
    method OnResponse(accepted: bool, file: Option<InputPath>)
      requires Valid()
      modifies this, selector
      ensures Valid()
      ensures accepted && file.Some? ==>
        inputPath == file && formatMap == ValidOutputs(file.value) &&
        selector.items == formatMap && preview == PreviewText(file.value.stem, formatMap)
      ensures !(accepted && file.Some?) ==> unchanged(this, selector)
    {
      if accepted && file.Some? {
        OnFileAccepted(file.value);
      }
    }

    /** Empties the selector and appends each label in turn. */
    method ShowChoices(labels: seq<string>)
      modifies selector
      ensures selector.items == labels
    {
      selector.RemoveAll();
      for i := 0 to |labels|
        modifies selector
        invariant selector.items == labels[..i]
      {
        selector.AppendText(labels[i]);
      }
      assert labels[..|labels|] == labels;
    }

    /** An accepted file: remember it, recompute and list the choices, and
        update the preview. */
    method OnFileAccepted(p: InputPath)
      modifies this, selector
      ensures Valid()
      ensures inputPath == Some(p)
      ensures formatMap == ValidOutputs(p)
      ensures selector.items == formatMap
      ensures preview == PreviewText(p.stem, formatMap)
    {
      inputPath := Some(p);
      var ext := ExtensionOf(p);
      var validOutputs := Resolve(ext);
      formatMap := validOutputs;
      ShowChoices(validOutputs);
      var stem := p.stem.UnwrapOr("output");
      var outExt := if validOutputs == [] then "unknown" else LabelToExt(validOutputs[0]);
      preview := "Will output: " + (stem + "_converted." + outExt);
    }
  }
}
