/** How the file-chooser callback and `convert_file` fit together: the two
    label tables agree, every label the selector offers is one
    `convert_file` accepts for that file, and the preview names the file
    that converting with the default choice would write. */
module Agreement {
  import opened Paths
  import Gui
  import Ffmpeg

  /** The preview's label -> extension table and `convert_file`'s label
      table agree on every label, and both know exactly the five labels of
      the two pools. */
  lemma LabelTablesAgree(choice: string)
    ensures Gui.LabelToExt(choice) ==
              if Ffmpeg.TargetFor(choice).Some? then Ffmpeg.TargetFor(choice).value.ext else "unknown"
    ensures forall f: Gui.Format ::
              Ffmpeg.TargetFor(f.Display()).Some? && Ffmpeg.TargetFor(f.Display()).value.ext == f.Ext()
  {
    forall f: Gui.Format
      ensures Ffmpeg.TargetFor(f.Display()).Some? && Ffmpeg.TargetFor(f.Display()).value.ext == f.Ext()
    {
    }
  }

  /** Every label the callback offers for a file passes `convert_file`'s
      checks for that file, and targets the extension the preview shows for
      it. This holds although `convert_file` compares the raw extension: the
      raw extensions that normalisation changes are never output formats. */
  lemma OfferedChoicesPassValidation(p: InputPath, i: nat)
    requires i < |Gui.ValidOutputs(p)|
    ensures Ffmpeg.Validate(p, Gui.ValidOutputs(p)[i]).Ok?
    ensures Ffmpeg.Validate(p, Gui.ValidOutputs(p)[i]).value.ext == Gui.LabelToExt(Gui.ValidOutputs(p)[i])
  {
    var e := ExtensionOf(p);
    var n := Gui.Normalize(e);
    var rest := Gui.Without(Gui.Pool(n), n);
    var f := rest[i];
    Gui.WithoutExcludes(Gui.Pool(n), n);
    assert Gui.ValidOutputs(p)[i] == f.Display();
    LabelTablesAgree(f.Display());
    Gui.NormalizeFixesOutputs(f);
    assert e != f.Ext();
  }

  /** The preview names the file `convert_file` writes for the default, first,
      choice. */
  lemma PreviewNamesDefaultOutput(p: InputPath)
    requires Gui.ValidOutputs(p) != []
    requires p.stem.Some? ==> '/' !in p.stem.value
    ensures Ffmpeg.Validate(p, Gui.ValidOutputs(p)[0]).Ok?
    ensures Gui.PreviewName(p.stem, Gui.ValidOutputs(p)) ==
              AfterLastSlash(Ffmpeg.OutputPath(p, Ffmpeg.Validate(p, Gui.ValidOutputs(p)[0]).value.ext))
  {
    var valid := Gui.ValidOutputs(p);
    OfferedChoicesPassValidation(p, 0);
    var ext := Ffmpeg.Validate(p, valid[0]).value.ext;
    var n := Gui.Normalize(ExtensionOf(p));
    var f := Gui.Without(Gui.Pool(n), n)[0];
    assert valid[0] == f.Display();
    LabelTablesAgree(f.Display());
    Gui.NormalizeFixesOutputs(f);
    Ffmpeg.OutputBesideInput(p, ext);
  }

  /** While a file is shown, everything the selector lists can be converted. */
  lemma SelectorListsConvertibleChoices(c: Gui.Chooser, i: nat)
    requires c.Valid() && c.inputPath.Some?
    requires i < |c.selector.items|
    ensures Ffmpeg.Validate(c.inputPath.value, c.selector.items[i]).Ok?
  {
    OfferedChoicesPassValidation(c.inputPath.value, i);
  }

  /** `convert_file` itself would accept a PNG to MP4 request; only the
      callback keeps it from being offered. */
  lemma CrossKindOnlyBlockedByChooser(p: InputPath)
    requires p.extension == Some("png")
    ensures "MP4 (H.264)" !in Gui.ValidOutputs(p)
    ensures Ffmpeg.Validate(p, "MP4 (H.264)").Ok?
  {
    assert ExtensionOf(p) == "png";
    Gui.ResolveImage("png", 0);
    Ffmpeg.KindNotChecked(p);
  }
}
