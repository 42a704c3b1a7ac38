# mediaConverter: format resolution and `convert_file`, in Dafny

mediaConverter is a small GTK 4 desktop front end to `ffmpeg`. The user picks
a media file. The window then lists the output formats that make sense for it:
the other image formats for an image, nothing for a video or an unknown
file. It also previews the name of the file a conversion would write.
A conversion runs `ffmpeg -y -i <input> [codec args] <stem>_converted.<ext>`
next to the input.

This project models two parts of the program and proves properties of them:

- `paths.dfy` (module `Paths`): the parts of `std::path` and `str` both parts
  use. A chosen path is given by its components, as `parent()`, `file_stem()`
  and `extension()` report them. It also holds ASCII lower-casing and joining
  a directory with a file name.
- `gui.dfy` (module `Gui`): the response handler of the file dialog in
  `build_ui`. This covers:
  - `ext_map` normalisation;
  - the image and video output pools;
  - dropping the input's own format;
  - the label list;
  - the "Will output" preview.

  The handler's shared state (stored path, `format_map`, format selector,
  preview text) is a `Chooser` class. Its methods keep the invariant that the
  selector lists exactly the resolution of the stored file.
- `ffmpeg.dfy` (module `Ffmpeg`): `convert_file`. This covers:
  - the label table and the codec arguments;
  - the unsupported-label and same-format rejections;
  - the output path and the argument vector;
  - classifying what the run reports.

  Running `ffmpeg` is a function parameter. The method returns the argument
  vector it handed over.
- `agreement.dfy` (module `Agreement`): how the two fit together:
  - the two label tables agree;
  - every label the selector offers passes `convert_file`'s checks;
  - the preview names the file that converting with the default choice writes.

`convert_file` checks only the label table and the extension, not the media
kind. A PNG input with "MP4 (H.264)" passes its checks
(`Ffmpeg.KindNotChecked`). Only the pools in `build_ui` keep that target from
being offered (`Agreement.CrossKindOnlyBlockedByChooser`).

## Model

| member | source | states |
|---|---|---|
| Paths.ExtensionOf | src/gui.rs:92 | the compared extension is `""` when the path has none; otherwise it has the raw extension's length and each character is the raw one lower-cased, so it is lower-case |
| Paths.Lower | src/gui.rs:92 | `to_lowercase` keeps the length and lower-cases each character's ASCII letter |
| Paths.LowerIsLowerCase | src/gui.rs:92 | lower-casing yields a lower-case string, and leaves a string unchanged exactly when it is already lower-case |
| Paths.LowerIdempotent | src/gui.rs:92 | lower-casing twice is lower-casing once |
| Paths.LowerOfUpper | src/gui.rs:92 | lower-casing an upper-cased extension gives the lower-cased original |
| Paths.Join | src/ffmpeg.rs:23 | `parent.join(name)` is the directory then the name, with one `/` between them exactly when the directory is non-empty and does not already end in `/` |
| Paths.AfterLastSlash | src/ffmpeg.rs:23 | the last component of a path; `AfterLastSlashIsComponent`, `AfterLastSlashAppend` and `JoinKeepsName` state what it is |
| Paths.AfterLastSlashIsComponent | src/ffmpeg.rs:23 | the last component is a suffix of the path, holds no `/`, and is preceded by a `/` unless it is the whole path |
| Paths.AfterLastSlashAppend | src/ffmpeg.rs:23 | appending a separator-free name extends the last path component by exactly that name |
| Paths.JoinKeepsName | src/ffmpeg.rs:23 | a separator-free name joined to any directory is the last component of the result |
| Gui.Normalize | src/gui.rs:94-102 | `ext_map`: "jpg" exactly for jpg/jpeg/heic, "mp4" exactly for mp4/mov/avi/webm, png/webp/avif map to themselves, `""` exactly for the unrecognised |
| Gui.NormalizeIdempotent | src/gui.rs:94-102 | normal forms are fixed points of `ext_map` |
| Gui.NormalizeFixesOutputs | src/gui.rs:106-114 | every pool entry's extension is its own normal form and holds no separator |
| Gui.Pool | src/gui.rs:106-120 | the image pool exactly for the four image kinds, the video pool exactly for mp4, the empty pool otherwise |
| Gui.Without | src/gui.rs:124 | the filter never lengthens the pool; `WithoutMembers`, `WithoutExcludes`, `WithoutUnchanged` and `WithoutAppend` state which entries it keeps and in what order |
| Gui.WithoutMembers | src/gui.rs:122-124 | the filter keeps exactly the pool entries whose extension differs from the input's |
| Gui.WithoutExcludes | src/gui.rs:122-124 | no kept entry has the input's normalised extension |
| Gui.WithoutUnchanged | src/gui.rs:122-124 | a pool without the input's extension passes the filter unchanged |
| Gui.WithoutAppend | src/gui.rs:122-124 | the filter keeps declaration order: it distributes over concatenation |
| Gui.Labels | src/gui.rs:125-126 | the label list has one entry per kept format, in order, each its display label |
| Gui.LabelsContain | src/gui.rs:125-126 | every kept format's label is in the list |
| Gui.LabelToExt | src/gui.rs:136-143 | the preview's label table yields an image kind, "mp4" or "unknown"; `LabelToExtInverts` states which label gives which |
| Gui.LabelToExtInverts | src/gui.rs:136-143 | the preview's label table maps each pool label back to its extension, and gives "unknown" exactly for a label of no format |
| Gui.Resolve | src/gui.rs:104-126 | `valid_outputs` from the lower-cased extension is no longer than the input's pool, and empty for anything that does not normalise to an image kind; `ResolveExcludesInput`, `ResolveOffersRest` and `ResolveImage` give its contents |
| Gui.ResolveExcludesInput | src/gui.rs:104-126 | `valid_outputs` never offers the input's own normalised format |
| Gui.ResolveOffersRest | src/gui.rs:104-126 | `valid_outputs` offers every other format of the input's pool |
| Gui.ResolveImage | src/gui.rs:104-126 | an image input gets the image pool minus its own entry, in order: three labels |
| Gui.ImageInputsYieldThree | src/gui.rs:104-126 | every recognised image input yields exactly three labels |
| Gui.VideoAndUnknownYieldNothing | src/gui.rs:116-120 | video inputs and unrecognised extensions are offered nothing |
| Gui.HeicResolvesAsJpeg | src/gui.rs:95-99 | HEIC resolves as JPG and JPEG do: PNG, WEBP, AVIF in that order |
| Gui.ValidOutputs | src/gui.rs:92-126 | the list the callback computes for a chosen file; empty when the file has no extension; `ValidOutputsIgnoreCase` and the `Resolve` lemmas state the rest |
| Gui.ValidOutputsIgnoreCase | src/gui.rs:92 | two extensions that lower-case alike, such as `JPG` and `Jpg`, give the same list |
| Gui.ValidOutputsOfCaseForms | src/gui.rs:92 | in particular an extension, its lower-cased and its upper-cased spelling give the same list |
| Gui.MissingExtensionIsEmpty | src/gui.rs:92 | a file without an extension is treated as one with an empty extension and gets an empty list |
| Gui.PreviewExt | src/gui.rs:136-143 | the preview says "unknown" when no output is offered |
| Gui.PreviewName | src/gui.rs:135-144 | the previewed name is the stem, or "output" without one, then `_converted.`, then the preview extension |
| Gui.PreviewText | src/gui.rs:144 | the preview text is `Will output: ` followed by the previewed name |
| Gui.PreviewOfResolve | src/gui.rs:135-144 | the preview names the first remaining pool entry's extension, never the input's own; "unknown" for an empty list |
| Gui.Selector.constructor | src/gui.rs:29 | a fresh format selector lists nothing |
| Gui.Selector.RemoveAll | src/gui.rs:129 | `remove_all` empties the selector |
| Gui.Selector.AppendText | src/gui.rs:131 | `append_text` appends one label at the end |
| Gui.Chooser.constructor | src/gui.rs:28-55 | before any file is chosen nothing is stored or listed and the preview shows its placeholder |
| Gui.Chooser.OnResponse | src/gui.rs:86-148 | only an accepted dialog with a local path changes the state; the invariant is kept either way |
| Gui.Chooser.ShowChoices | src/gui.rs:129-132 | after clearing and appending in turn the selector lists exactly the given labels |
| Gui.Chooser.OnFileAccepted | src/gui.rs:88-144 | the stored path, `format_map`, the selector and the preview all reflect the chosen file; the invariant holds |
| Ffmpeg.TargetFor | src/ffmpeg.rs:9-16 | the label table knows exactly the five labels |
| Ffmpeg.CodecArguments | src/ffmpeg.rs:9-16 | only MP4 and AVIF add codec arguments: `-c:v libx264` and `-c:v libaom-av1` |
| Ffmpeg.Validate | src/ffmpeg.rs:5-20 | an unknown label is refused as unsupported; a target equal to the lower-cased extension is refused as the same format; otherwise the label's target is accepted |
| Ffmpeg.OutputName | src/ffmpeg.rs:6-23 | the output file name is the stem, or "output" without one, then `_converted.`, then the target extension |
| Ffmpeg.OutputPath | src/ffmpeg.rs:7-23 | the output path is the parent joined with the output name: one `/` between them exactly when the parent is non-empty and does not end in `/`, so a bare file name gives the name alone and a missing parent gives `./<name>` |
| Ffmpeg.OutputBesideInput | src/ffmpeg.rs:6-23 | the output lies in the input's directory (or ".") under exactly `<stem>_converted.<ext>`; for a bare file name it is that name alone, beside the input |
| Ffmpeg.Classify | src/ffmpeg.rs:30-34 | success gives the output path; a failed run carries its standard error; a failed spawn carries the system error |
| Ffmpeg.ClassifyDistinguishes | src/ffmpeg.rs:30-34 | different outcomes give different results, and a run never yields either rejection |
| Ffmpeg.IsCommandLine | src/ffmpeg.rs:26-28 | the argument vector is `-y`, `-i`, the input, the codec arguments, then the output; `ConvertFile` ensures the vector it hands over is one |
| Ffmpeg.ConvertFile | src/ffmpeg.rs:4-35 | nothing is run exactly when validation fails, and its error is returned; otherwise the argument vector is `-y -i input`, the codec arguments, then the output, and the result classifies the run |
| Ffmpeg.RawExtensionCompared | src/ffmpeg.rs:5-20 | the raw extension is compared: JPEG to JPG and MOV to MP4 pass, an upper-case PNG to PNG is refused |
| Ffmpeg.KindNotChecked | src/ffmpeg.rs:9-20 | a PNG input passes validation for an MP4 target |
| Ffmpeg.HeicToPngAccepted | src/ffmpeg.rs:9-20 | PNG chosen for a HEIC input passes validation with no codec arguments |
| Ffmpeg.HeicToPngOutput | src/ffmpeg.rs:23 | `/tmp/photo.heic` converts to `/tmp/photo_converted.png` |
| Agreement.LabelTablesAgree | src/ffmpeg.rs:9-16 | the preview's label table (src/gui.rs:136-143) and `convert_file`'s agree on every label and know every pool label |
| Agreement.OfferedChoicesPassValidation | src/gui.rs:122-126 | every label offered for a file passes `convert_file`'s checks (src/ffmpeg.rs:9-20) and targets the extension the preview table gives it |
| Agreement.PreviewNamesDefaultOutput | src/gui.rs:135-144 | the preview's name is the last component of the path `convert_file` writes (src/ffmpeg.rs:23) for the first choice |
| Agreement.SelectorListsConvertibleChoices | src/gui.rs:128-132 | while a file is shown, every label the selector lists can be converted |
| Agreement.CrossKindOnlyBlockedByChooser | src/gui.rs:116-120 | an MP4 target is not offered for a PNG input, although `convert_file` would accept it |

## Left out

- The GTK window, its widgets and layout, `main.rs` and the C entry point are not modelled. They are I/O.
- The file dialog's own behaviour is not modelled: showing it, applying the pattern filter (src/gui.rs:73-78), and `dialog.close()`. Only its response is.
- `input_label.set_text` (src/gui.rs:89) is not modelled. It is display text only.
- `format_selector.set_active(Some(0))` (src/gui.rs:133) is not modelled. The model has no notion of a selected entry, and "first" is index 0 of the list.
- `Rc<RefCell<..>>` sharing is not modelled. The shared values are fields of one `Chooser` object.
- The convert button has no handler in the source (src/gui.rs:154-155). Nothing connects the selector to `convert_file`, so the model relates the two only by lemmas.
- `std::path` parsing is not modelled. A chosen path is given by its components and its lossy text, and `Join` treats `/` as the only separator. The parent is the lossy text of `parent()`, because `convert_file` never passes it through `to_str` (src/ffmpeg.rs:7, 23-24); it is `None` only when `parent()` is, for a root or an empty path. A stem or extension that is not valid UTF-8 is `None`, as `to_str` makes it.
- Paths.Lower: lower-cases ASCII letters only, while Rust's `to_lowercase` covers all of Unicode. A non-ASCII letter still yields a non-ASCII result, except the Kelvin sign, which becomes `k`, and U+0130, which becomes `i` plus a combining dot. Neither produces a recognised extension, so the resolved list and the same-format check are unaffected; the lower-cased text itself can differ.
- `String::from_utf8_lossy` of standard error is not modelled. The model takes the decoded text as given.
- Ffmpeg.ConvertFile: running `ffmpeg` is a function parameter. Exit status, spawning and the files it writes are left out.
