/** Extension dispatch and the size-budget choice of output encoding in
    `process_attachment`. The pixel work (PIL's `Image.open` and `save`,
    rawpy's demosaic) is not modelled; what is decided here is which path an
    attachment takes and which single `save` call produces the file that is
    sent. */
module Normalize {

  import opened Text

  /** `name.split('.')[-1]`: what follows the last '.', or all of `name`. */
  function AfterLastDot(name: string): (r: string)
    ensures |r| <= |name| && r == name[|name| - |r|..]
    ensures '.' !in r
    ensures |r| < |name| ==> name[|name| - |r| - 1] == '.'
  {
    if name == [] then []
    else if name[|name| - 1] == '.' then []
    else AfterLastDot(name[..|name| - 1]) + [name[|name| - 1]]
  }

  /** `filename.lower().split('.')[-1]`. */
  function Extension(filename: string): string {
    AfterLastDot(Lower(filename))
  }

  /** The two handled paths, and everything else. */
  datatype Kind = CompressedImage | RawContainer | Unsupported

  /** The path an extension selects. */
  function KindOf(ext: string): Kind {
    if ext in ["jpg", "jpeg", "png"] then CompressedImage
    else if ext in ["cr2"] then RawContainer
    else Unsupported
  }

  function Classify(filename: string): Kind {
    KindOf(Extension(filename))
  }

  /** The format PIL reports for a decoded image (`img.format`). */
  datatype Format = Jpeg | Png | OtherFormat(name: string)

  /** `quality=` passed to `save`, or PIL's own default when none is. */
  datatype Quality = DefaultQuality | Level(level: nat)

  /** One `save` call and the name the file is sent under. */
  datatype Encoding = Encoding(format: Format, quality: Quality, filename: string)

  /** The size budget, the lossy quality, and the embed's footer and colour. */
  datatype Config = Config(budget: nat, quality: nat, footer: string, color: nat)

  /** The values the bot runs with: 8 MiB, quality 85, and the defaults of
      `EMBED_FOOTER` and `EMBED_COLOR` ("#FFB6C1"). */
  const Reference: Config := Config(8 * 1024 * 1024, 85, "Photography Bot", 0xFFB6C1)

  /** The encoding on the compressed-image path (lines 90-97): over the
      budget one lossy `save` at the configured quality, otherwise a `save` in
      the format PIL decoded (`source`); the name is always the original one,
      even for a PNG re-encoded as JPEG. */
  function CompressedEncoding(source: Format, size: nat, filename: string, cfg: Config): (e: Encoding)
    ensures e.filename == filename
    ensures e.quality.Level? <==> size > cfg.budget
    ensures size > cfg.budget ==> e.format == Jpeg && e.quality == Level(cfg.quality)
    ensures size <= cfg.budget ==> e.format == source
  {
    if size > cfg.budget then Encoding(Jpeg, Level(cfg.quality), filename)
    else Encoding(source, DefaultQuality, filename)
  }

  /** The encoding on the RAW path (lines 106-116): over the budget one lossy
      `save` as "converted.jpg", otherwise a PNG as "converted.png". */
  function RawEncoding(size: nat, cfg: Config): (e: Encoding)
    ensures e.quality.Level? <==> size > cfg.budget
    ensures size > cfg.budget ==> e.format == Jpeg && e.quality == Level(cfg.quality)
    ensures size <= cfg.budget ==> e.format == Png
    ensures e.filename == if e.format == Jpeg then "converted.jpg" else "converted.png"
  {
    if size > cfg.budget then Encoding(Jpeg, Level(cfg.quality), "converted.jpg")
    else Encoding(Png, DefaultQuality, "converted.png")
  }

  /** The bot's own policy: a file over 8 MiB (8388608 bytes) is saved once as
      JPEG at quality 85, under its own name on the compressed path and as
      "converted.jpg" on the RAW path; a smaller one keeps its format, or
      becomes "converted.png". */
  lemma ReferencePolicy(source: Format, size: nat, filename: string)
    ensures size > 8388608 ==>
      && CompressedEncoding(source, size, filename, Reference) == Encoding(Jpeg, Level(85), filename)
      && RawEncoding(size, Reference) == Encoding(Jpeg, Level(85), "converted.jpg")
    ensures size <= 8388608 ==>
      && CompressedEncoding(source, size, filename, Reference) == Encoding(source, DefaultQuality, filename)
      && RawEncoding(size, Reference) == Encoding(Png, DefaultQuality, "converted.png")
  {
  }

  /** `image_ref`: the embed's image points at the file that is sent. */
  function ImageRef(e: Encoding): string {
    "attachment://" + e.filename
  }

  /** The extension is the text after the last '.', lower-cased; a name with
      no '.' is its own extension. */
  lemma ExtensionIsLastSegment(stem: string, ext: string)
    requires '.' !in ext
    ensures Extension(stem + "." + ext) == Lower(ext)
    ensures '.' !in stem ==> Extension(stem) == Lower(stem)
  {
    LowerAppend(stem + ".", ext);
    LowerAppend(stem, ".");
    assert Lower(".") == "." by { assert LowerChar('.') == '.'; }
    assert '.' !in Lower(ext);
    LastSegmentOf(Lower(stem), Lower(ext));
    NoDotIsWhole(Lower(stem));
  }

  lemma {:induction false} LastSegmentOf(stem: string, ext: string)
    requires '.' !in ext
    ensures AfterLastDot(stem + "." + ext) == ext
    decreases |ext|
  {
    var name := stem + "." + ext;
    if ext == [] {
      assert name[|name| - 1] == '.';
    } else {
      assert name[..|name| - 1] == stem + "." + ext[..|ext| - 1];
      LastSegmentOf(stem, ext[..|ext| - 1]);
      assert ext == ext[..|ext| - 1] + [ext[|ext| - 1]];
    }
  }

  lemma {:induction false} NoDotIsWhole(name: string)
    ensures '.' !in name ==> AfterLastDot(name) == name
  {
    if name != [] && '.' !in name {
      NoDotIsWhole(name[..|name| - 1]);
      assert name == name[..|name| - 1] + [name[|name| - 1]];
    }
  }

  /** `ExtensionIsLastSegment` for a name given whole. */
  lemma ExtensionOf(name: string, stem: string, ext: string, lowered: string)
    requires name == stem + "." + ext && '.' !in ext && Lower(ext) == lowered
    ensures Extension(name) == lowered
  {
    ExtensionIsLastSegment(stem, ext);
  }

  lemma LowerKeeps(s: string)
    requires forall k :: 0 <= k < |s| ==> !('A' <= s[k] <= 'Z')
    ensures Lower(s) == s
  {
  }

  /** The case of the extension does not matter: `A.JPG` is an image. */
  lemma UpperCaseExtension(stem: string)
    ensures Classify(stem + ".JPG") == CompressedImage
  {
    JpegExtension(stem);
    ByExtension(stem + ".JPG", "jpg", CompressedImage);
  }

  lemma JpegExtension(stem: string) ensures Extension(stem + ".JPG") == "jpg" {
    assert Lower("JPG") == "jpg" by {
      assert LowerChar('J') == 'j' && LowerChar('P') == 'p' && LowerChar('G') == 'g';
    }
    DottedExtension(stem, "JPG", ".JPG", "jpg");
  }

  /** Only the last segment counts: `photo.jpg.cr2` is a RAW file. */
  lemma LastSegmentDecides(stem: string)
    ensures Classify(stem + ".cr2") == RawContainer
  {
    RawExtension(stem);
    ByExtension(stem + ".cr2", "cr2", RawContainer);
  }

  lemma RawExtension(stem: string) ensures Extension(stem + ".cr2") == "cr2" {
    RawLowered();
    DottedExtension(stem, "cr2", ".cr2", "cr2");
  }

  lemma RawLowered() ensures Lower("cr2") == "cr2" {
    LowerKeeps("cr2");
  }

  /** Any other extension is refused: `clip.mov` is skipped. */
  lemma OtherExtensionRefused(stem: string)
    ensures Classify(stem + ".mov") == Unsupported
  {
    MovieExtension(stem);
    ByExtension(stem + ".mov", "mov", Unsupported);
  }

  lemma MovieExtension(stem: string) ensures Extension(stem + ".mov") == "mov" {
    MovieLowered();
    DottedExtension(stem, "mov", ".mov", "mov");
  }

  lemma MovieLowered() ensures Lower("mov") == "mov" {
    LowerKeeps("mov");
  }

  /** A name's path is the one its extension selects. */
  lemma ByExtension(name: string, ext: string, k: Kind)
    requires Extension(name) == ext && KindOf(ext) == k
    ensures Classify(name) == k
  {
  }

  lemma DottedExtension(stem: string, ext: string, dotted: string, lowered: string)
    requires dotted == "." + ext && '.' !in ext && Lower(ext) == lowered
    ensures Extension(stem + dotted) == lowered
  {
    Regroup(stem, ext, dotted);
    ExtensionOf(stem + dotted, stem, ext, lowered);
  }

  lemma Regroup(stem: string, ext: string, dotted: string)
    requires dotted == "." + ext
    ensures stem + dotted == stem + "." + ext
  {
  }

  /** A name with no '.' is its own extension: "photo" is refused, but a file
      named just "png" takes the compressed-image path. */
  lemma DotlessNames()
    ensures Classify("photo") == Unsupported
    ensures Classify("png") == CompressedImage
  {
    DotlessPhoto();
    DotlessPng();
  }

  lemma DotlessPhoto() ensures Extension("photo") == "photo" {
    LowerKeeps("photo");
    ExtensionIsLastSegment("photo", "");
  }

  lemma DotlessPng() ensures Extension("png") == "png" {
    LowerKeeps("png");
    ExtensionIsLastSegment("png", "");
  }
}
