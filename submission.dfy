/** The rest of `process_attachment`: the override merge, the embed's field
    list, and the whole per-attachment pipeline with the decoding libraries
    and the chat platform left outside. */
module Submission {

  import opened Wrappers
  import opened Exif
  import opened Overrides
  import opened Normalize
  import Text

  // ---------------------------------------------------------------- merge

  /** The record after the loop of lines 123-125 has visited `fields`: each
      visited field whose key is in `manual` takes the override. */
  function OverrideFields(rec: Record, manual: map<string, string>, fields: seq<Field>): Record {
    if fields == [] then rec
    else
      var f := fields[|fields| - 1];
      var r := OverrideFields(rec, manual, fields[..|fields| - 1]);
      if KeyOf(f) in manual then r.With(f, manual[KeyOf(f)]) else r
  }

  /** The record once all four fields have been visited. */
  function Overridden(rec: Record, manual: map<string, string>): Record {
    OverrideFields(rec, manual, FieldOrder)
  }

  lemma {:induction false} OverrideFieldsAt(rec: Record, manual: map<string, string>, fields: seq<Field>, f: Field)
    ensures OverrideFields(rec, manual, fields).Get(f)
      == if f in fields && KeyOf(f) in manual then manual[KeyOf(f)] else rec.Get(f)
  {
    if fields != [] {
      var init := fields[..|fields| - 1];
      OverrideFieldsAt(rec, manual, init, f);
      assert f in fields <==> f in init || f == fields[|fields| - 1];
    }
  }

  /** Each field takes the override stored under its key, unconditionally,
      and keeps the extracted value when there is none. */
  lemma OverriddenField(rec: Record, manual: map<string, string>, f: Field)
    ensures Overridden(rec, manual).Get(f) == if KeyOf(f) in manual then manual[KeyOf(f)] else rec.Get(f)
  {
    OverrideFieldsAt(rec, manual, FieldOrder, f);
  }

  lemma RecordsEqual(a: Record, b: Record)
    requires forall f :: a.Get(f) == b.Get(f)
    ensures a == b
  {
    assert a.Get(CameraModel) == b.Get(CameraModel) && a.Get(Iso) == b.Get(Iso);
    assert a.Get(Aperture) == b.Get(Aperture) && a.Get(ShutterSpeed) == b.Get(ShutterSpeed);
  }

  /** The loop of lines 123-125. */
  method MergeOverrides(exif: Record, manual: map<string, string>) returns (merged: Record)
    ensures merged == Overridden(exif, manual)
    ensures forall f :: merged.Get(f) == if KeyOf(f) in manual then manual[KeyOf(f)] else exif.Get(f)
  {
    merged := exif;
    for i := 0 to |FieldOrder|
      invariant merged == OverrideFields(exif, manual, FieldOrder[..i])
    {
      assert FieldOrder[..i + 1][..i] == FieldOrder[..i];
      var field := FieldOrder[i];
      if KeyOf(field) in manual {
        merged := merged.With(field, manual[KeyOf(field)]);
      }
    }
    assert FieldOrder[..|FieldOrder|] == FieldOrder;
    forall f ensures merged.Get(f) == if KeyOf(f) in manual then manual[KeyOf(f)] else exif.Get(f) {
      OverriddenField(exif, manual, f);
    }
  }

  /** A note never reaches the record: only the four field keys are read. */
  lemma NoteNotMerged(rec: Record, manual: map<string, string>)
    ensures Overridden(rec, manual) == Overridden(rec, manual - {"Note"})
  {
    forall f ensures Overridden(rec, manual).Get(f) == Overridden(rec, manual - {"Note"}).Get(f) {
      OverriddenField(rec, manual, f);
      OverriddenField(rec, manual - {"Note"}, f);
    }
    RecordsEqual(Overridden(rec, manual), Overridden(rec, manual - {"Note"}));
  }

  /** The parser stores "Iso" and the merge looks for "ISO": whatever the
      message says, the extracted ISO is kept. */
  lemma IsoOverrideNeverApplied(rec: Record, content: string)
    ensures Overridden(rec, ManualFields(content)).iso == rec.iso
  {
    NoUpperCaseIsoKey(content);
    OverriddenField(rec, ManualFields(content), Iso);
  }

  /** For every field the last line of the message that stores under the
      field's key sets it; with no such line the extracted value is kept. For
      ISO no line ever does, since the parser stores "Iso", not "ISO". */
  lemma LastOverrideLineSetsField(rec: Record, content: string, f: Field)
    ensures var lines := Text.SplitLines(content);
      var i := LastDefinition(lines, KeyOf(f));
      Overridden(rec, ManualFields(content)).Get(f)
        == if i >= 0 then Entry(lines[i]).value.1 else rec.Get(f)
  {
    var lines := Text.SplitLines(content);
    LastLineWins(lines, KeyOf(f));
    OverriddenField(rec, ManualFields(content), f);
    NoUpperCaseIsoKey(content);
  }

  // ---------------------------------------------------------------- fields

  /** One `embed.add_field(name=..., value=..., inline=...)`. */
  datatype EmbedField = EmbedField(name: string, value: string, inline: bool)

  const NoteName: string := "\U{1F4DD} Note"
  const DownloadName: string := "\U{1F4E5} Download Original"

  /** `v and v != "Unknown"`: the test a metadata value must pass to be shown. */
  predicate Shown(v: string) {
    v != "" && v != Unknown
  }

  /** The inline fields lines 135-137 add for `items`, in their order. */
  function MetadataFields(items: seq<(string, string)>): seq<EmbedField> {
    if items == [] then []
    else
      var (k, v) := items[|items| - 1];
      MetadataFields(items[..|items| - 1]) + (if Shown(v) then [EmbedField(k, v, true)] else [])
  }

  /** The note field of lines 138-139: only for a non-empty note. */
  function NoteFields(note: Option<string>): seq<EmbedField> {
    if note.Some? && note.value != "" then [EmbedField(NoteName, note.value, false)] else []
  }

  /** The last field, line 140: a Markdown link to the original upload. */
  function DownloadField(url: string): EmbedField {
    EmbedField(DownloadName, "[Click Here](" + url + ")", false)
  }

  /** The whole field list of the embed. */
  function RenderedFields(rec: Record, note: Option<string>, url: string): seq<EmbedField> {
    MetadataFields(rec.Items()) + NoteFields(note) + [DownloadField(url)]
  }

  /** Lines 135-140: the fields added one `add_field` call at a time. */
  method BuildFields(rec: Record, note: Option<string>, url: string) returns (fields: seq<EmbedField>)
    ensures fields == RenderedFields(rec, note, url)
  {
    var items := rec.Items();
    fields := [];
    for i := 0 to |items|
      invariant fields == MetadataFields(items[..i])
    {
      assert items[..i + 1][..i] == items[..i];
      var (k, v) := items[i];
      if v != "" && v != "Unknown" {
        fields := fields + [EmbedField(k, v, true)];
      }
    }
    assert items[..|items|] == items;
    if note.Some? && note.value != "" {
      fields := fields + [EmbedField(NoteName, note.value, false)];
    }
    fields := fields + [EmbedField(DownloadName, "[Click Here](" + url + ")", false)];
  }

  /** The shown fields are exactly the items that pass `Shown`, inline. */
  lemma {:induction false} MetadataFieldsMembers(items: seq<(string, string)>, e: EmbedField)
    ensures e in MetadataFields(items) <==>
      e.inline && Shown(e.value) && (e.name, e.value) in items
  {
    if items != [] {
      var init := items[..|items| - 1];
      MetadataFieldsMembers(init, e);
      assert items == init + [items[|items| - 1]];
      assert (e.name, e.value) in items <==> (e.name, e.value) in init || (e.name, e.value) == items[|items| - 1];
    }
  }

  lemma MetadataFieldsInline(items: seq<(string, string)>)
    ensures forall e :: e in MetadataFields(items) ==> e.inline
  {
    forall e | e in MetadataFields(items) ensures e.inline {
      MetadataFieldsMembers(items, e);
    }
  }

  /** The metadata fields keep the items' order: those of an earlier part of
      the record come before those of a later part. */
  lemma {:induction false} MetadataFieldsSplit(a: seq<(string, string)>, b: seq<(string, string)>)
    ensures MetadataFields(a + b) == MetadataFields(a) + MetadataFields(b)
    decreases |b|
  {
    if b == [] {
      assert a + b == a;
    } else {
      var init := b[..|b| - 1];
      MetadataFieldsSplit(a, init);
      assert (a + b)[..|a + b| - 1] == a + init;
      assert (a + b)[|a + b| - 1] == b[|b| - 1];
    }
  }

  /** When every value passes `Shown`, each item becomes one inline field, in
      the items' order. */
  lemma {:induction false} AllShownInOrder(items: seq<(string, string)>)
    requires forall i :: 0 <= i < |items| ==> Shown(items[i].1)
    ensures |MetadataFields(items)| == |items|
    ensures forall i :: 0 <= i < |items| ==> MetadataFields(items)[i] == EmbedField(items[i].0, items[i].1, true)
  {
    if items != [] {
      var init := items[..|items| - 1];
      AllShownInOrder(init);
    }
  }

  /** A field is listed, under its key and with its value, exactly when its
      final value is neither empty nor "Unknown"; no listed metadata value is
      ever empty or "Unknown". */
  lemma FieldShownIffKnown(rec: Record, note: Option<string>, url: string, f: Field)
    ensures EmbedField(KeyOf(f), rec.Get(f), true) in RenderedFields(rec, note, url) <==> Shown(rec.Get(f))
    ensures forall e :: e in RenderedFields(rec, note, url) && e.inline ==> Shown(e.value)
  {
    var items := rec.Items();
    var e := EmbedField(KeyOf(f), rec.Get(f), true);
    MetadataFieldsMembers(items, e);
    assert f == FieldOrder[0] || f == FieldOrder[1] || f == FieldOrder[2] || f == FieldOrder[3];
    assert (KeyOf(f), rec.Get(f)) in items;
    forall e' | e' in RenderedFields(rec, note, url) && e'.inline ensures Shown(e'.value) {
      MetadataFieldsMembers(items, e');
    }
  }

  /** The note is listed, after the metadata, exactly when it is non-empty,
      and the download link is always the last field, with the URL verbatim. */
  lemma NoteAndDownloadFields(rec: Record, note: Option<string>, url: string)
    ensures var r := RenderedFields(rec, note, url);
      && |r| >= 1
      && r[|r| - 1] == EmbedField(DownloadName, "[Click Here](" + url + ")", false)
      && ((exists e :: e in r && e.name == NoteName) <==> note.Some? && note.value != "")
      && (note.Some? && note.value != "" ==> r[|r| - 2] == EmbedField(NoteName, note.value, false))
  {
    var r := RenderedFields(rec, note, url);
    var meta := MetadataFields(rec.Items());
    forall e | e in meta ensures e.name != NoteName {
      MetadataFieldsMembers(rec.Items(), e);
    }
    if exists e :: e in r && e.name == NoteName {
      var e :| e in r && e.name == NoteName;
      assert e !in meta;
      assert e != DownloadField(url);
    }
  }

  // ------------------------------------------------------------- pipeline

  /** The parts of the attachment the bot reads: its name, its public URL and
      the length of its bytes. */
  datatype Attachment = Attachment(filename: string, url: string, size: nat)

  /** What the libraries report for the attachment's bytes: PIL's
      `Image.open` (with the format it detects), piexif's `load` of the EXIF
      block, exifread's tag table, whether rawpy's demosaic succeeds, and
      whether PIL's `save` succeeds for a given encoding (it can raise, for
      instance on an RGBA image saved as JPEG, or on pixel data that only
      turns out to be truncated when the lazy decode runs). */
  datatype Decoders = Decoders(
    image: Decoded<Format>,
    exif: Decoded<ExifDict>,
    rawTags: Decoded<RawTags>,
    rawDecodes: bool,
    saves: Encoding -> bool)

  /** The embed as lines 128-141 build it. */
  datatype Embed = Embed(
    title: string,
    description: string,
    color: nat,
    imageUrl: string,
    fields: seq<EmbedField>,
    footer: string)

  const SubmissionTitle: string := "\U{1F4F8} New Photo Submission"

  function Description(mention: string): string {
    "Uploaded by " + mention + " \U{1F43E}"
  }

  /** `(None, None)` for an unsupported file; an exception escaping the
      image decode or the `save`; or the embed and the file to send. */
  datatype Outcome = Skipped | Raised | Posted(embed: Embed, file: Encoding)

  /** The record `extract_exif_jpeg` or `extract_exif_cr2` gives: the JPEG
      extractor fails as soon as PIL cannot open the image. */
  function ExtractedRecord(kind: Kind, lib: Decoders): Record {
    if kind == CompressedImage then ExtractJpeg(if lib.image.Failed? then Failed else lib.exif)
    else ExtractCr2(lib.rawTags)
  }

  /** `manual.get("Note")`. */
  function NoteOf(manual: map<string, string>): Option<string> {
    if "Note" in manual then Some(manual["Note"]) else None
  }

  /** `process_attachment`: dispatch on the extension, extract, convert,
      merge the overrides and build the embed. */
  method ProcessAttachment(att: Attachment, content: string, mention: string, lib: Decoders, cfg: Config)
    returns (out: Outcome)
    ensures Classify(att.filename) == Unsupported <==> out == Skipped
    ensures out == Raised <==>
      || (&& Classify(att.filename) == CompressedImage
          && (lib.image.Failed? || !lib.saves(CompressedEncoding(lib.image.value, att.size, att.filename, cfg))))
      || (&& Classify(att.filename) == RawContainer
          && (!lib.rawDecodes || !lib.saves(RawEncoding(att.size, cfg))))
    ensures out.Posted? ==>
      var kind := Classify(att.filename);
      var manual := ManualFields(content);
      && out.file == (if kind == CompressedImage then CompressedEncoding(lib.image.value, att.size, att.filename, cfg)
                      else RawEncoding(att.size, cfg))
      && out.embed == Embed(
           SubmissionTitle, Description(mention), cfg.color, ImageRef(out.file),
           RenderedFields(Overridden(ExtractedRecord(kind, lib), manual), NoteOf(manual), att.url),
           cfg.footer)
  {
    var kind := Classify(att.filename);
    var exif: Record;
    var file: Encoding;
    if kind == CompressedImage {
      exif := ExtractJpeg(if lib.image.Failed? then Failed else lib.exif);
      if lib.image.Failed? {
        return Raised;
      }
      file := CompressedEncoding(lib.image.value, att.size, att.filename, cfg);
      if !lib.saves(file) {
        return Raised;
      }
    } else if kind == RawContainer {
      exif := ExtractCr2(lib.rawTags);
      if !lib.rawDecodes {
        return Raised;
      }
      file := RawEncoding(att.size, cfg);
      if !lib.saves(file) {
        return Raised;
      }
    } else {
      return Skipped;
    }
    var manual := ParseManualFields(content);
    exif := MergeOverrides(exif, manual);
    var note := if "Note" in manual then Some(manual["Note"]) else None;
    var fields := BuildFields(exif, note, att.url);
    out := Posted(
      Embed(SubmissionTitle, Description(mention), cfg.color, ImageRef(file), fields, cfg.footer),
      file);
  }
}
