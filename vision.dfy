/**
  `processImageWithVision` and `storeOCRResult` of app/lib/visionService.ts.

  The pipeline strips a data-URL prefix, writes the image under a fresh
  `<uuid>.png`, asks Google Cloud Vision for the text, converts the text to
  Markdown and inserts a row. The file system, the HTTP call, the uuid and
  the clock are parameters: `writeError` is the error `writeFile` raises
  (if any), `reply` what the Vision request gives back, `insertOk` whether
  the insert succeeds. `Process` records the effects in order; the method
  `ProcessImageWithVision` performs them on an `ImageStore` and a
  `ResultTable`.
*/
module Vision {

  import opened Wrappers
  import opened Text
  import opened Markdown
  import opened ResultStore

  const DataUrlHead: Str := Lit("data:image/")
  const Base64Marker: Str := Lit(";base64,")
  const ImageExtension: Str := Lit(".png")
  const NoTextMessage: Str := Lit("No text detected in the image")
  const FailureMessage: Str := Lit("Failed to process image with OCR")

  // ---------------------------------------------------------------------------
  // The data-URL prefix

  /** A match of `^data:image\/\w+;base64,`. */
  predicate IsDataUrlPrefix(p: Str) {
    |p| > |DataUrlHead| + |Base64Marker|
    && p[..|DataUrlHead|] == DataUrlHead
    && p[|p| - |Base64Marker|..] == Base64Marker
    && forall k :: |DataUrlHead| <= k < |p| - |Base64Marker| ==> IsWordChar(p[k])
  }

  /** `imageBase64.replace(/^data:image\/\w+;base64,/, '')`: what is left is a suffix of the input. */
  function StripDataUrlPrefix(image: Str): (r: Str)
    ensures |r| <= |image| && r == image[|image| - |r|..]
  {
    if !StartsWith(image, DataUrlHead) then image
    else
      var afterHead := image[|DataUrlHead|..];
      var rest := DropWordChars(afterHead);
      DropWordCharsShape(afterHead);
      if |rest| < |afterHead| && StartsWith(rest, Base64Marker) then rest[|Base64Marker|..] else image
  }

  /** What is removed is empty or exactly one match of the prefix pattern. */
  lemma StripRemovesOnlyThePrefix(image: Str)
    ensures var r := StripDataUrlPrefix(image);
      r == image || IsDataUrlPrefix(image[..|image| - |r|])
  {
    var r := StripDataUrlPrefix(image);
    if r != image {
      var afterHead := image[|DataUrlHead|..];
      var rest := DropWordChars(afterHead);
      DropWordCharsShape(afterHead);
      var p := image[..|image| - |r|];
      var w := |afterHead| - |rest|;
      assert |p| == |DataUrlHead| + w + |Base64Marker|;
      assert p[|p| - |Base64Marker|..] == rest[..|Base64Marker|];
      forall k | |DataUrlHead| <= k < |p| - |Base64Marker| ensures IsWordChar(p[k]) {
        assert p[k] == afterHead[k - |DataUrlHead|];
      }
    }
  }

  /** A `data:image/<word characters>;base64,` prefix is removed, once, and the payload is kept. */
  lemma StripPrefixed(kind: Str, payload: Str)
    requires kind != [] && forall k :: 0 <= k < |kind| ==> IsWordChar(kind[k])
    ensures StripDataUrlPrefix(DataUrlHead + kind + Base64Marker + payload) == payload
  {
    var tail := Base64Marker + payload;
    var image := DataUrlHead + (kind + tail);
    assert image == DataUrlHead + kind + Base64Marker + payload;
    assert StartsWith(image, DataUrlHead) by {
      assert image[..|DataUrlHead|] == DataUrlHead;
    }
    var afterHead := image[|DataUrlHead|..];
    assert afterHead == kind + tail;
    assert Base64Marker[0] == Unit(';');
    DropWordCharsPast(kind, tail);
    assert StartsWith(tail, Base64Marker) by {
      assert tail[..|Base64Marker|] == Base64Marker;
    }
    assert tail[|Base64Marker|..] == payload;
  }

  /** `\w+` consumes exactly a run of word characters followed by a non-word character. */
  lemma {:induction false} DropWordCharsPast(w: Str, rest: Str)
    requires forall k :: 0 <= k < |w| ==> IsWordChar(w[k])
    requires rest != [] && !IsWordChar(rest[0])
    ensures DropWordChars(w + rest) == rest
    decreases |w|
  {
    if w != [] {
      assert (w + rest)[1..] == w[1..] + rest;
      DropWordCharsPast(w[1..], rest);
    }
  }

  // ---------------------------------------------------------------------------
  // The pipeline as a sequence of effects

  /** What the Vision request gives: an error, a response without text, or the full text. */
  datatype Reply = RequestFailed(message: Str) | NoAnnotation | Annotated(text: Str)

  datatype Effect =
    | WroteImage(filename: Str, data: Str)
    | CalledVision(content: Str)
    | InsertedRow(filename: Str, markdown: Str, createdAt: Str)

  datatype Outcome = Processed(markdown: Str, imageFilename: Str) | Threw(message: Str)

  datatype Trace = Trace(effects: seq<Effect>, outcome: Outcome)

  function ImageFilename(uuid: Str): Str {
    uuid + ImageExtension
  }

  /** The body of the `try` block, with the error it throws, before the `catch` rewrites it. */
  function Attempt(image: Str, uuid: Str, createdAt: Str, writeError: Option<Str>, reply: Reply, insertOk: bool): Trace {
    var data := StripDataUrlPrefix(image);
    var filename := ImageFilename(uuid);
    match writeError
    case Some(message) => Trace([], Threw(message))
    case None =>
      var called := [WroteImage(filename, data), CalledVision(data)];
      match reply
      case RequestFailed(message) => Trace(called, Threw(message))
      case NoAnnotation => Trace(called, Threw(NoTextMessage))
      case Annotated(text) =>
        var markdown := Format(text);
        var stored := if insertOk then [InsertedRow(filename, markdown, createdAt)] else [];
        Trace(called + stored, Processed(markdown, filename))
  }

  /**
    `processImageWithVision`: every error, whatever its message, is rethrown
    as "Failed to process image with OCR"; effects already made stay.
  */
  function Process(image: Str, uuid: Str, createdAt: Str, writeError: Option<Str>, reply: Reply, insertOk: bool): (t: Trace)
    ensures t.effects == Attempt(image, uuid, createdAt, writeError, reply, insertOk).effects
    ensures t.outcome.Threw? ==> t.outcome.message == FailureMessage
    ensures t.outcome.Processed? ==> t.outcome == Attempt(image, uuid, createdAt, writeError, reply, insertOk).outcome
  {
    var attempt := Attempt(image, uuid, createdAt, writeError, reply, insertOk);
    match attempt.outcome
    case Threw(_) => Trace(attempt.effects, Threw(FailureMessage))
    case Processed(_, _) => attempt
  }

  /**
    The pipeline succeeds exactly when the write succeeds and Vision finds
    text, and then returns the converter's output and `<uuid>.png`, whether
    or not the insert succeeds.
  */
  lemma OutcomeOf(image: Str, uuid: Str, createdAt: Str, writeError: Option<Str>, reply: Reply, insertOk: bool)
    ensures Process(image, uuid, createdAt, writeError, reply, insertOk).outcome ==
      if writeError.None? && reply.Annotated? then Processed(Format(reply.text), uuid + ImageExtension)
      else Threw(FailureMessage)
  {
  }

  /** The image is written before Vision is called, and Vision is sent the stripped data. */
  lemma WriteBeforeCall(image: Str, uuid: Str, createdAt: Str, writeError: Option<Str>, reply: Reply, insertOk: bool)
    ensures var effects := Process(image, uuid, createdAt, writeError, reply, insertOk).effects;
      forall i :: 0 <= i < |effects| && effects[i].CalledVision? ==>
        i > 0 && effects[i - 1] == WroteImage(ImageFilename(uuid), StripDataUrlPrefix(image))
        && effects[i].content == StripDataUrlPrefix(image)
  {
    var effects := Attempt(image, uuid, createdAt, writeError, reply, insertOk).effects;
    if writeError.None? {
      var data := StripDataUrlPrefix(image);
      assert effects[..2] == [WroteImage(ImageFilename(uuid), data), CalledVision(data)];
      assert forall i :: 2 <= i < |effects| ==> effects[i].InsertedRow?;
    } else {
      assert effects == [];
    }
  }

  /** A failed write stops everything: nothing is called or stored. */
  lemma WriteFailureStopsEarly(image: Str, uuid: Str, createdAt: Str, message: Str, reply: Reply, insertOk: bool)
    ensures Process(image, uuid, createdAt, Some(message), reply, insertOk) == Trace([], Threw(FailureMessage))
  {
  }

  /** A response without text leaves the written image behind but stores no row. */
  lemma NoTextLeavesFileButNoRow(image: Str, uuid: Str, createdAt: Str, insertOk: bool)
    ensures var t := Process(image, uuid, createdAt, None, NoAnnotation, insertOk);
      && t.outcome == Threw(FailureMessage)
      && WroteImage(ImageFilename(uuid), StripDataUrlPrefix(image)) in t.effects
      && forall e :: e in t.effects ==> !e.InsertedRow?
  {
  }

  /** A failed insert is swallowed: the result is still returned. */
  lemma InsertFailureSwallowed(image: Str, uuid: Str, createdAt: Str, text: Str)
    ensures var t := Process(image, uuid, createdAt, None, Annotated(text), false);
      && t.outcome == Processed(Format(text), ImageFilename(uuid))
      && forall e :: e in t.effects ==> !e.InsertedRow?
  {
  }

  /**
    On success the filename is the uuid with ".png", the Markdown is the
    converter's output for the detected text (never empty, ending with a line
    feed), and a successful insert stores exactly what is returned.
  */
  lemma SuccessShape(image: Str, uuid: Str, createdAt: Str, writeError: Option<Str>, reply: Reply, insertOk: bool)
    requires Process(image, uuid, createdAt, writeError, reply, insertOk).outcome.Processed?
    ensures var t := Process(image, uuid, createdAt, writeError, reply, insertOk);
      && writeError.None? && reply.Annotated?
      && t.outcome.imageFilename == uuid + ImageExtension
      && t.outcome.markdown == Format(reply.text)
      && |t.outcome.markdown| > 0 && t.outcome.markdown[|t.outcome.markdown| - 1] == NL
      && (insertOk ==> t.effects[|t.effects| - 1] == InsertedRow(t.outcome.imageFilename, t.outcome.markdown, createdAt))
  {
    FormatIsConcatOfFragments(reply.text);
  }

  /** The image directory once the trace's writes are carried out in order. */
  function FilesAfter(files: map<Str, Str>, effects: seq<Effect>): map<Str, Str>
    decreases |effects|
  {
    if effects == [] then files
    else
      var next := if effects[0].WroteImage? then files[effects[0].filename := effects[0].data] else files;
      FilesAfter(next, effects[1..])
  }

  /** The table's rows once the trace's inserts are carried out in order, each with the next id. */
  function RowsAfter(rows: seq<Row>, seqValue: int, effects: seq<Effect>): seq<Row>
    decreases |effects|
  {
    if effects == [] then rows
    else
      match effects[0]
      case InsertedRow(filename, markdown, createdAt) =>
        RowsAfter(rows + [Row(seqValue + 1, filename, markdown, createdAt)], seqValue + 1, effects[1..])
      case _ => RowsAfter(rows, seqValue, effects[1..])
  }

  /**
    Replaying the trace on a directory and a table: the image is written
    unless the write fails, and one row with the next id is added exactly
    when text was detected and the insert succeeds.
  */
  lemma {:induction false} EffectsReplayed(files: map<Str, Str>, rows: seq<Row>, seqValue: int,
                                           image: Str, uuid: Str, createdAt: Str, writeError: Option<Str>, reply: Reply, insertOk: bool)
    ensures var effects := Process(image, uuid, createdAt, writeError, reply, insertOk).effects;
      && FilesAfter(files, effects) ==
        (if writeError.None? then files[ImageFilename(uuid) := StripDataUrlPrefix(image)] else files)
      && RowsAfter(rows, seqValue, effects) ==
        (if writeError.None? && reply.Annotated? && insertOk then
          rows + [Row(seqValue + 1, ImageFilename(uuid), Format(reply.text), createdAt)]
        else rows)
  {
    var effects := Attempt(image, uuid, createdAt, writeError, reply, insertOk).effects;
    if writeError.None? {
      var data := StripDataUrlPrefix(image);
      var filename := ImageFilename(uuid);
      var called := [WroteImage(filename, data), CalledVision(data)];
      if reply.Annotated? && insertOk {
        var markdown := Format(reply.text);
        var stored := [InsertedRow(filename, markdown, createdAt)];
        assert effects == called + stored;
        ReplayWriteAndCall(files, rows, seqValue, filename, data, stored);
        ReplayInsert(files[filename := data], rows, seqValue, filename, markdown, createdAt);
      } else {
        assert effects == called + [];
        ReplayWriteAndCall(files, rows, seqValue, filename, data, []);
      }
    }
  }

  /** The write and the Vision call of a trace: only the write changes anything. */
  lemma ReplayWriteAndCall(files: map<Str, Str>, rows: seq<Row>, seqValue: int, filename: Str, data: Str, rest: seq<Effect>)
    ensures var effects := [WroteImage(filename, data), CalledVision(data)] + rest;
      && FilesAfter(files, effects) == FilesAfter(files[filename := data], rest)
      && RowsAfter(rows, seqValue, effects) == RowsAfter(rows, seqValue, rest)
  {
    var effects := [WroteImage(filename, data), CalledVision(data)] + rest;
    assert effects[1..] == [CalledVision(data)] + rest;
    assert effects[1..][1..] == rest;
  }

  /** The insert of a trace: one row with the next id. */
  lemma ReplayInsert(files: map<Str, Str>, rows: seq<Row>, seqValue: int, filename: Str, markdown: Str, createdAt: Str)
    ensures FilesAfter(files, [InsertedRow(filename, markdown, createdAt)]) == files
    ensures RowsAfter(rows, seqValue, [InsertedRow(filename, markdown, createdAt)]) ==
      rows + [Row(seqValue + 1, filename, markdown, createdAt)]
  {
    assert [InsertedRow(filename, markdown, createdAt)][1..] == [];
  }

  // ---------------------------------------------------------------------------
  // The pipeline performed

  /** The `storage/images` directory: file name to the (base64) data written there. */
  class ImageStore {
    var files: map<Str, Str>

    constructor (files: map<Str, Str>)
      ensures this.files == files
    {
      this.files := files;
    }

    /**
      `writeFile`, creating or overwriting one file: afterwards `existsSync`
      finds it, and every other name exists exactly as before.
    */
    method Write(name: Str, data: Str)
      modifies this
      ensures files == old(files)[name := data]
      ensures Exists(name) && files[name] == data
      ensures forall other :: other != name ==> Exists(other) == old(Exists(other))
    {
      files := files[name := data];
    }

    /** `existsSync` on a file of the directory. */
    predicate Exists(name: Str)
      reads this
    {
      name in files
    }
  }

  /** `storeOCRResult`: an insert whose failure is only logged. */
  method StoreOCRResult(table: ResultTable, filename: Str, markdown: Str, createdAt: Str, insertOk: bool)
    requires table.Valid()
    modifies table
    ensures table.Valid()
    ensures table.rows == if insertOk then old(table.rows) + [Row(old(table.seqValue) + 1, filename, markdown, createdAt)]
      else old(table.rows)
    ensures table.seqValue == old(table.seqValue) + (if insertOk then 1 else 0)
    ensures table.issued == old(table.issued) + (if insertOk then {old(table.seqValue) + 1} else {})
  {
    if insertOk {
      var _ := table.Insert(filename, markdown, createdAt);
    }
  }

  /**
    `processImageWithVision` and `storeOCRResult` performed on the image
    directory and the table. The new directory and rows are the ones
    `EffectsReplayed` gives for the trace of `Process`; the table's
    AUTOINCREMENT counter moves on exactly when a row is added.
  */
  method ProcessImageWithVision(
    images: ImageStore, table: ResultTable,
    image: Str, uuid: Str, createdAt: Str, writeError: Option<Str>, reply: Reply, insertOk: bool)
    returns (outcome: Outcome)
    requires table.Valid()
    modifies images, table
    ensures table.Valid()
    ensures outcome ==
      if writeError.None? && reply.Annotated? then Processed(Format(reply.text), ImageFilename(uuid))
      else Threw(FailureMessage)
    ensures images.files ==
      if writeError.None? then old(images.files)[ImageFilename(uuid) := StripDataUrlPrefix(image)]
      else old(images.files)
    ensures table.rows ==
      if writeError.None? && reply.Annotated? && insertOk then
        old(table.rows) + [Row(old(table.seqValue) + 1, ImageFilename(uuid), Format(reply.text), createdAt)]
      else old(table.rows)
    ensures var inserted := writeError.None? && reply.Annotated? && insertOk;
      && table.seqValue == old(table.seqValue) + (if inserted then 1 else 0)
      && table.issued == old(table.issued) + (if inserted then {old(table.seqValue) + 1} else {})
  {
    var data := StripDataUrlPrefix(image);
    var filename := uuid + ImageExtension;
    if writeError.Some? {
      return Threw(FailureMessage);
    }
    images.Write(filename, data);
    if !reply.Annotated? {
      return Threw(FailureMessage);
    }
    var markdown := ConvertToMarkdown(reply.text);
    StoreOCRResult(table, filename, markdown, createdAt, insertOk);
    return Processed(markdown, filename);
  }
}
