/**
  The `action` of app/routes/api.download-zip.ts (POST /api/download-zip).

  The route validates the request, looks the result up in the table,
  checks that its image is on disk and then builds a ZIP archive with two
  entries by successive `append` calls and a `finalize`. `Respond` states
  the whole decision as a function of the request, the table's rows, the
  image directory and the clock; `Download` performs it on the table, the
  image store and a fresh `Archive`.
*/
module DownloadRoute {

  import opened Wrappers
  import opened Text
  import opened Http
  import opened ResultStore
  import opened Vision

  const IdField: Str := Lit("ocrResultId")
  const MarkdownField: Str := Lit("markdown")

  const ZipPrefix: Str := Lit("textbook-ocr-")
  const ZipSuffix: Str := Lit(".zip")
  const Dash: Str := Lit("-")
  const EntryPrefix: Str := Lit("ocr-result-")
  const MarkdownSuffix: Str := Lit(".md")

  const MethodNotAllowed: Str := Lit("Method not allowed")
  const MissingId: Str := Lit("Missing OCR result ID")
  const ResultNotFound: Str := Lit("OCR result not found")
  const ImageNotFound: Str := Lit("Image file not found")
  const ZipFailed: Str := Lit("Failed to create ZIP file")

  datatype ArchiveEntry = ArchiveEntry(name: Str, data: Str)

  /**
    A JSON error with its status, or the archive sent with status 200 as
    `application/zip` and `Content-Disposition: attachment; filename="…"`.
  */
  datatype Response = Refused(status: int, error: Str) | Zip(filename: Str, entries: seq<ArchiveEntry>)

  /**
    What `WHERE id = ?` compares the id with: a number as itself, a string
    as SQLite's numeric conversion of it (nothing, when the text is not an
    integer); any other value cannot be bound and the query throws.
  */
  datatype Binding = Matches(key: Option<int>) | Unbindable

  function Bind(v: JsValue, textAsId: Str -> Option<int>): Binding {
    match v
    case Number(n) => Matches(Some(n))
    case String(s) => Matches(textAsId(s))
    case _ => Unbindable
  }

  /** `${ocrResultId}` for the values that can be bound. */
  function IdText(v: JsValue): Str {
    match v
    case Number(n) => Decimal(n)
    case String(s) => s
    case _ => []
  }

  function ZipName(idText: Str, now: int): Str {
    ZipPrefix + idText + Dash + Decimal(now) + ZipSuffix
  }

  function MarkdownEntryName(idText: Str): Str {
    EntryPrefix + idText + MarkdownSuffix
  }

  /** `markdown || ocrResult.markdown_text`; a truthy non-string is refused by the archiver. */
  function MarkdownContent(markdown: JsValue, stored: Str): Option<Str> {
    if !Truthy(markdown) then Some(stored)
    else if markdown.String? then Some(markdown.s)
    else None
  }

  /** The row the id selects, if it binds to one. */
  function Select(rows: seq<Row>, key: Option<int>): Option<Row> {
    if key.None? then None else FindId(rows, key.value)
  }

  /** `action`, with `now` standing for `Date.now()`. */
  function Respond(req: Request, rows: seq<Row>, files: map<Str, Str>, now: int, textAsId: Str -> Option<int>): Response {
    if req.httpMethod != Post then Refused(405, MethodNotAllowed)
    else
      match req.body
      case Unparsable(_) => Refused(500, ZipFailed)
      case NullRoot => Refused(500, ZipFailed)
      case Fields(fields) => RespondToFields(fields, rows, files, now, textAsId)
  }

  function RespondToFields(fields: map<Str, JsValue>, rows: seq<Row>, files: map<Str, Str>, now: int,
                           textAsId: Str -> Option<int>): Response {
    var idValue := Get(fields, IdField);
    if !Truthy(idValue) then Refused(400, MissingId)
    else
      match Bind(idValue, textAsId)
      case Unbindable => Refused(500, ZipFailed)
      case Matches(key) =>
        match Select(rows, key)
        case None => Refused(404, ResultNotFound)
        case Some(row) =>
          if row.imageFilename !in files then Refused(404, ImageNotFound)
          else
            match MarkdownContent(Get(fields, MarkdownField), row.markdownText)
            case None => Refused(500, ZipFailed)
            case Some(content) =>
              var idText := IdText(idValue);
              Zip(ZipName(idText, now),
                  [ArchiveEntry(MarkdownEntryName(idText), content), ArchiveEntry(row.imageFilename, files[row.imageFilename])])
  }

  // ---------------------------------------------------------------------------
  // The archive as the route builds it

  /** An `archiver("zip")` instance: entries appended in order until `finalize`. */
  class Archive {
    var entries: seq<ArchiveEntry>
    var finalized: bool

    constructor ()
      ensures entries == [] && !finalized
    {
      entries, finalized := [], false;
    }

    method Append(name: Str, data: Str)
      requires !finalized
      modifies this
      ensures entries == old(entries) + [ArchiveEntry(name, data)] && !finalized
    {
      entries := entries + [ArchiveEntry(name, data)];
    }

    method Finalize()
      requires !finalized
      modifies this
      ensures finalized && entries == old(entries)
    {
      finalized := true;
    }
  }

  /**
    The route performed: the table and the image directory are only read,
    and an archive is started only when the answer is the ZIP file.
  */
  method Download(req: Request, table: ResultTable, images: ImageStore, now: int, textAsId: Str -> Option<int>)
    returns (response: Response, archive: Archive?)
    ensures response == Respond(req, table.rows, images.files, now, textAsId)
    ensures archive == null <==> response.Refused?
    ensures archive != null ==> fresh(archive) && archive.finalized && archive.entries == response.entries
  {
    archive := null;
    if req.httpMethod != Post {
      return Refused(405, MethodNotAllowed), null;
    }
    if !req.body.Fields? {
      return Refused(500, ZipFailed), null;
    }
    var fields := req.body.fields;
    var idValue := Get(fields, IdField);
    if !Truthy(idValue) {
      return Refused(400, MissingId), null;
    }
    var binding := Bind(idValue, textAsId);
    if binding.Unbindable? {
      return Refused(500, ZipFailed), null;
    }
    var found := if binding.key.None? then None else table.GetById(binding.key.value);
    if found.None? {
      return Refused(404, ResultNotFound), null;
    }
    var row := found.value;
    if !images.Exists(row.imageFilename) {
      return Refused(404, ImageNotFound), null;
    }
    response, archive := BuildArchive(fields, row, images, now);
  }

  /** From `zipFilename` to `finalize`: the Markdown entry, then the image under its own name. */
  method BuildArchive(fields: map<Str, JsValue>, row: Row, images: ImageStore, now: int)
    returns (response: Response, archive: Archive?)
    requires row.imageFilename in images.files
    ensures var idText := IdText(Get(fields, IdField));
      match MarkdownContent(Get(fields, MarkdownField), row.markdownText)
      case None => response == Refused(500, ZipFailed) && archive == null
      case Some(content) =>
        && response == Zip(ZipName(idText, now),
             [ArchiveEntry(MarkdownEntryName(idText), content),
              ArchiveEntry(row.imageFilename, images.files[row.imageFilename])])
        && archive != null && fresh(archive) && archive.finalized && archive.entries == response.entries
  {
    var idText := IdText(Get(fields, IdField));
    var zipFilename := ZipName(idText, now);
    var content := MarkdownContent(Get(fields, MarkdownField), row.markdownText);
    if content.None? {
      return Refused(500, ZipFailed), null;
    }
    archive := new Archive();
    archive.Append(MarkdownEntryName(idText), content.value);
    archive.Append(row.imageFilename, images.files[row.imageFilename]);
    archive.Finalize();
    response := Zip(zipFilename, archive.entries);
  }

  // ---------------------------------------------------------------------------
  // Properties

  /** A request that is not a POST gets 405, whatever its body, the table and the image directory. */
  lemma MethodCheckedFirst(req: Request, rows: seq<Row>, files: map<Str, Str>, now: int, textAsId: Str -> Option<int>,
                           body: Body, rows': seq<Row>, files': map<Str, Str>)
    requires req.httpMethod != Post
    ensures Respond(req, rows, files, now, textAsId) == Respond(req.(body := body), rows', files', now, textAsId)
    ensures Respond(req, rows, files, now, textAsId) == Refused(405, MethodNotAllowed)
  {
  }

  /**
    The `catch` block's 500 "Failed to create ZIP file" answers exactly the
    errors thrown on the way: a body that is not JSON or is `null`, an id
    the query cannot bind, and a truthy Markdown that is not a string.
  */
  lemma ThrownErrorsFail(req: Request, rows: seq<Row>, files: map<Str, Str>, now: int, textAsId: Str -> Option<int>)
    ensures Respond(req, rows, files, now, textAsId) == Refused(500, ZipFailed) <==>
      && req.httpMethod == Post
      && (!req.body.Fields? ||
          var idValue := Get(req.body.fields, IdField);
          && Truthy(idValue)
          && (Bind(idValue, textAsId).Unbindable? ||
              var row := Select(rows, Bind(idValue, textAsId).key);
              && row.Some? && row.value.imageFilename in files
              && MarkdownContent(Get(req.body.fields, MarkdownField), row.value.markdownText).None?))
  {
    assert ZipFailed[0] != MissingId[0] && ZipFailed[0] != MethodNotAllowed[0];
    assert ZipFailed[0] != ResultNotFound[0] && ZipFailed[0] != ImageNotFound[0];
  }

  /** A missing id, `0` or `""` is refused with 400 before the table is read. */
  lemma FalsyIdRefused(req: Request, rows: seq<Row>, files: map<Str, Str>, now: int, textAsId: Str -> Option<int>)
    requires req.httpMethod == Post && req.body.Fields?
    requires Get(req.body.fields, IdField) in {Undefined, Null, Boolean(false), Number(0), String([])}
    ensures Respond(req, rows, files, now, textAsId) == Refused(400, MissingId)
  {
  }

  /** An id that selects no row gives 404 "OCR result not found", whatever the image directory holds. */
  lemma UnknownIdRefused(req: Request, rows: seq<Row>, files: map<Str, Str>, now: int, textAsId: Str -> Option<int>, n: int)
    requires req.httpMethod == Post && req.body.Fields? && Get(req.body.fields, IdField) == Number(n) && n != 0
    ensures Respond(req, rows, files, now, textAsId) == Refused(404, ResultNotFound) <==> !HasId(rows, n)
  {
    assert ResultNotFound[0] != ImageNotFound[0];
  }

  /**
    A ZIP answer holds exactly two entries: `ocr-result-<id>.md` with the
    request's Markdown when it is non-empty and the stored text otherwise,
    then the image of the row with that id under its stored name and with
    the directory's contents. Its name is `textbook-ocr-<id>-<now>.zip`.
  */
  lemma ZipContents(req: Request, rows: seq<Row>, files: map<Str, Str>, now: int, textAsId: Str -> Option<int>)
    requires Respond(req, rows, files, now, textAsId).Zip?
    ensures var r := Respond(req, rows, files, now, textAsId);
      var idValue := Get(req.body.fields, IdField);
      var markdown := Get(req.body.fields, MarkdownField);
      && req.httpMethod == Post && req.body.Fields?
      && Bind(idValue, textAsId).Matches? && Bind(idValue, textAsId).key.Some?
      && var row := FindId(rows, Bind(idValue, textAsId).key.value).value;
        && row in rows && row.id == Bind(idValue, textAsId).key.value
        && |r.entries| == 2
        && r.entries[0].name == EntryPrefix + IdText(idValue) + MarkdownSuffix
        && r.entries[0].data == (if Truthy(markdown) then markdown.s else row.markdownText)
        && r.entries[1] == ArchiveEntry(row.imageFilename, files[row.imageFilename])
        && r.filename == ZipPrefix + IdText(idValue) + Dash + Decimal(now) + ZipSuffix
  {
    var fields := req.body.fields;
    var key := Bind(Get(fields, IdField), textAsId).key;
    assert Select(rows, key).Some?;
  }

  /** A row whose image file is missing gives 404 (and `Download` then starts no archive). */
  lemma MissingImageRefused(req: Request, rows: seq<Row>, files: map<Str, Str>, now: int,
                            textAsId: Str -> Option<int>, n: int, row: Row)
    requires req.httpMethod == Post && req.body.Fields? && Get(req.body.fields, IdField) == Number(n)
    requires Ascending(rows) && row in rows && row.id == n && n != 0
    requires row.imageFilename !in files
    ensures Respond(req, rows, files, now, textAsId) == Refused(404, ImageNotFound)
  {
    GetByIdUnique(rows, n, row);
  }
}
