/**
 * The background-removal utility of the API server
 * (apps/api/src/utilities/remove.ts): `removeImageBackground(filePath)`
 * checks its argument, the file's size and its extension, reads the file,
 * picks a MIME type and hands the bytes to the image model with an output
 * format of "image/png".
 *
 * The file system and the image model are parameters: `stat` and
 * `readFile` as functions of the path, the model as a function of the
 * input blob and the configuration.
 */
module RemoveUtility {
  import opened Wrappers
  import Strings
  import NodePath

  type Bytes = seq<bv8>

  /** The `filePath` argument, which callers may pass as `undefined` or `null`. */
  datatype PathArg = Undefined | Null | Path(value: string)

  datatype StatOutcome = StatFailed(message: string) | Stats(size: nat)
  datatype ReadOutcome = ReadFailed(message: string) | Contents(bytes: Bytes)

  /** The two file-system calls, as functions of the path. */
  datatype FileSystem = FileSystem(stat: string -> StatOutcome, readFile: string -> ReadOutcome)

  /** The blob handed to the model: the file's bytes and their MIME type. */
  datatype Blob = Blob(bytes: Bytes, mimeType: string)

  datatype OutputOptions = OutputOptions(format: Option<string>)
  /** The model configuration; `progress`, a logging callback, is not modelled. */
  datatype Config = Config(debug: bool, model: string, output: Option<OutputOptions>)

  /** Why `removeImageBackground` threw. */
  datatype RemoveError =
    | UndefinedPath
    | NullPath
    | EmptyPath
    | StatError(message: string)
    | EmptyFile
    | UnsupportedExtension(ext: string)
    | ReadError(message: string)
    | NoMimeType(ext: string)
    | ModelError(message: string)

  /** The accepted extensions, lower case, in the order the error message lists them. */
  const SupportedFormats: seq<string> := [".jpg", ".jpeg", ".png"]

  /** The MIME type of each accepted extension. */
  const MimeTypes: map<string, string> := map[".jpg" := "image/jpeg", ".jpeg" := "image/jpeg", ".png" := "image/png"]

  const DefaultOutputFormat: string := "image/png"

  /** The message of the thrown `Error`. */
  function Message(e: RemoveError): string {
    match e
    case UndefinedPath => "El archivo de entrada no puede ser undefined"
    case NullPath => "El archivo de entrada no puede ser null"
    case EmptyPath => "El archivo de entrada no puede ser una cadena vacía"
    case StatError(m) => m
    case EmptyFile => "El archivo de entrada está vacío o corrupto"
    case UnsupportedExtension(ext) => "Extensión no soportada: " + ext + ". Solo se permiten: .jpg, .jpeg, .png"
    case ReadError(m) => m
    case NoMimeType(ext) => "No se pudo determinar el tipo MIME para la extensión: " + ext
    case ModelError(m) => m
  }

  /** The lower-cased extension of a path, as the whitelist sees it. */
  function Extension(path: string): (ext: string) {
    Strings.ToLower(NodePath.Extname(path))
  }

  /**
   * Lines 25-72: the checks before the model runs, in order (the argument,
   * the size, the extension, the read, the MIME type); the first failure
   * is the error. On success, the blob for the model.
   */
  function ValidateInput(filePath: PathArg, fs: FileSystem): (r: Result<Blob, RemoveError>)
    ensures r.Ok? ==>
      filePath.Path? && filePath.value != "" && fs.stat(filePath.value).Stats? && fs.stat(filePath.value).size > 0 &&
      fs.readFile(filePath.value).Contents? && r.value.bytes == fs.readFile(filePath.value).bytes
    ensures r.Ok? ==> r.value.mimeType == "image/jpeg" || r.value.mimeType == "image/png"
  {
    match filePath
    case Undefined => Err(UndefinedPath)
    case Null => Err(NullPath)
    case Path(p) => if p == "" then Err(EmptyPath) else CheckFile(p, fs)
  }

  /** The checks on an existing path: its size, then its extension and contents. */
  function CheckFile(p: string, fs: FileSystem): (r: Result<Blob, RemoveError>)
    ensures fs.stat(p).StatFailed? ==> r == Err(StatError(fs.stat(p).message))
    ensures fs.stat(p) == Stats(0) ==> r == Err(EmptyFile)
    ensures r.Ok? ==>
      fs.stat(p).Stats? && fs.stat(p).size > 0 && fs.readFile(p).Contents? && r.value.bytes == fs.readFile(p).bytes
    ensures r.Ok? ==> r.value.mimeType == "image/jpeg" || r.value.mimeType == "image/png"
  {
    match fs.stat(p)
    case StatFailed(m) => Err(StatError(m))
    case Stats(size) => if size == 0 then Err(EmptyFile) else CheckExtension(p, Extension(p), fs)
  }

  /** The whitelist, the read and the MIME lookup for a file whose lower-cased extension is `ext`. */
  function CheckExtension(p: string, ext: string, fs: FileSystem): (r: Result<Blob, RemoveError>)
    ensures ext !in SupportedFormats ==> r == Err(UnsupportedExtension(ext))
    ensures r.Ok? <==> ext in SupportedFormats && fs.readFile(p).Contents?
    ensures r.Ok? ==> r.value.bytes == fs.readFile(p).bytes
    ensures r.Ok? ==> r.value.mimeType == "image/jpeg" || r.value.mimeType == "image/png"
  {
    if ext !in SupportedFormats then Err(UnsupportedExtension(ext))
    else match fs.readFile(p)
      case ReadFailed(m) => Err(ReadError(m))
      case Contents(bytes) =>
        if ext !in MimeTypes then Err(NoMimeType(ext))
        else Ok(Blob(bytes, MimeTypes[ext]))
  }

  /** Every whitelisted extension has a MIME type, so the "no MIME type" error cannot be thrown. */
  lemma NoMimeTypeUnreachable(filePath: PathArg, fs: FileSystem)
    ensures !(ValidateInput(filePath, fs).Err? && ValidateInput(filePath, fs).error.NoMimeType?)
  {
    if filePath.Path? && filePath.value != "" && fs.stat(filePath.value).Stats? && fs.stat(filePath.value).size > 0 {
      ReachesWhitelist(filePath.value, fs);
      MimeTypeFound(filePath.value, Extension(filePath.value), fs);
    }
  }

  /** The whitelist step never fails for want of a MIME type. */
  lemma MimeTypeFound(p: string, ext: string, fs: FileSystem)
    ensures !(CheckExtension(p, ext, fs).Err? && CheckExtension(p, ext, fs).error.NoMimeType?)
  {
    WhitelistTable(ext);
  }

  /** An undefined, null or empty path is rejected with its own error before the file system is consulted. */
  lemma BadPathBeforeFileAccess(filePath: PathArg, fs1: FileSystem, fs2: FileSystem)
    requires filePath.Undefined? || filePath.Null? || filePath == Path("")
    ensures ValidateInput(filePath, fs1) == ValidateInput(filePath, fs2)
    ensures ValidateInput(filePath, fs1) ==
      Err(if filePath.Undefined? then UndefinedPath else if filePath.Null? then NullPath else EmptyPath)
  {
  }

  /** A file of size zero is rejected as empty, whatever its extension, and is never read. */
  lemma EmptyFileRejected(p: string, fs: FileSystem)
    requires p != "" && fs.stat(p) == Stats(0)
    ensures ValidateInput(Path(p), fs) == Err(EmptyFile)
  {
  }

  /**
   * The extension check is case-insensitive and exact: a readable,
   * non-empty file is accepted exactly when its lower-cased extension is
   * ".jpg", ".jpeg" or ".png", and its MIME type is then "image/jpeg" for
   * the first two and "image/png" for the last.
   */
  lemma ExtensionDecides(p: string, fs: FileSystem)
    requires p != "" && fs.stat(p).Stats? && fs.stat(p).size > 0 && fs.readFile(p).Contents?
    ensures ValidateInput(Path(p), fs).Ok? <==> Extension(p) in {".jpg", ".jpeg", ".png"}
    ensures ValidateInput(Path(p), fs).Ok? ==>
      ValidateInput(Path(p), fs).value ==
        Blob(fs.readFile(p).bytes, if Extension(p) == ".png" then "image/png" else "image/jpeg")
    ensures ValidateInput(Path(p), fs).Err? ==> ValidateInput(Path(p), fs).error == UnsupportedExtension(Extension(p))
  {
    ReachesWhitelist(p, fs);
    WhitelistDecides(p, Extension(p), fs);
  }

  /** A non-empty path to a non-empty file passes on to the whitelist. */
  lemma ReachesWhitelist(p: string, fs: FileSystem)
    requires p != "" && fs.stat(p).Stats? && fs.stat(p).size > 0
    ensures ValidateInput(Path(p), fs) == CheckExtension(p, Extension(p), fs)
  {
    PathReachesFileChecks(p, fs);
    SizeCheckPasses(p, fs);
  }

  /** A non-empty path goes on to the checks on the file. */
  lemma PathReachesFileChecks(p: string, fs: FileSystem)
    requires p != ""
    ensures ValidateInput(Path(p), fs) == CheckFile(p, fs)
  {
  }

  /** A file the stat call finds non-empty goes on to the extension check. */
  lemma SizeCheckPasses(p: string, fs: FileSystem)
    requires fs.stat(p).Stats? && fs.stat(p).size > 0
    ensures CheckFile(p, fs) == CheckExtension(p, Extension(p), fs)
  {
  }

  /** The whitelist step alone, for any lower-cased extension `ext` of a readable file. */
  lemma WhitelistDecides(p: string, ext: string, fs: FileSystem)
    requires fs.readFile(p).Contents?
    ensures CheckExtension(p, ext, fs).Ok? <==> ext in {".jpg", ".jpeg", ".png"}
    ensures CheckExtension(p, ext, fs).Ok? ==>
      CheckExtension(p, ext, fs).value == Blob(fs.readFile(p).bytes, if ext == ".png" then "image/png" else "image/jpeg")
    ensures CheckExtension(p, ext, fs).Err? ==> CheckExtension(p, ext, fs).error == UnsupportedExtension(ext)
  {
    WhitelistTable(ext);
  }

  /** The whitelist and the MIME table agree: each listed extension has its type. */
  lemma WhitelistTable(ext: string)
    ensures ext in SupportedFormats <==> ext in {".jpg", ".jpeg", ".png"}
    ensures ext in SupportedFormats ==> ext in MimeTypes
    ensures ext in SupportedFormats ==> MimeTypes[ext] == if ext == ".png" then "image/png" else "image/jpeg"
  {
  }

  /** A file named `<base>.PNG` (upper case) has the extension ".png". */
  lemma ExtensionOfUpperPng(dir: string, base: string)
    requires base != [] && '/' !in base
    ensures Extension(dir + "/" + base + ".PNG") == ".png"
  {
    LowerCase(".PNG", ".png");
    ExtensionOfNamed(dir, base, ".PNG", ".png");
  }

  /** A file named `<base>.gif` has the extension ".gif". */
  lemma ExtensionOfGif(dir: string, base: string)
    requires base != [] && '/' !in base
    ensures Extension(dir + "/" + base + ".gif") == ".gif"
  {
    LowerCase(".gif", ".gif");
    ExtensionOfNamed(dir, base, ".gif", ".gif");
  }

  /** A file `<dir>/<base><ext>` has the lower-cased `ext` as its extension. */
  lemma ExtensionOfNamed(dir: string, base: string, ext: string, lower: string)
    requires base != [] && '/' !in base
    requires |ext| >= 2 && ext[0] == '.' && '.' !in ext[1..] && '/' !in ext
    requires Strings.ToLower(ext) == lower
    ensures Extension(dir + "/" + base + ext) == lower
  {
    NodePath.ExtnameOfName(dir, base, ext);
  }

  lemma LowerCase(s: string, t: string)
    requires |s| == |t| && forall i :: 0 <= i < |s| ==> Strings.LowerChar(s[i]) == t[i]
    ensures Strings.ToLower(s) == t
  {
  }

  /** An upper-case ".PNG" file is accepted as PNG. */
  lemma UpperCasePngAccepted(dir: string, base: string, fs: FileSystem)
    requires base != [] && '/' !in base
    requires var p := dir + "/" + base + ".PNG";
      fs.stat(p).Stats? && fs.stat(p).size > 0 && fs.readFile(p).Contents?
    ensures var p := dir + "/" + base + ".PNG";
      ValidateInput(Path(p), fs) == Ok(Blob(fs.readFile(p).bytes, "image/png"))
  {
    ExtensionOfUpperPng(dir, base);
    ExtensionDecides(dir + "/" + base + ".PNG", fs);
  }

  /** A ".gif" file is refused, with its extension in the error. */
  lemma GifRefused(dir: string, base: string, fs: FileSystem)
    requires base != [] && '/' !in base
    requires var p := dir + "/" + base + ".gif"; fs.stat(p).Stats? && fs.stat(p).size > 0
    ensures ValidateInput(Path(dir + "/" + base + ".gif"), fs) == Err(UnsupportedExtension(".gif"))
  {
    var p := dir + "/" + base + ".gif";
    assert |p| > 0;
    ReachesWhitelist(p, fs);
    ExtensionOfGif(dir, base);
    GifNotListed(p, fs);
  }

  /** The whitelist refuses ".gif" before reading the file. */
  lemma GifNotListed(p: string, fs: FileSystem)
    ensures CheckExtension(p, ".gif", fs) == Err(UnsupportedExtension(".gif"))
  {
    WhitelistTable(".gif");
  }

  /**
   * Lines 87-89, `config.output ??= {format: "image/png"}` then
   * `config.output.format ??= "image/png"`: an output format is always
   * set afterwards; one already given is kept, and nothing else changes.
   */
  method EnsureOutputFormat(config: Config) returns (c: Config)
    ensures c.output.Some? && c.output.value.format.Some?
    ensures config.output.Some? && config.output.value.format.Some? ==> c == config
    ensures config.output.None? || config.output.value.format.None? ==>
      c == config.(output := Some(OutputOptions(Some(DefaultOutputFormat))))
  {
    c := config;
    if c.output.None? {
      c := c.(output := Some(OutputOptions(Some(DefaultOutputFormat))));
    }
    if c.output.value.format.None? {
      c := c.(output := Some(c.output.value.(format := Some(DefaultOutputFormat))));
    }
  }

  /** The configuration the model is called with: debugging on, the "medium" model, PNG output. */
  const ModelConfig: Config := Config(true, "medium", Some(OutputOptions(Some("image/png"))))

  /**
   * `removeImageBackground(filePath)`: the checks, then the model on the
   * blob with `ModelConfig`; the model's failure is
   * rethrown unchanged.
   */
  method RemoveImageBackground(filePath: PathArg, fs: FileSystem, removeBackground: (Blob, Config) -> Result<Bytes, string>)
    returns (r: Result<Bytes, RemoveError>)
    ensures ValidateInput(filePath, fs).Err? ==> r == Err(ValidateInput(filePath, fs).error)
    ensures ValidateInput(filePath, fs).Ok? ==>
      r == match removeBackground(ValidateInput(filePath, fs).value, ModelConfig)
           case Ok(out) => Ok(out)
           case Err(m) => Err(ModelError(m))
  {
    var input := ValidateInput(filePath, fs);
    if input.Err? {
      return Err(input.error);
    }
    var config := Config(true, "medium", Some(OutputOptions(Some(DefaultOutputFormat))));
    config := EnsureOutputFormat(config);
    assert config == ModelConfig;
    var out := removeBackground(input.value, config);
    match out
    case Ok(bytes) => r := Ok(bytes);
    case Err(m) => r := Err(ModelError(m));
  }
}
