/**
 * The link controller of the API server
 * (apps/api/src/controllers/remove-background-link.controller.ts): it makes
 * sure the output directory exists, rejects a request without an uploaded
 * file, runs the background-removal service and answers with an absolute
 * URL for the result, or with the service's error.
 *
 * The file system, the service and the request are parameters; the handler
 * returns the effects it performs, in order, ending with the one response.
 */
module RemoveBackgroundLink {
  import opened Wrappers
  import opened ApiResponse
  import NodePath

  /** The fields of the uploaded (multer) file that matter here. */
  datatype UploadedFile = UploadedFile(filename: string, path: string)

  /** What the service `removeBackgroundFromImage` does with a file: the path it wrote, or the error it threw. */
  datatype ServiceOutcome = Processed(outputPath: string) | Threw(error: Error)

  datatype LinkData = LinkData(url: string)

  /** One effect of the handler. */
  datatype Effect =
    | CreateOutputDir
    | CallService(file: UploadedFile)
    | Respond(httpStatus: int, body: ApiResponse<LinkData>)

  const MissingImageMessage: string := "La imagen es obligatoria y debe enviarse como archivo (campo 'image')."
  const LinkSuccessMessage: string := "Imagen procesada correctamente. Utilice la URL proporcionada para acceder a la imagen sin fondo."

  /** How a template literal renders the `host` header: an absent one prints as "undefined". */
  function HostText(host: Option<string>): string {
    match host
    case Some(h) => h
    case None => "undefined"
  }

  /** `${protocol}://${host}/images-output/${basename(outputPath)}`. */
  function ImageUrl(protocol: string, host: Option<string>, outputPath: string): (url: string)
    ensures exists name :: '/' !in name && url == protocol + "://" + HostText(host) + "/images-output/" + name
  {
    protocol + "://" + HostText(host) + "/images-output/" + NodePath.Basename(outputPath)
  }

  /**
   * For a result written as `<dir>/<name>`, the URL's scheme is the request
   * protocol, its authority the host header, and its path
   * "/images-output/<name>".
   */
  lemma ImageUrlOfOutput(protocol: string, host: string, dir: string, name: string)
    requires name != [] && '/' !in name
    ensures ImageUrl(protocol, Some(host), dir + "/" + name) == protocol + "://" + host + "/images-output/" + name
  {
    NodePath.BasenameOfJoin(dir, name);
  }

  /** The response the handler ends with. */
  function Final(effects: seq<Effect>): Effect
    requires |effects| >= 1
  {
    effects[|effects| - 1]
  }

  /**
   * `removeBackgroundLinkController(req, res)`. The directory is created
   * only when it is missing and before anything else; the service is called
   * exactly when a file was uploaded; exactly one response is sent, last:
   * 400 without a file, 200 with the URL on success, 500 with the thrown
   * message on failure.
   */
  method RemoveBackgroundLinkController(
    outputDirExists: bool, file: Option<UploadedFile>, service: UploadedFile -> ServiceOutcome,
    protocol: string, host: Option<string>)
    returns (effects: seq<Effect>)
    ensures |effects| >= 1 && Final(effects).Respond?
    ensures forall i :: 0 <= i < |effects| - 1 ==> !effects[i].Respond?
    ensures (CreateOutputDir in effects) <==> !outputDirExists
    ensures CreateOutputDir in effects ==> effects[0] == CreateOutputDir
    ensures (exists f :: CallService(f) in effects) <==> file.Some?
    ensures file.Some? ==> CallService(file.value) in effects
    ensures file.None? ==>
      Final(effects) == Respond(400, ErrorResponse(400, MissingImageMessage))
    ensures file.Some? && service(file.value).Processed? ==>
      Final(effects) == Respond(200, SuccessResponse(
        LinkData(ImageUrl(protocol, host, service(file.value).outputPath)), Some(LinkSuccessMessage)))
    ensures file.Some? && service(file.value).Threw? ==>
      Final(effects) == Respond(500, ServerErrorResponse(service(file.value).error))
  {
    var response;
    if file.None? {
      response := Respond(400, ErrorResponse(400, MissingImageMessage));
    } else {
      var outcome := service(file.value);
      if outcome.Threw? {
        response := Respond(500, ServerErrorResponse(outcome.error));
      } else {
        var url := ImageUrl(protocol, host, outcome.outputPath);
        response := Respond(200, SuccessResponse(LinkData(url), Some(LinkSuccessMessage)));
      }
    }
    effects := DirEffects(outputDirExists) + ServiceEffects(file) + [response];
    EffectsShape(outputDirExists, file, response);
  }

  /** The directory creation, when the directory is missing. */
  function DirEffects(outputDirExists: bool): seq<Effect> {
    if outputDirExists then [] else [CreateOutputDir]
  }

  /** The service call, when a file was uploaded. */
  function ServiceEffects(file: Option<UploadedFile>): seq<Effect> {
    if file.Some? then [CallService(file.value)] else []
  }

  /** The order of the handler's effects: the directory, then the service, then the one response. */
  lemma EffectsShape(outputDirExists: bool, file: Option<UploadedFile>, response: Effect)
    requires response.Respond?
    ensures var effects := DirEffects(outputDirExists) + ServiceEffects(file) + [response];
      |effects| >= 1 && Final(effects) == response &&
      (forall i :: 0 <= i < |effects| - 1 ==> !effects[i].Respond?) &&
      ((CreateOutputDir in effects) <==> !outputDirExists) &&
      (CreateOutputDir in effects ==> effects[0] == CreateOutputDir) &&
      ((exists f :: CallService(f) in effects) <==> file.Some?) &&
      (file.Some? ==> CallService(file.value) in effects)
  {
    var effects := DirEffects(outputDirExists) + ServiceEffects(file) + [response];
    if file.Some? {
      assert CallService(file.value) in effects;
    }
  }
}
