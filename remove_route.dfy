/**
 * The frontend upload route (apps/frontend/app/api/remove-background/route.ts).
 * It validates the uploaded image and stores it under a temporary name. It
 * forwards the image to the API server on localhost, downloads the processed
 * image and stores it under the matching output name. It then answers with
 * that image's URL on the frontend host.
 *
 * The URL's protocol comes from `x-forwarded-proto`, the request URL or
 * "http", in that order. It is forced to "http" for local development hosts
 * and for one EC2 development host on port 3000. When processing fails
 * after the backend answered, the route falls back to the original image,
 * or else to the backend's own URL.
 *
 * The environment, the URL parser, the file system, both `fetch` calls, the
 * clock and the random draw are parameters.
 */
module RemoveBackgroundRoute {
  import opened Wrappers
  import Strings
  import opened ImageNames

  const DefaultBackendUrl: string := "http://localhost:3001"
  const DefaultBackendPort: string := "3001"
  const LinkEndpoint: string := "/remove-background/link"
  const Ec2DevHostname: string := "ec2-34-246-184-131.eu-west-1.compute.amazonaws.com"
  const Ec2DevPort: string := "3000"
  const PlaceholderUrl: string := "/placeholder-error.png"
  const DefaultUploadName: string := "image.png"

  const NoImageMessage: string := "No se proporcionó ninguna imagen"
  const InvalidTypeMessage: string := "Tipo de archivo no permitido. Solo se aceptan imágenes JPEG y PNG"
  const UnreachableMessage: string :=
    "No se pudo conectar con el servicio de procesamiento de imágenes. Revise los logs del servidor frontend para más detalles."
  const BackendErrorMessage: string := "Error al procesar la imagen en el servidor externo"
  const SuccessMessage: string := "Imagen procesada correctamente"
  const FallbackMessage: string := "No se pudo procesar la imagen en el backend, usando imagen original"
  const NotSavedMessage: string := "Imagen procesada pero no pudo guardarse localmente"
  const InternalErrorMessage: string := "Error interno del servidor al procesar la imagen"

  /** The request as the route reads it: the form, the `host` and `x-forwarded-proto` headers and the scheme of `req.url` (None when it does not parse). */
  datatype Request = Request(form: FormInput, host: Option<string>, forwardedProto: Option<string>, urlProtocol: Option<string>)

  /** `NEXT_PUBLIC_API_URL`, and the port `new URL(...)` finds in a value (None when it throws; "" when there is no port). */
  datatype Environment = Environment(apiUrl: Option<string>, urlPort: string -> Option<string>)

  /**
   * The body of the backend's answer: `response.json()` throws, or gives
   * JSON `null` (on which `result.data` itself throws), or a value whose
   * `data.url` is read (None when absent).
   */
  datatype BackendBody = Unparseable | ParsedNull | Parsed(url: Option<string>)

  /** The first `fetch`: it throws (with the formatted details), or answers. */
  datatype BackendReply = Unreachable(details: string) | Answered(ok: bool, status: int, body: BackendBody)

  /** The second `fetch`, of the processed image: it throws, or answers with its content type and size. */
  datatype Download = DownloadFailed | Downloaded(ok: bool, contentType: Option<string>, size: nat)

  /** Which writes to disk succeed: the temporary copy, the downloaded output, the fallback copy. */
  datatype Disk = Disk(tempWriteOk: bool, outputWriteOk: bool, copyOk: bool)

  /** The backend and the downloads, as functions of what is sent. */
  datatype Network = Network(backend: (string, string) -> BackendReply, download: string -> Download)

  /** The files the route writes and the backend call it makes, in order. */
  datatype Effect = WriteTemp(fileName: string) | PostToBackend(url: string, uploadName: string)
                  | WriteOutput(fileName: string) | CopyToOutput(fileName: string)

  /** A JavaScript string is truthy when it is present and not empty. */
  predicate Truthy(s: Option<string>) {
    s.Some? && s.value != ""
  }

  /**
   * The API server's base URL: "http://localhost:" and the port of
   * `NEXT_PUBLIC_API_URL` (or "3001" when it has none); "http://localhost:3001"
   * when the variable is unset, empty or unparseable.
   */
  function BackendServiceUrl(env: Environment): (u: string)
    ensures !Truthy(env.apiUrl) || env.urlPort(env.apiUrl.value).None? ==> u == DefaultBackendUrl
    ensures Truthy(env.apiUrl) && env.urlPort(env.apiUrl.value).Some? ==>
      var p := env.urlPort(env.apiUrl.value).value;
      u == "http://localhost:" + (if p != "" then p else DefaultBackendPort)
  {
    if !Truthy(env.apiUrl) then DefaultBackendUrl
    else match env.urlPort(env.apiUrl.value)
      case None => DefaultBackendUrl
      case Some(port) => "http://localhost:" + (if port != "" then port else DefaultBackendPort)
  }

  /** Whatever the environment, the backend is reached on localhost over http, on some non-empty port. */
  lemma BackendIsLocal(env: Environment)
    ensures exists port :: port != "" && BackendServiceUrl(env) == "http://localhost:" + port
  {
    assert DefaultBackendUrl == "http://localhost:" + DefaultBackendPort;
  }

  /** `s.replace(":", "")`: only the first colon is removed. */
  function RemoveFirstColon(s: string): (r: string)
    ensures ':' !in s ==> r == s
    ensures ':' in s ==> |r| == |s| - 1
  {
    if s == [] then s else if s[0] == ':' then s[1..] else [s[0]] + RemoveFirstColon(s[1..])
  }

  /**
   * The protocol the API was reached with: the first comma-separated entry
   * of a non-empty `x-forwarded-proto`, trimmed and lower-cased; otherwise
   * the request URL's scheme without its colon, lower-cased; otherwise "http".
   */
  function ProtocolForApiAccess(forwardedProto: Option<string>, urlProtocol: Option<string>): (r: string)
    ensures Strings.NoUpper(r)
    ensures !Truthy(forwardedProto) && urlProtocol.None? ==> r == "http"
  {
    if Truthy(forwardedProto) then
      Strings.ToLower(Strings.Trim(Strings.Split(forwardedProto.value, ',')[0]))
    else match urlProtocol
      case Some(p) => Strings.ToLower(RemoveFirstColon(p))
      case None => "http"
  }

  /** With a proxy list "a, b, ...", only the first entry counts, and its case and surrounding space do not. */
  lemma FirstForwardedProtoWins(first: string, rest: string, urlProtocol: Option<string>)
    requires ',' !in first && first != ""
    ensures ProtocolForApiAccess(Some(first + "," + rest), urlProtocol) == Strings.ToLower(Strings.Trim(first))
  {
    Strings.SplitAt(first, ',', rest);
    assert first + "," + rest == first + [','] + rest;
  }

  /** A single proxy entry such as " HTTPS" is itself the protocol, trimmed and lower-cased. */
  lemma SingleForwardedProto(v: string, urlProtocol: Option<string>)
    requires ',' !in v && v != ""
    ensures ProtocolForApiAccess(Some(v), urlProtocol) == Strings.ToLower(Strings.Trim(v))
  {
    Strings.SplitWithout(v, ',');
  }

  /**
   * Without the header, the request URL's scheme counts, lower-cased and
   * without the colon `URL.protocol` ends with; a URL that does not parse
   * gives "http".
   */
  lemma ProtocolFromUrl(forwardedProto: Option<string>, scheme: string)
    requires !Truthy(forwardedProto) && ':' !in scheme
    ensures ProtocolForApiAccess(forwardedProto, Some(scheme + ":")) == Strings.ToLower(scheme)
    ensures ProtocolForApiAccess(forwardedProto, None) == "http"
  {
    RemoveTrailingColon(scheme);
  }

  /** The colon removed is the first one, and every other character is kept in order. */
  lemma {:induction false} FirstColonRemoved(s: string, i: nat)
    requires i < |s| && s[i] == ':' && ':' !in s[..i]
    ensures RemoveFirstColon(s) == s[..i] + s[i + 1..]
    decreases i
  {
    if i > 0 {
      assert s[0] == s[..i][0];
      assert s[1..][..i - 1] == s[..i][1..];
      FirstColonRemoved(s[1..], i - 1);
      assert s[..i] == [s[0]] + s[1..][..i - 1];
      assert s[1..][i..] == s[i + 1..];
    }
  }

  lemma {:induction false} RemoveTrailingColon(s: string)
    requires ':' !in s
    ensures RemoveFirstColon(s + ":") == s
    decreases |s|
  {
    if s == [] {
      assert s + ":" == ":";
    } else {
      assert (s + ":")[1..] == s[1..] + ":";
      RemoveTrailingColon(s[1..]);
      assert [s[0]] + s[1..] == s;
    }
  }

  /** `host.split(":")`, trimmed: the name before the first colon, and the text up to a second colon (RFC 7230, section 5.4, host and port). */
  function HostName(host: string): (name: string)
    ensures ':' !in name
    ensures name == [] || (!Strings.IsSpace(name[0]) && !Strings.IsSpace(name[|name| - 1]))
  {
    var first := Strings.Split(host, ':')[0];
    Strings.SplitPiecesFree(host, ':');
    Strings.TrimKeepsOut(first, ':');
    Strings.TrimmedEnds(first);
    Strings.Trim(first)
  }

  /** The port: present exactly when the header has a colon, and without one itself. */
  function HostPort(host: string): (port: Option<string>)
    ensures port.Some? <==> ':' in host
    ensures port.Some? ==> ':' !in port.value
  {
    var parts := Strings.Split(host, ':');
    Strings.SplitCount(host, ':');
    if |parts| > 1 then
      Strings.SplitPiecesFree(host, ':');
      Strings.TrimKeepsOut(parts[1], ':');
      Some(Strings.Trim(parts[1]))
    else None
  }

  /** The EC2 development host, its name compared without case, on port "3000". */
  predicate IsEc2DevHost(host: string) {
    HostPort(host) == Some(Ec2DevPort) && Strings.ToLower(HostName(host)) == Ec2DevHostname
  }

  /** A local development host: the raw header starts with "localhost:" or "127.0.0.1:" (case-sensitively). */
  predicate IsLocalDevHost(host: string) {
    Strings.StartsWith(host, "localhost:") || Strings.StartsWith(host, "127.0.0.1:")
  }

  /** The protocol of the image URL: "http" on a development host, the access protocol elsewhere. */
  function ImageProtocol(apiProtocol: string, host: string): (p: string)
    ensures p == "http" || p == apiProtocol
    ensures p != apiProtocol ==> IsEc2DevHost(host) || IsLocalDevHost(host)
  {
    if IsEc2DevHost(host) || IsLocalDevHost(host) then "http" else apiProtocol
  }

  /** A host with a port is split at its first colon. */
  lemma HostParts(name: string, port: string)
    requires ':' !in name && ':' !in port
    ensures HostName(name + ":" + port) == Strings.Trim(name)
    ensures HostPort(name + ":" + port) == Some(Strings.Trim(port))
  {
    Strings.SplitAt(name, ':', port);
    Strings.SplitWithout(port, ':');
    assert name + ":" + port == name + [':'] + port;
  }

  /** Any port on "localhost:" or "127.0.0.1:" forces http, even when the API was reached over https. */
  lemma LocalHostsForceHttp(apiProtocol: string, port: string)
    ensures ImageProtocol(apiProtocol, "localhost:" + port) == "http"
    ensures ImageProtocol(apiProtocol, "127.0.0.1:" + port) == "http"
  {
    assert ("localhost:" + port)[..10] == "localhost:";
    assert ("127.0.0.1:" + port)[..10] == "127.0.0.1:";
  }

  /** Without a host header the URL names "localhost:3000" and so uses http, whatever the access protocol. */
  lemma MissingHostServedOverHttp(apiProtocol: string, host: Option<string>)
    requires !Truthy(host)
    ensures ImageProtocol(apiProtocol, HostOrDefault(host)) == "http"
  {
    var h := HostOrDefault(host);
    assert h[..10] == "localhost:";
    LocalHostForcesHttp(apiProtocol, h);
  }

  /** Any host that starts with "localhost:" or "127.0.0.1:" is served over http. */
  lemma LocalHostForcesHttp(apiProtocol: string, host: string)
    requires IsLocalDevHost(host)
    ensures ImageProtocol(apiProtocol, host) == "http"
  {
  }

  /** The EC2 development host on port 3000 forces http, however its name is capitalised. */
  lemma Ec2DevHostForcesHttp(apiProtocol: string, name: string)
    requires ':' !in name && Strings.ToLower(Strings.Trim(name)) == Ec2DevHostname
    ensures ImageProtocol(apiProtocol, name + ":" + Ec2DevPort) == "http"
  {
    Strings.TrimUnchanged(Ec2DevPort);
    HostMatches(name, Ec2DevPort, Ec2DevHostname, Ec2DevPort);
    Ec2HostForcesHttp(apiProtocol, name + ":" + Ec2DevPort);
  }

  /** A name and a port that compare equal to `target` and `targetPort` once trimmed (and the name lower-cased). */
  lemma HostMatches(name: string, port: string, target: string, targetPort: string)
    requires ':' !in name && ':' !in port
    requires Strings.ToLower(Strings.Trim(name)) == target && Strings.Trim(port) == targetPort
    ensures Strings.ToLower(HostName(name + ":" + port)) == target && HostPort(name + ":" + port) == Some(targetPort)
  {
    HostParts(name, port);
  }

  lemma Ec2HostForcesHttp(apiProtocol: string, host: string)
    requires IsEc2DevHost(host)
    ensures ImageProtocol(apiProtocol, host) == "http"
  {
  }

  /**
   * A host that is not a local one keeps the access protocol on any port
   * but "3000"; this covers the EC2 host on other ports.
   */
  lemma OtherPortKeepsProtocol(apiProtocol: string, name: string, port: string)
    requires ':' !in name && ':' !in port && Strings.Trim(port) != Ec2DevPort
    requires !IsLocalDevHost(name + ":" + port)
    ensures ImageProtocol(apiProtocol, name + ":" + port) == apiProtocol
  {
    NotEc2OnOtherPort(name, port);
    KeepsProtocol(apiProtocol, name + ":" + port);
  }

  /** A host that is neither kind of development host keeps the access protocol. */
  lemma KeepsProtocol(apiProtocol: string, host: string)
    requires !IsEc2DevHost(host) && !IsLocalDevHost(host)
    ensures ImageProtocol(apiProtocol, host) == apiProtocol
  {
  }

  lemma NotEc2OnOtherPort(name: string, port: string)
    requires ':' !in name && ':' !in port && Strings.Trim(port) != Ec2DevPort
    ensures !IsEc2DevHost(name + ":" + port)
  {
    HostParts(name, port);
  }

  /**
   * A host without a colon keeps the access protocol: it has no port, so it
   * is not the EC2 host, and the local prefixes both end in a colon.
   */
  lemma NoPortKeepsProtocol(apiProtocol: string, name: string)
    requires ':' !in name
    ensures ImageProtocol(apiProtocol, name) == apiProtocol
  {
    Strings.SplitWithout(name, ':');
    assert !IsEc2DevHost(name);
    ColonFreeNotLocal(name);
    KeepsProtocol(apiProtocol, name);
  }

  /** So a bare "localhost" or "127.0.0.1", without a port, is not forced to http. */
  lemma BareLocalHostsKeepProtocol(apiProtocol: string)
    ensures ImageProtocol(apiProtocol, "localhost") == apiProtocol
    ensures ImageProtocol(apiProtocol, "127.0.0.1") == apiProtocol
  {
    NoPortKeepsProtocol(apiProtocol, "localhost");
    NoPortKeepsProtocol(apiProtocol, "127.0.0.1");
  }

  /** A host without a colon starts with neither local prefix. */
  lemma ColonFreeNotLocal(host: string)
    requires ':' !in host
    ensures !IsLocalDevHost(host)
  {
    PrefixEndingInColon(host, "localhost:");
    PrefixEndingInColon(host, "127.0.0.1:");
  }

  lemma PrefixEndingInColon(host: string, prefix: string)
    requires ':' !in host && |prefix| >= 1 && prefix[|prefix| - 1] == ':'
    ensures !Strings.StartsWith(host, prefix)
  {
    if |prefix| <= |host| {
      assert host[..|prefix|][|prefix| - 1] == host[|prefix| - 1];
    }
  }

  /** A host whose first character is neither 'l' nor '1' is not a local development host. */
  lemma NotLocal(name: string, rest: string)
    requires |name| >= 1 && name[0] != 'l' && name[0] != '1'
    ensures !IsLocalDevHost(name + rest)
  {
    assert (name + rest)[0] == name[0];
  }

  /**
   * "LOCALHOST:<port>", or any other capitalisation starting with 'L', is
   * not a development host: the prefix test is case-sensitive, so the
   * image URL keeps the access protocol.
   */
  lemma CapitalisedLocalhostNotForced(apiProtocol: string, name: string, port: string)
    requires ':' !in name && ':' !in port && Strings.ToLower(name) == "localhost" && name[0] == 'L'
    ensures ImageProtocol(apiProtocol, name + ":" + port) == apiProtocol
  {
    LocalhostSpellingNotEc2(name, port);
    CapitalNotLocal(name, port);
    KeepsProtocol(apiProtocol, name + ":" + port);
  }

  lemma LocalhostSpellingNotEc2(name: string, port: string)
    requires ':' !in name && ':' !in port && Strings.ToLower(name) == "localhost"
    ensures !IsEc2DevHost(name + ":" + port)
  {
    assert |name| == |Strings.ToLower(name)| == 9;
    ShortNameNotEc2(name, port);
  }

  lemma CapitalNotLocal(name: string, port: string)
    requires |name| >= 1 && name[0] == 'L'
    ensures !IsLocalDevHost(name + ":" + port)
  {
    NotLocal(name, ":" + port);
    assert name + ":" + port == name + (":" + port);
  }

  lemma ShortNameNotEc2(name: string, port: string)
    requires ':' !in name && ':' !in port && |name| < |Ec2DevHostname|
    ensures !IsEc2DevHost(name + ":" + port)
  {
    HostParts(name, port);
  }

  /** The name the image is forwarded under: the upload's name, or "image.png" when it is empty. */
  function UploadName(image: ImageFile): (n: string)
    ensures n != ""
    ensures image.name != "" ==> n == image.name
  {
    if image.name != "" then image.name else DefaultUploadName
  }

  /** The downloaded image is usable: answered ok, with an "image/" content type and some bytes. */
  predicate UsableDownload(d: Download) {
    d.Downloaded? && d.ok && d.contentType.Some? && Strings.StartsWith(d.contentType.value, "image/") && d.size > 0
  }

  /** The URL for a stored output name, with the development-host override. */
  function ProcessedUrl(req: Request, outputFileName: string): (url: string)
    ensures url == FallbackUrl(req, outputFileName) || url == ImageUrl("http", HostOrDefault(req.host), outputFileName)
    ensures !Truthy(req.host) ==> url == ImageUrl("http", DefaultHost, outputFileName)
  {
    var h := HostOrDefault(req.host);
    var p := ProtocolForApiAccess(req.forwardedProto, req.urlProtocol);
    if Truthy(req.host) then ImageUrl(ImageProtocol(p, h), h, outputFileName)
    else
      MissingHostServedOverHttp(p, req.host);
      ImageUrl(ImageProtocol(p, h), h, outputFileName)
  }

  /** The URL for the fallback copy: the access protocol with no override. */
  function FallbackUrl(req: Request, outputFileName: string): (url: string)
    ensures !Truthy(req.forwardedProto) && req.urlProtocol.None? && !Truthy(req.host) ==>
      url == ImageUrl("http", DefaultHost, outputFileName)
  {
    var h := HostOrDefault(req.host);
    ImageUrl(ProtocolForApiAccess(req.forwardedProto, req.urlProtocol), h, outputFileName)
  }

  /** Off the development hosts the stored image and its fallback copy get the same URL. */
  lemma ProcessedIsFallbackElsewhere(req: Request, outputFileName: string)
    requires !IsEc2DevHost(HostOrDefault(req.host)) && !IsLocalDevHost(HostOrDefault(req.host))
    ensures ProcessedUrl(req, outputFileName) == FallbackUrl(req, outputFileName)
  {
  }

  /** The last resort: `result.data?.url || "/placeholder-error.png"`. */
  function BackendUrlOrPlaceholder(url: Option<string>): string {
    if Truthy(url) then url.value else PlaceholderUrl
  }

  /** The image the request carries, when the form is readable, has one, and its type is accepted. */
  predicate Accepted(req: Request) {
    req.form.Form? && req.form.image.Some? && req.form.image.value.mimeType in AllowedTypes
  }

  /**
   * The file operations after the backend answered ok with `url`: the
   * download is written when it is usable, and the backend's copy is
   * made unless that write succeeded.
   */
  function FinishEffects(url: Option<string>, outputFileName: string, net: Network, disk: Disk): seq<Effect> {
    var downloaded := Truthy(url) && UsableDownload(net.download(url.value));
    (if downloaded then [WriteOutput(outputFileName)] else []) +
    (if downloaded && disk.outputWriteOk then [] else [CopyToOutput(outputFileName)])
  }

  /** The reply and effects after the backend answered ok with `url`: the download path, then the two fallbacks. */
  method FinishFromBackend(req: Request, url: Option<string>, outputFileName: string, net: Network, disk: Disk)
    returns (effects: seq<Effect>, reply: Reply)
    ensures effects == FinishEffects(url, outputFileName, net, disk)
    ensures Truthy(url) && UsableDownload(net.download(url.value)) && disk.outputWriteOk ==>
      (effects == [WriteOutput(outputFileName)] && reply == UrlReply(SuccessMessage, ProcessedUrl(req, outputFileName)))
    ensures !(Truthy(url) && UsableDownload(net.download(url.value)) && disk.outputWriteOk) ==>
      (var tried := if Truthy(url) && UsableDownload(net.download(url.value)) then [WriteOutput(outputFileName)] else [];
       (disk.copyOk ==> (effects == tried + [CopyToOutput(outputFileName)] &&
          reply == UrlReply(FallbackMessage, FallbackUrl(req, outputFileName)))) &&
       (!disk.copyOk ==> (effects == tried + [CopyToOutput(outputFileName)] &&
          reply == UrlReply(NotSavedMessage, BackendUrlOrPlaceholder(url)))))
  {
    effects := [];
    var downloaded := false;
    if Truthy(url) {
      var d := net.download(url.value);
      if UsableDownload(d) {
        downloaded := true;
        effects := effects + [WriteOutput(outputFileName)];
        if disk.outputWriteOk {
          return effects, UrlReply(SuccessMessage, ProcessedUrl(req, outputFileName));
        }
      }
    }
    effects := effects + [CopyToOutput(outputFileName)];
    if disk.copyOk {
      reply := UrlReply(FallbackMessage, FallbackUrl(req, outputFileName));
    } else {
      reply := UrlReply(NotSavedMessage, BackendUrlOrPlaceholder(url));
    }
  }

  /**
   * `POST(req)`. An unreadable form, a failed temporary write or an
   * unparseable backend answer give 500. No image, or a type other than
   * JPEG or PNG, gives 400 with nothing written. Otherwise the image is
   * written as `temp-<ts>-<rnd><ext>` and posted to the backend's link
   * endpoint. An unreachable backend gives 500 with the error details; a
   * backend error gives HTTP 500 carrying the backend's status. Otherwise
   * the result is stored as `output-<ts>-<rnd><ext>`, with the same
   * timestamp, suffix and extension, and its URL is returned.
   */
  method Post(req: Request, env: Environment, net: Network, disk: Disk, ts: nat, fraction: nat)
    returns (effects: seq<Effect>, reply: Reply)
    requires fraction < 900000000
    ensures req.form.Unreadable? ==> effects == [] && reply == MessageReply(500, InternalErrorMessage)
    ensures req.form.Form? && req.form.image.None? ==> effects == [] && reply == MessageReply(400, NoImageMessage)
    ensures req.form.Form? && req.form.image.Some? && !Accepted(req) ==>
      effects == [] && reply == MessageReply(400, InvalidTypeMessage)
    ensures Accepted(req) ==>
      var image := req.form.image.value;
      var ext := FileExtension(image.name);
      var rnd := RandomSuffix(fraction);
      var endpoint := BackendServiceUrl(env) + LinkEndpoint;
      var answer := net.backend(endpoint, UploadName(image));
      |effects| >= 1 && effects[0] == WriteTemp(TempFileName(ts, rnd, ext)) &&
      (!disk.tempWriteOk ==> (effects == [effects[0]] && reply == MessageReply(500, InternalErrorMessage))) &&
      (disk.tempWriteOk ==> (|effects| >= 2 && effects[1] == PostToBackend(endpoint, UploadName(image)))) &&
      (disk.tempWriteOk && answer.Unreachable? ==>
        (|effects| == 2 && reply == Reply(500, RouteBody(500, UnreachableMessage, None, Some(answer.details))))) &&
      (disk.tempWriteOk && answer.Answered? && !answer.ok ==>
        (|effects| == 2 && reply == Reply(500, RouteBody(answer.status, BackendErrorMessage, None, None)))) &&
      (disk.tempWriteOk && answer.Answered? && answer.ok && answer.body.Unparseable? ==>
        (|effects| == 2 && reply == MessageReply(500, InternalErrorMessage))) &&
      (disk.tempWriteOk && answer.Answered? && answer.ok && answer.body.ParsedNull? ==>
        effects[2..] == [CopyToOutput(OutputFileName(ts, rnd, ext))] &&
        (disk.copyOk ==> reply == UrlReply(FallbackMessage, FallbackUrl(req, OutputFileName(ts, rnd, ext)))) &&
        (!disk.copyOk ==> reply == MessageReply(500, InternalErrorMessage))) &&
      (disk.tempWriteOk && answer.Answered? && answer.ok && answer.body.Parsed? ==>
        effects[2..] == FinishEffects(answer.body.url, OutputFileName(ts, rnd, ext), net, disk) &&
        (var url := answer.body.url;
         var processed := Truthy(url) && UsableDownload(net.download(url.value)) && disk.outputWriteOk;
         (processed ==> reply == UrlReply(SuccessMessage, ProcessedUrl(req, OutputFileName(ts, rnd, ext)))) &&
         (!processed && disk.copyOk ==> reply == UrlReply(FallbackMessage, FallbackUrl(req, OutputFileName(ts, rnd, ext)))) &&
         (!processed && !disk.copyOk ==> reply == UrlReply(NotSavedMessage, BackendUrlOrPlaceholder(url)))))
  {
    effects := [];
    if req.form.Unreadable? {
      return effects, MessageReply(500, InternalErrorMessage);
    }
    if req.form.image.None? {
      return effects, MessageReply(400, NoImageMessage);
    }
    var image := req.form.image.value;
    if image.mimeType !in AllowedTypes {
      return effects, MessageReply(400, InvalidTypeMessage);
    }
    var rnd := RandomSuffix(fraction);
    var fileExt := FileExtension(image.name);
    var tempFileName := TempFileName(ts, rnd, fileExt);
    effects := effects + [WriteTemp(tempFileName)];
    if !disk.tempWriteOk {
      return effects, MessageReply(500, InternalErrorMessage);
    }
    var backendServiceUrl := BackendServiceUrl(env);
    var endpoint := backendServiceUrl + LinkEndpoint;
    effects := effects + [PostToBackend(endpoint, UploadName(image))];
    var response := net.backend(endpoint, UploadName(image));
    var more;
    more, reply := HandleAnswer(req, response, OutputFileName(ts, rnd, fileExt), net, disk);
    effects := effects + more;
  }

  /**
   * What follows the backend call: a 500 with the error details when it
   * threw, a 500 carrying the backend's status when it answered with an
   * error, a 500 when its answer is not JSON, the copy fallback (or a 500
   * when the copy fails) when the answer is JSON `null`, and otherwise the
   * download and its fallbacks.
   */
  method HandleAnswer(req: Request, answer: BackendReply, outputFileName: string, net: Network, disk: Disk)
    returns (effects: seq<Effect>, reply: Reply)
    ensures answer.Unreachable? ==>
      effects == [] && reply == Reply(500, RouteBody(500, UnreachableMessage, None, Some(answer.details)))
    ensures answer.Answered? && !answer.ok ==>
      effects == [] && reply == Reply(500, RouteBody(answer.status, BackendErrorMessage, None, None))
    ensures answer.Answered? && answer.ok && answer.body.Unparseable? ==>
      effects == [] && reply == MessageReply(500, InternalErrorMessage)
    ensures answer.Answered? && answer.ok && answer.body.ParsedNull? ==>
      effects == [CopyToOutput(outputFileName)] &&
      (disk.copyOk ==> reply == UrlReply(FallbackMessage, FallbackUrl(req, outputFileName))) &&
      (!disk.copyOk ==> reply == MessageReply(500, InternalErrorMessage))
    ensures answer.Answered? && answer.ok && answer.body.Parsed? ==>
      effects == FinishEffects(answer.body.url, outputFileName, net, disk) &&
      (var url := answer.body.url;
       var processed := Truthy(url) && UsableDownload(net.download(url.value)) && disk.outputWriteOk;
       (processed ==> reply == UrlReply(SuccessMessage, ProcessedUrl(req, outputFileName))) &&
       (!processed && disk.copyOk ==> reply == UrlReply(FallbackMessage, FallbackUrl(req, outputFileName))) &&
       (!processed && !disk.copyOk ==> reply == UrlReply(NotSavedMessage, BackendUrlOrPlaceholder(url))))
  {
    effects := [];
    match answer
    case Unreachable(details) =>
      reply := Reply(500, RouteBody(500, UnreachableMessage, None, Some(details)));
    case Answered(ok, status, body) =>
      if !ok {
        reply := Reply(500, RouteBody(status, BackendErrorMessage, None, None));
      } else if body.Unparseable? {
        reply := MessageReply(500, InternalErrorMessage);
      } else if body.ParsedNull? {
        // `result.data.url` throws before any download; when the copy fails too,
        // `result.data?.url` throws again and the outer catch answers.
        effects := [CopyToOutput(outputFileName)];
        if disk.copyOk {
          reply := UrlReply(FallbackMessage, FallbackUrl(req, outputFileName));
        } else {
          reply := MessageReply(500, InternalErrorMessage);
        }
      } else {
        effects, reply := FinishFromBackend(req, body.url, outputFileName, net, disk);
      }
  }

  /** The temporary and the output file differ only in their prefix: they share timestamp, suffix and extension. */
  lemma TempAndOutputShareSuffix(ts: nat, rnd: nat, ext: string)
    ensures TempFileName(ts, rnd, ext)[4..] == OutputFileName(ts, rnd, ext)[6..]
  {
  }
}
