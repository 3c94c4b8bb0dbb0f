/**
 * The mock upload route of the frontend
 * (apps/frontend/app/api/mock-remove-background/route.ts): it validates the
 * uploaded image, stores it unchanged under a fresh output name, waits a
 * second and answers with the image's URL. The protocol of that URL is
 * "http" when the host header mentions "localhost", "https" otherwise.
 */
module MockRemoveBackground {
  import opened Wrappers
  import Strings
  import opened ImageNames

  /** The effects the route performs, in order. */
  datatype Effect = CreateOutputDir | WriteOutput(fileName: string) | Wait(milliseconds: nat)

  const NoImageMessage: string := "No image provided"
  const InvalidTypeMessage: string := "Invalid file type. Only JPEG and PNG are allowed."
  const SuccessMessage: string := "Imagen procesada correctamente..."
  const FailureMessage: string := "Error processing image"

  /** `host.includes("localhost") ? "http" : "https"`. */
  function MockProtocol(host: string): (p: string)
    ensures p == "http" <==> exists i :: Strings.OccursAt(host, "localhost", i)
    ensures p == "http" || p == "https"
  {
    if Strings.Includes(host, "localhost") then "http" else "https"
  }

  /** The default host, and any host with "localhost" anywhere in it (even inside another name), is served over http. */
  lemma LocalhostAnywhereIsHttp(before: string, after: string)
    ensures MockProtocol(before + "localhost" + after) == "http"
    ensures MockProtocol(DefaultHost) == "http"
  {
    assert Strings.OccursAt(before + "localhost" + after, "localhost", |before|) by {
      assert (before + "localhost" + after)[|before|..|before| + 9] == "localhost";
    }
    assert Strings.OccursAt(DefaultHost, "localhost", 0);
  }

  /** The URL of a stored output: `<proto>://<host>/images-output/output-<ts>-<rnd><ext>`. */
  function MockUrl(host: Option<string>, ts: nat, rnd: nat, uploadedName: string): (url: string)
    ensures var name := OutputFileName(ts, rnd, FileExtension(uploadedName));
      url == ImageUrl("http", HostOrDefault(host), name) || url == ImageUrl("https", HostOrDefault(host), name)
    ensures host.None? || host == Some("") ==>
      url == ImageUrl("http", DefaultHost, OutputFileName(ts, rnd, FileExtension(uploadedName)))
  {
    var h := HostOrDefault(host);
    assert h == DefaultHost ==> Strings.OccursAt(h, "localhost", 0);
    ImageUrl(MockProtocol(h), h, OutputFileName(ts, rnd, FileExtension(uploadedName)))
  }

  /**
   * `POST(req)`. `fraction` is the whole part drawn from `Math.random()`,
   * `writeOk` whether `writeFileSync` succeeds. An unreadable form or a
   * failed write gives 500; no image, or a type other than JPEG or PNG,
   * gives 400 before any file is touched; otherwise the image is written
   * under its output name, the route waits one second and answers 200 with
   * the URL of that name.
   */
  method Post(form: FormInput, outputDirExists: bool, ts: nat, fraction: nat, writeOk: bool, host: Option<string>)
    returns (effects: seq<Effect>, reply: Reply)
    requires fraction < 900000000
    ensures form.Unreadable? ==> effects == [] && reply == MessageReply(500, FailureMessage)
    ensures form.Form? && form.image.None? ==> effects == [] && reply == MessageReply(400, NoImageMessage)
    ensures form.Form? && form.image.Some? && form.image.value.mimeType !in AllowedTypes ==>
      effects == [] && reply == MessageReply(400, InvalidTypeMessage)
    ensures form.Form? && form.image.Some? && form.image.value.mimeType in AllowedTypes ==>
      var name := OutputFileName(ts, RandomSuffix(fraction), FileExtension(form.image.value.name));
      var written := (if outputDirExists then [] else [CreateOutputDir]) + [WriteOutput(name)];
      (writeOk ==> (effects == written + [Wait(1000)] &&
        reply == UrlReply(SuccessMessage, MockUrl(host, ts, RandomSuffix(fraction), form.image.value.name)))) &&
      (!writeOk ==> (effects == written && reply == MessageReply(500, FailureMessage)))
  {
    effects := [];
    if form.Unreadable? {
      return effects, MessageReply(500, FailureMessage);
    }
    if form.image.None? {
      return effects, MessageReply(400, NoImageMessage);
    }
    var image := form.image.value;
    if image.mimeType !in AllowedTypes {
      return effects, MessageReply(400, InvalidTypeMessage);
    }
    if !outputDirExists {
      effects := effects + [CreateOutputDir];
    }
    var rnd := RandomSuffix(fraction);
    var ext := FileExtension(image.name);
    var outputFileName := OutputFileName(ts, rnd, ext);
    effects := effects + [WriteOutput(outputFileName)];
    if !writeOk {
      return effects, MessageReply(500, FailureMessage);
    }
    var h := HostOrDefault(host);
    var protocol := MockProtocol(h);
    var imageUrl := ImageUrl(protocol, h, outputFileName);
    effects := effects + [Wait(1000)];
    reply := UrlReply(SuccessMessage, imageUrl);
  }
}
