/**
 * The naming rules both Next.js upload routes share
 * (apps/frontend/app/api/remove-background/route.ts and
 * apps/frontend/app/api/mock-remove-background/route.ts): the file
 * extension taken from the uploaded name with `/\.[0-9a-z]+$/i`, the
 * nine-digit random suffix, the `temp-`/`output-` file names, the accepted
 * MIME types, the host default and the image URL; and the form input
 * and JSON reply both routes work on.
 */
module ImageNames {
  import opened Wrappers
  import Strings
  import NodePath

  /** The uploaded `File` under the form field "image". */
  datatype ImageFile = ImageFile(name: string, mimeType: string)

  /** `await req.formData()`: it throws on a body that is not a form; `get("image")` is null when absent. */
  datatype FormInput = Unreadable | Form(image: Option<ImageFile>)

  /** The JSON body of a route's answer. */
  datatype RouteBody = RouteBody(status: int, message: string, url: Option<string>, errorDetails: Option<string>)

  /** `NextResponse.json(body, { status })`. */
  datatype Reply = Reply(httpStatus: int, body: RouteBody)

  /** A reply whose HTTP status and body status agree and that carries only a message. */
  function MessageReply(status: int, message: string): (r: Reply)
    ensures r.httpStatus == r.body.status == status && r.body.message == message
    ensures r.body.url.None? && r.body.errorDetails.None?
  {
    Reply(status, RouteBody(status, message, None, None))
  }

  /** A 200 reply carrying `data.url`. */
  function UrlReply(message: string, url: string): (r: Reply)
    ensures r.httpStatus == r.body.status == 200 && r.body.message == message
    ensures r.body.url == Some(url) && r.body.errorDetails.None?
  {
    Reply(200, RouteBody(200, message, Some(url), None))
  }

  const AllowedTypes: seq<string> := ["image/jpeg", "image/png"]
  const DefaultExtension: string := ".png"
  const DefaultHost: string := "localhost:3000"

  /** A character of the class `[0-9a-z]` under the `i` flag: an ASCII letter or digit. */
  predicate IsAlnum(ch: char) {
    '0' <= ch <= '9' || 'a' <= ch <= 'z' || 'A' <= ch <= 'Z'
  }

  /** A string the regex `\.[0-9a-z]+` matches whole: a dot and one or more letters or digits. */
  predicate IsExtension(e: string) {
    |e| >= 2 && e[0] == '.' && forall i :: 1 <= i < |e| ==> IsAlnum(e[i])
  }

  /** The length of the longest run of letters and digits that ends `s`. */
  function AlnumRun(s: string): (k: nat)
    ensures k <= |s|
    ensures forall i :: |s| - k <= i < |s| ==> IsAlnum(s[i])
    ensures k < |s| ==> !IsAlnum(s[|s| - k - 1])
    decreases |s|
  {
    if |s| > 0 && IsAlnum(s[|s| - 1]) then AlnumRun(s[..|s| - 1]) + 1 else 0
  }

  /**
   * `name.match(/\.[0-9a-z]+$/i)?.[0] || ".png"`: the suffix of the name
   * made of a dot and the trailing letters and digits, or ".png" when the
   * name has no such suffix.
   */
  function FileExtension(name: string): (ext: string)
    ensures IsExtension(ext)
    ensures (exists k :: 0 <= k <= |name| && IsExtension(name[k..])) ==>
      |ext| <= |name| && ext == name[|name| - |ext|..]
    ensures !(exists k :: 0 <= k <= |name| && IsExtension(name[k..])) ==> ext == DefaultExtension
  {
    var k := AlnumRun(name);
    if k >= 1 && k < |name| && name[|name| - k - 1] == '.' then
      name[|name| - k - 1..]
    else
      assert forall j :: 0 <= j <= |name| ==> !IsExtension(name[j..]) by {
        forall j | 0 <= j <= |name| && IsExtension(name[j..])
          ensures false
        {
          ExtensionInRun(name, j, k);
        }
      }
      DefaultExtension
  }

  /** A suffix matching the regex starts exactly one character before the trailing run. */
  lemma ExtensionInRun(name: string, j: nat, k: nat)
    requires j <= |name| && IsExtension(name[j..])
    requires k == AlnumRun(name)
    ensures j == |name| - k - 1 && k >= 1 && name[j] == '.'
  {
    assert name[j] == name[j..][0];
    forall i | j + 1 <= i < |name|
      ensures IsAlnum(name[i])
    {
      assert name[i] == name[j..][i - j];
    }
  }

  /** Whatever precedes it, a name ending in a dot and letters or digits keeps that ending as its extension. */
  lemma ExtensionOfName(base: string, ext: string)
    requires IsExtension(ext)
    ensures FileExtension(base + ext) == ext
  {
    var name := base + ext;
    assert name[|base|..] == ext;
    var r := FileExtension(name);
    var k := AlnumRun(name);
    ExtensionInRun(name, |base|, k);
  }

  /** A name without a dot, or one ending in a dot or another character, gets ".png". */
  lemma NoExtensionDefaults(name: string)
    requires '.' !in name || (|name| > 0 && !IsAlnum(name[|name| - 1]))
    ensures FileExtension(name) == DefaultExtension
  {
    forall k | 0 <= k <= |name|
      ensures !IsExtension(name[k..])
    {
      if k < |name| {
        assert name[k] == name[k..][0];
        assert name[|name| - 1] == name[k..][|name| - 1 - k];
      }
    }
  }

  /** An upper-case extension is kept as written, not lower-cased. */
  lemma UpperCaseExtensionKept(base: string)
    ensures FileExtension(base + ".JPG") == ".JPG"
  {
    ExtensionOfName(base, ".JPG");
  }

  /** `Math.floor(Math.random() * 900000000) + 100000000`, for the drawn whole part `fraction`. */
  function RandomSuffix(fraction: nat): (rnd: nat)
    requires fraction < 900000000
    ensures 100000000 <= rnd <= 999999999
  {
    fraction + 100000000
  }

  /** The random suffix always prints as exactly nine digits. */
  lemma RandomSuffixDigits(fraction: nat)
    requires fraction < 900000000
    ensures |Strings.Decimal(RandomSuffix(fraction))| == 9
  {
    assert Strings.Pow10(8) == 100000000 && Strings.Pow10(9) == 1000000000 by {
      assert Strings.Pow10(4) == 10000;
    }
    Strings.DecimalLength(RandomSuffix(fraction), 9);
  }

  /** `-<ts>-<rnd><ext>`, the part the temporary and the output names share. */
  function NameSuffix(ts: nat, rnd: nat, ext: string): string {
    "-" + Strings.Decimal(ts) + "-" + Strings.Decimal(rnd) + ext
  }

  /** `temp-${timestamp}-${random}${fileExt}`. */
  function TempFileName(ts: nat, rnd: nat, ext: string): (name: string)
    ensures |name| > 5 && name[..5] == "temp-" && name[4..] == NameSuffix(ts, rnd, ext)
  {
    "temp" + NameSuffix(ts, rnd, ext)
  }

  /** `output-${timestamp}-${random}${fileExt}`. */
  function OutputFileName(ts: nat, rnd: nat, ext: string): (name: string)
    ensures |name| > 7 && name[..7] == "output-" && name[6..] == NameSuffix(ts, rnd, ext)
  {
    "output" + NameSuffix(ts, rnd, ext)
  }

  /**
   * Output names are distinct for distinct (timestamp, suffix, extension)
   * triples: the timestamp ends at the first '-' after "output-", the
   * suffix is the next nine characters and the extension the rest.
   */
  lemma OutputFileNameInjective(ts1: nat, f1: nat, e1: string, ts2: nat, f2: nat, e2: string)
    requires f1 < 900000000 && f2 < 900000000
    requires OutputFileName(ts1, RandomSuffix(f1), e1) == OutputFileName(ts2, RandomSuffix(f2), e2)
    ensures ts1 == ts2 && f1 == f2 && e1 == e2
  {
    var d1, d2 := Strings.Decimal(ts1), Strings.Decimal(ts2);
    var r1, r2 := Strings.Decimal(RandomSuffix(f1)), Strings.Decimal(RandomSuffix(f2));
    OutputTail(ts1, RandomSuffix(f1), e1);
    OutputTail(ts2, RandomSuffix(f2), e2);
    TimestampFirst(d1, r1 + e1, ts1);
    TimestampFirst(d2, r2 + e2, ts2);
    Strings.DecimalInjective(ts1, ts2);
    var t := OutputFileName(ts1, RandomSuffix(f1), e1)[7..];
    assert r1 + e1 == t[|d1| + 1..] == r2 + e2;
    RandomSuffixDigits(f1);
    RandomSuffixDigits(f2);
    assert r1 == (r1 + e1)[..9] && r2 == (r2 + e2)[..9];
    assert e1 == (r1 + e1)[9..] && e2 == (r2 + e2)[9..];
    Strings.DecimalInjective(RandomSuffix(f1), RandomSuffix(f2));
  }

  /** After "output-", an output name is the timestamp, a '-', and the rest. */
  lemma OutputTail(ts: nat, rnd: nat, ext: string)
    ensures |OutputFileName(ts, rnd, ext)| >= 7
    ensures OutputFileName(ts, rnd, ext)[7..] == Strings.Decimal(ts) + "-" + (Strings.Decimal(rnd) + ext)
  {
    var t := Strings.Decimal(ts) + "-" + (Strings.Decimal(rnd) + ext);
    Regroup("output", "-", Strings.Decimal(ts), Strings.Decimal(rnd), ext);
    assert "output" + "-" == "output-";
    assert ("output-" + t)[7..] == t;
  }

  /** The pieces of a name, grouped after its prefix and first dash. */
  lemma Regroup(o: string, dash: string, d: string, r: string, e: string)
    ensures o + (dash + d + dash + r + e) == (o + dash) + (d + dash + (r + e))
  {
  }

  /** The timestamp's digits are the first '-'-separated piece, so they can be read back. */
  lemma TimestampFirst(d: string, x: string, ts: nat)
    requires d == Strings.Decimal(ts)
    ensures Strings.Split(d + "-" + x, '-')[0] == d
  {
    Strings.DecimalDigits(ts);
    assert '-' !in d by {
      forall i | 0 <= i < |d| ensures d[i] != '-' {
        assert Strings.IsDigit(d[i]);
      }
    }
    Strings.SplitAt(d, '-', x);
  }

  /** `req.headers.get("host") || "localhost:3000"`: a missing or empty host header is replaced. */
  function HostOrDefault(host: Option<string>): (h: string)
    ensures h != ""
    ensures host.Some? && host.value != "" ==> h == host.value
  {
    if host.Some? && host.value != "" then host.value else DefaultHost
  }

  /** `${protocol}://${host}/images-output/${fileName}`. */
  function ImageUrl(protocol: string, host: string, fileName: string): (url: string)
    ensures |url| == |protocol| + 3 + |host| + 15 + |fileName|
    ensures url[..|protocol| + 3] == protocol + "://"
    ensures url[|protocol| + 3..|protocol| + 3 + |host|] == host
    ensures url[|url| - |fileName| - 15..] == "/images-output/" + fileName
  {
    protocol + "://" + host + "/images-output/" + fileName
  }

  /** An output name with an extension from `FileExtension` is a bare file name: its own basename. */
  lemma OutputNameIsBasename(dir: string, ts: nat, rnd: nat, uploaded: string)
    ensures '/' !in OutputFileName(ts, rnd, FileExtension(uploaded))
    ensures NodePath.Basename(dir + "/" + OutputFileName(ts, rnd, FileExtension(uploaded)))
            == OutputFileName(ts, rnd, FileExtension(uploaded))
  {
    var ext := FileExtension(uploaded);
    Strings.DecimalDigits(ts);
    Strings.DecimalDigits(rnd);
    var name := OutputFileName(ts, rnd, ext);
    assert name == "output-" + Strings.Decimal(ts) + "-" + Strings.Decimal(rnd) + ext;
    assert forall i :: 0 <= i < |name| ==> name[i] != '/';
    NodePath.BasenameOfJoin(dir, name);
  }
}
