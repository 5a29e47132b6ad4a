/**
 * The target resolver: the converted PDF goes to the container named like
 * the source blob's container, under `<prefix>/<blob name>.pdf`. A blob URL is read as
 * `scheme "://" authority "/" container "/" name`, where the name keeps any
 * further `/` (subdirectories).
 */
module Targets {
  import opened Common
  import Eligibility

  /** A blob URL taken apart. */
  datatype BlobUrl = BlobUrl(scheme: string, authority: string, container: string, name: string)

  /** The parts a blob URL can be put together from and taken apart into again. */
  predicate WellFormed(u: BlobUrl) {
    u.scheme != [] && ':' !in u.scheme &&
    u.authority != [] && '/' !in u.authority &&
    u.container != [] && '/' !in u.container &&
    u.name != []
  }

  /** The URL that names the blob. */
  function Format(u: BlobUrl): string {
    u.scheme + "://" + u.authority + "/" + u.container + "/" + u.name
  }

  /** `Format` read as the three cuts `ParseBlobUrl` makes. */
  lemma FormatNested(u: BlobUrl)
    ensures Format(u) == u.scheme + [':'] + ("//" + (u.authority + ['/'] + (u.container + ['/'] + u.name)))
  {
    assert "://" == [':'] + "//";
    assert "/" == ['/'];
  }

  /** `s` cut at the first `c`, or `None` when `c` does not occur. */
  function SplitFirst(s: string, c: char): (r: Option<(string, string)>)
    ensures r.None? <==> c !in s
    ensures r.Some? ==> c !in r.value.0 && s == r.value.0 + [c] + r.value.1
  {
    if s == [] then None
    else if s[0] == c then Some(([], s[1..]))
    else
      match SplitFirst(s[1..], c)
      case None => None
      case Some((before, after)) => Some(([s[0]] + before, after))
  }

  /** Cutting at the first `c` undoes gluing with a `c` onto a `c`-free front. */
  lemma {:induction false} SplitFirstJoin(a: string, c: char, b: string)
    requires c !in a
    ensures SplitFirst(a + [c] + b, c) == Some((a, b))
  {
    var s := a + [c] + b;
    if a == [] {
      assert s[1..] == b;
    } else {
      assert s[0] == a[0] && s[1..] == a[1..] + [c] + b;
      SplitFirstJoin(a[1..], c, b);
      assert [a[0]] + a[1..] == a;
    }
  }

  /** `new CloudBlob(new Uri(url))`, reduced to splitting at `:`, `//` and `/`. */
  function ParseBlobUrl(url: string): (r: Result<BlobUrl, Fault>)
    ensures r.Ok? ==> WellFormed(r.value) && Format(r.value) == url
    ensures r.Err? ==> r.error == InputError(url)
  {
    match SplitFirst(url, ':')
    case None => Err(InputError(url))
    case Some((scheme, rest)) =>
      if scheme == [] || |rest| < 2 || rest[..2] != "//" then Err(InputError(url))
      else
        assert rest == "//" + rest[2..];
        match SplitFirst(rest[2..], '/')
        case None => Err(InputError(url))
        case Some((authority, path)) =>
          match SplitFirst(path, '/')
          case None => Err(InputError(url))
          case Some((container, name)) =>
            if authority == [] || container == [] || name == [] then Err(InputError(url))
            else
              FormatNested(BlobUrl(scheme, authority, container, name));
              Ok(BlobUrl(scheme, authority, container, name))
  }

  /** Every well-formed blob URL is read back into exactly its parts. */
  lemma ParseFormat(u: BlobUrl)
    requires WellFormed(u)
    ensures ParseBlobUrl(Format(u)) == Ok(u)
  {
    var path := u.container + ['/'] + u.name;
    var rest := "//" + (u.authority + ['/'] + path);
    FormatNested(u);
    SplitFirstJoin(u.scheme, ':', rest);
    assert rest[..2] == "//";
    assert rest[2..] == u.authority + ['/'] + path;
    SplitFirstJoin(u.authority, '/', path);
    SplitFirstJoin(u.container, '/', u.name);
  }

  /** A URL is rejected exactly when no well-formed blob URL spells it. */
  lemma ParseRejectsExactly(url: string)
    ensures ParseBlobUrl(url).Err? <==> forall u :: WellFormed(u) ==> Format(u) != url
  {
    if u :| WellFormed(u) && Format(u) == url {
      ParseFormat(u);
    }
  }

  /** `TARGET_PATH_PREFIX` as C# concatenates it: an unset variable reads as null, and null concatenates as "". */
  function PrefixText(prefix: Option<string>): string {
    if prefix.Some? then prefix.value else ""
  }

  /** `GetTargetContainerNameFromUrl`: the container of the source blob. */
  function TargetContainerName(url: string): (r: Result<string, Fault>)
    ensures r.Ok? <==> ParseBlobUrl(url).Ok?
    ensures r.Err? ==> r.error == InputError(url)
    ensures r.Ok? ==> r.value != [] && '/' !in r.value
  {
    match ParseBlobUrl(url)
    case Err(f) => Err(f)
    case Ok(u) => Ok(u.container)
  }

  /** `GetTargetBlobNameFromUrl`: `<prefix>/<source blob name>.pdf`. */
  function TargetBlobName(prefix: Option<string>, url: string): (r: Result<string, Fault>)
    ensures r.Ok? <==> ParseBlobUrl(url).Ok?
    ensures r.Err? ==> r.error == InputError(url)
    ensures r.Ok? ==>
      var p := PrefixText(prefix) + "/";
      |r.value| > |p| + 4 && r.value[..|p|] == p && r.value[|r.value| - 4..] == ".pdf"
  {
    match ParseBlobUrl(url)
    case Err(f) => Err(f)
    case Ok(u) => Ok(PrefixText(prefix) + "/" + u.name + ".pdf")
  }

  /**
   * For a URL put together from its parts, the container is the source's own
   * and the target name is the prefix, a slash, the whole source name
   * (subdirectories included) and ".pdf".
   */
  lemma ResolveFormatted(prefix: Option<string>, u: BlobUrl)
    requires WellFormed(u)
    ensures TargetContainerName(Format(u)) == Ok(u.container)
    ensures TargetBlobName(prefix, Format(u)) == Ok(PrefixText(prefix) + "/" + u.name + ".pdf")
  {
    ParseFormat(u);
  }

  /** The source name sits whole between the prefix and ".pdf". */
  lemma TargetNameHoldsSourceName(prefix: Option<string>, url: string)
    requires ParseBlobUrl(url).Ok?
    ensures var r := TargetBlobName(prefix, url).value;
            var p := PrefixText(prefix) + "/";
            r[|p|..|r| - 4] == ParseBlobUrl(url).value.name
  {
    var p := PrefixText(prefix) + "/";
    var n := ParseBlobUrl(url).value.name;
    var r := TargetBlobName(prefix, url).value;
    assert r == p + n + ".pdf";
    assert r[|p|..|r| - 4] == n;
  }

  /**
   * The uploaded PDF lands in a container named like the source's; should
   * that raise a new blob-created event, its URL is never eligible, so
   * conversion does not feed on its own output.
   */
  lemma OutputNotReconverted(prefix: Option<string>, url: string)
    requires ParseBlobUrl(url).Ok?
    ensures var u := ParseBlobUrl(url).value;
            !Eligibility.ShouldConvert(Format(u.(name := TargetBlobName(prefix, url).value)))
  {
    var u := ParseBlobUrl(url).value;
    var n := PrefixText(prefix) + "/" + u.name;
    assert TargetBlobName(prefix, url).value == n + ".pdf";
    assert Format(u.(name := n + ".pdf")) == Format(u.(name := n)) + ".pdf";
    Eligibility.PdfNotConverted(Format(u.(name := n)));
  }
}
