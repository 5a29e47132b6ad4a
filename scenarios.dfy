/**
 * Concrete answers of the filter and concrete invocations of the handler,
 * derived from the general definitions. The file names and directories are
 * concrete; where a lemma takes a stem, a name or the URL's host as a
 * parameter, it holds for every value its requires admits.
 */
module Scenarios {
  import opened Common
  import opened Eligibility
  import opened Targets
  import opened Dispatcher

  // ---------------------------------------------------------------------------
  // The filter

  /** `.TXT`, `.Docx` and `.PPT` are accepted: letter case does not matter. */
  lemma CaseVariantsAccepted(stem: string, ext: string)
    requires ext == "TXT" || ext == "Docx" || ext == "PPT"
    ensures ShouldConvert(stem + "." + ext)
  {
    if ext == "TXT" {
      assert SameIgnoringCase(ext, "txt");
    } else if ext == "Docx" {
      assert SameIgnoringCase(ext, "docx");
    } else {
      assert SameIgnoringCase(ext, "ppt");
    }
    AllowedExtensionConverted(stem, ext);
  }

  /** `.pptx`, `.docxx` and `.xtxt` are accepted too: a word has only to occur in the token. */
  lemma LongerTokensAccepted(stem: string, ext: string)
    requires ext == "pptx" || ext == "docxx" || ext == "xtxt"
    ensures ShouldConvert(stem + "." + ext)
  {
    if ext == "pptx" {
      assert ContainsIgnoreCase("pptx", "ppt");
      ShouldConvertNamed(stem, "pptx");
    } else if ext == "docxx" {
      assert ContainsIgnoreCase("docxx", "docx");
      ShouldConvertNamed(stem, "docxx");
    } else {
      assert ContainsIgnoreCase("xtxt", "txt");
      ShouldConvertNamed(stem, "xtxt");
    }
  }

  /** The empty URL and a name without a dot are refused. */
  lemma NoDotRejected(s: string)
    requires s == "" || s == "readme"
    ensures !ShouldConvert(s)
  {
    assert forall k :: 0 <= k < |s| ==> s[k] != '.';
    NoExtensionNotConverted(s);
  }

  /** A PDF under a directory called "docx" is refused: only the extension counts. */
  lemma DirectoryNameIgnored(name: string)
    ensures !ShouldConvert("docx/" + name + ".pdf")
  {
    PdfNotConverted("docx/" + name);
  }

  /** A name ending in its dot has an empty extension and is refused. */
  lemma TrailingDotRejected(stem: string)
    ensures !ShouldConvert(stem + ".")
  {
    var s := stem + ".";
    assert LastDotAt(s, |s| - 1);
  }

  // ---------------------------------------------------------------------------
  // A report in a subdirectory: `https://<account>/docs/reports/q1.docx`

  /** The report's URL in an account whose host name is `account`. */
  function ReportUrl(account: string): string {
    Format(BlobUrl("https", account, "docs", "reports/q1.docx"))
  }

  /** Where the report's PDF belongs with prefix "converted". */
  const reportTarget := Locator("docs", "converted/reports/q1.docx.pdf")

  /** The report's URL ends in the segment "q1.docx". */
  lemma ReportUrlSegments(account: string)
    ensures ReportUrl(account) == ("https" + "://" + account + "/" + "docs" + "/" + "reports") + ['/'] + ("q1" + "." + "docx")
  {
    assert "reports/q1.docx" == "reports" + ['/'] + ("q1" + "." + "docx");
  }

  /** The report passes the filter. */
  lemma ReportEligible(account: string)
    ensures ShouldConvert(ReportUrl(account))
  {
    ReportUrlSegments(account);
    AllowedExtensionConverted("q1", "docx");
    OnlyLastSegmentCounts("https" + "://" + account + "/" + "docs" + "/" + "reports", '/', "q1" + "." + "docx");
  }

  /** With prefix "converted", the report's PDF goes to `docs` as `converted/reports/q1.docx.pdf`. */
  lemma ReportResolved(account: string)
    requires account != [] && '/' !in account
    ensures Resolve(Some("converted"), ReportUrl(account)) == Ok(reportTarget)
  {
    assert "converted" + "/" + "reports/q1.docx" + ".pdf" == reportTarget.path;
    var u := BlobUrl("https", account, "docs", "reports/q1.docx");
    assert WellFormed(u);
    ResolveFormatted(Some("converted"), u);
  }

  /** A report that renders is uploaded, once, to `docs` / `converted/reports/q1.docx.pdf`. */
  lemma ReportConverted(svc: Services, account: string, doc: Bytes, pdf: Bytes)
    requires account != [] && '/' !in account
    requires svc.accountFault.None? && svc.convert(doc) == Ok(pdf)
    requires svc.uploadFault(reportTarget, pdf).None?
    ensures Dispatch(svc, Some("converted"), ReportUrl(account), Some(doc)) == Upload(doc, reportTarget, pdf)
  {
    ReportEligible(account);
    ReportResolved(account);
  }

  /** A corrupt report stops at the render. */
  lemma CorruptReportFails(svc: Services, account: string, doc: Bytes, f: Fault)
    requires account != [] && '/' !in account
    requires svc.accountFault.None? && svc.convert(doc) == Err(f)
    ensures Dispatch(svc, Some("converted"), ReportUrl(account), Some(doc)) == FailRender(doc, f)
  {
    ReportEligible(account);
    ReportResolved(account);
  }

  /** A run that stops at the render has rendered, logged the fault and raised it, and stored nothing. */
  lemma StoppedAtRender(o: Outcome, doc: Bytes, f: Fault, blobs: map<Locator, Bytes>)
    requires o == FailRender(doc, f)
    ensures Calls(o) == [RenderCall(doc), LogCall(FailureNotice(f))]
    ensures StatusOf(o) == Raised(f) && StoreAfter(blobs, o) == blobs
  {
  }

  /** A corrupt report: the render fails, its fault is logged and raised, and nothing is uploaded. */
  lemma CorruptReportRaised(svc: Services, account: string, doc: Bytes, f: Fault, blobs: map<Locator, Bytes>)
    requires account != [] && '/' !in account
    requires svc.accountFault.None? && svc.convert(doc) == Err(f)
    ensures var o := Dispatch(svc, Some("converted"), ReportUrl(account), Some(doc));
            Calls(o) == [RenderCall(doc), LogCall(FailureNotice(f))] &&
            StatusOf(o) == Raised(f) && StoreAfter(blobs, o) == blobs
  {
    CorruptReportFails(svc, account, doc, f);
    StoppedAtRender(Dispatch(svc, Some("converted"), ReportUrl(account), Some(doc)), doc, f, blobs);
  }

  // ---------------------------------------------------------------------------
  // An image: `https://<account>/docs/image.png`

  /** The image's URL in an account whose host name is `account`. */
  function ImageUrl(account: string): string {
    Format(BlobUrl("https", account, "docs", "image.png"))
  }

  /** A PNG is refused by the filter, whatever its stem. */
  lemma PngRejected(stem: string)
    ensures !ShouldConvert(stem + "." + "png")
  {
    assert !MatchesPattern("png") by {
      assert Lower("png"[0]) != Lower("txt"[0]);
      assert Lower("png"[1]) != Lower("ppt"[1]);
    }
    ShouldConvertNamed(stem, "png");
  }

  /** The image's URL ends in the segment "image.png". */
  lemma ImageUrlSegments(account: string)
    ensures ImageUrl(account) == ("https" + "://" + account + "/" + "docs") + ['/'] + ("image" + "." + "png")
  {
    assert "image.png" == "image" + "." + "png";
  }

  /** The image is refused by the filter. */
  lemma ImageIneligible(account: string)
    ensures !ShouldConvert(ImageUrl(account))
  {
    ImageUrlSegments(account);
    PngRejected("image");
    OnlyLastSegmentCounts("https" + "://" + account + "/" + "docs", '/', "image" + "." + "png");
  }

  /** The image's run logs one skip notice, calls nothing else and completes. */
  lemma ImageSkipped(svc: Services, prefix: Option<string>, account: string, doc: Bytes)
    ensures Calls(Dispatch(svc, prefix, ImageUrl(account), Some(doc))) == [LogCall(SkipNotice(ImageUrl(account)))]
    ensures StatusOf(Dispatch(svc, prefix, ImageUrl(account), Some(doc))) == Completed
  {
    ImageIneligible(account);
  }
}
