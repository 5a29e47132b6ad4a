/**
 * The event handler `Run`: on a blob-created event it converts an eligible
 * document to PDF and uploads it to a container named like the source's,
 * skips an ineligible one with a notice, and does nothing when the blob's
 * content stream is absent.
 * Any exception on the way is logged and raised again.
 *
 * The collaborators it cannot see (the storage account, the document
 * library, the storage service, the logger) are gathered in a `Host` object
 * that records every call made to it. `Dispatch` is the plan a run carries
 * out, as a function of the collaborators' answers, and `Run` is proved to
 * carry out exactly that plan.
 */
module Dispatcher {
  import opened Common
  import opened Eligibility
  import opened Targets

  /** Where a blob lives: its container and its name in that container. */
  datatype Locator = Locator(container: string, path: string)

  datatype LogEntry =
    | SkipNotice(url: string)       // "Will NOT convert: <url>"
    | FailureNotice(fault: Fault)   // the message of the exception caught

  /** A call the handler makes to a collaborator. */
  datatype Call =
    | RenderCall(document: Bytes)
    | UploadCall(target: Locator, data: Bytes)
    | LogCall(entry: LogEntry)

  /** How the invocation ends: normally, or with an exception for the host. */
  datatype Status = Completed | Raised(fault: Fault)

  /** The collaborators' answers, as functions of what they are asked. */
  datatype Services = Services(
    accountFault: Option<Fault>,                  // CloudStorageAccount.Parse on the connection string
    convert: Bytes -> Result<Bytes, Fault>,       // WordDocument, ConvertToPDF and Save on the content
    uploadFault: (Locator, Bytes) -> Option<Fault> // UploadFromStreamAsync to a target
  )

  /** What one invocation does. */
  datatype Outcome =
    | NoOp                                                        // no content stream
    | Skip(url: string)                                           // not eligible
    | Upload(document: Bytes, target: Locator, pdf: Bytes)        // converted and stored
    | FailBeforeRender(fault: Fault)                              // account or URL rejected
    | FailRender(document: Bytes, fault: Fault)                   // the document library failed
    | FailUpload(document: Bytes, target: Locator, pdf: Bytes, fault: Fault) // the upload failed

  /** Where the PDF of a well-formed blob URL belongs: the container of the source's name, `<prefix>/<name>.pdf`. */
  ghost function Destination(prefix: Option<string>, url: string): Locator
    requires ParseBlobUrl(url).Ok?
  {
    var u := ParseBlobUrl(url).value;
    Locator(u.container, PrefixText(prefix) + "/" + u.name + ".pdf")
  }

  /**
   * The destination of the PDF: `GetTargetContainerNameFromUrl` first, then
   * `GetTargetBlobNameFromUrl`; the first to fail gives the fault.
   */
  function Resolve(prefix: Option<string>, url: string): (r: Result<Locator, Fault>)
    ensures r.Ok? <==> ParseBlobUrl(url).Ok?
    ensures r.Ok? ==> r.value == Destination(prefix, url)
    ensures r.Err? ==> r.error == InputError(url)
  {
    match TargetContainerName(url)
    case Err(f) => Err(f)
    case Ok(container) =>
      match TargetBlobName(prefix, url)
      case Err(f) => Err(f)
      case Ok(name) => Ok(Locator(container, name))
  }

  /**
   * The steps of `Run` once the filter has answered and the destination has
   * been resolved, in the order the handler takes them.
   */
  function Plan(svc: Services, url: string, input: Option<Bytes>, eligible: bool, target: Result<Locator, Fault>): Outcome {
    if input.None? then NoOp
    else if !eligible then Skip(url)
    else if svc.accountFault.Some? then FailBeforeRender(svc.accountFault.value)
    else if target.Err? then FailBeforeRender(target.error)
    else
      match svc.convert(input.value)
      case Err(f) => FailRender(input.value, f)
      case Ok(pdf) =>
        match svc.uploadFault(target.value, pdf)
        case Some(f) => FailUpload(input.value, target.value, pdf, f)
        case None => Upload(input.value, target.value, pdf)
  }

  /** What one invocation of `Run` does. */
  function Dispatch(svc: Services, prefix: Option<string>, url: string, input: Option<Bytes>): Outcome {
    Plan(svc, url, input, ShouldConvert(url), Resolve(prefix, url))
  }

  /** The calls an outcome makes, in order; a failure ends with its notice. */
  function Calls(o: Outcome): seq<Call> {
    match o
    case NoOp => []
    case Skip(url) => [LogCall(SkipNotice(url))]
    case Upload(d, t, p) => [RenderCall(d), UploadCall(t, p)]
    case FailBeforeRender(f) => [LogCall(FailureNotice(f))]
    case FailRender(d, f) => [RenderCall(d), LogCall(FailureNotice(f))]
    case FailUpload(d, t, p, f) => [RenderCall(d), UploadCall(t, p), LogCall(FailureNotice(f))]
  }

  function StatusOf(o: Outcome): Status {
    match o
    case FailBeforeRender(f) => Raised(f)
    case FailRender(_, f) => Raised(f)
    case FailUpload(_, _, _, f) => Raised(f)
    case _ => Completed
  }

  /** The store's blobs after an outcome: a single upload is one atomic write. */
  function StoreAfter(blobs: map<Locator, Bytes>, o: Outcome): map<Locator, Bytes> {
    if o.Upload? then blobs[o.target := o.pdf] else blobs
  }

  /** A call that logs a failure notice. */
  predicate IsFailureNotice(c: Call) {
    c.LogCall? && c.entry.FailureNotice?
  }

  /** The uploads among `calls`, in order. */
  function Uploads(calls: seq<Call>): seq<(Locator, Bytes)> {
    if calls == [] then []
    else (if calls[0].UploadCall? then [(calls[0].target, calls[0].data)] else []) + Uploads(calls[1..])
  }

  /** The collaborators of one invocation, with a record of every call made to them. */
  class Host {
    const services: Services
    var blobs: map<Locator, Bytes>
    var trace: seq<Call>

    constructor (services: Services, blobs: map<Locator, Bytes>)
      ensures this.services == services && this.blobs == blobs && trace == []
    {
      this.services := services;
      this.blobs := blobs;
      trace := [];
    }

    /** The document library: load the content, convert it, save the PDF. */
    method Render(document: Bytes) returns (r: Result<Bytes, Fault>)
      modifies this`trace
      ensures r == services.convert(document)
      ensures trace == old(trace) + [RenderCall(document)]
    {
      r := services.convert(document);
      trace := trace + [RenderCall(document)];
    }

    /** `UploadFromStreamAsync`: the blob is written whole or not at all. */
    method Upload(target: Locator, data: Bytes) returns (fault: Option<Fault>)
      modifies this`trace, this`blobs
      ensures fault == services.uploadFault(target, data)
      ensures trace == old(trace) + [UploadCall(target, data)]
      ensures blobs == if fault.None? then old(blobs)[target := data] else old(blobs)
    {
      fault := services.uploadFault(target, data);
      trace := trace + [UploadCall(target, data)];
      if fault.None? {
        blobs := blobs[target := data];
      }
    }

    method LogInformation(entry: LogEntry)
      modifies this`trace
      ensures trace == old(trace) + [LogCall(entry)]
    {
      trace := trace + [LogCall(entry)];
    }
  }

  /**
   * The body of the handler, given the filter's answer and the resolved
   * destination. The `try` part runs until its first fault; the `catch`
   * part logs that fault and raises it again.
   */
  method Handle(host: Host, url: string, input: Option<Bytes>, eligible: bool, target: Result<Locator, Fault>)
    returns (status: Status)
    modifies host
    ensures host.trace == old(host.trace) + Calls(Plan(host.services, url, input, eligible, target))
    ensures host.blobs == StoreAfter(old(host.blobs), Plan(host.services, url, input, eligible, target))
    ensures status == StatusOf(Plan(host.services, url, input, eligible, target))
  {
    var raised: Option<Fault> := None;
    if input.Some? {
      if eligible {
        if host.services.accountFault.Some? {
          raised := host.services.accountFault;
        } else if target.Err? {
          raised := Some(target.error);
        } else {
          var rendered := host.Render(input.value);
          if rendered.Err? {
            raised := Some(rendered.error);
          } else {
            raised := host.Upload(target.value, rendered.value);
          }
        }
      } else {
        host.LogInformation(SkipNotice(url));
      }
    }
    if raised.Some? {
      host.LogInformation(FailureNotice(raised.value));
      status := Raised(raised.value);
    } else {
      status := Completed;
    }
  }

  /**
   * The handler. The filter and the resolver are pure and total, so their
   * answers are computed as values here and consulted by `Handle` at the
   * point where the source calls them.
   */
  method Run(host: Host, prefix: Option<string>, url: string, input: Option<Bytes>) returns (status: Status)
    modifies host
    ensures host.trace == old(host.trace) + Calls(Dispatch(host.services, prefix, url, input))
    ensures host.blobs == StoreAfter(old(host.blobs), Dispatch(host.services, prefix, url, input))
    ensures status == StatusOf(Dispatch(host.services, prefix, url, input))
  {
    status := Handle(host, url, input, ShouldConvert(url), Resolve(prefix, url));
  }

  // ---------------------------------------------------------------------------
  // Properties of the plan

  lemma {:induction false} UploadsAppend(a: seq<Call>, b: seq<Call>)
    ensures Uploads(a + b) == Uploads(a) + Uploads(b)
  {
    if a != [] {
      assert (a + b)[0] == a[0] && (a + b)[1..] == a[1..] + b;
      UploadsAppend(a[1..], b);
    } else {
      assert a + b == b;
    }
  }

  /** Without a content stream nothing is called, nothing is stored and nothing is raised. */
  lemma AbsentInputIsNoOp(svc: Services, prefix: Option<string>, url: string, blobs: map<Locator, Bytes>)
    ensures var o := Dispatch(svc, prefix, url, None);
            Calls(o) == [] && StatusOf(o) == Completed && StoreAfter(blobs, o) == blobs
  {
  }

  /** An ineligible URL gives exactly one skip notice and nothing else. */
  lemma IneligibleIsSkipped(svc: Services, prefix: Option<string>, url: string, doc: Bytes, blobs: map<Locator, Bytes>)
    requires !ShouldConvert(url)
    ensures var o := Dispatch(svc, prefix, url, Some(doc));
            Calls(o) == [LogCall(SkipNotice(url))] && StatusOf(o) == Completed && StoreAfter(blobs, o) == blobs
  {
  }

  /**
   * A skip notice is logged exactly when a stream is present and the filter
   * refuses the URL, and it names the URL; a refused URL makes no other call.
   */
  lemma SkipOnlyWhenIneligible(svc: Services, url: string, input: Option<Bytes>, eligible: bool,
                               target: Result<Locator, Fault>, u: string)
    ensures var calls := Calls(Plan(svc, url, input, eligible, target));
            (LogCall(SkipNotice(u)) in calls <==> input.Some? && !eligible && u == url) &&
            (input.Some? && !eligible ==> calls == [LogCall(SkipNotice(url))])
  {
  }

  /** The same for a whole run: a skip notice is logged only for an ineligible URL. */
  lemma RunSkipsOnlyIneligible(svc: Services, prefix: Option<string>, url: string, input: Option<Bytes>, u: string)
    ensures LogCall(SkipNotice(u)) in Calls(Dispatch(svc, prefix, url, input)) <==>
            input.Some? && !ShouldConvert(url) && u == url
  {
    SkipOnlyWhenIneligible(svc, url, input, ShouldConvert(url), Resolve(prefix, url), u);
  }

  /** The only outcomes that call the storage service are the upload and its failure, with one call each. */
  lemma UploadsOfOutcome(o: Outcome)
    ensures Uploads(Calls(o)) == if o.Upload? || o.FailUpload? then [(o.target, o.pdf)] else []
  {
    match o
    case Upload(d, t, p) =>
      assert Calls(o) == [RenderCall(d)] + [UploadCall(t, p)];
      UploadsAppend([RenderCall(d)], [UploadCall(t, p)]);
    case FailUpload(d, t, p, f) =>
      assert Calls(o) == [RenderCall(d)] + ([UploadCall(t, p)] + [LogCall(FailureNotice(f))]);
      UploadsAppend([RenderCall(d)], [UploadCall(t, p)] + [LogCall(FailureNotice(f))]);
      UploadsAppend([UploadCall(t, p)], [LogCall(FailureNotice(f))]);
    case FailRender(d, f) =>
      assert Calls(o) == [RenderCall(d)] + [LogCall(FailureNotice(f))];
      UploadsAppend([RenderCall(d)], [LogCall(FailureNotice(f))]);
    case _ =>
  }

  /**
   * Whatever the filter answered and the resolver produced: at most one
   * upload is attempted; it is attempted exactly when the stream is present,
   * the filter said yes, the account and the destination are valid and the
   * document rendered; and it sends the rendered bytes to that destination.
   */
  lemma PlanUploads(svc: Services, url: string, input: Option<Bytes>, eligible: bool, target: Result<Locator, Fault>)
    ensures var ups := Uploads(Calls(Plan(svc, url, input, eligible, target)));
            |ups| <= 1 &&
            (ups != [] <==>
              input.Some? && eligible && svc.accountFault.None? && target.Ok? && svc.convert(input.value).Ok?) &&
            (ups != [] ==> ups[0] == (target.value, svc.convert(input.value).value))
  {
    UploadsOfOutcome(Plan(svc, url, input, eligible, target));
  }

  /**
   * The same for a whole run: the one upload happens exactly when the stream
   * is present, the URL is eligible and well formed, the account is valid and
   * the document renders, and it goes to the container of the source's name under
   * `<prefix>/<name>.pdf`.
   */
  lemma UploadOnlyWhenRendered(svc: Services, prefix: Option<string>, url: string, input: Option<Bytes>)
    ensures var ups := Uploads(Calls(Dispatch(svc, prefix, url, input)));
            |ups| <= 1 &&
            (ups != [] <==>
              input.Some? && ShouldConvert(url) && svc.accountFault.None? &&
              ParseBlobUrl(url).Ok? && svc.convert(input.value).Ok?) &&
            (ups != [] ==> ups[0] == (Destination(prefix, url), svc.convert(input.value).value))
  {
    PlanUploads(svc, url, input, ShouldConvert(url), Resolve(prefix, url));
  }

  /** Every upload call comes right after a render call on the input whose result it uploads. */
  lemma UploadFollowsRender(svc: Services, url: string, input: Option<Bytes>, eligible: bool, target: Result<Locator, Fault>)
    ensures var calls := Calls(Plan(svc, url, input, eligible, target));
            forall i :: 0 <= i < |calls| && calls[i].UploadCall? ==>
              i > 0 && input.Some? && calls[i - 1] == RenderCall(input.value) &&
              svc.convert(input.value) == Ok(calls[i].data)
  {
  }

  /**
   * A fault is never swallowed: a run raises exactly when it logs a failure
   * notice, that notice is its last call and names the fault raised, and the
   * store is left as it was.
   */
  lemma FaultsAreRaised(o: Outcome, blobs: map<Locator, Bytes>)
    ensures var calls := Calls(o);
            (StatusOf(o).Raised? <==> exists i :: 0 <= i < |calls| && IsFailureNotice(calls[i])) &&
            (StatusOf(o).Raised? ==>
              calls[|calls| - 1] == LogCall(FailureNotice(StatusOf(o).fault)) &&
              StoreAfter(blobs, o) == blobs)
  {
    var calls := Calls(o);
    if StatusOf(o).Raised? {
      assert IsFailureNotice(calls[|calls| - 1]);
    }
  }

  /**
   * Once the filter has let a stream through, each step's fault ends the run
   * raised with that fault, tried in the handler's order: the account, the
   * destination, the render, the upload. Only when none fails does the run
   * complete, with the PDF stored at the destination. Each case also fixes
   * the whole record of calls: the document is rendered once, after the
   * account and the destination have been accepted, and uploaded once,
   * right after its render; no skip notice is logged.
   */
  lemma PlanRaisesEachFault(svc: Services, url: string, doc: Bytes, target: Result<Locator, Fault>,
                            blobs: map<Locator, Bytes>)
    ensures var o := Plan(svc, url, Some(doc), true, target);
            var r := svc.convert(doc);
            (svc.accountFault.Some? ==>
              StatusOf(o) == Raised(svc.accountFault.value) &&
              Calls(o) == [LogCall(FailureNotice(svc.accountFault.value))]) &&
            (svc.accountFault.None? && target.Err? ==>
              StatusOf(o) == Raised(target.error) && Calls(o) == [LogCall(FailureNotice(target.error))]) &&
            (svc.accountFault.None? && target.Ok? && r.Err? ==>
              StatusOf(o) == Raised(r.error) && Calls(o) == [RenderCall(doc), LogCall(FailureNotice(r.error))]) &&
            (svc.accountFault.None? && target.Ok? && r.Ok? && svc.uploadFault(target.value, r.value).Some? ==>
              StatusOf(o) == Raised(svc.uploadFault(target.value, r.value).value) &&
              Calls(o) == [RenderCall(doc), UploadCall(target.value, r.value),
                           LogCall(FailureNotice(svc.uploadFault(target.value, r.value).value))]) &&
            (svc.accountFault.None? && target.Ok? && r.Ok? && svc.uploadFault(target.value, r.value).None? ==>
              StatusOf(o) == Completed && StoreAfter(blobs, o) == blobs[target.value := r.value] &&
              Calls(o) == [RenderCall(doc), UploadCall(target.value, r.value)])
  {
    var o := Plan(svc, url, Some(doc), true, target);
    if svc.accountFault.None? && target.Ok? && svc.convert(doc).Ok? {
      match svc.uploadFault(target.value, svc.convert(doc).value)
      case Some(f) => assert o == FailUpload(doc, target.value, svc.convert(doc).value, f);
      case None => assert o == Upload(doc, target.value, svc.convert(doc).value);
    }
  }

  /**
   * A fault is never swallowed: for an eligible URL an account fault, an
   * unparseable URL, a render fault and an upload fault each end the run
   * raised with that very fault, in this order of precedence; otherwise the
   * run completes with the PDF stored under `<prefix>/<name>.pdf`. In each
   * case the record of calls is fixed in full.
   */
  lemma RunRaisesEachFault(svc: Services, prefix: Option<string>, url: string, doc: Bytes, blobs: map<Locator, Bytes>)
    requires ShouldConvert(url)
    ensures var o := Dispatch(svc, prefix, url, Some(doc));
            var r := svc.convert(doc);
            (svc.accountFault.Some? ==>
              StatusOf(o) == Raised(svc.accountFault.value) &&
              Calls(o) == [LogCall(FailureNotice(svc.accountFault.value))]) &&
            (svc.accountFault.None? && ParseBlobUrl(url).Err? ==>
              StatusOf(o) == Raised(InputError(url)) && Calls(o) == [LogCall(FailureNotice(InputError(url)))]) &&
            (svc.accountFault.None? && ParseBlobUrl(url).Ok? && r.Err? ==>
              StatusOf(o) == Raised(r.error) && Calls(o) == [RenderCall(doc), LogCall(FailureNotice(r.error))]) &&
            (svc.accountFault.None? && ParseBlobUrl(url).Ok? && r.Ok? &&
              svc.uploadFault(Destination(prefix, url), r.value).Some? ==>
              StatusOf(o) == Raised(svc.uploadFault(Destination(prefix, url), r.value).value) &&
              Calls(o) == [RenderCall(doc), UploadCall(Destination(prefix, url), r.value),
                           LogCall(FailureNotice(svc.uploadFault(Destination(prefix, url), r.value).value))]) &&
            (svc.accountFault.None? && ParseBlobUrl(url).Ok? && r.Ok? &&
              svc.uploadFault(Destination(prefix, url), r.value).None? ==>
              StatusOf(o) == Completed && StoreAfter(blobs, o) == blobs[Destination(prefix, url) := r.value] &&
              Calls(o) == [RenderCall(doc), UploadCall(Destination(prefix, url), r.value)])
  {
    PlanRaisesEachFault(svc, url, doc, Resolve(prefix, url), blobs);
  }

  /**
   * A render failure stops the run before any upload; once the filter, the
   * account and the destination have let the document through, the failure
   * is raised and the store is left as it was.
   */
  lemma RenderFailureStopsUpload(svc: Services, url: string, doc: Bytes, eligible: bool, target: Result<Locator, Fault>,
                                 blobs: map<Locator, Bytes>)
    requires svc.convert(doc).Err?
    ensures var o := Plan(svc, url, Some(doc), eligible, target);
            Uploads(Calls(o)) == [] && StoreAfter(blobs, o) == blobs &&
            (eligible && svc.accountFault.None? && target.Ok? ==> StatusOf(o) == Raised(svc.convert(doc).error))
  {
    PlanUploads(svc, url, Some(doc), eligible, target);
  }

  /**
   * Two attempts on the same event, with whatever answers the collaborators
   * give each time, upload to the same destination; and an attempt that
   * raised left nothing behind, so the store after a failed attempt and a
   * retry is the store after the retry alone, as it is when the retry uploads.
   */
  lemma PlanRetry(svc1: Services, svc2: Services, url: string, input: Option<Bytes>, eligible: bool,
                  target: Result<Locator, Fault>, blobs: map<Locator, Bytes>)
    ensures var o1 := Plan(svc1, url, input, eligible, target);
            var o2 := Plan(svc2, url, input, eligible, target);
            (o1.Upload? ==> target.Ok? && o1.target == target.value) &&
            (o2.Upload? ==> target.Ok? && o2.target == target.value) &&
            (StatusOf(o1).Raised? || o2.Upload? ==> StoreAfter(StoreAfter(blobs, o1), o2) == StoreAfter(blobs, o2))
  {
  }

  /** The same for two runs of one event: a retry after a failure, or after a success, overwrites one blob. */
  lemma RetryLandsOnSameBlob(svc1: Services, svc2: Services, prefix: Option<string>, url: string,
                             input: Option<Bytes>, blobs: map<Locator, Bytes>)
    ensures var o1 := Dispatch(svc1, prefix, url, input);
            var o2 := Dispatch(svc2, prefix, url, input);
            (o1.Upload? ==> ParseBlobUrl(url).Ok? && o1.target == Destination(prefix, url)) &&
            (o2.Upload? ==> ParseBlobUrl(url).Ok? && o2.target == Destination(prefix, url)) &&
            (StatusOf(o1).Raised? || o2.Upload? ==> StoreAfter(StoreAfter(blobs, o1), o2) == StoreAfter(blobs, o2))
  {
    PlanRetry(svc1, svc2, url, input, ShouldConvert(url), Resolve(prefix, url), blobs);
  }

  /**
   * A retried event (the host re-invokes a run with the same event) leaves the
   * store as one run does: the upload overwrites the same destination instead
   * of adding a second blob, and no other blob is touched.
   */
  lemma RetryOverwrites(o: Outcome, blobs: map<Locator, Bytes>)
    ensures StoreAfter(StoreAfter(blobs, o), o) == StoreAfter(blobs, o)
    ensures StoreAfter(blobs, o).Keys <= blobs.Keys + (if o.Upload? then {o.target} else {})
    ensures forall l :: l in blobs && !(o.Upload? && l == o.target) ==> StoreAfter(blobs, o)[l] == blobs[l]
  {
  }
}
