/** The body of map_view: build the query, ask the USGS service, keep the
    decoded answer in a single-slot fallback file (or fall back to it when the
    request fails), and show the normalised records. Only the outcome of the
    HTTP exchange and whether the fallback file can be opened for writing come
    from outside; both are parameters. */
module Handler {
  import opened Wrappers
  import opened Json
  import opened Calendar
  import opened QueryBuilder
  import opened Normalizer

  /** The text returned when the service fails and no snapshot exists. */
  const UnavailableMessage := "<h2>USGS API unavailable and no fallback data found.</h2>"

  /** What requests.get followed by resp.json() produced: a response whose
      body decoded (any status: the code never looks at it), a response whose
      body is not JSON, or no response at all (a transport failure: connection,
      timeout, redirects, a broken body). */
  datatype FetchOutcome =
    | Responded(status: int, body: Option<Value>)
    | NoResponse

  /** The payload the try block goes on with, if it gets that far. */
  function Received(outcome: FetchOutcome): Option<Value> {
    if outcome.Responded? then outcome.body else None
  }

  /** Why the handler raised instead of answering (HTTP 500). */
  datatype Cause = StartDateOverflow | Unreadable(fault: Fault)

  /** What the client gets back. */
  datatype Page =
    | QuakeMap(quakes: seq<Quake>)
    | Degraded(html: string)
    | ServerError(cause: Cause)

  /** The rendered map for a normalisation outcome. */
  function Shown(r: Result<seq<Quake>, Fault>): (p: Page)
    ensures p.QuakeMap? <==> r.Success?
    ensures r.Success? ==> p.quakes == r.value
    ensures r.Failure? ==> p == ServerError(Unreadable(r.error))
  {
    match r
    case Success(qs) => QuakeMap(qs)
    case Failure(e) => ServerError(Unreadable(e))
  }

  /** The file fallback_earthquakes.json: empty until the first successful
      save, afterwards the last payload written. */
  class FallbackFile {
    var slot: Option<Value>

    constructor()
      ensures slot == None
    {
      slot := None;
    }

    /** open(FALLBACK_FILE, "w") and json.dump: when the file can be opened
        for writing the payload replaces the snapshot; otherwise open raises
        and the old snapshot stays. */
    method Save(data: Value, writable: bool) returns (saved: bool)
      modifies this
      ensures saved == writable
      ensures slot == if writable then Some(data) else old(slot)
    {
      if writable {
        slot := Some(data);
      }
      saved := writable;
    }

    /** os.path.exists(FALLBACK_FILE) */
    method Exists() returns (present: bool)
      ensures present == slot.Some?
    {
      present := slot.Some?;
    }

    /** json.load of the fallback file. */
    method Load() returns (data: Value)
      requires slot.Some?
      ensures Some(data) == slot
    {
      data := slot.value;
    }
  }

  /** Whether datetime raises OverflowError computing the default start date. */
  predicate StartOverflows(now: int) {
    now - DefaultWindow < MinInstant
  }

  /** The page map_view returns and the snapshot it leaves, for the snapshot
      it finds, the clock, the fetch outcome and whether the file is writable. */
  function Serve(slot: Option<Value>, now: int, outcome: FetchOutcome, writable: bool): (r: (Page, Option<Value>))
    ensures slot.Some? ==> r.1.Some?
    ensures r.1 != slot ==> r.1 == Received(outcome) && writable
    ensures r.0.Degraded? <==> !StartOverflows(now) && slot.None? && !(Received(outcome).Some? && writable)
    ensures r.0.Degraded? ==> r.0.html == UnavailableMessage && r.1.None?
  {
    if StartOverflows(now) then (ServerError(StartDateOverflow), slot)
    else if Received(outcome).Some? && writable then
      var data := Received(outcome).value;
      (Shown(Normalization(data)), Some(data))
    else
      match slot
      case Some(data) => (Shown(Normalization(data)), slot)
      case None => (Degraded(UnavailableMessage), None)
  }

  /** map_view itself. The query is built (and sent) first; then the try
      block fetches and saves, and the except block falls back to the file. */
  method MapView(file: FallbackFile, now: int, start: Option<string>, minmag: Option<string>,
                 outcome: FetchOutcome, writable: bool) returns (page: Page)
    requires MinInstant <= now <= MaxInstant
    modifies file
    ensures (page, file.slot) == Serve(old(file.slot), now, outcome, writable)
  {
    var query := BuildQuery(now, start, minmag);
    if query.None? {
      return ServerError(StartDateOverflow);
    }
    var data: Value;
    var fetched := Received(outcome);
    var saved := false;
    if fetched.Some? {
      data := fetched.value;
      saved := file.Save(data, writable);
    }
    if !saved {
      var present := file.Exists();
      if !present {
        return Degraded(UnavailableMessage);
      }
      data := file.Load();
    }
    var quakes := CollectQuakes(data);
    page := Shown(quakes);
  }

  /** A save followed at once by a load hands back the payload verbatim. */
  method SaveThenLoad(file: FallbackFile, data: Value) returns (back: Value)
    modifies file
    ensures back == data && file.slot == Some(data)
  {
    var saved := file.Save(data, true);
    back := file.Load();
  }

  // ---------------------------------------------------------------------
  // Properties of the fetch-or-fallback behaviour

  /** A decoded answer that can be saved is both stored and shown. */
  lemma FreshDataIsSavedAndShown(slot: Option<Value>, now: int, outcome: FetchOutcome, data: Value)
    requires !StartOverflows(now) && Received(outcome) == Some(data)
    ensures Serve(slot, now, outcome, true) == (Shown(Normalization(data)), Some(data))
  {
  }

  /** When the service fails, or its payload cannot be written to the file,
      the snapshot is shown and kept as it was; a fresh payload that could not
      be saved is dropped. */
  lemma OutageShowsSnapshot(data: Value, now: int, outcome: FetchOutcome, writable: bool)
    requires !StartOverflows(now) && !(Received(outcome).Some? && writable)
    ensures Serve(Some(data), now, outcome, writable) == (Shown(Normalization(data)), Some(data))
  {
  }

  /** The HTTP status plays no part: an error status with a JSON body is
      treated exactly like a 200. */
  lemma StatusIgnored(slot: Option<Value>, now: int, s1: int, s2: int, body: Option<Value>, writable: bool)
    ensures Serve(slot, now, Responded(s1, body), writable) == Serve(slot, now, Responded(s2, body), writable)
  {
  }

  /** An outage right after a successful request shows the very same page. */
  lemma OutageReplaysLastSuccess(slot: Option<Value>, now1: int, ok: FetchOutcome, now2: int, failed: FetchOutcome, writable: bool)
    requires !StartOverflows(now1) && !StartOverflows(now2)
    requires Received(ok).Some? && Received(failed).None?
    ensures Serve(Serve(slot, now1, ok, true).1, now2, failed, writable) == Serve(slot, now1, ok, true)
  {
  }

  /** One request as the outside world answers it. */
  datatype Request = Request(now: int, outcome: FetchOutcome, writable: bool)

  /** Whether a request ends with its payload in the file. */
  predicate Saves(r: Request) {
    !StartOverflows(r.now) && Received(r.outcome).Some? && r.writable
  }

  /** The snapshot after serving reqs in order, starting from slot. */
  function Run(slot: Option<Value>, reqs: seq<Request>): Option<Value>
    decreases |reqs|
  {
    if reqs == [] then slot
    else
      var last := reqs[|reqs| - 1];
      Serve(Run(slot, reqs[..|reqs| - 1]), last.now, last.outcome, last.writable).1
  }

  /** The payload of the latest request that saved one, or slot if none did. */
  function LatestSaved(slot: Option<Value>, reqs: seq<Request>): Option<Value>
    decreases |reqs|
  {
    if reqs == [] then slot
    else if Saves(reqs[|reqs| - 1]) then Received(reqs[|reqs| - 1].outcome)
    else LatestSaved(slot, reqs[..|reqs| - 1])
  }

  /** The file is a single-slot snapshot: after any run of requests it holds
      exactly the payload of the latest one that saved. */
  lemma {:induction false} SnapshotIsLatestSave(slot: Option<Value>, reqs: seq<Request>)
    ensures Run(slot, reqs) == LatestSaved(slot, reqs)
    decreases |reqs|
  {
    if reqs != [] {
      SnapshotIsLatestSave(slot, reqs[..|reqs| - 1]);
    }
  }

  /** Once a payload has been saved the file is never empty again, so the
      degraded message can only appear before the first successful save. */
  lemma {:induction false} SavedSnapshotPersists(slot: Option<Value>, reqs: seq<Request>, k: nat)
    requires k < |reqs| && Saves(reqs[k])
    ensures Run(slot, reqs).Some?
    decreases |reqs|
  {
    if k < |reqs| - 1 {
      SavedSnapshotPersists(slot, reqs[..|reqs| - 1], k);
    }
  }
}
