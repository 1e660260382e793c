/**
 * The updater (uploadIP): repoint the "A" record `name.domain` to `ip` by a
 * zone lookup, a record lookup and a record update against the DNS
 * provider's API, retried while the retry counter is below five.
 *
 * The network is replaced by a sequence of attempt outcomes: attempt k of
 * the loop consumes attempts[k], which says how far that attempt got and
 * what the provider answered.  The loop state is the source's: the counter
 * `retry` and the variable `url`, which is set once before the loop and
 * reassigned inside it, so that a restarted attempt sends its first GET to
 * the last URL assigned rather than to the zone lookup URL.
 *
 * The result records every HTTP request handed to the client, in order.
 */
module Upload {

  /** Attempts on which the failure message is logged. */
  const MaxRetries: nat := 5

  /** How one GET failed before its body was decoded. */
  datatype Failure =
    | BuildError        // http.NewRequest failed: nothing was sent
    | TransportError    // client.Do failed
    | ReadError         // io.ReadAll of the body failed

  /** One entry of the record lookup's `result` list. */
  datatype DnsRecord = DnsRecord(id: string, rtype: string)

  /** What happened to the PUT of the update step. */
  datatype PutReply = PutBuildError | PutTransportError | PutStatus(code: int)

  /** How far one pass of the loop body got.  `zid` is the id the first GET's
      body decoded to; `put` is unused when no PUT is sent. */
  datatype Attempt =
    | ZoneLookupFailed(failure: Failure)
    | RecordLookupFailed(zid: string, failure: Failure)
    | RecordsListed(zid: string, records: seq<DnsRecord>, put: PutReply)

  /** The three URLs the loop assigns to `url`. */
  datatype Url =
    | ZonesByName(domain: string)                              // zones?name=domain
    | RecordsByName(zid: string, name: string, domain: string) // zones/zid/dns_records?name=name.domain
    | RecordById(zid: string, rid: string)                     // zones/zid/dns_records/rid

  /** The JSON body of the PUT; its "id" is the zone id, as written. */
  datatype PutBody = PutBody(id: string, rtype: string, name: string, content: string)

  datatype Request = Get(url: Url) | Put(url: Url, body: PutBody)

  /** What an attempt does to the loop: count a retry, restart without
      counting (no usable "A" record id), or end the loop with HTTP 200. */
  datatype Verdict = Counted | Restarted | Updated

  datatype UploadResult = UploadResult(
    retry: nat,            // final value of the counter
    consumed: nat,         // number of attempts the loop ran
    updated: bool,         // left by the break after HTTP 200
    failureLogged: bool,   // the "update failed" message was logged
    url: Url,              // final value of `url`
    issued: seq<Request>)  // every request handed to the client

  /** The id of the first record of type "A", or "" when there is none. */
  function ARecordId(records: seq<DnsRecord>): string
    decreases |records|
  {
    if records == [] then ""
    else if records[0].rtype == "A" then records[0].id
    else ARecordId(records[1..])
  }

  /** ARecordId picks the first "A" record, and "" means there is none or the
      first one has an empty id. */
  lemma {:induction false} ARecordIdIsFirstA(records: seq<DnsRecord>)
    ensures (forall k :: 0 <= k < |records| ==> records[k].rtype != "A") ==> ARecordId(records) == ""
    ensures forall k :: 0 <= k < |records| && records[k].rtype == "A" ==>
                          (forall j :: 0 <= j < k ==> records[j].rtype != "A") ==> ARecordId(records) == records[k].id
    decreases |records|
  {
    if records != [] && records[0].rtype != "A" {
      ARecordIdIsFirstA(records[1..]);
      assert forall k :: 1 <= k < |records| ==> records[1..][k - 1] == records[k];
    }
  }

  /** The record scan of the update step: stop at the first "A" record. */
  method ChooseRecord(records: seq<DnsRecord>) returns (rid: string)
    ensures rid == ARecordId(records)
  {
    ARecordIdIsFirstA(records);
    rid := "";
    var i := 0;
    while i < |records|
      invariant 0 <= i <= |records|
      invariant forall j :: 0 <= j < i ==> records[j].rtype != "A"
    {
      if records[i].rtype == "A" {
        rid := records[i].id;
        break;
      }
      i := i + 1;
    }
  }

  function VerdictOf(a: Attempt): Verdict {
    match a
    case ZoneLookupFailed(_) => Counted
    case RecordLookupFailed(_, _) => Counted
    case RecordsListed(_, records, put) =>
      if ARecordId(records) == "" then Restarted
      else if put == PutStatus(200) then Updated
      else Counted
  }

  /** The value of `url` after an attempt that started with `url`. */
  function UrlAfter(url: Url, name: string, domain: string, a: Attempt): Url {
    match a
    case ZoneLookupFailed(_) => url
    case RecordLookupFailed(zid, _) => RecordsByName(zid, name, domain)
    case RecordsListed(zid, records, _) =>
      if ARecordId(records) == "" then RecordsByName(zid, name, domain)
      else RecordById(zid, ARecordId(records))
  }

  /** The requests an attempt that started with `url` hands to the client. */
  function IssuedBy(url: Url, ip: string, name: string, domain: string, a: Attempt): seq<Request> {
    match a
    case ZoneLookupFailed(f) => if f == BuildError then [] else [Get(url)]
    case RecordLookupFailed(zid, f) =>
      [Get(url)] + (if f == BuildError then [] else [Get(RecordsByName(zid, name, domain))])
    case RecordsListed(zid, records, put) =>
      var rid := ARecordId(records);
      [Get(url), Get(RecordsByName(zid, name, domain))] +
      (if rid == "" || put.PutBuildError? then []
       else [Put(RecordById(zid, rid), PutBody(zid, "A", name + "." + domain, ip))])
  }

  /** An attempt's first request, if any, is a GET of the `url` it started
      with, and it sends a PUT exactly when the record lookup named an "A"
      record with a non-empty id and the PUT could be built. */
  lemma IssuedByShape(url: Url, ip: string, name: string, domain: string, a: Attempt)
    ensures var r := IssuedBy(url, ip, name, domain, a);
            (r != [] ==> r[0] == Get(url)) &&
            ((exists k :: 0 <= k < |r| && r[k].Put?) <==>
               a.RecordsListed? && ARecordId(a.records) != "" && !a.put.PutBuildError?)
  {
    var r := IssuedBy(url, ip, name, domain, a);
    if a.RecordsListed? && ARecordId(a.records) != "" && !a.put.PutBuildError? {
      assert r[2].Put?;
    }
  }

  /** Number of the first n attempts of `run` that increment `retry`. */
  function CountedIn(run: seq<Attempt>, n: nat): nat
    requires n <= |run|
  {
    if n == 0 then 0
    else CountedIn(run, n - 1) + (if VerdictOf(run[n - 1]) == Counted then 1 else 0)
  }

  /** The value of `url` and the requests handed to the client so far. */
  datatype Trace = Trace(url: Url, issued: seq<Request>)

  /** The trace after the first n attempts of `run`. */
  function TraceOf(ip: string, name: string, domain: string, run: seq<Attempt>, n: nat): Trace
    requires n <= |run|
  {
    if n == 0 then Trace(ZonesByName(domain), [])
    else
      var t := TraceOf(ip, name, domain, run, n - 1);
      Trace(UrlAfter(t.url, name, domain, run[n - 1]), t.issued + IssuedBy(t.url, ip, name, domain, run[n - 1]))
  }

  /** The loop, fed `run`, runs exactly `n` attempts: the n-th (and so, the
      counter never going down, every one before it) started with retry < 5,
      none before the n-th ended with HTTP 200, and after the n-th the loop
      exits: 200, the counter at 5, or no outcome left. */
  ghost predicate StopsAt(run: seq<Attempt>, n: nat) {
    n <= |run| &&
    (n > 0 ==> CountedIn(run, n - 1) < MaxRetries) &&
    (forall k :: 0 <= k < n - 1 ==> VerdictOf(run[k]) != Updated) &&
    (n == |run| || CountedIn(run, n) >= MaxRetries || (n > 0 && VerdictOf(run[n - 1]) == Updated))
  }

  /** The rest of the loop from attempt i on, with counter `retry` and trace
      `t`: the functional reading of the `for retry < 5` loop. */
  function Resume(ip: string, name: string, domain: string, run: seq<Attempt>, i: nat, retry: nat, t: Trace): UploadResult
    requires i <= |run|
    decreases |run| - i
  {
    if retry >= MaxRetries || i == |run| then
      UploadResult(retry, i, false, retry >= MaxRetries, t.url, t.issued)
    else
      var a := run[i];
      var t' := Trace(UrlAfter(t.url, name, domain, a), t.issued + IssuedBy(t.url, ip, name, domain, a));
      if VerdictOf(a) == Updated then
        UploadResult(retry, i + 1, true, false, t'.url, t'.issued)
      else
        Resume(ip, name, domain, run, i + 1, retry + (if VerdictOf(a) == Counted then 1 else 0), t')
  }

  /** What uploadIP does when fed `run`. */
  function Upload(ip: string, name: string, domain: string, run: seq<Attempt>): UploadResult {
    Resume(ip, name, domain, run, 0, 0, Trace(ZonesByName(domain), []))
  }

  /** The state part of ResumeFacts' invariant: after i attempts the counter
      and the trace are those of the first i attempts, the i-th started with
      retry < 5, and none of them ended with HTTP 200. */
  ghost predicate RanWithoutUpdate(ip: string, name: string, domain: string, run: seq<Attempt>, i: nat, retry: nat, t: Trace) {
    i <= |run| &&
    retry == CountedIn(run, i) && retry <= MaxRetries &&
    (i > 0 ==> CountedIn(run, i - 1) < MaxRetries) &&
    (forall k :: 0 <= k < i ==> VerdictOf(run[k]) != Updated) &&
    t == TraceOf(ip, name, domain, run, i)
  }

  /** The loop's result, as described by the reference folds. */
  ghost predicate Describes(ip: string, name: string, domain: string, run: seq<Attempt>, r: UploadResult) {
    StopsAt(run, r.consumed) &&
    r.retry == CountedIn(run, r.consumed) && r.retry <= MaxRetries &&
    (r.updated <==> r.consumed > 0 && VerdictOf(run[r.consumed - 1]) == Updated) &&
    (r.failureLogged <==> r.retry >= MaxRetries) &&
    Trace(r.url, r.issued) == TraceOf(ip, name, domain, run, r.consumed)
  }

  /** The state after one more attempt that did not end with HTTP 200. */
  lemma StepKeepsRan(ip: string, name: string, domain: string, run: seq<Attempt>, i: nat, retry: nat, t: Trace)
    requires RanWithoutUpdate(ip, name, domain, run, i, retry, t)
    requires retry < MaxRetries && i < |run| && VerdictOf(run[i]) != Updated
    ensures RanWithoutUpdate(ip, name, domain, run, i + 1,
                             retry + (if VerdictOf(run[i]) == Counted then 1 else 0),
                             Trace(UrlAfter(t.url, name, domain, run[i]), t.issued + IssuedBy(t.url, ip, name, domain, run[i])))
  {
  }

  /** An attempt that ends with HTTP 200 ends the loop as described. */
  lemma UpdateDescribes(ip: string, name: string, domain: string, run: seq<Attempt>, i: nat, retry: nat, t: Trace)
    requires RanWithoutUpdate(ip, name, domain, run, i, retry, t)
    requires retry < MaxRetries && i < |run| && VerdictOf(run[i]) == Updated
    ensures Describes(ip, name, domain, run, Resume(ip, name, domain, run, i, retry, t))
  {
    assert CountedIn(run, i + 1) == retry;
  }

  /** Leaving the loop on the counter or on running out of outcomes ends it
      as described. */
  lemma ExitDescribes(ip: string, name: string, domain: string, run: seq<Attempt>, i: nat, retry: nat, t: Trace)
    requires RanWithoutUpdate(ip, name, domain, run, i, retry, t)
    requires retry >= MaxRetries || i == |run|
    ensures Describes(ip, name, domain, run, Resume(ip, name, domain, run, i, retry, t))
  {
    assert Resume(ip, name, domain, run, i, retry, t) == UploadResult(retry, i, false, retry >= MaxRetries, t.url, t.issued);
  }

  /** Resuming from any state the loop can reach ends in a result that the
      reference folds describe. */
  lemma {:induction false} ResumeFacts(ip: string, name: string, domain: string, run: seq<Attempt>, i: nat, retry: nat, t: Trace)
    requires RanWithoutUpdate(ip, name, domain, run, i, retry, t)
    ensures Describes(ip, name, domain, run, Resume(ip, name, domain, run, i, retry, t))
    decreases |run| - i
  {
    if retry >= MaxRetries || i == |run| {
      ExitDescribes(ip, name, domain, run, i, retry, t);
    } else if VerdictOf(run[i]) == Updated {
      UpdateDescribes(ip, name, domain, run, i, retry, t);
    } else {
      var a := run[i];
      StepKeepsRan(ip, name, domain, run, i, retry, t);
      ResumeFacts(ip, name, domain, run, i + 1, retry + (if VerdictOf(a) == Counted then 1 else 0),
                  Trace(UrlAfter(t.url, name, domain, a), t.issued + IssuedBy(t.url, ip, name, domain, a)));
    }
  }

  /** uploadIP's loop stops where StopsAt says, with the counter, the URL and
      the request log of the attempts it ran; the failure message is logged
      exactly when the counter reached 5, and so never after HTTP 200. */
  lemma UploadFacts(ip: string, name: string, domain: string, run: seq<Attempt>)
    ensures Describes(ip, name, domain, run, Upload(ip, name, domain, run))
    ensures Upload(ip, name, domain, run).failureLogged ==> !Upload(ip, name, domain, run).updated
  {
    ResumeFacts(ip, name, domain, run, 0, 0, Trace(ZonesByName(domain), []));
  }

  /** The counter never goes down. */
  lemma {:induction false} CountedMonotone(run: seq<Attempt>, k: nat, m: nat)
    requires k <= m <= |run|
    ensures CountedIn(run, k) <= CountedIn(run, m)
    decreases m - k
  {
    if k < m {
      CountedMonotone(run, k, m - 1);
    }
  }

  /** StopsAt names a single attempt count, so Describes fixes how many
      attempts the loop runs. */
  lemma StopPointUnique(run: seq<Attempt>, n: nat, m: nat)
    requires StopsAt(run, n) && StopsAt(run, m)
    ensures n == m
  {
    if n < m {
      CountedMonotone(run, n, m - 1);
    } else if m < n {
      CountedMonotone(run, m, n - 1);
    }
  }

  /** What each verdict means in terms of how far the attempt got: a restart
      is a record lookup whose first "A" record is missing or has an empty id,
      success is a PUT answered with 200 after an "A" record with a non-empty
      id was found, and every other attempt counts. */
  lemma VerdictIff(a: Attempt)
    ensures VerdictOf(a) == Restarted <==> a.RecordsListed? && ARecordId(a.records) == ""
    ensures VerdictOf(a) == Updated <==>
              a.RecordsListed? && ARecordId(a.records) != "" && a.put == PutStatus(200)
    ensures VerdictOf(a) == Counted <==>
              a.ZoneLookupFailed? || a.RecordLookupFailed? ||
              (a.RecordsListed? && ARecordId(a.records) != "" && a.put != PutStatus(200))
  {
  }

  /** A restart leaves the counter where it was, in any run. */
  lemma RestartKeepsCounter(run: seq<Attempt>, n: nat)
    requires n < |run| && VerdictOf(run[n]) == Restarted
    ensures CountedIn(run, n + 1) == CountedIn(run, n)
  {
  }

  /** Attempts that find no usable "A" record id do not increment `retry`:
      a run of them, however long, never reaches 5 and the loop goes through
      all of them, so with an endless supply of them the loop would not end. */
  lemma {:induction false} RestartsAreNotCounted(run: seq<Attempt>, n: nat)
    requires n <= |run|
    requires forall k :: 0 <= k < |run| ==> VerdictOf(run[k]) == Restarted
    ensures CountedIn(run, n) == 0
  {
    if n > 0 {
      RestartsAreNotCounted(run, n - 1);
    }
  }

  /** ... and so the loop takes every one of them. */
  lemma RestartsRunToTheEnd(run: seq<Attempt>)
    requires forall k :: 0 <= k < |run| ==> VerdictOf(run[k]) == Restarted
    ensures StopsAt(run, |run|)
  {
    if |run| > 0 {
      RestartsAreNotCounted(run, |run| - 1);
    }
  }

  /** Once an attempt has got past the zone lookup, `url` never again holds
      the zone lookup URL, so every later attempt sends its first GET to a
      dns_records URL (IssuedByShape: an attempt's first request is a GET of
      the `url` it started with). */
  lemma {:induction false} ZoneUrlNeverRevisited(ip: string, name: string, domain: string, run: seq<Attempt>, j: nat, k: nat)
    requires j < k <= |run|
    requires !run[j].ZoneLookupFailed?
    ensures !TraceOf(ip, name, domain, run, k).url.ZonesByName?
    decreases k
  {
    if k - 1 > j {
      ZoneUrlNeverRevisited(ip, name, domain, run, j, k - 1);
    }
  }

  /** A PUT the loop sends targets a record by a non-empty id, carries the
      address, type "A" and the full record name, and has the zone id as its
      "id" field. */
  ghost predicate WellFormedPut(ip: string, name: string, domain: string, q: Request) {
    q.Put? ==>
      q.url.RecordById? && q.url.rid != "" &&
      q.body == PutBody(q.url.zid, "A", name + "." + domain, ip)
  }

  /** Every PUT the loop sends is well formed. */
  lemma {:induction false} PutsCarryAddress(ip: string, name: string, domain: string, run: seq<Attempt>, n: nat)
    requires n <= |run|
    ensures forall m :: 0 <= m < |TraceOf(ip, name, domain, run, n).issued| ==>
              WellFormedPut(ip, name, domain, TraceOf(ip, name, domain, run, n).issued[m])
  {
    if n > 0 {
      PutsCarryAddress(ip, name, domain, run, n - 1);
      var t := TraceOf(ip, name, domain, run, n - 1);
      var sent := IssuedBy(t.url, ip, name, domain, run[n - 1]);
      assert forall m :: 0 <= m < |sent| ==> WellFormedPut(ip, name, domain, sent[m]);
      assert TraceOf(ip, name, domain, run, n).issued == t.issued + sent;
    }
  }

  /** Attempts that never get past the zone lookup send no PUT. */
  lemma {:induction false} NoPutWithoutRecords(ip: string, name: string, domain: string, run: seq<Attempt>, n: nat)
    requires n <= |run|
    requires forall k :: 0 <= k < n ==> run[k].ZoneLookupFailed?
    ensures forall m :: 0 <= m < |TraceOf(ip, name, domain, run, n).issued| ==>
              !TraceOf(ip, name, domain, run, n).issued[m].Put?
  {
    if n > 0 {
      NoPutWithoutRecords(ip, name, domain, run, n - 1);
    }
  }

  /** A zone lookup that fails on every attempt: the loop stops after exactly
      five attempts, logs the failure and sends no PUT. */
  lemma ZoneLookupAlwaysFailing(ip: string, name: string, domain: string, run: seq<Attempt>)
    requires |run| >= MaxRetries
    requires forall k :: 0 <= k < |run| ==> run[k].ZoneLookupFailed?
    ensures Upload(ip, name, domain, run).consumed == MaxRetries
    ensures Upload(ip, name, domain, run).failureLogged && !Upload(ip, name, domain, run).updated
    ensures forall m :: 0 <= m < |Upload(ip, name, domain, run).issued| ==> !Upload(ip, name, domain, run).issued[m].Put?
  {
    var r := Upload(ip, name, domain, run);
    UploadFacts(ip, name, domain, run);
    assert CountedIn(run, 4) == 4 && CountedIn(run, 5) == 5 by {
      assert forall k :: 0 <= k < |run| ==> VerdictOf(run[k]) == Counted;
      assert CountedIn(run, 1) == 1;
      assert CountedIn(run, 2) == 2;
      assert CountedIn(run, 3) == 3;
    }
    assert StopsAt(run, MaxRetries);
    StopPointUnique(run, r.consumed, MaxRetries);
    NoPutWithoutRecords(ip, name, domain, run, MaxRetries);
  }

  /** Two counted failures and then HTTP 200: the loop reports success after
      the third attempt and does not start a fourth. */
  lemma SuccessOnThirdAttempt(ip: string, name: string, domain: string, run: seq<Attempt>)
    requires |run| >= 3
    requires VerdictOf(run[0]) == Counted && VerdictOf(run[1]) == Counted && VerdictOf(run[2]) == Updated
    ensures Upload(ip, name, domain, run).consumed == 3
    ensures Upload(ip, name, domain, run).updated && Upload(ip, name, domain, run).retry == 2
    ensures !Upload(ip, name, domain, run).failureLogged
  {
    var r := Upload(ip, name, domain, run);
    UploadFacts(ip, name, domain, run);
    assert CountedIn(run, 1) == 1;
    assert CountedIn(run, 2) == 2;
    assert StopsAt(run, 3);
    StopPointUnique(run, r.consumed, 3);
    assert CountedIn(run, 3) == 2;
  }

  /** One pass of the loop body, started with `url`: the zone lookup GET of
      `url`, the record lookup, the record scan and the PUT.  Each early
      return is one of the loop's `continue`s (or its `break`), and `verdict`
      says whether that exit increments `retry`. */
  method RunAttempt(url: Url, ip: string, name: string, domain: string, a: Attempt)
    returns (verdict: Verdict, url': Url, sent: seq<Request>)
    ensures verdict == VerdictOf(a)
    ensures url' == UrlAfter(url, name, domain, a)
    ensures sent == IssuedBy(url, ip, name, domain, a)
  {
    url' := url;
    sent := [];
    // zone lookup: GET url
    if a.ZoneLookupFailed? {
      if a.failure != BuildError {
        sent := sent + [Get(url')];
      }
      return Counted, url', sent;
    }
    sent := sent + [Get(url')];
    var zid := a.zid;
    // record lookup
    url' := RecordsByName(zid, name, domain);
    if a.RecordLookupFailed? {
      if a.failure != BuildError {
        sent := sent + [Get(url')];
      }
      return Counted, url', sent;
    }
    sent := sent + [Get(url')];
    var rid := ChooseRecord(a.records);
    if rid == "" {
      // no "A" record, or one with an empty id: restart without counting
      return Restarted, url', sent;
    }
    // update: PUT the new address
    url' := RecordById(zid, rid);
    if a.put.PutBuildError? {
      return Counted, url', sent;
    }
    sent := sent + [Put(url', PutBody(zid, "A", name + "." + domain, ip))];
    if a.put.PutTransportError? {
      return Counted, url', sent;
    }
    if a.put.code == 200 {
      return Updated, url', sent;
    }
    return Counted, url', sent;
  }

  /** uploadIP(ip, name, domain, email, key), fed the outcomes `attempts`. */
  method UploadIP(ip: string, name: string, domain: string, attempts: seq<Attempt>) returns (res: UploadResult)
    ensures res == Upload(ip, name, domain, attempts)
    ensures Describes(ip, name, domain, attempts, res)
  {
    var retry: nat := 0;
    var url := ZonesByName(domain);
    var issued: seq<Request> := [];
    var updated := false;
    var i := 0;
    while retry < MaxRetries && i < |attempts|
      invariant 0 <= i <= |attempts|
      invariant Resume(ip, name, domain, attempts, i, retry, Trace(url, issued)) == Upload(ip, name, domain, attempts)
      invariant !updated
    {
      var verdict, url', sent := RunAttempt(url, ip, name, domain, attempts[i]);
      i := i + 1;
      url := url';
      issued := issued + sent;
      if verdict == Updated {
        updated := true;
        break;
      }
      if verdict == Counted {
        retry := retry + 1;
      }
    }
    res := UploadResult(retry, i, updated, retry >= MaxRetries, url, issued);
    UploadFacts(ip, name, domain, attempts);
  }
}
