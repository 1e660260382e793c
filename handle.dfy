/**
 * The per-domain driver (handleMain): probe the domain's current address;
 * if it is slower than 200 ms, download the archive of candidate address
 * lists, walk its entries in archive order, run the selector on each, and
 * hand the first non-empty answer to the updater, once.
 *
 * The download, the archive reader and each entry's reader are replaced by
 * their outcomes: a Download that failed or yields the list of entries, and
 * for each entry the outcome of opening and reading it together with the
 * probe outcomes and arrival order the selector will see for its content.
 */
module Orchestrate {
  import opened Probe
  import Text
  import Select
  import Upload

  /** Latency above which the domain's address is replaced. */
  const UpdateThreshold: int := 200

  /** The threshold test on the probe of the current address. */
  predicate TooSlow(r: LatencyResult) {
    r.latency > UpdateThreshold
  }

  /** What opening and reading one entry of the archive gave. */
  datatype EntryRead =
    | OpenFailed              // file.Open failed
    | ReadFailed              // io.ReadAll on the entry failed
    | Content(data: string)   // the entry's text

  /** One archive entry: its name, how reading it went, and what the selector
      observes when it probes the entry's candidates. */
  datatype ZipEntry = ZipEntry(name: string, read: EntryRead, probes: seq<ProbeOutcome>, arrival: seq<nat>)

  /** What fetching and opening the archive gave. */
  datatype Download =
    | GetFailed                     // http.Get failed
    | BodyReadFailed                // io.ReadAll on the response failed
    | ZipOpenFailed                 // zip.NewReader failed
    | Archive(entries: seq<ZipEntry>)

  /** How handleMain ended. */
  datatype Outcome =
    | Kept(latency: int)            // fast enough: only logged
    | DownloadFailed                // the archive could not be fetched or opened
    | EntryFailed(index: nat)       // entry `index` could not be opened or read
    | Exhausted                     // no entry gave an address
    | Uploaded(index: nat, ip: string, upload: Upload.UploadResult)

  /** An entry that was read has one probe outcome per candidate of its
      content and a valid arrival order for them. */
  predicate WellFormedEntry(e: ZipEntry) {
    e.read.Content? ==>
      |e.probes| == |Select.Candidates(e.read.data)| && Select.IsArrivalOrder(e.arrival, |e.probes|)
  }

  predicate WellFormedDownload(d: Download) {
    d.Archive? ==> forall k :: 0 <= k < |d.entries| ==> WellFormedEntry(d.entries[k])
  }

  /** The probe results the selector sorts for a read entry. */
  function PoolOf(e: ZipEntry): (pool: seq<LatencyResult>)
    requires e.read.Content? && WellFormedEntry(e)
    ensures |pool| == |Select.Candidates(e.read.data)|
  {
    Select.ProbeAll(Select.Candidates(e.read.data), e.probes)
  }

  /** The first n entries were all read and the selector may have answered ""
      for each of them. */
  ghost predicate PassedAll(es: seq<ZipEntry>, n: nat)
    requires n <= |es|
    requires forall k :: 0 <= k < |es| ==> WellFormedEntry(es[k])
  {
    forall j :: 0 <= j < n ==> es[j].read.Content? && Select.MaySelect(PoolOf(es[j]), "")
  }

  /** `outcome` and `calls` (the number of uploadIP calls) are a possible end
      of handleMain for the domain name.domain.  Neither the archive entries'
      names nor a third element of domainInfo appear: the substring filter of
      the walk has the same effect on both of its branches. */
  ghost predicate Handled(name: string, domain: string, current: ProbeOutcome, download: Download,
                          attempts: seq<Upload.Attempt>, outcome: Outcome, calls: nat)
    requires WellFormedDownload(download)
  {
    var r := GetLatency(name + "." + domain, current);
    if !TooSlow(r) then outcome == Kept(r.latency) && calls == 0
    else if !download.Archive? then outcome == DownloadFailed && calls == 0
    else
      var es := download.entries;
      match outcome
      case Kept(_) => false
      case DownloadFailed => false
      case EntryFailed(i) => i < |es| && !es[i].read.Content? && PassedAll(es, i) && calls == 0
      case Exhausted => PassedAll(es, |es|) && calls == 0
      case Uploaded(i, ip, up) =>
        i < |es| && es[i].read.Content? && PassedAll(es, i) &&
        ip != "" && Select.MaySelect(PoolOf(es[i]), ip) &&
        up == Upload.Upload(ip, name, domain, attempts) && calls == 1
  }

  /** handleMain(config, domainInfo) for domainInfo = [name, domain] or
      [name, domain, filter]. */
  method HandleMain(domainInfo: seq<string>, current: ProbeOutcome, download: Download,
                    attempts: seq<Upload.Attempt>) returns (outcome: Outcome, calls: nat)
    requires |domainInfo| >= 2
    requires WellFormedDownload(download)
    ensures Handled(domainInfo[0], domainInfo[1], current, download, attempts, outcome, calls)
  {
    calls := 0;
    var host := domainInfo[0] + "." + domainInfo[1];
    var result := GetLatency(host, current);
    if !TooSlow(result) {
      return Kept(result.latency), calls;
    }
    if !download.Archive? {
      return DownloadFailed, calls;
    }
    var files := download.entries;
    var i := 0;
    while i < |files|
      invariant 0 <= i <= |files|
      invariant PassedAll(files, i)
    {
      var file := files[i];
      var content: string;
      if |domainInfo| == 3 && Text.Contains(file.name, domainInfo[2]) {
        if !file.read.Content? {
          return EntryFailed(i), calls;
        }
        content := file.read.data;
      } else {
        if !file.read.Content? {
          return EntryFailed(i), calls;
        }
        content := file.read.data;
      }
      assert WellFormedEntry(file);
      var ip := Select.GetIP(content, file.probes, file.arrival);
      if ip != "" {
        var up := Upload.UploadIP(ip, domainInfo[0], domainInfo[1], attempts);
        calls := calls + 1;
        return Uploaded(i, ip, up), calls;
      }
      i := i + 1;
    }
    return Exhausted, calls;
  }

  /** The threshold is passed exactly when the current address could not be
      probed, lost at least the cut-off, or averaged more than 200 ms. */
  lemma TooSlowIff(host: string, current: ProbeOutcome)
    ensures TooSlow(GetLatency(host, current)) <==>
              current.PingerError? || current.packetLoss >= LossCutoff || current.avgRttMillis > UpdateThreshold
  {
  }

  /** A fast current address: nothing is fetched and uploadIP is not called. */
  lemma FastDomainIsKept(name: string, domain: string, current: ProbeOutcome, download: Download,
                         attempts: seq<Upload.Attempt>, outcome: Outcome, calls: nat)
    requires WellFormedDownload(download)
    requires current.Measured? && current.packetLoss < LossCutoff && current.avgRttMillis <= UpdateThreshold
    requires Handled(name, domain, current, download, attempts, outcome, calls)
    ensures outcome == Kept(current.avgRttMillis) && calls == 0
  {
  }

  /** uploadIP is called at most once, and exactly when an entry gave an
      address; that address passed the selector's filter with the least
      latency of its entry, and every earlier entry was read. */
  lemma AtMostOneUpload(name: string, domain: string, current: ProbeOutcome, download: Download,
                        attempts: seq<Upload.Attempt>, outcome: Outcome, calls: nat)
    requires WellFormedDownload(download)
    requires Handled(name, domain, current, download, attempts, outcome, calls)
    ensures calls <= 1 && (calls == 1 <==> outcome.Uploaded?)
    ensures outcome.Uploaded? ==>
              download.Archive? && outcome.index < |download.entries| && outcome.ip != "" &&
              (forall j :: 0 <= j <= outcome.index ==> download.entries[j].read.Content?) &&
              var pool := PoolOf(download.entries[outcome.index]);
              exists k :: 0 <= k < |pool| && pool[k].ip == outcome.ip && Acceptable(pool[k]) &&
                forall j :: 0 <= j < |pool| && Acceptable(pool[j]) ==> pool[k].latency <= pool[j].latency
  {
  }

  /** An entry skipped on the way to the upload has no passing result, as
      long as no passing result there carries an empty address. */
  lemma SkippedEntriesHadNoPassingResult(name: string, domain: string, current: ProbeOutcome, download: Download,
                                         attempts: seq<Upload.Attempt>, outcome: Outcome, calls: nat, j: nat)
    requires WellFormedDownload(download)
    requires Handled(name, domain, current, download, attempts, outcome, calls)
    requires outcome.Uploaded? && j < outcome.index
    requires forall k :: 0 <= k < |PoolOf(download.entries[j])| && Acceptable(PoolOf(download.entries[j])[k]) ==>
               PoolOf(download.entries[j])[k].ip != ""
    ensures forall k :: 0 <= k < |PoolOf(download.entries[j])| ==> !Acceptable(PoolOf(download.entries[j])[k])
  {
    Select.NoWinnerIffNoneAcceptable(PoolOf(download.entries[j]));
  }

  /** Renaming archive entries changes no possible outcome: the walk visits
      entries in archive order whatever the filter says. */
  lemma EntryNamesAreIgnored(name: string, domain: string, current: ProbeOutcome, es1: seq<ZipEntry>, es2: seq<ZipEntry>,
                             attempts: seq<Upload.Attempt>, outcome: Outcome, calls: nat)
    requires |es1| == |es2|
    requires forall k :: 0 <= k < |es1| ==>
               es1[k].read == es2[k].read && es1[k].probes == es2[k].probes && es1[k].arrival == es2[k].arrival
    requires WellFormedDownload(Archive(es1)) && WellFormedDownload(Archive(es2))
    ensures Handled(name, domain, current, Archive(es1), attempts, outcome, calls) <==>
            Handled(name, domain, current, Archive(es2), attempts, outcome, calls)
  {
    assert forall k :: 0 <= k < |es1| && es1[k].read.Content? ==> PoolOf(es1[k]) == PoolOf(es2[k]);
  }
}
