/** The scan result registry (registry/src/lib.rs). */
module ScanRegistry {
  import opened Host
  import opened Sums

  const SEVERITY_CRITICAL := "critical"
  const SEVERITY_HIGH := "high"
  const MAX_LIMIT := 50

  datatype ContractMetadata = ContractMetadata(name: string, version: string, auditDate: uint64, repoUrl: string)

  datatype ScanResult = ScanResult(
    scanner: Address, timestamp: uint64, findingsHash: string, severityCounts: map<string, uint32>)

  // The LatestScan, ScanHistory, SeverityIndex and ScannedContracts entries.
  datatype Scans = Scans(
    latest: map<Address, ScanResult>, history: map<Address, seq<ScanResult>>,
    index: set<Address>, scanned: seq<Address>)

  datatype Store = Store(
    admin: Option<Address>,
    scanners: map<Address, bool>, scannerCount: uint32,
    scans: Scans,
    scores: map<Address, int32>, metadata: map<Address, ContractMetadata>)

  const Fresh := Store(None, map[], 0, Scans(map[], map[], {}, []), map[], map[])

  datatype Call =
    | Initialize(admin: Address)
    | AddScanner(scanner: Address)
    | RemoveScanner(scanner: Address)
    | SubmitScan(contract: Address, result: ScanResult)
    | DisputeScan(scanner: Address)
    | SetMetadata(scanner: Address, contract: Address, metadata: ContractMetadata)

  predicate IsScanner(s: Store, a: Address) {
    a in s.scanners && s.scanners[a]
  }

  function History(s: Scans, c: Address): seq<ScanResult> {
    if c in s.history then s.history[c] else []
  }

  function Saturate(x: int): int32 {
    if x > I32_MAX then I32_MAX else if x < I32_MIN then I32_MIN else x
  }

  function Recorded(s: Scans, c: Address, r: ScanResult): Scans {
    Scans(s.latest[c := r],
          s.history[c := History(s, c) + [r]],
          s.index + {c},
          if c in s.scanned then s.scanned else s.scanned + [c])
  }

  // Calls that need the admin are authorised by the host once an admin is stored.
  function Step(s: Store, call: Call): Option<Store> {
    match call
    case Initialize(a) =>
      if s.admin.Some? then None else Some(s.(admin := Some(a)))
    case AddScanner(a) =>
      if s.admin.None? || (!IsScanner(s, a) && s.scannerCount == U32_MAX) then None
      else Some(s.(scanners := s.scanners[a := true],
                   scannerCount := if IsScanner(s, a) then s.scannerCount else s.scannerCount + 1))
    case RemoveScanner(a) =>
      if s.admin.None? then None
      else Some(s.(scanners := s.scanners[a := false],
                   scannerCount := if IsScanner(s, a) && s.scannerCount > 0 then s.scannerCount - 1
                                   else s.scannerCount))
    case SubmitScan(c, r) =>
      if r.findingsHash == "" || !IsScanner(s, r.scanner) then None
      else Some(s.(scans := Recorded(s.scans, c, r),
                   scores := s.scores[r.scanner := Saturate(Read(s.scores, r.scanner) + 1)]))
    case DisputeScan(a) =>
      if s.admin.None? then None
      else Some(s.(scores := s.scores[a := Saturate(Read(s.scores, a) - 1)]))
    case SetMetadata(a, c, m) =>
      if c !in s.scans.latest || s.scans.latest[c].scanner != a then None else Some(s.(metadata := s.metadata[c := m]))
  }

  function Run(s: Store, calls: seq<Call>): Store
    decreases |calls|
  {
    if calls == [] then s else Run(After(s, Step(s, calls[0])), calls[1..])
  }

  // ----- Queries

  function Min(a: int, b: int): int {
    if a < b then a else b
  }

  // The n elements from `start`, as far as there are any.
  function Slice<T>(s: seq<T>, start: nat, n: nat): seq<T> {
    s[Min(start, |s|)..Min(start + n, |s|)]
  }

  // `usize` has 32 bits on the contract's target, so the upper bound overflows like the product.
  function ListPage(all: seq<Address>, page: uint32, pageSize: uint32): Option<seq<Address>> {
    if !FitsUint32(page * pageSize) || !FitsUint32(page * pageSize + pageSize) then None
    else Some(Slice(all, page * pageSize, pageSize))
  }

  function HistoryPage(entries: seq<ScanResult>, offset: uint32, limit: uint32): Option<seq<ScanResult>> {
    if offset < |entries| && !FitsUint32(offset + Min(limit, MAX_LIMIT)) then None
    else Some(Slice(entries, offset, Min(limit, MAX_LIMIT)))
  }

  function SeverityPage(matches: seq<Address>, page: uint32, pageSize: uint32): Option<seq<Address>> {
    if pageSize == 0 then Some(matches)
    else if !FitsUint32(page * pageSize)
            || (page * pageSize < |matches| && !FitsUint32(page * pageSize + pageSize)) then None
    else Some(Slice(matches, page * pageSize, pageSize))
  }

  predicate IsLeast(m: Address, S: set<Address>) {
    m in S && forall x :: x in S ==> m <= x
  }

  lemma {:induction false} LeastExists(S: set<Address>)
    requires S != {}
    ensures exists m :: IsLeast(m, S)
    decreases |S|
  {
    var y :| y in S;
    if S == {y} {
      assert IsLeast(y, S);
    } else {
      LeastExists(S - {y});
      var m :| IsLeast(m, S - {y});
      var least := if m < y then m else y;
      forall x | x in S ensures least <= x {
        assert x == y || x in S - {y};
      }
      assert IsLeast(least, S);
    }
  }

  function Least(S: set<Address>): (m: Address)
    requires S != {}
    ensures IsLeast(m, S)
  {
    LeastExists(S);
    var m :| IsLeast(m, S);
    m
  }

  function Ascending(S: set<Address>): seq<Address>
    decreases |S|
  {
    if S == {} then [] else [Least(S)] + Ascending(S - {Least(S)})
  }

  function SeverityCount(r: ScanResult, severity: string): uint32 {
    if severity in r.severityCounts then r.severityCounts[severity] else 0
  }

  predicate Meets(r: ScanResult, minCritical: uint32, minHigh: uint32) {
    SeverityCount(r, SEVERITY_CRITICAL) >= minCritical && SeverityCount(r, SEVERITY_HIGH) >= minHigh
  }

  function Meeting(latest: map<Address, ScanResult>, keys: seq<Address>,
                   minCritical: uint32, minHigh: uint32): seq<Address>
  {
    if keys == [] then []
    else
      var last := keys[|keys| - 1];
      Meeting(latest, keys[..|keys| - 1], minCritical, minHigh)
      + if last in latest && Meets(latest[last], minCritical, minHigh) then [last] else []
  }

  // The host's maps are walked in key order.
  function SeverityMatches(s: Scans, minCritical: uint32, minHigh: uint32): seq<Address> {
    Meeting(s.latest, Ascending(s.index), minCritical, minHigh)
  }

  ghost predicate StrictlyAscending(s: seq<Address>) {
    forall i, j :: 0 <= i < j < |s| ==> s[i] < s[j]
  }

  // ----- The contract

  class ScanRegistry {
    var admin: Option<Address>
    var scanners: map<Address, bool>
    var scannerCount: uint32
    var latest: map<Address, ScanResult>
    var history: map<Address, seq<ScanResult>>
    var index: set<Address>
    var scanned: seq<Address>
    var scores: map<Address, int32>
    var metadata: map<Address, ContractMetadata>

    ghost function Contents(): Store
      reads this
    {
      Store(admin, scanners, scannerCount, Scans(latest, history, index, scanned), scores, metadata)
    }

    constructor ()
      ensures Contents() == Fresh
    {
      admin, scanners, scannerCount := None, map[], 0;
      latest, history, index, scanned := map[], map[], {}, [];
      scores, metadata := map[], map[];
    }

    method Initialize(a: Address) returns (ok: bool)
      modifies this
      ensures Settles(old(Contents()), Step(old(Contents()), Call.Initialize(a)), ok, Contents())
    {
      if admin.Some? {
        return false;
      }
      admin := Some(a);
      return true;
    }

    method AddScanner(scanner: Address) returns (ok: bool)
      modifies this
      ensures Settles(old(Contents()), Step(old(Contents()), Call.AddScanner(scanner)), ok, Contents())
    {
      if admin.None? {
        return false;
      }
      var already := scanner in scanners && scanners[scanner];
      var before := scanners;
      scanners := scanners[scanner := true];
      if !already {
        if !FitsUint32(scannerCount + 1) {
          scanners := before;
          return false;
        }
        scannerCount := scannerCount + 1;
      }
      return true;
    }

    method RemoveScanner(scanner: Address) returns (ok: bool)
      modifies this
      ensures Settles(old(Contents()), Step(old(Contents()), Call.RemoveScanner(scanner)), ok, Contents())
    {
      if admin.None? {
        return false;
      }
      var wasActive := scanner in scanners && scanners[scanner];
      scanners := scanners[scanner := false];
      if wasActive {
        scannerCount := if scannerCount >= 1 then scannerCount - 1 else 0;
      }
      return true;
    }

    method StoreResult(contract: Address, result: ScanResult)
      modifies this`latest, this`history, this`index, this`scanned, this`scores
      ensures Scans(latest, history, index, scanned)
           == Recorded(old(Scans(latest, history, index, scanned)), contract, result)
      ensures scores == old(scores)[result.scanner := Saturate(Read(old(scores), result.scanner) + 1)]
    {
      latest := latest[contract := result];

      var entries := if contract in history then history[contract] else [];
      entries := entries + [result];
      history := history[contract := entries];

      if contract !in index {
        index := index + {contract};
      }
      if contract !in scanned {
        scanned := scanned + [contract];
      }
      var score := Read(scores, result.scanner);
      scores := scores[result.scanner := if score == I32_MAX then I32_MAX else score + 1];
    }

    method SubmitScan(scanner: Address, contract: Address, findingsHash: string,
                      severityCounts: map<string, uint32>, now: uint64) returns (ok: bool)
      modifies this
      ensures Settles(old(Contents()), Step(old(Contents()),
                Call.SubmitScan(contract, ScanResult(scanner, now, findingsHash, severityCounts))), ok, Contents())
    {
      if findingsHash == "" || !(scanner in scanners && scanners[scanner]) {
        return false;
      }
      StoreResult(contract, ScanResult(scanner, now, findingsHash, severityCounts));
      return true;
    }

    method DisputeScan(scanner: Address) returns (ok: bool)
      modifies this
      ensures Settles(old(Contents()), Step(old(Contents()), Call.DisputeScan(scanner)), ok, Contents())
    {
      if admin.None? {
        return false;
      }
      var score := Read(scores, scanner);
      scores := scores[scanner := if score == I32_MIN then I32_MIN else score - 1];
      return true;
    }

    method SetMetadata(scanner: Address, contract: Address, m: ContractMetadata) returns (ok: bool)
      modifies this
      ensures Settles(old(Contents()), Step(old(Contents()), Call.SetMetadata(scanner, contract, m)), ok, Contents())
    {
      if contract !in latest || latest[contract].scanner != scanner {
        return false;
      }
      metadata := metadata[contract := m];
      return true;
    }

    static method MatchSeverity(latest: map<Address, ScanResult>, index: set<Address>,
                                minCritical: uint32, minHigh: uint32)
      returns (matches: seq<Address>)
      ensures matches == Meeting(latest, Ascending(index), minCritical, minHigh)
    {
      matches := [];
      var keys := Ascending(index);
      for i := 0 to |keys|
        invariant matches == Meeting(latest, keys[..i], minCritical, minHigh)
      {
        assert keys[..i + 1][..i] == keys[..i];
        var addr := keys[i];
        if addr in latest {
          var critical := SeverityCount(latest[addr], SEVERITY_CRITICAL);
          var high := SeverityCount(latest[addr], SEVERITY_HIGH);
          if critical >= minCritical && high >= minHigh {
            matches := matches + [addr];
          }
        }
      }
      assert keys[..|keys|] == keys;
    }

    static method Paginate(matches: seq<Address>, page: uint32, pageSize: uint32) returns (r: Option<seq<Address>>)
      ensures r == SeverityPage(matches, page, pageSize)
    {
      if pageSize == 0 {
        return Some(matches);
      }
      if !FitsUint32(page * pageSize) {
        return None;
      }
      var start := page * pageSize;
      if start >= |matches| {
        assert Slice(matches, start, pageSize) == [];
        return Some([]);
      }
      if !FitsUint32(start + pageSize) {
        return None;
      }
      var end := if start + pageSize < |matches| then start + pageSize else |matches|;
      var result: seq<Address> := [];
      for i := start to end
        invariant result == matches[start..i]
      {
        result := result + [matches[i]];
      }
      return Some(result);
    }

    method GetScansByMinSeverity(minCritical: uint32, minHigh: uint32, page: uint32, pageSize: uint32)
      returns (r: Option<seq<Address>>)
      ensures r == SeverityPage(SeverityMatches(Contents().scans, minCritical, minHigh), page, pageSize)
    {
      var matches := MatchSeverity(latest, index, minCritical, minHigh);
      r := Paginate(matches, page, pageSize);
    }

    method GetHistoryPage(contract: Address, offset: uint32, limit: uint32) returns (r: Option<seq<ScanResult>>)
      ensures r == HistoryPage(History(Contents().scans, contract), offset, limit)
    {
      var effectiveLimit := if limit < MAX_LIMIT then limit else MAX_LIMIT;
      var entries := if contract in history then history[contract] else [];
      var total := |entries|;
      if offset >= total {
        assert Slice(entries, offset, effectiveLimit) == [];
        return Some([]);
      }
      if !FitsUint32(offset + effectiveLimit) {
        return None;
      }
      var end := if offset + effectiveLimit < total then offset + effectiveLimit else total;
      var results: seq<ScanResult> := [];
      for i := offset to end
        invariant results == entries[offset..i]
      {
        results := results + [entries[i]];
      }
      return Some(results);
    }

    method GetScannedContractsPage(page: uint32, pageSize: uint32) returns (r: Option<seq<Address>>)
      ensures r == ListPage(scanned, page, pageSize)
    {
      if !FitsUint32(page * pageSize) || !FitsUint32(page * pageSize + pageSize) {
        return None;
      }
      var start := page * pageSize;
      var result: seq<Address> := [];
      for i := start to start + pageSize
        invariant result == Slice(scanned, start, i - start)
      {
        if i >= |scanned| {
          assert Slice(scanned, start, i - start) == Slice(scanned, start, pageSize);
          return Some(result);
        }
        result := result + [scanned[i]];
      }
      return Some(result);
    }
  }

  // ----- Pages

  lemma SlicesJoin<T>(s: seq<T>, start: nat, n: nat)
    ensures s[..Min(start, |s|)] + Slice(s, start, n) == s[..Min(start + n, |s|)]
  {
  }

  // The first k pages one after the other; none when any of the queries panics.

  function ListPages(all: seq<Address>, pageSize: uint32, k: nat): Option<seq<Address>>
    requires k <= U32_MAX + 1
  {
    if k == 0 then Some([])
    else
      var before, last := ListPages(all, pageSize, k - 1), ListPage(all, k - 1, pageSize);
      if before.None? || last.None? then None else Some(before.value + last.value)
  }

  lemma NextMultiple(j: nat, step: nat) returns (p: nat)
    ensures p == j * step && p + step == (j + 1) * step
  {
    p := j * step;
  }

  lemma ListPagesStep(all: seq<Address>, pageSize: uint32, k: nat, start: nat, end: nat)
    requires 0 < k <= U32_MAX + 1 && start == (k - 1) * pageSize && end == start + pageSize
    requires ListPages(all, pageSize, k - 1) == if start <= U32_MAX then Some(all[..Min(start, |all|)]) else None
    ensures ListPages(all, pageSize, k) == if end <= U32_MAX then Some(all[..Min(end, |all|)]) else None
  {
    SlicesJoin(all, start, pageSize);
  }

  // Consecutive pages of the list are the list, without gap or repeat, and a page panics
  // exactly when its upper end leaves the u32 range.
  lemma {:induction false} ListPagesCover(all: seq<Address>, pageSize: uint32, k: nat)
    requires k <= U32_MAX + 1
    ensures ListPages(all, pageSize, k)
         == if k * pageSize <= U32_MAX then Some(all[..Min(k * pageSize, |all|)]) else None
    decreases k
  {
    if k > 0 {
      var start := NextMultiple(k - 1, pageSize);
      ListPagesCover(all, pageSize, k - 1);
      ListPagesStep(all, pageSize, k, start, start + pageSize);
    }
  }

  // Every page before the k-th is addressable, and the last of them panics only when it
  // starts inside the list and ends outside the u32 range.
  predicate PagesFit(total: nat, step: nat, k: nat) {
    k == 0 || ((k - 1) * step <= U32_MAX && ((k - 1) * step < total ==> k * step <= U32_MAX))
  }

  // Where the k-th page starts and ends. It fits when it is addressable and does not panic
  // itself; the pages before it then fit as well.
  lemma LastPage(total: nat, step: nat, k: nat) returns (start: nat, end: nat)
    requires k > 0
    ensures start == (k - 1) * step && end == k * step == start + step
    ensures PagesFit(total, step, k) <==> start <= U32_MAX && (start < total ==> end <= U32_MAX)
    ensures start <= U32_MAX ==> PagesFit(total, step, k - 1)
  {
    start := NextMultiple(k - 1, step);
    end := start + step;
    if k > 1 {
      var before := NextMultiple(k - 2, step);
    }
  }

  // The history, read in steps of the limit as capped; none when a page panics or its
  // offset is not a u32.
  function HistoryPages(entries: seq<ScanResult>, limit: uint32, step: nat, k: nat): Option<seq<ScanResult>>
    requires step == Min(limit, MAX_LIMIT)
  {
    if k == 0 then Some([])
    else
      var offset := (k - 1) * step;
      if offset > U32_MAX then None
      else
        var before, last := HistoryPages(entries, limit, step, k - 1), HistoryPage(entries, offset, limit);
        if before.None? || last.None? then None else Some(before.value + last.value)
  }

  // The first k pages, when it is known where the k-th starts and ends, and whether the
  // pages before it and the pages up to it fit.
  lemma HistoryPagesStep(entries: seq<ScanResult>, limit: uint32, step: nat, k: nat,
                         start: nat, end: nat, fitBefore: bool, fit: bool)
    requires step == Min(limit, MAX_LIMIT)
    requires k > 0 && start == (k - 1) * step && end == start + step
    requires start <= U32_MAX ==> fitBefore
    requires fit <==> start <= U32_MAX && (start < |entries| ==> end <= U32_MAX)
    requires HistoryPages(entries, limit, step, k - 1)
          == if fitBefore then Some(entries[..Min(start, |entries|)]) else None
    ensures HistoryPages(entries, limit, step, k) == if fit then Some(entries[..Min(end, |entries|)]) else None
  {
    SlicesJoin(entries, start, step);
  }

  lemma {:induction false} HistoryPagesCover(entries: seq<ScanResult>, limit: uint32, step: nat, k: nat)
    requires step == Min(limit, MAX_LIMIT)
    ensures HistoryPages(entries, limit, step, k)
         == if PagesFit(|entries|, step, k) then Some(entries[..Min(k * step, |entries|)]) else None
    decreases k
  {
    if k > 0 {
      var fitBefore, fit := PagesFit(|entries|, step, k - 1), PagesFit(|entries|, step, k);
      var start, end := LastPage(|entries|, step, k);
      HistoryPagesCover(entries, limit, step, k - 1);
      HistoryPagesStep(entries, limit, step, k, start, end, fitBefore, fit);
    }
  }

  function SeverityPages(matches: seq<Address>, pageSize: uint32, k: nat): Option<seq<Address>>
    requires k <= U32_MAX + 1
  {
    if k == 0 then Some([])
    else
      var before, last := SeverityPages(matches, pageSize, k - 1), SeverityPage(matches, k - 1, pageSize);
      if before.None? || last.None? then None else Some(before.value + last.value)
  }

  lemma SeverityPagesStep(matches: seq<Address>, pageSize: uint32, k: nat,
                          start: nat, end: nat, fitBefore: bool, fit: bool)
    requires 0 < k <= U32_MAX + 1 && pageSize > 0
    requires start == (k - 1) * pageSize && end == start + pageSize
    requires start <= U32_MAX ==> fitBefore
    requires fit <==> start <= U32_MAX && (start < |matches| ==> end <= U32_MAX)
    requires SeverityPages(matches, pageSize, k - 1)
          == if fitBefore then Some(matches[..Min(start, |matches|)]) else None
    ensures SeverityPages(matches, pageSize, k) == if fit then Some(matches[..Min(end, |matches|)]) else None
  {
    SlicesJoin(matches, start, pageSize);
  }

  // A page size of zero asks for all matches at once and is not paged.
  lemma {:induction false} SeverityPagesCover(matches: seq<Address>, pageSize: uint32, k: nat)
    requires k <= U32_MAX + 1 && pageSize > 0
    ensures SeverityPages(matches, pageSize, k)
         == if PagesFit(|matches|, pageSize, k) then Some(matches[..Min(k * pageSize, |matches|)]) else None
    decreases k
  {
    if k > 0 {
      var fitBefore, fit := PagesFit(|matches|, pageSize, k - 1), PagesFit(|matches|, pageSize, k);
      var start, end := LastPage(|matches|, pageSize, k);
      SeverityPagesCover(matches, pageSize, k - 1);
      SeverityPagesStep(matches, pageSize, k, start, end, fitBefore, fit);
    }
  }

  // A page element by element: the n elements from `start` on, as far as there are any.
  ghost predicate IsPage<T(!new)>(page: seq<T>, all: seq<T>, start: nat, n: nat) {
    && |page| == (if start >= |all| then 0 else if n < |all| - start then n else |all| - start)
    && forall i :: 0 <= i < |page| ==> page[i] == all[start + i]
  }

  lemma SliceIsPage<T(!new)>(all: seq<T>, start: nat, n: nat)
    ensures IsPage(Slice(all, start, n), all, start, n)
  {
  }

  // Any single history page, wherever it starts, and when it panics.
  lemma HistoryPageExactly(entries: seq<ScanResult>, offset: uint32, limit: uint32)
    ensures var n, r := if limit < 50 then limit else 50, HistoryPage(entries, offset, limit);
            && (r.None? <==> offset < |entries| && offset + n > 0xFFFF_FFFF)
            && (r.Some? ==> IsPage(r.value, entries, offset, n))
  {
    SliceIsPage(entries, offset, Min(limit, MAX_LIMIT));
  }

  lemma ListPageExactly(all: seq<Address>, page: uint32, pageSize: uint32, start: nat)
    requires start == page * pageSize
    ensures var r := ListPage(all, page, pageSize);
            && (r.None? <==> start + pageSize > 0xFFFF_FFFF)
            && (r.Some? ==> IsPage(r.value, all, start, pageSize))
  {
    SliceIsPage(all, start, pageSize);
  }

  // A page size of zero asks for all matches.
  lemma SeverityPageExactly(matches: seq<Address>, page: uint32, pageSize: uint32, start: nat)
    requires start == page * pageSize
    ensures var r := SeverityPage(matches, page, pageSize);
            && (pageSize == 0 ==> r == Some(matches))
            && (pageSize > 0 ==>
                  (r.None? <==> start > 0xFFFF_FFFF || (start < |matches| && start + pageSize > 0xFFFF_FFFF)))
            && (pageSize > 0 && r.Some? ==> IsPage(r.value, matches, start, pageSize))
  {
    SliceIsPage(matches, start, pageSize);
  }

  // ----- One submission log behind every store

  datatype Submission = Submission(contract: Address, result: ScanResult)

  function Accepted(s: Store, c: Call): seq<Submission> {
    if c.SubmitScan? && Step(s, c).Some? then [Submission(c.contract, c.result)] else []
  }

  // The log extended by the accepted submissions of a run, in order.
  function Logged(s: Store, log: seq<Submission>, calls: seq<Call>): seq<Submission>
    decreases |calls|
  {
    if calls == [] then log else Logged(After(s, Step(s, calls[0])), log + Accepted(s, calls[0]), calls[1..])
  }

  // What the log says of one contract.
  function EntriesFor(log: seq<Submission>, c: Address): seq<ScanResult> {
    if log == [] then []
    else
      var last := log[|log| - 1];
      EntriesFor(log[..|log| - 1], c) + if last.contract == c then [last.result] else []
  }

  // The contracts of the log, in the order of their first submission.
  function FirstSubmissions(log: seq<Submission>): seq<Address> {
    if log == [] then []
    else
      var init, c := FirstSubmissions(log[..|log| - 1]), log[|log| - 1].contract;
      if c in init then init else init + [c]
  }

  function CountBy(entries: seq<ScanResult>, a: Address): nat {
    if entries == [] then 0
    else CountBy(entries[..|entries| - 1], a) + if entries[|entries| - 1].scanner == a then 1 else 0
  }

  function Approved(scanners: map<Address, bool>): set<Address> {
    set a | a in scanners && scanners[a]
  }

  // What every store holds about one contract is what the log of accepted submissions
  // says of it.
  ghost predicate ContractReflects(s: Store, log: seq<Submission>, c: Address) {
    var entries := EntriesFor(log, c);
    && History(s.scans, c) == entries
    && (c in s.scans.index <==> entries != [])
    && (c in s.scans.scanned <==> entries != [])
    && (c in s.scans.latest <==> entries != [])
    && (c in s.scans.latest ==> s.scans.latest[c] == entries[|entries| - 1])
    && (c in s.metadata ==> entries != [])
  }

  lemma SubmissionReflected(s: Store, log: seq<Submission>, call: Call, c: Address)
    requires ContractReflects(s, log, c)
    requires call.SubmitScan? && Step(s, call).Some?
    ensures ContractReflects(Step(s, call).value, log + [Submission(call.contract, call.result)], c)
  {
    assert (log + [Submission(call.contract, call.result)])[..|log|] == log;
    assert EntriesFor(log + [Submission(call.contract, call.result)], c)
        == EntriesFor(log, c) + if call.contract == c then [call.result] else [];
  }

  lemma StepContractReflects(s: Store, log: seq<Submission>, call: Call, c: Address)
    requires ContractReflects(s, log, c)
    ensures ContractReflects(After(s, Step(s, call)), log + Accepted(s, call), c)
  {
    if call.SubmitScan? && Step(s, call).Some? {
      SubmissionReflected(s, log, call, c);
    } else {
      assert log + Accepted(s, call) == log;
    }
  }

  lemma {:induction false} RunContractReflects(s: Store, log: seq<Submission>, calls: seq<Call>, c: Address)
    requires ContractReflects(s, log, c)
    ensures ContractReflects(Run(s, calls), Logged(s, log, calls), c)
    decreases |calls|
  {
    if calls != [] {
      StepContractReflects(s, log, calls[0], c);
      RunContractReflects(After(s, Step(s, calls[0])), log + Accepted(s, calls[0]), calls[1..], c);
    }
  }

  // The flat list follows the log ...
  ghost predicate ListReflects(s: Store, log: seq<Submission>) {
    s.scans.scanned == FirstSubmissions(log)
  }

  lemma StepListReflects(s: Store, log: seq<Submission>, call: Call)
    requires ListReflects(s, log)
    ensures ListReflects(After(s, Step(s, call)), log + Accepted(s, call))
  {
    if call.SubmitScan? && Step(s, call).Some? {
      assert (log + [Submission(call.contract, call.result)])[..|log|] == log;
    } else {
      assert log + Accepted(s, call) == log;
    }
  }

  lemma {:induction false} RunListReflects(s: Store, log: seq<Submission>, calls: seq<Call>)
    requires ListReflects(s, log)
    ensures ListReflects(Run(s, calls), Logged(s, log, calls))
    decreases |calls|
  {
    if calls != [] {
      StepListReflects(s, log, calls[0]);
      RunListReflects(After(s, Step(s, calls[0])), log + Accepted(s, calls[0]), calls[1..]);
    }
  }

  // ... and the counter counts the approved scanners.

  lemma ApprovedWrite(scanners: map<Address, bool>, a: Address, flag: bool)
    ensures |Approved(scanners[a := flag])|
         == |Approved(scanners)| - (if a in Approved(scanners) then 1 else 0) + if flag then 1 else 0
  {
    var rest := Approved(scanners) - {a};
    assert Approved(scanners) == if a in Approved(scanners) then rest + {a} else rest;
    assert Approved(scanners[a := flag]) == if flag then rest + {a} else rest;
  }

  lemma StepCountsScanners(s: Store, c: Call)
    requires s.scannerCount == |Approved(s.scanners)|
    ensures After(s, Step(s, c)).scannerCount == |Approved(After(s, Step(s, c)).scanners)|
  {
    if c.AddScanner? {
      assert IsScanner(s, c.scanner) <==> c.scanner in Approved(s.scanners);
      ApprovedWrite(s.scanners, c.scanner, true);
    } else if c.RemoveScanner? {
      assert IsScanner(s, c.scanner) <==> c.scanner in Approved(s.scanners);
      ApprovedWrite(s.scanners, c.scanner, false);
    }
  }

  lemma {:induction false} RunCountsScanners(s: Store, calls: seq<Call>)
    requires s.scannerCount == |Approved(s.scanners)|
    ensures Run(s, calls).scannerCount == |Approved(Run(s, calls).scanners)|
    decreases |calls|
  {
    if calls != [] {
      StepCountsScanners(s, calls[0]);
      RunCountsScanners(After(s, Step(s, calls[0])), calls[1..]);
    }
  }

  // In every run, all stores are determined by one append-only log of submissions.
  lemma RegistryReflectsLog(calls: seq<Call>)
    ensures ListReflects(Run(Fresh, calls), Logged(Fresh, [], calls))
    ensures Run(Fresh, calls).scannerCount == |Approved(Run(Fresh, calls).scanners)|
    ensures forall c :: ContractReflects(Run(Fresh, calls), Logged(Fresh, [], calls), c)
  {
    assert Approved(Fresh.scanners) == {};
    RunListReflects(Fresh, [], calls);
    RunCountsScanners(Fresh, calls);
    forall c ensures ContractReflects(Run(Fresh, calls), Logged(Fresh, [], calls), c) {
      RunContractReflects(Fresh, [], calls, c);
    }
  }

  lemma StepAppends(s: Store, call: Call, c: Address)
    ensures History(s.scans, c) <= History(After(s, Step(s, call)).scans, c)
  {
  }

  // Later calls only append to a contract's history.
  lemma {:induction false} HistoryAppendOnly(s: Store, calls: seq<Call>, c: Address)
    ensures History(s.scans, c) <= History(Run(s, calls).scans, c)
    decreases |calls|
  {
    if calls != [] {
      StepAppends(s, calls[0], c);
      HistoryAppendOnly(After(s, Step(s, calls[0])), calls[1..], c);
    }
  }

  // What the log determines.

  ghost predicate NoDuplicates(s: seq<Address>) {
    forall i, j :: 0 <= i < j < |s| ==> s[i] != s[j]
  }

  ghost predicate Submitted(log: seq<Submission>, c: Address) {
    exists i :: 0 <= i < |log| && log[i].contract == c
  }

  ghost predicate SubmittedBefore(log: seq<Submission>, a: Address, b: Address) {
    exists i :: 0 <= i < |log| && log[i].contract == a && forall j :: 0 <= j <= i ==> log[j].contract != b
  }

  lemma SubmittedLater(log: seq<Submission>, e: Submission, c: Address)
    ensures Submitted(log + [e], c) <==> Submitted(log, c) || e.contract == c
  {
    var all := log + [e];
    if i :| 0 <= i < |log| && log[i].contract == c {
      assert all[i].contract == c;
    } else if e.contract == c {
      assert all[|log|].contract == c;
    }
  }

  lemma OrderKept(log: seq<Submission>, e: Submission, a: Address, b: Address)
    requires SubmittedBefore(log, a, b)
    ensures SubmittedBefore(log + [e], a, b)
  {
    var all := log + [e];
    var i :| 0 <= i < |log| && log[i].contract == a && forall j :: 0 <= j <= i ==> log[j].contract != b;
    assert all[i].contract == a && forall j :: 0 <= j <= i ==> all[j] == log[j];
  }

  lemma NewComesLast(log: seq<Submission>, e: Submission, a: Address)
    requires Submitted(log, a) && !Submitted(log, e.contract)
    ensures SubmittedBefore(log + [e], a, e.contract)
  {
    var all := log + [e];
    var i :| 0 <= i < |log| && log[i].contract == a;
    assert all[i].contract == a && forall j :: 0 <= j <= i ==> all[j] == log[j];
  }

  lemma {:induction false} FirstSubmissionMembers(log: seq<Submission>, c: Address)
    ensures c in FirstSubmissions(log) <==> Submitted(log, c)
    decreases |log|
  {
    if log != [] {
      var init, e := log[..|log| - 1], log[|log| - 1];
      assert log == init + [e];
      FirstSubmissionMembers(init, c);
      SubmittedLater(init, e, c);
    }
  }

  ghost predicate InSubmissionOrder(log: seq<Submission>, list: seq<Address>) {
    forall i, j :: 0 <= i < j < |list| ==> SubmittedBefore(log, list[i], list[j])
  }

  lemma OrderExtended(log: seq<Submission>, e: Submission)
    requires InSubmissionOrder(log, FirstSubmissions(log))
    ensures InSubmissionOrder(log + [e], FirstSubmissions(log))
    ensures e.contract !in FirstSubmissions(log) ==>
              InSubmissionOrder(log + [e], FirstSubmissions(log) + [e.contract])
  {
    var before := FirstSubmissions(log);
    forall i, j | 0 <= i < j < |before| ensures SubmittedBefore(log + [e], before[i], before[j]) {
      OrderKept(log, e, before[i], before[j]);
    }
    if e.contract !in before {
      FirstSubmissionMembers(log, e.contract);
      forall i | 0 <= i < |before| ensures SubmittedBefore(log + [e], before[i], e.contract) {
        FirstSubmissionMembers(log, before[i]);
        NewComesLast(log, e, before[i]);
      }
    }
  }

  // The flat list names each submitted contract once, in the order of first submission.
  lemma {:induction false} FirstSubmissionOrder(log: seq<Submission>)
    ensures NoDuplicates(FirstSubmissions(log))
    ensures forall c :: c in FirstSubmissions(log) <==> Submitted(log, c)
    ensures InSubmissionOrder(log, FirstSubmissions(log))
    decreases |log|
  {
    if log != [] {
      var init, e := log[..|log| - 1], log[|log| - 1];
      assert log == init + [e];
      FirstSubmissionOrder(init);
      OrderExtended(init, e);
    }
    forall c ensures c in FirstSubmissions(log) <==> Submitted(log, c) {
      FirstSubmissionMembers(log, c);
    }
  }

  // ----- The severity query

  lemma {:induction false} AscendingElements(S: set<Address>)
    ensures forall x :: x in Ascending(S) <==> x in S
    ensures StrictlyAscending(Ascending(S))
    decreases |S|
  {
    if S != {} {
      var rest := Ascending(S - {Least(S)});
      AscendingElements(S - {Least(S)});
      forall i | 0 <= i < |rest| ensures Least(S) < rest[i] {
        assert rest[i] in rest;
      }
    }
  }

  lemma {:induction false} MeetingElements(latest: map<Address, ScanResult>, keys: seq<Address>,
                                           minCritical: uint32, minHigh: uint32)
    requires StrictlyAscending(keys)
    ensures var r := Meeting(latest, keys, minCritical, minHigh);
            && StrictlyAscending(r)
            && forall c :: c in r <==> c in keys && c in latest && Meets(latest[c], minCritical, minHigh)
  {
    if keys != [] {
      var init := keys[..|keys| - 1];
      MeetingElements(latest, init, minCritical, minHigh);
      var before := Meeting(latest, init, minCritical, minHigh);
      forall i | 0 <= i < |before| ensures before[i] < keys[|keys| - 1] {
        assert before[i] in init;
      }
      assert keys == init + [keys[|keys| - 1]];
    }
  }

  // The last entry counts at least `minCritical` findings under "critical" and at least
  // `minHigh` under "high"; what is not counted is none.
  ghost predicate LastCounts(entries: seq<ScanResult>, minCritical: uint32, minHigh: uint32) {
    entries != [] &&
      var counts := entries[|entries| - 1].severityCounts;
      && minCritical <= (if "critical" in counts then counts["critical"] else 0)
      && minHigh <= (if "high" in counts then counts["high"] else 0)
  }

  lemma MatchesExactly(s: Store, log: seq<Submission>, c: Address, minCritical: uint32, minHigh: uint32)
    requires ContractReflects(s, log, c)
    ensures c in SeverityMatches(s.scans, minCritical, minHigh)
       <==> LastCounts(EntriesFor(log, c), minCritical, minHigh)
  {
    AscendingElements(s.scans.index);
    MeetingElements(s.scans.latest, Ascending(s.scans.index), minCritical, minHigh);
  }

  // In every reachable state the severity query names, once each and in key order,
  // exactly the contracts whose last submitted result counts enough.
  lemma SeverityQueryExact(calls: seq<Call>, minCritical: uint32, minHigh: uint32)
    ensures var r := SeverityMatches(Run(Fresh, calls).scans, minCritical, minHigh);
            && StrictlyAscending(r)
            && forall c :: c in r <==> LastCounts(EntriesFor(Logged(Fresh, [], calls), c), minCritical, minHigh)
  {
    var s := Run(Fresh, calls);
    AscendingElements(s.scans.index);
    MeetingElements(s.scans.latest, Ascending(s.scans.index), minCritical, minHigh);
    forall c ensures c in SeverityMatches(s.scans, minCritical, minHigh) <==>
      LastCounts(EntriesFor(Logged(Fresh, [], calls), c), minCritical, minHigh)
    {
      RunContractReflects(Fresh, [], calls, c);
      MatchesExactly(s, Logged(Fresh, [], calls), c, minCritical, minHigh);
    }
  }

  // ----- Reputation

  // How a call moves a scanner's tally of accepted entries less disputes.
  function TallyChange(s: Store, call: Call, a: Address): int {
    if Step(s, call).None? then 0
    else if call.SubmitScan? && call.result.scanner == a then 1
    else if call.DisputeScan? && call.scanner == a then -1
    else 0
  }

  // The stored score follows the tally, and stays where it is at either end of the range.
  lemma StepTally(s: Store, call: Call, a: Address)
    ensures var next := Read(s.scores, a) + TallyChange(s, call, a);
            (Read(After(s, Step(s, call)).scores, a)
             == if next > I32_MAX then I32_MAX else if next < I32_MIN then I32_MIN else next)
  {
  }

  // The tally is inside the i32 range after every call of the run.
  ghost predicate TallyFits(s: Store, calls: seq<Call>, a: Address, tally: int)
    decreases |calls|
  {
    I32_MIN <= tally <= I32_MAX
    && (calls == [] || TallyFits(After(s, Step(s, calls[0])), calls[1..], a, tally + TallyChange(s, calls[0], a)))
  }

  // The stored score is the tally after every call of the run.
  ghost predicate ScoreIsTally(s: Store, calls: seq<Call>, a: Address, tally: int)
    decreases |calls|
  {
    Read(s.scores, a) == tally
    && (calls == [] || ScoreIsTally(After(s, Step(s, calls[0])), calls[1..], a, tally + TallyChange(s, calls[0], a)))
  }

  // The score is entries less disputes throughout a run exactly when that number never
  // leaves the i32 range, that is, when no update saturates.
  lemma {:induction false} ScoreExact(s: Store, calls: seq<Call>, a: Address, tally: int)
    requires Read(s.scores, a) == tally
    ensures ScoreIsTally(s, calls, a, tally) <==> TallyFits(s, calls, a, tally)
    decreases |calls|
  {
    if calls != [] {
      var t := After(s, Step(s, calls[0]));
      var next := tally + TallyChange(s, calls[0], a);
      StepTally(s, calls[0], a);
      if Read(t.scores, a) == next {
        ScoreExact(t, calls[1..], a, next);
      }
    }
  }

  // The scanner's entries across the histories of all contracts.

  ghost function Counter(a: Address): seq<ScanResult> -> int {
    entries => CountBy(entries, a)
  }

  ghost function EntriesBy(s: Scans, a: Address): int {
    SumOf(s.history, Counter(a))
  }

  lemma CountAppended(entries: seq<ScanResult>, r: ScanResult, a: Address)
    ensures CountBy(entries + [r], a) == CountBy(entries, a) + if r.scanner == a then 1 else 0
  {
  }

  lemma SubmissionCounted(s: Scans, c: Address, r: ScanResult, a: Address)
    ensures EntriesBy(Recorded(s, c, r), a) == EntriesBy(s, a) + if r.scanner == a then 1 else 0
  {
    CountAppended(History(s, c), r, a);
    SumOfWrite(s.history, Counter(a), c, History(s, c) + [r]);
  }

  function Disputed(s: Store, call: Call, a: Address): nat {
    if call.DisputeScan? && call.scanner == a && Step(s, call).Some? then 1 else 0
  }

  function Disputes(s: Store, calls: seq<Call>, a: Address): nat
    decreases |calls|
  {
    if calls == [] then 0 else Disputed(s, calls[0], a) + Disputes(After(s, Step(s, calls[0])), calls[1..], a)
  }

  lemma StepCounted(s: Store, call: Call, a: Address)
    ensures EntriesBy(After(s, Step(s, call)).scans, a)
         == EntriesBy(s.scans, a) + TallyChange(s, call, a) + Disputed(s, call, a)
  {
    if call.SubmitScan? && Step(s, call).Some? {
      SubmissionCounted(s.scans, call.contract, call.result, a);
    }
  }

  // While no update saturates, score plus disputes is the number of the scanner's
  // entries over all histories.
  lemma {:induction false} ScorePlusDisputes(s: Store, calls: seq<Call>, a: Address, tally: int)
    requires Read(s.scores, a) == tally && TallyFits(s, calls, a, tally)
    ensures Read(Run(s, calls).scores, a) + Disputes(s, calls, a) - tally
         == EntriesBy(Run(s, calls).scans, a) - EntriesBy(s.scans, a)
    decreases |calls|
  {
    if calls != [] {
      StepTally(s, calls[0], a);
      StepCounted(s, calls[0], a);
      ScorePlusDisputes(After(s, Step(s, calls[0])), calls[1..], a, tally + TallyChange(s, calls[0], a));
    }
  }

  // ----- Who may write

  // What a call leaves of a scanner's approval when that was `approved`.
  function Decided(s: Store, approved: bool, c: Call, a: Address): bool {
    if Step(s, c).None? then approved
    else if c == AddScanner(a) then true
    else if c == RemoveScanner(a) then false
    else approved
  }

  // What the accepted decisions of a run leave of it.
  function LastDecision(s: Store, approved: bool, calls: seq<Call>, a: Address): bool
    decreases |calls|
  {
    if calls == [] then approved
    else LastDecision(After(s, Step(s, calls[0])), Decided(s, approved, calls[0], a), calls[1..], a)
  }

  lemma StepDecided(s: Store, c: Call, a: Address)
    ensures IsScanner(After(s, Step(s, c)), a) == Decided(s, IsScanner(s, a), c, a)
  {
  }

  lemma {:induction false} ApprovalIsLastDecision(s: Store, calls: seq<Call>, a: Address)
    ensures IsScanner(Run(s, calls), a) == LastDecision(s, IsScanner(s, a), calls, a)
    decreases |calls|
  {
    if calls != [] {
      StepDecided(s, calls[0], a);
      ApprovalIsLastDecision(After(s, Step(s, calls[0])), calls[1..], a);
    }
  }

  // A submission is accepted exactly when it has a hash and the last decision about its
  // scanner, over the whole run before it, was an approval.
  lemma SubmissionNeedsStandingApproval(calls: seq<Call>, c: Address, r: ScanResult)
    ensures Step(Run(Fresh, calls), SubmitScan(c, r)).Some?
       <==> r.findingsHash != "" && LastDecision(Fresh, false, calls, r.scanner)
  {
    ApprovalIsLastDecision(Fresh, calls, r.scanner);
  }

  // The admin of the first initialisation.
  function FirstAdmin(admin: Option<Address>, calls: seq<Call>): Option<Address>
    decreases |calls|
  {
    if calls == [] then admin
    else FirstAdmin(if admin.None? && calls[0].Initialize? then Some(calls[0].admin) else admin, calls[1..])
  }

  lemma {:induction false} RunAdmin(s: Store, calls: seq<Call>)
    ensures Run(s, calls).admin == FirstAdmin(s.admin, calls)
    decreases |calls|
  {
    if calls != [] {
      RunAdmin(After(s, Step(s, calls[0])), calls[1..]);
    }
  }

  // Only the first initialisation is accepted. It fixes the admin and opens the calls of
  // the admin; adding fails beyond that only when the counter is at its end.
  lemma AdminCallsAccepted(calls: seq<Call>, a: Address)
    ensures var s, open := Run(Fresh, calls), FirstAdmin(None, calls).Some?;
            && s.admin == FirstAdmin(None, calls)
            && (Step(s, Initialize(a)).Some? <==> !open)
            && (Step(s, AddScanner(a)).Some?
                <==> open && (LastDecision(Fresh, false, calls, a) || |Approved(s.scanners)| != 4_294_967_295))
            && (Step(s, RemoveScanner(a)).Some? <==> open)
            && (Step(s, DisputeScan(a)).Some? <==> open)
  {
    RunAdmin(Fresh, calls);
    ApprovalIsLastDecision(Fresh, calls, a);
    assert Approved(Fresh.scanners) == {};
    RunCountsScanners(Fresh, calls);
  }

  // The metadata of the last accepted call that set those of c.

  function MetadataAfter(s: Store, m: Option<ContractMetadata>, call: Call, c: Address): Option<ContractMetadata> {
    if call.SetMetadata? && call.contract == c && Step(s, call).Some? then Some(call.metadata) else m
  }

  function LastMetadata(s: Store, m: Option<ContractMetadata>, calls: seq<Call>, c: Address): Option<ContractMetadata>
    decreases |calls|
  {
    if calls == [] then m
    else LastMetadata(After(s, Step(s, calls[0])), MetadataAfter(s, m, calls[0], c), calls[1..], c)
  }

  ghost predicate MetadataIs(s: Store, c: Address, m: Option<ContractMetadata>) {
    (c in s.metadata <==> m.Some?) && (m.Some? ==> s.metadata[c] == m.value)
  }

  lemma StepMetadata(s: Store, m: Option<ContractMetadata>, call: Call, c: Address)
    requires MetadataIs(s, c, m)
    ensures MetadataIs(After(s, Step(s, call)), c, MetadataAfter(s, m, call, c))
  {
  }

  lemma {:induction false} MetadataIsLast(s: Store, m: Option<ContractMetadata>, calls: seq<Call>, c: Address)
    requires MetadataIs(s, c, m)
    ensures MetadataIs(Run(s, calls), c, LastMetadata(s, m, calls, c))
    decreases |calls|
  {
    if calls != [] {
      StepMetadata(s, m, calls[0], c);
      MetadataIsLast(After(s, Step(s, calls[0])), MetadataAfter(s, m, calls[0], c), calls[1..], c);
    }
  }

  // The documentation lets any scanner with a scan of the contract set its metadata. The
  // code asks for the last entry: a scanner overtaken by another is refused.
  lemma MetadataNeedsLastEntry(calls: seq<Call>, a: Address, c: Address, m: ContractMetadata)
    ensures var entries := EntriesFor(Logged(Fresh, [], calls), c);
            (Step(Run(Fresh, calls), SetMetadata(a, c, m)).Some?
             <==> entries != [] && entries[|entries| - 1].scanner == a)
  {
    RunContractReflects(Fresh, [], calls, c);
  }

  // For example: two approved scanners submit a result for one contract, and the first of
  // them can no longer set its metadata.

  function OvertakingRun(admin: Address, a: Address, ra: ScanResult, b: Address, rb: ScanResult, c: Address)
    : seq<Call>
  {
    [Initialize(admin)] + ([AddScanner(a)] + ([AddScanner(b)] + ([SubmitScan(c, ra)] + ([SubmitScan(c, rb)] + []))))
  }

  lemma LoggedFirst(s: Store, log: seq<Submission>, call: Call, rest: seq<Call>)
    ensures Logged(s, log, [call] + rest)
         == Logged(After(s, Step(s, call)),
                   if call.SubmitScan? && Step(s, call).Some?
                   then log + [Submission(call.contract, call.result)] else log,
                   rest)
  {
    assert ([call] + rest)[1..] == rest;
    assert log + [] == log;
  }

  lemma OvertakingRunLogged(admin: Address, a: Address, ra: ScanResult, b: Address, rb: ScanResult, c: Address)
    requires ra.scanner == a && rb.scanner == b && ra.findingsHash != "" && rb.findingsHash != ""
    ensures Logged(Fresh, [], OvertakingRun(admin, a, ra, b, rb, c)) == [Submission(c, ra), Submission(c, rb)]
  {
    var rest3 := [SubmitScan(c, rb)] + [];
    var rest2 := [SubmitScan(c, ra)] + rest3;
    var rest1 := [AddScanner(b)] + rest2;
    var rest0 := [AddScanner(a)] + rest1;
    var s0 := Step(Fresh, Initialize(admin)).value;
    var s1 := Step(s0, AddScanner(a)).value;
    var s2 := Step(s1, AddScanner(b)).value;
    assert IsScanner(s2, a) && IsScanner(s2, b);
    var s3 := Step(s2, SubmitScan(c, ra)).value;
    assert IsScanner(s3, b);
    LoggedFirst(Fresh, [], Initialize(admin), rest0);
    LoggedFirst(s0, [], AddScanner(a), rest1);
    LoggedFirst(s1, [], AddScanner(b), rest2);
    LoggedFirst(s2, [], SubmitScan(c, ra), rest3);
    assert [] + [Submission(c, ra)] == [Submission(c, ra)];
    LoggedFirst(s3, [Submission(c, ra)], SubmitScan(c, rb), []);
    assert [Submission(c, ra)] + [Submission(c, rb)] == [Submission(c, ra), Submission(c, rb)];
  }

  lemma OvertakenScannerRefused(admin: Address, a: Address, ra: ScanResult, b: Address, rb: ScanResult, c: Address,
                                m: ContractMetadata)
    requires a != b && ra.scanner == a && rb.scanner == b && ra.findingsHash != "" && rb.findingsHash != ""
    ensures var calls := OvertakingRun(admin, a, ra, b, rb, c);
            && History(Run(Fresh, calls).scans, c) == [ra, rb]
            && Step(Run(Fresh, calls), SetMetadata(a, c, m)).None?
            && Step(Run(Fresh, calls), SetMetadata(b, c, m)).Some?
  {
    var calls := OvertakingRun(admin, a, ra, b, rb, c);
    var log := [Submission(c, ra), Submission(c, rb)];
    OvertakingRunLogged(admin, a, ra, b, rb, c);
    assert log[..1] == [log[0]] && log[..1][..0] == [];
    assert EntriesFor(log[..1], c) == EntriesFor([], c) + [ra] == [ra];
    assert EntriesFor(log, c) == EntriesFor(log[..1], c) + [rb] == [ra, rb];
    RunContractReflects(Fresh, [], calls, c);
    MetadataNeedsLastEntry(calls, a, c, m);
    MetadataNeedsLastEntry(calls, b, c, m);
  }
}
