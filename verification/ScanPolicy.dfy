/**
 * The runtime scan policy over nested findings. Values that are missing or of
 * the wrong type are None; every error that the source catches ends here in the
 * same blocked verdict with empty lists. An expiry time that overflows when it
 * is converted to UTC is not caught there, and not a value here.
 */
module ScanPolicy {
  import opened Bounded
  import opened Text
  import opened Requirements
  import opened BuildContract

  datatype Severity = Critical | High | Unknown | Medium | Low
  datatype Remedy = Upstream | Runtime | Base | Review | NoAction
  datatype Disposition = Blocks | Waived | Harmless

  datatype Key = Key(id: string, package: string, installed: string, profile: string)

  /** `texts` are the other fields of a waiver; `expires` is its parsed expiry time, None when it does not parse. */
  datatype Waiver = Waiver(key: Key, texts: seq<string>, expires: Option<real>)

  /** None is a waiver that is not a record with exactly the expected fields. */
  datatype WaiverDoc = WaiverDoc(headerOk: bool, entries: seq<Option<Waiver>>)

  /** A fixed version is absent, not a string, or a text. */
  datatype Fixed = Absent | NotText | Version(text: string)

  datatype Vulnerability = Vulnerability(id: Option<string>, package: Option<string>, installed: Option<string>,
                                         severity: Option<string>, fixed: Fixed)

  datatype Source = Source(target: string, cls: string, kind: string)

  /** None for a result, its source or a vulnerability that is malformed, and for a list that is not one. */
  datatype ScanResult = ScanResult(source: Option<Source>, vulnerabilities: Option<seq<Option<Vulnerability>>>)
  datatype Report = Report(isImage: bool, imageOk: bool, results: Option<seq<ScanResult>>)

  datatype Finding = Finding(key: Key, fixed: string, severity: Severity, source: Source, owner: Remedy,
                             disposition: Disposition, remedy: Remedy, waiver: Option<Waiver>)

  datatype Verdict =
    | Integrity
    | Judged(pass: bool, blocking: seq<Finding>, waived: seq<Finding>, harmless: seq<Finding>,
             raw: multiset<Severity>, ids: set<string>, buckets: map<Remedy, seq<Finding>>)

  const REMEDIES: set<Remedy> := {Upstream, Runtime, Base, Review}

  // ----- well-formed values ------------------------------------------------------------------

  predicate IsText(s: string) {
    s != "" && !IsSpace(s[0]) && !IsSpace(s[|s| - 1])
  }

  predicate IsTextOf(v: Option<string>) {
    v.Some? && IsText(v.value)
  }

  predicate HasWildcard(s: string) {
    exists k :: 0 <= k < |s| && (s[k] == '*' || s[k] == '?' || s[k] == '[' || s[k] == ']')
  }

  function SeverityOf(text: string): Option<Severity> {
    if text == "CRITICAL" then Some(Critical)
    else if text == "HIGH" then Some(High)
    else if text == "UNKNOWN" then Some(Unknown)
    else if text == "MEDIUM" then Some(Medium)
    else if text == "LOW" then Some(Low)
    else None
  }

  function StripLeft(s: string): string {
    if s != "" && IsSpace(s[0]) then StripLeft(s[1..]) else s
  }

  function StripRight(s: string): string {
    if s != "" && IsSpace(s[|s| - 1]) then StripRight(s[..|s| - 1]) else s
  }

  function FixedText(f: Fixed): string {
    if f.Version? then StripRight(StripLeft(f.text)) else ""
  }

  // ----- waivers ------------------------------------------------------------------------------

  predicate WaiverOk(w: Waiver, now: real) {
    && IsText(w.key.id) && IsText(w.key.package) && IsText(w.key.installed) && IsText(w.key.profile)
    && (forall i :: 0 <= i < |w.texts| ==> IsText(w.texts[i]))
    && !HasWildcard(w.key.id) && !HasWildcard(w.key.package) && !HasWildcard(w.key.installed)
    && !HasWildcard(w.key.profile)
    && w.expires.Some? && w.expires.value > now
  }

  ghost predicate WaiversOk(doc: WaiverDoc, now: real) {
    doc.headerOk && EntriesOk(doc.entries, now)
  }

  /** The exact waiver of a key, if the document has one. */
  function WaiverFor(entries: seq<Option<Waiver>>, key: Key): Option<Waiver> {
    if entries == [] then None
    else if entries[0].Some? && entries[0].value.key == key then entries[0]
    else WaiverFor(entries[1..], key)
  }

  lemma {:induction false} WaiverForMeans(entries: seq<Option<Waiver>>, key: Key)
    ensures WaiverFor(entries, key).None? <==>
              forall i :: 0 <= i < |entries| && entries[i].Some? ==> entries[i].value.key != key
    ensures WaiverFor(entries, key).Some? ==>
              WaiverFor(entries, key).value.key == key && WaiverFor(entries, key) in entries
  {
    if entries != [] && !(entries[0].Some? && entries[0].value.key == key) {
      WaiverForMeans(entries[1..], key);
      forall i | 0 <= i < |entries| && entries[i].Some? && WaiverFor(entries, key).None?
        ensures entries[i].value.key != key
      {
        assert i > 0 ==> entries[1..][i - 1] == entries[i];
      }
    }
  }

  ghost predicate AllowedMeans(allowed: map<Key, Waiver>, entries: seq<Option<Waiver>>) {
    && (forall key :: key in allowed ==> Some(allowed[key]) in entries && allowed[key].key == key)
    && (forall i :: 0 <= i < |entries| && entries[i].Some? ==> entries[i].value.key in allowed)
  }

  ghost predicate EntriesOk(entries: seq<Option<Waiver>>, now: real) {
    && (forall i :: 0 <= i < |entries| ==> entries[i].Some? && WaiverOk(entries[i].value, now))
    && (forall i, j :: 0 <= i < j < |entries| && entries[i].Some? && entries[j].Some? ==>
          entries[i].value.key != entries[j].value.key)
  }

  lemma OneMoreEntry(allowed: map<Key, Waiver>, entries: seq<Option<Waiver>>, item: Waiver, now: real)
    requires EntriesOk(entries, now) && AllowedMeans(allowed, entries)
    ensures EntriesOk(entries + [Some(item)], now) <==> WaiverOk(item, now) && item.key !in allowed
    ensures item.key !in allowed ==> AllowedMeans(allowed[item.key := item], entries + [Some(item)])
  {
    hide WaiverOk;
    var all := entries + [Some(item)];
    assert all[|entries|] == Some(item);
    assert forall i :: 0 <= i < |entries| ==> all[i] == entries[i];
    if item.key in allowed {
      var i :| 0 <= i < |entries| && entries[i] == Some(allowed[item.key]);
      assert all[i].value.key == item.key;
    }
  }

  lemma EntriesPrefix(entries: seq<Option<Waiver>>, n: nat, now: real)
    requires n <= |entries|
    ensures EntriesOk(entries, now) ==> EntriesOk(entries[..n], now)
  {
    hide WaiverOk;
  }

  /** Fills a dictionary entry by entry, rejecting the whole document at the first bad one. */
  method ReadWaivers(doc: WaiverDoc, now: real) returns (allowed: Option<map<Key, Waiver>>)
    ensures allowed.Some? <==> WaiversOk(doc, now)
    ensures allowed.Some? ==> forall key :: (if key in allowed.value then Some(allowed.value[key]) else None)
                                            == WaiverFor(doc.entries, key)
  {
    hide WaiverOk;
    if !doc.headerOk {
      return None;
    }
    var entries: map<Key, Waiver> := map[];
    assert doc.entries[..0] == [];
    for i := 0 to |doc.entries|
      invariant EntriesOk(doc.entries[..i], now) && AllowedMeans(entries, doc.entries[..i])
    {
      var item := doc.entries[i];
      assert doc.entries[..i + 1] == doc.entries[..i] + [item];
      if item.None? {
        return None;
      }
      OneMoreEntry(entries, doc.entries[..i], item.value, now);
      if !WaiverOk(item.value, now) || item.value.key in entries {
        EntriesPrefix(doc.entries, i + 1, now);
        return None;
      }
      entries := entries[item.value.key := item.value];
    }
    assert doc.entries[..|doc.entries|] == doc.entries;
    AllowedIsWaiverFor(entries, doc, now);
    allowed := Some(entries);
  }

  lemma AllowedIsWaiverFor(entries: map<Key, Waiver>, doc: WaiverDoc, now: real)
    requires WaiversOk(doc, now) && AllowedMeans(entries, doc.entries)
    ensures forall key :: (if key in entries then Some(entries[key]) else None) == WaiverFor(doc.entries, key)
  {
    forall key
      ensures (if key in entries then Some(entries[key]) else None) == WaiverFor(doc.entries, key)
    {
      WaiverForMeans(doc.entries, key);
      if key in entries {
        SameKeySameWaiver(doc, now, Some(entries[key]), WaiverFor(doc.entries, key));
      }
    }
  }

  lemma SameKeySameWaiver(doc: WaiverDoc, now: real, a: Option<Waiver>, b: Option<Waiver>)
    requires WaiversOk(doc, now) && a in doc.entries && a.Some?
    requires b.Some? ==> b in doc.entries && b.value.key == a.value.key
    requires b.None? ==>
               forall i :: 0 <= i < |doc.entries| && doc.entries[i].Some? ==> doc.entries[i].value.key != a.value.key
    ensures a == b
  {
    var i :| 0 <= i < |doc.entries| && doc.entries[i] == a;
    if b.Some? {
      var j :| 0 <= j < |doc.entries| && doc.entries[j] == b;
    }
  }

  // ----- one finding ---------------------------------------------------------------------------

  /** What every finding is judged against. */
  datatype Context = Context(direct: set<string>, profile: string, entries: seq<Option<Waiver>>)

  /** A vulnerability together with the source it was found in. */
  datatype Hit = Hit(source: Source, vulnerability: Vulnerability)

  predicate IsOs(s: Source) {
    s.cls == "os-pkgs" && s.kind != "python-pkg"
  }

  predicate IsPython(s: Source) {
    s.cls == "lang-pkgs" && s.kind == "python-pkg"
  }

  predicate SourceOk(s: Option<Source>) {
    s.Some? && IsText(s.value.target) && IsText(s.value.cls) && IsText(s.value.kind)
    && (IsOs(s.value) || IsPython(s.value))
  }

  predicate VulnerabilityOk(v: Option<Vulnerability>) {
    v.Some? && IsTextOf(v.value.id) && IsTextOf(v.value.package) && IsTextOf(v.value.installed)
    && IsTextOf(v.value.severity) && SeverityOf(v.value.severity.value).Some? && !v.value.fixed.NotText?
  }

  predicate HitOk(hit: Hit) {
    SourceOk(Some(hit.source)) && VulnerabilityOk(Some(hit.vulnerability))
  }

  function KeyOf(cx: Context, v: Vulnerability): Key
    requires VulnerabilityOk(Some(v))
  {
    Key(v.id.value, v.package.value, v.installed.value, cx.profile)
  }

  predicate Waiverable(hit: Hit)
    requires HitOk(hit)
  {
    IsOs(hit.source) && SeverityOf(hit.vulnerability.severity.value).value in {High, Unknown}
    && FixedText(hit.vulnerability.fixed) == ""
  }

  predicate HasWaiver(cx: Context, hit: Hit)
    requires HitOk(hit)
  {
    WaiverFor(cx.entries, KeyOf(cx, hit.vulnerability)).Some?
  }

  /** No waiver may match a finding that cannot be waived. */
  predicate Lawful(cx: Context, hit: Hit) {
    HitOk(hit) && (HasWaiver(cx, hit) ==> Waiverable(hit))
  }

  function OwnerOf(cx: Context, hit: Hit): Remedy
    requires HitOk(hit)
  {
    if IsOs(hit.source) then Base
    else if NormalizeName(hit.vulnerability.package.value) in cx.direct then Upstream
    else Runtime
  }

  function Classify(cx: Context, hit: Hit): Finding
    requires Lawful(cx, hit)
  {
    var v := hit.vulnerability;
    var key := KeyOf(cx, v);
    var severity := SeverityOf(v.severity.value).value;
    var waiver := WaiverFor(cx.entries, key);
    var owner := OwnerOf(cx, hit);
    var f := Finding(key, FixedText(v.fixed), severity, hit.source, owner, Blocks, owner, None);
    if severity in {Medium, Low} then f.(disposition := Harmless, remedy := NoAction)
    else if waiver.Some? then f.(disposition := Waived, remedy := Review, waiver := waiver)
    else f.(remedy := if Waiverable(hit) then Review else owner)
  }

  // ----- all findings ----------------------------------------------------------------------------

  predicate ResultOk(r: ScanResult) {
    SourceOk(r.source) && r.vulnerabilities.Some?
    && forall i :: 0 <= i < |r.vulnerabilities.value| ==> VulnerabilityOk(r.vulnerabilities.value[i])
  }

  function FlatMap<A, B>(f: A -> seq<B>, xs: seq<A>): seq<B> {
    if xs == [] then [] else FlatMap(f, xs[..|xs| - 1]) + f(xs[|xs| - 1])
  }

  function HitOf(source: Source, v: Option<Vulnerability>): seq<Hit> {
    if v.Some? then [Hit(source, v.value)] else []
  }

  function ToHits(source: Source): Option<Vulnerability> -> seq<Hit> {
    v => HitOf(source, v)
  }

  function HitsIn(r: ScanResult): seq<Hit> {
    if r.source.Some? && r.vulnerabilities.Some? then FlatMap(ToHits(r.source.value), r.vulnerabilities.value) else []
  }

  function AllHits(results: seq<ScanResult>): seq<Hit> {
    FlatMap(HitsIn, results)
  }

  function FindingOf(cx: Context, hit: Hit): seq<Finding> {
    if Lawful(cx, hit) then [Classify(cx, hit)] else []
  }

  function ToFindings(cx: Context): Hit -> seq<Finding> {
    hit => FindingOf(cx, hit)
  }

  /** The findings of lawful hits, in their order. */
  function Findings(cx: Context, hits: seq<Hit>): seq<Finding> {
    FlatMap(ToFindings(cx), hits)
  }

  function Select(fs: seq<Finding>, d: Disposition): seq<Finding> {
    if fs == [] then [] else (if fs[0].disposition == d then [fs[0]] else []) + Select(fs[1..], d)
  }

  function Bucket(fs: seq<Finding>, r: Remedy): seq<Finding> {
    if fs == [] then [] else (if fs[0].remedy == r then [fs[0]] else []) + Bucket(fs[1..], r)
  }

  function Severities(fs: seq<Finding>): multiset<Severity> {
    if fs == [] then multiset{} else multiset{fs[0].severity} + Severities(fs[1..])
  }

  /** The order of the serialised findings; any strict total order will do. */
  ghost predicate IsOrder(less: (Finding, Finding) -> bool) {
    && (forall a, b :: !(less(a, b) && less(b, a)))
    && (forall a, b :: a == b || less(a, b) || less(b, a))
    && (forall a, b, c :: less(a, b) && less(b, c) ==> less(a, c))
  }

  ghost predicate Sorted(fs: seq<Finding>, less: (Finding, Finding) -> bool) {
    forall i, j :: 0 <= i < j < |fs| ==> !less(fs[j], fs[i])
  }

  function JudgedOn(fs: seq<Finding>): Verdict {
    var blocking := Select(fs, Blocks);
    Judged(blocking == [], blocking, Select(fs, Waived), Select(fs, Harmless), Severities(fs),
           set f | f in fs :: f.key.id, map r | r in REMEDIES :: Bucket(blocking, r))
  }

  /** Everything that does not raise. */
  ghost predicate InputsOk(report: Report, request: Option<(Contract, Profile)>, doc: WaiverDoc, now: real) {
    && request.Some? && WaiversOk(doc, now)
    && report.isImage && report.imageOk && report.results.Some? && report.results.value != []
    && forall i :: 0 <= i < |report.results.value| ==> ResultOk(report.results.value[i])
  }

  /** Canonical names of the pins that the request asks for. */
  function DirectNames(requirements: seq<string>): set<string> {
    set pin | pin in requirements :: NormalizeName(pin[..FirstEquals(pin)])
  }

  function ContextOf(request: (Contract, Profile), doc: WaiverDoc): Context {
    Context(DirectNames(request.0.requirements), request.1.build, doc.entries)
  }

  // ----- sorting ----------------------------------------------------------------------------------

  function InsertFinding(fs: seq<Finding>, f: Finding, less: (Finding, Finding) -> bool): (r: seq<Finding>)
    ensures multiset(r) == multiset(fs) + multiset{f}
  {
    if fs == [] then [f]
    else if less(f, fs[0]) then [f] + fs
    else
      assert fs == [fs[0]] + fs[1..];
      [fs[0]] + InsertFinding(fs[1..], f, less)
  }

  function SortedOf(fs: seq<Finding>, less: (Finding, Finding) -> bool): (r: seq<Finding>)
    ensures multiset(r) == multiset(fs)
  {
    if fs == [] then []
    else
      assert fs == fs[..|fs| - 1] + [fs[|fs| - 1]];
      InsertFinding(SortedOf(fs[..|fs| - 1], less), fs[|fs| - 1], less)
  }

  lemma {:induction false} InsertSorts(fs: seq<Finding>, f: Finding, less: (Finding, Finding) -> bool)
    requires IsOrder(less) && Sorted(fs, less)
    ensures Sorted(InsertFinding(fs, f, less), less)
  {
    if fs != [] && less(f, fs[0]) {
      forall j | 0 <= j < |fs|
        ensures !less(fs[j], f)
      {
        assert j > 0 ==> !less(fs[j], fs[0]);
      }
    } else if fs != [] {
      InsertSorts(fs[1..], f, less);
      var rest := InsertFinding(fs[1..], f, less);
      forall j | 0 <= j < |rest|
        ensures !less(rest[j], fs[0])
      {
        assert rest[j] in multiset(rest);
        if rest[j] != f {
          assert rest[j] in fs[1..];
          var i :| 0 <= i < |fs[1..]| && fs[1..][i] == rest[j];
          assert fs[i + 1] == rest[j];
        }
      }
    }
  }

  lemma {:induction false} SortedOfSorts(fs: seq<Finding>, less: (Finding, Finding) -> bool)
    requires IsOrder(less)
    ensures Sorted(SortedOf(fs, less), less)
  {
    if fs != [] {
      SortedOfSorts(fs[..|fs| - 1], less);
      InsertSorts(SortedOf(fs[..|fs| - 1], less), fs[|fs| - 1], less);
    }
  }

  lemma SameHead(a: seq<Finding>, b: seq<Finding>, less: (Finding, Finding) -> bool)
    requires IsOrder(less) && Sorted(a, less) && Sorted(b, less) && multiset(a) == multiset(b) && a != [] && b != []
    ensures a[0] == b[0]
  {
    assert a[0] in multiset(b) && b[0] in multiset(a);
    var i :| 0 <= i < |b| && b[i] == a[0];
    var j :| 0 <= j < |a| && a[j] == b[0];
  }

  lemma SameTail(a: seq<Finding>, b: seq<Finding>)
    requires a != [] && b != [] && a[0] == b[0] && multiset(a) == multiset(b)
    ensures multiset(a[1..]) == multiset(b[1..])
  {
    assert a == [a[0]] + a[1..] && b == [b[0]] + b[1..];
    assert multiset(a[1..]) == multiset(a) - multiset{a[0]};
    assert multiset(b[1..]) == multiset(b) - multiset{b[0]};
  }

  /** There is only one sorted arrangement of the same findings. */
  lemma {:induction false} SortedIsUnique(a: seq<Finding>, b: seq<Finding>, less: (Finding, Finding) -> bool)
    requires IsOrder(less) && Sorted(a, less) && Sorted(b, less) && multiset(a) == multiset(b)
    ensures a == b
  {
    assert |multiset(a)| == |a| && |multiset(b)| == |b|;
    if a != [] {
      SameHead(a, b, less);
      SameTail(a, b);
      assert Sorted(a[1..], less) && Sorted(b[1..], less);
      hide IsOrder;
      SortedIsUnique(a[1..], b[1..], less);
      assert a == [a[0]] + a[1..] && b == [b[0]] + b[1..];
    }
  }

  // ----- the verdict ------------------------------------------------------------------------------

  ghost predicate AllLawful(cx: Context, hits: seq<Hit>) {
    forall i :: 0 <= i < |hits| ==> Lawful(cx, hits[i])
  }

  ghost function Evaluated(report: Report, data: Request, doc: WaiverDoc, now: real,
                           less: (Finding, Finding) -> bool): Verdict
  {
    var request := Accepted(data);
    if !InputsOk(report, request, doc, now) then Integrity
    else
      var cx := ContextOf(request.value, doc);
      var hits := AllHits(report.results.value);
      if AllLawful(cx, hits) then JudgedOn(SortedOf(Findings(cx, hits), less)) else Integrity
  }

  lemma {:induction false} FlatMapAppend<A, B>(f: A -> seq<B>, xs: seq<A>, ys: seq<A>)
    ensures FlatMap(f, xs + ys) == FlatMap(f, xs) + FlatMap(f, ys)
  {
    if ys == [] {
      assert xs + ys == xs;
    } else {
      var n := |ys| - 1;
      assert (xs + ys)[..|xs + ys| - 1] == xs + ys[..n];
      FlatMapAppend(f, xs, ys[..n]);
    }
  }

  /** Nested loops over results and their vulnerabilities; the first bad value ends everything. */
  method EvaluateScan(report: Report, data: Request, doc: WaiverDoc, now: real, less: (Finding, Finding) -> bool)
    returns (v: Verdict)
    ensures v == Evaluated(report, data, doc, now, less)
  {
    hide Accepted;
    hide ResultOk;
    hide WaiversOk;
    hide AllHits;
    hide HitsIn;
    hide AllLawful;
    hide Findings;
    hide JudgedOn;
    hide SortedOf;
    var request := ValidateRequest(data);
    if request.None? {
      return Integrity;
    }
    var allowed := ReadWaivers(doc, now);
    if allowed.None? || !report.isImage || !report.imageOk || report.results.None? || report.results.value == [] {
      return Integrity;
    }
    var cx := ContextOf(request.value, doc);
    var results := report.results.value;
    var findings: seq<Finding> := [];
    NoResults(cx);
    assert results[..0] == [];
    for i := 0 to |results|
      invariant forall k :: 0 <= k < i ==> ResultOk(results[k])
      invariant AllLawful(cx, AllHits(results[..i]))
      invariant findings == Findings(cx, AllHits(results[..i]))
    {
      var more := ScanOne(cx, allowed.value, results[i]);
      NextResult(cx, results, i);
      if more.None? {
        FirstBadDecides(report, request, doc, now, cx, i);
        return Integrity;
      }
      findings := findings + more.value;
    }
    assert results[..|results|] == results;
    v := JudgedOn(SortedOf(findings, less));
  }

  lemma NoResults(cx: Context)
    ensures AllHits([]) == [] && AllLawful(cx, []) && Findings(cx, []) == []
  {
  }

  lemma NextResult(cx: Context, results: seq<ScanResult>, i: nat)
    requires i < |results|
    ensures AllHits(results[..i + 1]) == AllHits(results[..i]) + HitsIn(results[i])
    ensures AllLawful(cx, AllHits(results[..i + 1])) <==>
              AllLawful(cx, AllHits(results[..i])) && AllLawful(cx, HitsIn(results[i]))
    ensures Findings(cx, AllHits(results[..i + 1]))
            == Findings(cx, AllHits(results[..i])) + Findings(cx, HitsIn(results[i]))
  {
    assert results[..i + 1][..i] == results[..i];
    var a, b := AllHits(results[..i]), HitsIn(results[i]);
    FlatMapAppend(ToFindings(cx), a, b);
    assert AllHits(results[..i + 1]) == a + b;
    LawfulConcat(cx, a, b);
  }

  lemma LawfulConcat(cx: Context, a: seq<Hit>, b: seq<Hit>)
    ensures AllLawful(cx, a + b) <==> AllLawful(cx, a) && AllLawful(cx, b)
  {
    hide Lawful;
    if AllLawful(cx, a + b) {
      forall k | 0 <= k < |a|
        ensures Lawful(cx, a[k])
      {
        assert (a + b)[k] == a[k];
      }
      forall k | 0 <= k < |b|
        ensures Lawful(cx, b[k])
      {
        assert (a + b)[|a| + k] == b[k];
      }
    }
  }

  /** A bad or unlawful result makes the whole evaluation fail. */
  lemma FirstBadDecides(report: Report, request: Option<(Contract, Profile)>, doc: WaiverDoc, now: real,
                        cx: Context, i: nat)
    requires request.Some? && cx == ContextOf(request.value, doc) && report.results.Some?
    requires i < |report.results.value|
    requires !(ResultOk(report.results.value[i]) && AllLawful(cx, HitsIn(report.results.value[i])))
    ensures !(InputsOk(report, request, doc, now) && AllLawful(cx, AllHits(report.results.value)))
  {
    hide ResultOk;
    var results := report.results.value;
    NextResult(cx, results, i);
    assert results == results[..i + 1] + results[i + 1..];
    FlatMapAppend(HitsIn, results[..i + 1], results[i + 1..]);
    LawfulConcat(cx, AllHits(results[..i + 1]), AllHits(results[i + 1..]));
    hide AllLawful;
    hide HitsIn;
    hide WaiversOk;
  }

  /** One result: its findings, or None when it is malformed or a waiver matches a prohibited finding. */
  method ScanOne(cx: Context, allowed: map<Key, Waiver>, r: ScanResult) returns (fs: Option<seq<Finding>>)
    requires forall key :: (if key in allowed then Some(allowed[key]) else None) == WaiverFor(cx.entries, key)
    ensures fs.Some? <==> ResultOk(r) && AllLawful(cx, HitsIn(r))
    ensures fs.Some? ==> fs.value == Findings(cx, HitsIn(r))
  {
    hide FlatMap;
    hide ToHits;
    hide Findings;
    hide AllLawful;
    hide WaiverFor;
    hide Waiverable;
    if !SourceOk(r.source) || r.vulnerabilities.None? {
      return None;
    }
    hide SourceOk;
    EmptyHits(cx, r.source.value);
    var source, vs := r.source.value, r.vulnerabilities.value;
    var findings: seq<Finding> := [];
    assert vs[..0] == [];
    for i := 0 to |vs|
      invariant forall k :: 0 <= k < i ==> VulnerabilityOk(vs[k])
      invariant AllLawful(cx, FlatMap(ToHits(source), vs[..i]))
      invariant findings == Findings(cx, FlatMap(ToHits(source), vs[..i]))
    {
      var v := vs[i];
      if !VulnerabilityOk(v) {
        return None;
      }
      var hit := Hit(source, v.value);
      NextHit(cx, source, vs, i);
      var key := KeyOf(cx, v.value);
      if key in allowed && !Waiverable(hit) {
        assert WaiverFor(cx.entries, key).Some?;
        LaterHits(cx, source, vs, i + 1);
        return None;
      }
      assert WaiverFor(cx.entries, key).Some? <==> key in allowed;
      assert Lawful(cx, hit);
      findings := findings + [Classify(cx, hit)];
    }
    assert vs[..|vs|] == vs;
    return Some(findings);
  }

  lemma EmptyHits(cx: Context, source: Source)
    ensures FlatMap(ToHits(source), []) == []
    ensures AllLawful(cx, []) && Findings(cx, []) == []
  {
  }

  lemma NextHit(cx: Context, source: Source, vs: seq<Option<Vulnerability>>, i: nat)
    requires i < |vs| && vs[i].Some?
    ensures var before, after := FlatMap(ToHits(source), vs[..i]), FlatMap(ToHits(source), vs[..i + 1]);
            var hit := Hit(source, vs[i].value);
            && (AllLawful(cx, after) <==> AllLawful(cx, before) && Lawful(cx, hit))
            && Findings(cx, after) == Findings(cx, before) + FindingOf(cx, hit)
  {
    hide Lawful;
    hide FindingOf;
    var before := FlatMap(ToHits(source), vs[..i]);
    var hit := Hit(source, vs[i].value);
    assert vs[..i + 1][..i] == vs[..i];
    assert FlatMap(ToHits(source), vs[..i + 1]) == before + [hit];
    LawfulConcat(cx, before, [hit]);
    assert AllLawful(cx, [hit]) <==> Lawful(cx, hit) by {
      assert [hit][0] == hit;
    }
    FindingsOfOne(cx, before, hit);
  }

  lemma FindingsOfOne(cx: Context, before: seq<Hit>, hit: Hit)
    ensures Findings(cx, before + [hit]) == Findings(cx, before) + FindingOf(cx, hit)
  {
    hide FindingOf;
    assert (before + [hit])[..|before|] == before;
  }

  lemma LaterHits(cx: Context, source: Source, vs: seq<Option<Vulnerability>>, n: nat)
    requires n <= |vs| && !AllLawful(cx, FlatMap(ToHits(source), vs[..n]))
    ensures !AllLawful(cx, FlatMap(ToHits(source), vs))
  {
    hide AllLawful;
    hide ToHits;
    var toHits := ToHits(source);
    assert vs == vs[..n] + vs[n..];
    FlatMapAppend(toHits, vs[..n], vs[n..]);
    hide FlatMap;
    LawfulConcat(cx, FlatMap(toHits, vs[..n]), FlatMap(toHits, vs[n..]));
  }

  // ----- partition --------------------------------------------------------------------------------

  lemma {:induction false} SelectPartitions(fs: seq<Finding>)
    ensures multiset(Select(fs, Blocks)) + multiset(Select(fs, Waived)) + multiset(Select(fs, Harmless)) == multiset(fs)
  {
    if fs != [] {
      assert fs == [fs[0]] + fs[1..];
      SelectPartitions(fs[1..]);
    }
  }

  /** How often one finding is in one bucket. */
  lemma {:induction false} BucketCounts(fs: seq<Finding>, r: Remedy, f: Finding)
    ensures multiset(Bucket(fs, r))[f] == if f.remedy == r then multiset(fs)[f] else 0
  {
    if fs != [] {
      assert fs == [fs[0]] + fs[1..];
      BucketCounts(fs[1..], r, f);
    }
  }

  /** How often one finding is in all buckets. */
  lemma AllBucketCounts(fs: seq<Finding>, f: Finding)
    requires f in fs ==> f.remedy in REMEDIES
    ensures multiset(Bucket(fs, Upstream))[f] + multiset(Bucket(fs, Runtime))[f] + multiset(Bucket(fs, Base))[f]
            + multiset(Bucket(fs, Review))[f] == multiset(fs)[f]
  {
    hide Bucket;
    BucketCounts(fs, Upstream, f);
    BucketCounts(fs, Runtime, f);
    BucketCounts(fs, Base, f);
    BucketCounts(fs, Review, f);
    assert f !in fs ==> multiset(fs)[f] == 0;
  }

  /** Four multisets make up a fifth if they do so for every finding. */
  lemma SumOfFour(a: multiset<Finding>, b: multiset<Finding>, c: multiset<Finding>, d: multiset<Finding>,
                  all: multiset<Finding>)
    requires forall f :: a[f] + b[f] + c[f] + d[f] == all[f]
    ensures a + b + c + d == all
  {
    forall f
      ensures (a + b + c + d)[f] == all[f]
    {
      assert (a + b)[f] == a[f] + b[f];
    }
  }

  lemma BucketsPartition(fs: seq<Finding>)
    requires forall i :: 0 <= i < |fs| ==> fs[i].remedy in REMEDIES
    ensures multiset(Bucket(fs, Upstream)) + multiset(Bucket(fs, Runtime)) + multiset(Bucket(fs, Base))
            + multiset(Bucket(fs, Review)) == multiset(fs)
  {
    hide Bucket;
    var up, run, base, rev := multiset(Bucket(fs, Upstream)), multiset(Bucket(fs, Runtime)),
                              multiset(Bucket(fs, Base)), multiset(Bucket(fs, Review));
    var all := multiset(fs);
    forall f
      ensures up[f] + run[f] + base[f] + rev[f] == all[f]
    {
      AllBucketCounts(fs, f);
    }
    SumOfFour(up, run, base, rev, all);
  }

  lemma {:induction false} SelectMembers(fs: seq<Finding>, d: Disposition)
    ensures forall f :: f in Select(fs, d) <==> f in fs && f.disposition == d
  {
    if fs != [] {
      SelectMembers(fs[1..], d);
    }
  }

  lemma {:induction false} FindingsMembers(cx: Context, hits: seq<Hit>)
    ensures forall f :: f in Findings(cx, hits) <==>
              exists hit :: hit in hits && Lawful(cx, hit) && f == Classify(cx, hit)
  {
    hide Lawful;
    hide Classify;
    if hits != [] {
      var n := |hits| - 1;
      FindingsMembers(cx, hits[..n]);
      assert hits == hits[..n] + [hits[n]];
      forall f
        ensures f in Findings(cx, hits) <==> f in Findings(cx, hits[..n]) || f in FindingOf(cx, hits[n])
      {
      }
    }
  }

  lemma ClassifiedRemedy(cx: Context, hit: Hit)
    requires Lawful(cx, hit)
    ensures Classify(cx, hit).disposition.Blocks? ==> Classify(cx, hit).remedy in REMEDIES
    ensures Classify(cx, hit).disposition.Blocks? <==>
              SeverityOf(hit.vulnerability.severity.value).value !in {Medium, Low} && !HasWaiver(cx, hit)
  {
  }

  /** All vulnerabilities of a report. */
  function Vulnerabilities(results: seq<ScanResult>): nat {
    if results == [] then 0
    else
      var vs := results[|results| - 1].vulnerabilities;
      Vulnerabilities(results[..|results| - 1]) + (if vs.Some? then |vs.value| else 0)
  }

  lemma {:induction false} FlatMapCounts<A, B>(f: A -> seq<B>, xs: seq<A>)
    requires forall i :: 0 <= i < |xs| ==> |f(xs[i])| == 1
    ensures |FlatMap(f, xs)| == |xs|
  {
    if xs != [] {
      FlatMapCounts(f, xs[..|xs| - 1]);
    }
  }

  lemma {:induction false} HitsCount(results: seq<ScanResult>)
    requires forall i :: 0 <= i < |results| ==> ResultOk(results[i])
    ensures |AllHits(results)| == Vulnerabilities(results)
  {
    hide VulnerabilityOk;
    hide SourceOk;
    if results != [] {
      var r := results[|results| - 1];
      HitsCount(results[..|results| - 1]);
      OkResultCounts(r);
      assert AllHits(results) == AllHits(results[..|results| - 1]) + HitsIn(r);
      hide HitsIn;
    }
  }

  lemma OkResultCounts(r: ScanResult)
    requires ResultOk(r)
    ensures |HitsIn(r)| == |r.vulnerabilities.value|
  {
    FlatMapCounts(ToHits(r.source.value), r.vulnerabilities.value);
  }

  lemma FindingsCount(cx: Context, hits: seq<Hit>)
    requires AllLawful(cx, hits)
    ensures |Findings(cx, hits)| == |hits|
  {
    FlatMapCounts(ToFindings(cx), hits);
  }

  /**
   * No vulnerability is lost; the three lists partition the findings, and the
   * remediation buckets partition the blocking ones.
   */
  lemma VerdictPartitions(report: Report, data: Request, doc: WaiverDoc, now: real, less: (Finding, Finding) -> bool)
    requires Evaluated(report, data, doc, now, less).Judged?
    ensures var v := Evaluated(report, data, doc, now, less);
            var all := Findings(ContextOf(Accepted(data).value, doc), AllHits(report.results.value));
            && multiset(v.blocking) + multiset(v.waived) + multiset(v.harmless) == multiset(all)
            && multiset(v.buckets[Upstream]) + multiset(v.buckets[Runtime]) + multiset(v.buckets[Base])
               + multiset(v.buckets[Review]) == multiset(v.blocking)
            && |v.raw| == |all| == |AllHits(report.results.value)| == Vulnerabilities(report.results.value)
  {
    HitsCount(report.results.value);
    var cx := ContextOf(Accepted(data).value, doc);
    var hits := AllHits(report.results.value);
    var all := Findings(cx, hits);
    var fs := SortedOf(all, less);
    FindingsCount(cx, hits);
    hide AllHits;
    hide Accepted;
    hide InputsOk;
    hide AllLawful;
    SelectPartitions(fs);
    BlockingHaveRemedies(cx, hits, fs);
    BucketsPartition(Select(fs, Blocks));
    CountSeverities(fs);
    assert |fs| == |multiset(fs)| == |multiset(all)| == |all|;
    hide SortedOf;
    hide Findings;
    hide Select;
    hide Bucket;
    hide Severities;
  }

  lemma {:induction false} CountSeverities(fs: seq<Finding>)
    ensures |Severities(fs)| == |fs|
  {
    if fs != [] {
      CountSeverities(fs[1..]);
    }
  }

  lemma BlockingHaveRemedies(cx: Context, hits: seq<Hit>, fs: seq<Finding>)
    requires multiset(fs) == multiset(Findings(cx, hits))
    ensures forall i :: 0 <= i < |Select(fs, Blocks)| ==> Select(fs, Blocks)[i].remedy in REMEDIES
  {
    FindingsMembers(cx, hits);
    SelectMembers(fs, Blocks);
    hide Findings;
    hide Select;
    hide Classify;
    hide Lawful;
    forall i | 0 <= i < |Select(fs, Blocks)|
      ensures Select(fs, Blocks)[i].remedy in REMEDIES
    {
      var f := Select(fs, Blocks)[i];
      assert f in Select(fs, Blocks);
      assert f in multiset(fs);
      assert f in multiset(Findings(cx, hits));
      assert f in Findings(cx, hits);
      assert f.disposition.Blocks?;
      var hit :| hit in hits && Lawful(cx, hit) && f == Classify(cx, hit);
      ClassifiedRemedy(cx, hit);
    }
  }

  // ----- exactly what is well-formed -------------------------------------------------------------------

  /** Stripping cuts whitespace off both ends and nothing else. */
  lemma StripExactly(before: string, s: string, after: string)
    requires forall k :: 0 <= k < |before| ==> IsSpace(before[k])
    requires forall k :: 0 <= k < |after| ==> IsSpace(after[k])
    requires s == "" || (!IsSpace(s[0]) && !IsSpace(s[|s| - 1]))
    ensures StripRight(StripLeft(before + (s + after))) == s
  {
    if s == "" {
      assert s + after == after && before + after + "" == before + after;
      StripLeftOf(before + after, "");
      assert before + (s + after) == before + after;
    } else {
      assert (s + after)[0] == s[0];
      StripLeftOf(before, s + after);
      StripRightOf(s, after);
    }
  }

  lemma {:induction false} StripLeftOf(before: string, rest: string)
    requires forall k :: 0 <= k < |before| ==> IsSpace(before[k])
    requires rest == "" || !IsSpace(rest[0])
    ensures StripLeft(before + rest) == rest
  {
    if before == "" {
      assert before + rest == rest;
    } else {
      assert (before + rest)[1..] == before[1..] + rest;
      StripLeftOf(before[1..], rest);
    }
  }

  lemma {:induction false} StripRightOf(rest: string, after: string)
    requires forall k :: 0 <= k < |after| ==> IsSpace(after[k])
    requires rest == "" || !IsSpace(rest[|rest| - 1])
    ensures StripRight(rest + after) == rest
  {
    if after == "" {
      assert rest + after == rest;
    } else {
      var n := |after| - 1;
      assert (rest + after)[..|rest + after| - 1] == rest + after[..n];
      StripRightOf(rest, after[..n]);
    }
  }

  /** A text is not empty and is its own stripped form. */
  lemma TextExactly(s: string)
    ensures IsText(s) <==> s != "" && StripRight(StripLeft(s)) == s
  {
    if s != "" {
      StripsShorten(s);
    }
  }

  lemma {:induction false} StripLeftShortens(s: string)
    ensures |StripLeft(s)| <= |s| && (s != "" && IsSpace(s[0]) ==> |StripLeft(s)| < |s|)
  {
    if s != "" && IsSpace(s[0]) {
      StripLeftShortens(s[1..]);
    }
  }

  lemma {:induction false} StripRightShortens(s: string)
    ensures |StripRight(s)| <= |s| && (s != "" && IsSpace(s[|s| - 1]) ==> |StripRight(s)| < |s|)
  {
    if s != "" && IsSpace(s[|s| - 1]) {
      StripRightShortens(s[..|s| - 1]);
    }
  }

  lemma StripsShorten(s: string)
    requires s != ""
    ensures |StripRight(StripLeft(s))| < |s| <==> IsSpace(s[0]) || IsSpace(s[|s| - 1])
  {
    StripLeftShortens(s);
    StripRightShortens(StripLeft(s));
    if !IsSpace(s[0]) {
      assert StripLeft(s) == s;
    }
  }

  /** Which waivers are accepted: texts only, no wildcard in what is matched, and not expired yet. */
  lemma WaiverExactly(w: Waiver, now: real)
    ensures var k := w.key;
            WaiverOk(w, now) <==>
              && Exact(k.id) && Exact(k.package) && Exact(k.installed) && Exact(k.profile)
              && (forall t :: t in w.texts ==> IsText(t))
              && exists e :: w.expires == Some(e) && now < e
  {
    hide IsText;
    WildcardExactly(w.key.id);
    WildcardExactly(w.key.package);
    WildcardExactly(w.key.installed);
    WildcardExactly(w.key.profile);
    hide HasWildcard;
    hide NoWildcard;
    assert forall i :: 0 <= i < |w.texts| ==> w.texts[i] in w.texts;
  }

  ghost predicate NoWildcard(t: string) {
    forall c :: c in t ==> c != '*' && c != '?' && c != '[' && c != ']'
  }

  ghost predicate Exact(t: string) {
    IsText(t) && NoWildcard(t)
  }

  lemma WildcardExactly(t: string)
    ensures HasWildcard(t) <==> !NoWildcard(t)
  {
    if !NoWildcard(t) {
      var c :| c in t && (c == '*' || c == '?' || c == '[' || c == ']');
      var k :| 0 <= k < |t| && t[k] == c;
    }
    if HasWildcard(t) {
      var k :| 0 <= k < |t| && (t[k] == '*' || t[k] == '?' || t[k] == '[' || t[k] == ']');
      assert t[k] in t;
    }
  }

  /** Which records of a scan are accepted: texts, one of five severities, and a fix that is a text if there is one. */
  lemma VulnerabilityExactly(v: Vulnerability)
    ensures VulnerabilityOk(Some(v)) <==>
              && v.id.Some? && IsText(v.id.value) && v.package.Some? && IsText(v.package.value)
              && v.installed.Some? && IsText(v.installed.value) && !v.fixed.NotText?
              && v.severity.Some?
              && var s := v.severity.value;
                 s == "CRITICAL" || s == "HIGH" || s == "UNKNOWN" || s == "MEDIUM" || s == "LOW"
  {
  }

  /** Which results are accepted: of one of two kinds, with such records only. */
  lemma ResultExactly(r: ScanResult)
    ensures ResultOk(r) <==>
              && r.source.Some? && r.vulnerabilities.Some?
              && (forall i :: 0 <= i < |r.vulnerabilities.value| ==> VulnerabilityOk(r.vulnerabilities.value[i]))
              && var s := r.source.value;
              && IsText(s.target) && IsText(s.kind)
              && ((s.cls == "os-pkgs" && s.kind != "python-pkg") || (s.cls == "lang-pkgs" && s.kind == "python-pkg"))
  {
    hide VulnerabilityOk;
  }

  // ----- which finding is where ----------------------------------------------------------------------

  /** No waiver of the document has exactly this identifier, package, version and build profile. */
  ghost predicate Unwaived(cx: Context, hit: Hit)
    requires HitOk(hit)
  {
    var v := hit.vulnerability;
    forall i :: 0 <= i < |cx.entries| && cx.entries[i].Some? ==>
      cx.entries[i].value.key != Key(v.id.value, v.package.value, v.installed.value, cx.profile)
  }

  /** The lists and buckets of a verdict: harmless, waived, or blocking with one of four remedies. */
  datatype Place = InHarmless | InWaived | In(remedy: Remedy)

  /** Where a finding belongs, by its severity, its source, its fix and the pins of the request. */
  ghost predicate Belongs(cx: Context, hit: Hit, place: Place)
    requires HitOk(hit)
  {
    var v := hit.vulnerability;
    var severity := v.severity.value;
    match place
    case InHarmless => severity == "MEDIUM" || severity == "LOW"
    case InWaived =>
      (severity == "HIGH" || severity == "UNKNOWN") && hit.source.cls == "os-pkgs" && FixedText(v.fixed) == ""
      && !Unwaived(cx, hit)
    case In(remedy) =>
      && (severity == "CRITICAL" || severity == "HIGH" || severity == "UNKNOWN") && Unwaived(cx, hit)
      && if hit.source.cls == "os-pkgs" then
           if severity != "CRITICAL" && FixedText(v.fixed) == "" then remedy == Review else remedy == Base
         else if NormalizeName(v.package.value) in cx.direct then remedy == Upstream
         else remedy == Runtime
  }

  /** A finding says where it is. */
  predicate IsAt(f: Finding, place: Place) {
    match place
    case InHarmless => f.disposition == Harmless && f.remedy == NoAction
    case InWaived => f.disposition == Waived && f.remedy == Review
    case In(remedy) => f.disposition == Blocks && f.remedy == remedy
  }

  lemma ClassifiedExactly(cx: Context, hit: Hit, place: Place)
    requires Lawful(cx, hit)
    ensures var f, v := Classify(cx, hit), hit.vulnerability;
            && (IsAt(f, place) <==> Belongs(cx, hit, place))
            && f.key == Key(v.id.value, v.package.value, v.installed.value, cx.profile)
            && f.source == hit.source && f.fixed == FixedText(v.fixed)
            && v.severity.value == (match f.severity
                                    case Critical => "CRITICAL"
                                    case High => "HIGH"
                                    case Unknown => "UNKNOWN"
                                    case Medium => "MEDIUM"
                                    case Low => "LOW")
            && (f.disposition.Waived? <==> f.waiver.Some?)
            && (f.waiver.Some? ==> f.waiver in cx.entries && f.waiver.value.key == f.key)
  {
    WaiverForMeans(cx.entries, KeyOf(cx, hit.vulnerability));
    hide WaiverFor;
    hide NormalizeName;
    hide FixedText;
    hide IsText;
  }

  lemma {:induction false} BucketMembers(fs: seq<Finding>, r: Remedy)
    ensures forall f :: f in Bucket(fs, r) <==> f in fs && f.remedy == r
  {
    if fs != [] {
      BucketMembers(fs[1..], r);
    }
  }

  /** The part of a verdict that a place names. */
  function ListOf(v: Verdict, place: Place): seq<Finding>
    requires v.Judged? && (place.In? ==> place.remedy in v.buckets)
  {
    match place
    case InHarmless => v.harmless
    case InWaived => v.waived
    case In(remedy) => v.buckets[remedy]
  }

  /** Each list and each bucket of a verdict holds exactly the findings that belong there. */
  lemma VerdictPlaces(report: Report, data: Request, doc: WaiverDoc, now: real, less: (Finding, Finding) -> bool,
                      place: Place, f: Finding)
    requires Evaluated(report, data, doc, now, less).Judged? && (place.In? ==> place.remedy in REMEDIES)
    ensures var v := Evaluated(report, data, doc, now, less);
            var cx := ContextOf(Accepted(data).value, doc);
            && v.buckets.Keys == REMEDIES
            && (f in ListOf(v, place) <==>
                  exists hit :: hit in AllHits(report.results.value) && Lawful(cx, hit) && Belongs(cx, hit, place)
                                && f == Classify(cx, hit))
  {
    var cx := ContextOf(Accepted(data).value, doc);
    var hits := AllHits(report.results.value);
    hide AllHits;
    hide Accepted;
    hide InputsOk;
    hide AllLawful;
    hide Lawful;
    hide Classify;
    hide Belongs;
    hide ContextOf;
    hide SortedOf;
    hide Findings;
    var fs := SortedOf(Findings(cx, hits), less);
    assert Evaluated(report, data, doc, now, less) == JudgedOn(fs);
    hide Evaluated;
    ListMembers(fs, place, f);
    hide JudgedOn;
    hide ListOf;
    FindingsMembers(cx, hits);
    SortedMembers(Findings(cx, hits), less, f);
    if hit :| hit in hits && Lawful(cx, hit) && f == Classify(cx, hit) {
      forall other | other in hits && Lawful(cx, other) && f == Classify(cx, other)
        ensures Listed(f, place) <==> Belongs(cx, other, place)
      {
        ClassifiedExactly(cx, other, place);
        DispositionPlaces(cx, other);
      }
    }
  }

  /** What the lists of a verdict select by. */
  predicate Listed(f: Finding, place: Place) {
    match place
    case InHarmless => f.disposition == Harmless
    case InWaived => f.disposition == Waived
    case In(remedy) => f.disposition == Blocks && f.remedy == remedy
  }

  lemma ListMembers(fs: seq<Finding>, place: Place, f: Finding)
    requires place.In? ==> place.remedy in REMEDIES
    ensures JudgedOn(fs).buckets.Keys == REMEDIES
    ensures f in ListOf(JudgedOn(fs), place) <==> f in fs && Listed(f, place)
  {
    hide Severities;
    SelectMembers(fs, Blocks);
    SelectMembers(fs, Waived);
    SelectMembers(fs, Harmless);
    if place.In? {
      BucketMembers(Select(fs, Blocks), place.remedy);
    }
    hide Select;
    hide Bucket;
  }

  lemma SortedMembers(fs: seq<Finding>, less: (Finding, Finding) -> bool, f: Finding)
    ensures f in SortedOf(fs, less) <==> f in fs
  {
    var sorted := SortedOf(fs, less);
    hide SortedOf;
    assert f in sorted <==> f in multiset(sorted);
    assert f in fs <==> f in multiset(fs);
  }

  lemma DispositionPlaces(cx: Context, hit: Hit)
    requires Lawful(cx, hit)
    ensures Classify(cx, hit).disposition.Harmless? <==> IsAt(Classify(cx, hit), InHarmless)
    ensures Classify(cx, hit).disposition.Waived? <==> IsAt(Classify(cx, hit), InWaived)
  {
    hide WaiverFor;
    hide NormalizeName;
  }

  // ----- when it passes ----------------------------------------------------------------------------

  /** An exact waiver of this document that has not expired. */
  ghost predicate ExactlyWaived(cx: Context, doc: WaiverDoc, now: real, hit: Hit)
    requires HitOk(hit)
  {
    exists i :: 0 <= i < |doc.entries| && doc.entries[i].Some?
                && doc.entries[i].value.key == KeyOf(cx, hit.vulnerability)
                && doc.entries[i].value.expires.Some? && doc.entries[i].value.expires.value > now
  }

  /** What one finding has to be for the scan to pass. */
  ghost predicate Tolerated(cx: Context, doc: WaiverDoc, now: real, hit: Hit) {
    && HitOk(hit)
    && var severity := hit.vulnerability.severity.value;
    var waived := ExactlyWaived(cx, doc, now, hit);
    if severity == "MEDIUM" || severity == "LOW" then !waived
    else
      waived && hit.source.cls == "os-pkgs" && (severity == "HIGH" || severity == "UNKNOWN")
      && FixedText(hit.vulnerability.fixed) == ""
  }

  lemma WaivedMeans(cx: Context, doc: WaiverDoc, now: real, hit: Hit)
    requires WaiversOk(doc, now) && cx.entries == doc.entries && HitOk(hit)
    ensures HasWaiver(cx, hit) <==> ExactlyWaived(cx, doc, now, hit)
  {
    WaiverForMeans(doc.entries, KeyOf(cx, hit.vulnerability));
  }

  lemma ToleratedMeans(cx: Context, doc: WaiverDoc, now: real, hit: Hit)
    requires WaiversOk(doc, now) && cx.entries == doc.entries
    ensures Tolerated(cx, doc, now, hit) <==> Lawful(cx, hit) && !Classify(cx, hit).disposition.Blocks?
  {
    if HitOk(hit) {
      WaivedMeans(cx, doc, now, hit);
      if Lawful(cx, hit) {
        ClassifiedRemedy(cx, hit);
      }
    }
    hide WaiversOk;
    hide HitOk;
    hide Classify;
    hide ExactlyWaived;
  }

  /**
   * The scan passes exactly when its inputs are well formed and every finding
   * is tolerated: MEDIUM or LOW without a waiver, or an unfixed operating
   * system finding of severity HIGH or UNKNOWN with an exact, unexpired waiver.
   */
  lemma PassesExactly(report: Report, data: Request, doc: WaiverDoc, now: real, less: (Finding, Finding) -> bool)
    ensures var v := Evaluated(report, data, doc, now, less);
            (v.Judged? && v.pass) <==>
            && InputsOk(report, Accepted(data), doc, now)
            && forall hit :: hit in AllHits(report.results.value) ==>
                 Tolerated(ContextOf(Accepted(data).value, doc), doc, now, hit)
  {
    if InputsOk(report, Accepted(data), doc, now) {
      var cx := ContextOf(Accepted(data).value, doc);
      var hits := AllHits(report.results.value);
      hide AllHits;
      hide Accepted;
      NothingBlocksExactly(cx, doc, now, hits, less);
      hide InputsOk;
      hide Tolerated;
      hide Findings;
      hide SortedOf;
      hide Select;
      hide Bucket;
    }
  }

  lemma NothingBlocksExactly(cx: Context, doc: WaiverDoc, now: real, hits: seq<Hit>, less: (Finding, Finding) -> bool)
    requires WaiversOk(doc, now) && cx.entries == doc.entries
    ensures (AllLawful(cx, hits) && Select(SortedOf(Findings(cx, hits), less), Blocks) == [])
            <==> forall hit :: hit in hits ==> Tolerated(cx, doc, now, hit)
  {
    hide WaiversOk;
    hide Tolerated;
    hide Lawful;
    hide Classify;
    hide SortedOf;
    hide Findings;
    hide Select;
    forall hit
      ensures Tolerated(cx, doc, now, hit) <==> Lawful(cx, hit) && !Classify(cx, hit).disposition.Blocks?
    {
      ToleratedMeans(cx, doc, now, hit);
    }
    FindingsMembers(cx, hits);
    var all := Findings(cx, hits);
    var fs := SortedOf(all, less);
    SelectMembers(fs, Blocks);
    assert forall f :: f in fs <==> f in multiset(fs);
    assert forall f :: f in all <==> f in multiset(all);
    if Select(fs, Blocks) != [] {
      assert Select(fs, Blocks)[0] in Select(fs, Blocks);
    }
  }

  // ----- order does not matter ------------------------------------------------------------------------

  lemma RemoveSame<A>(xs: seq<A>, before: seq<A>, x: A, after: seq<A>)
    requires multiset(xs + [x]) == multiset(before + [x] + after)
    ensures multiset(xs) == multiset(before + after)
  {
    assert multiset(xs) == multiset(xs + [x]) - multiset{x};
    assert multiset(before + [x] + after) == multiset(before) + multiset{x} + multiset(after);
  }

  lemma FlatMapMiddle<A, B>(f: A -> seq<B>, before: seq<A>, x: A, after: seq<A>)
    ensures multiset(FlatMap(f, before + [x] + after)) == multiset(FlatMap(f, before + after)) + multiset(f(x))
  {
    FlatMapAppend(f, before, after);
    FlatMapAppend(f, before + [x], after);
    FlatMapAppend(f, before, [x]);
    assert [x][..0] == [];
    assert FlatMap(f, [x]) == f(x);
  }

  lemma {:induction false} FlatMapPermutes<A, B>(f: A -> seq<B>, xs: seq<A>, ys: seq<A>)
    requires multiset(xs) == multiset(ys)
    ensures multiset(FlatMap(f, xs)) == multiset(FlatMap(f, ys))
  {
    assert |multiset(xs)| == |xs| && |multiset(ys)| == |ys|;
    if xs != [] {
      var n := |xs| - 1;
      var x := xs[n];
      assert x in multiset(ys);
      var i :| 0 <= i < |ys| && ys[i] == x;
      var before, after := ys[..i], ys[i + 1..];
      assert xs == xs[..n] + [x] && ys == before + [x] + after;
      RemoveSame(xs[..n], before, x, after);
      FlatMapPermutes(f, xs[..n], before + after);
      FlatMapMiddle(f, before, x, after);
      assert FlatMap(f, xs) == FlatMap(f, xs[..n]) + f(x);
    }
  }

  /** Same source, and the same vulnerabilities in any order. */
  ghost predicate SameResult(a: ScanResult, b: ScanResult) {
    && a.source == b.source
    && (a.vulnerabilities.None? <==> b.vulnerabilities.None?)
    && (a.vulnerabilities.Some? ==> multiset(a.vulnerabilities.value) == multiset(b.vulnerabilities.value))
  }

  lemma SameResultSameHits(a: ScanResult, b: ScanResult)
    requires SameResult(a, b)
    ensures multiset(HitsIn(a)) == multiset(HitsIn(b)) && (ResultOk(a) <==> ResultOk(b))
  {
    hide VulnerabilityOk;
    hide SourceOk;
    if a.vulnerabilities.Some? {
      var xs, ys := a.vulnerabilities.value, b.vulnerabilities.value;
      if a.source.Some? {
        FlatMapPermutes(ToHits(a.source.value), xs, ys);
      }
      assert forall v :: v in xs <==> v in multiset(xs);
      assert forall v :: v in ys <==> v in multiset(ys);
      assert forall i :: 0 <= i < |xs| ==> xs[i] in ys;
      assert forall i :: 0 <= i < |ys| ==> ys[i] in xs;
    }
    hide FlatMap;
  }

  lemma {:induction false} PairwiseSameHits(a: seq<ScanResult>, b: seq<ScanResult>)
    requires |a| == |b| && forall i :: 0 <= i < |a| ==> SameResult(a[i], b[i])
    ensures multiset(AllHits(a)) == multiset(AllHits(b))
    ensures (forall i :: 0 <= i < |a| ==> ResultOk(a[i])) <==> (forall i :: 0 <= i < |b| ==> ResultOk(b[i]))
  {
    hide ResultOk;
    hide SameResult;
    hide HitsIn;
    if a != [] {
      var n := |a| - 1;
      PairwiseSameHits(a[..n], b[..n]);
      SameResultSameHits(a[n], b[n]);
      assert forall i :: 0 <= i < n ==> a[..n][i] == a[i] && b[..n][i] == b[i];
    }
  }

  /** Results in any order, each with its vulnerabilities in any order. */
  ghost predicate Rearranged(a: seq<ScanResult>, middle: seq<ScanResult>, b: seq<ScanResult>) {
    && |a| == |middle| && (forall i :: 0 <= i < |a| ==> SameResult(a[i], middle[i]))
    && multiset(middle) == multiset(b)
  }

  lemma RearrangedSameHits(a: seq<ScanResult>, middle: seq<ScanResult>, b: seq<ScanResult>)
    requires Rearranged(a, middle, b)
    ensures multiset(AllHits(a)) == multiset(AllHits(b)) && |a| == |b|
    ensures (forall i :: 0 <= i < |a| ==> ResultOk(a[i])) <==> (forall i :: 0 <= i < |b| ==> ResultOk(b[i]))
  {
    hide ResultOk;
    PairwiseSameHits(a, middle);
    hide SameResult;
    FlatMapPermutes(HitsIn, middle, b);
    assert |multiset(middle)| == |middle| && |multiset(b)| == |b|;
    assert forall r :: r in middle <==> r in multiset(middle);
    assert forall r :: r in b <==> r in multiset(b);
    assert forall i :: 0 <= i < |middle| ==> middle[i] in b;
    assert forall i :: 0 <= i < |b| ==> b[i] in middle;
    hide FlatMap;
  }

  /** The whole verdict is independent of the order of results and of findings. */
  lemma OrderDoesNotMatter(report: Report, middle: seq<ScanResult>, other: Report, data: Request, doc: WaiverDoc,
                           now: real, less: (Finding, Finding) -> bool)
    requires IsOrder(less)
    requires report.isImage == other.isImage && report.imageOk == other.imageOk
    requires report.results.Some? && other.results.Some?
    requires Rearranged(report.results.value, middle, other.results.value)
    ensures Evaluated(report, data, doc, now, less) == Evaluated(other, data, doc, now, less)
  {
    var a, b := report.results.value, other.results.value;
    RearrangedSameHits(a, middle, b);
    hide Rearranged;
    hide Accepted;
    hide AllHits;
    hide ResultOk;
    hide WaiversOk;
    hide JudgedOn;
    assert InputsOk(report, Accepted(data), doc, now) <==> InputsOk(other, Accepted(data), doc, now);
    if InputsOk(report, Accepted(data), doc, now) {
      SameHitsSameFindings(ContextOf(Accepted(data).value, doc), AllHits(a), AllHits(b), less);
    }
    hide Findings;
    hide SortedOf;
    hide AllLawful;
    hide IsOrder;
    hide InputsOk;
  }

  lemma SameHitsSameFindings(cx: Context, a: seq<Hit>, b: seq<Hit>, less: (Finding, Finding) -> bool)
    requires IsOrder(less) && multiset(a) == multiset(b)
    ensures AllLawful(cx, a) <==> AllLawful(cx, b)
    ensures SortedOf(Findings(cx, a), less) == SortedOf(Findings(cx, b), less)
  {
    hide Lawful;
    FlatMapPermutes(ToFindings(cx), a, b);
    var fa, fb := Findings(cx, a), Findings(cx, b);
    assert multiset(fa) == multiset(fb);
    hide Findings;
    SortedOfSorts(fa, less);
    SortedOfSorts(fb, less);
    SortedIsUnique(SortedOf(fa, less), SortedOf(fb, less), less);
    hide SortedOf;
    assert forall h :: h in a <==> h in multiset(a);
    assert forall h :: h in b <==> h in multiset(b);
    assert forall i :: 0 <= i < |a| ==> a[i] in b;
    assert forall i :: 0 <= i < |b| ==> b[i] in a;
  }

  // ----- fewer findings -----------------------------------------------------------------------------------

  /** A report with only some of the findings passes if the original passes. */
  lemma FewerFindingsStillPass(report: Report, fewer: Report, data: Request, doc: WaiverDoc, now: real,
                               less: (Finding, Finding) -> bool)
    requires Evaluated(report, data, doc, now, less).Judged? && Evaluated(report, data, doc, now, less).pass
    requires InputsOk(fewer, Accepted(data), doc, now)
    requires forall hit :: hit in AllHits(fewer.results.value) ==> hit in AllHits(report.results.value)
    ensures Evaluated(fewer, data, doc, now, less).Judged? && Evaluated(fewer, data, doc, now, less).pass
  {
    PassesExactly(report, data, doc, now, less);
    PassesExactly(fewer, data, doc, now, less);
    hide Evaluated;
    hide Tolerated;
    hide AllHits;
  }

  function Without(report: Report, i: nat, k: nat): Report
    requires report.results.Some? && i < |report.results.value|
    requires report.results.value[i].vulnerabilities.Some? && k < |report.results.value[i].vulnerabilities.value|
  {
    var r := report.results.value[i];
    var vs := r.vulnerabilities.value;
    report.(results := Some(report.results.value[i := r.(vulnerabilities := Some(vs[..k] + vs[k + 1..]))]))
  }

  /** Removing one finding never turns a pass into a block. */
  lemma RemovingNeverBlocks(report: Report, i: nat, k: nat, data: Request, doc: WaiverDoc, now: real,
                            less: (Finding, Finding) -> bool)
    requires report.results.Some? && i < |report.results.value|
    requires report.results.value[i].vulnerabilities.Some? && k < |report.results.value[i].vulnerabilities.value|
    requires Evaluated(report, data, doc, now, less).Judged? && Evaluated(report, data, doc, now, less).pass
    ensures var v := Evaluated(Without(report, i, k), data, doc, now, less);
            v.Judged? && v.pass
  {
    hide Evaluated;
    hide Tolerated;
    hide AllHits;
    hide SourceOk;
    hide VulnerabilityOk;
    hide WaiversOk;
    hide Accepted;
    var fewer := Without(report, i, k);
    PassesExactly(report, data, doc, now, less);
    RemovedHits(report.results.value, fewer.results.value, i, k);
    RemovedStaysOk(report.results.value[i], fewer.results.value[i], k);
    hide ResultOk;
    assert InputsOk(fewer, Accepted(data), doc, now);
    hide InputsOk;
    FewerFindingsStillPass(report, fewer, data, doc, now, less);
  }

  lemma RemovedStaysOk(a: ScanResult, b: ScanResult, k: nat)
    requires ResultOk(a) && k < |a.vulnerabilities.value|
    requires b == a.(vulnerabilities := Some(a.vulnerabilities.value[..k] + a.vulnerabilities.value[k + 1..]))
    ensures ResultOk(b)
  {
    hide VulnerabilityOk;
    hide SourceOk;
  }

  lemma {:induction false} HitsMember(results: seq<ScanResult>, hit: Hit)
    ensures hit in AllHits(results) <==> exists j :: 0 <= j < |results| && hit in HitsIn(results[j])
  {
    hide HitsIn;
    if results != [] {
      var n := |results| - 1;
      HitsMember(results[..n], hit);
      if j :| 0 <= j < |results| && hit in HitsIn(results[j]) {
        assert j < n ==> results[..n][j] == results[j];
      }
    }
  }

  lemma RemovedHits(a: seq<ScanResult>, b: seq<ScanResult>, i: nat, k: nat)
    requires |a| == |b| && i < |a| && a[i].vulnerabilities.Some? && b[i].vulnerabilities.Some?
    requires forall j :: 0 <= j < |a| && j != i ==> a[j] == b[j]
    requires var vs := a[i].vulnerabilities.value;
             k < |vs| && b[i] == a[i].(vulnerabilities := Some(vs[..k] + vs[k + 1..]))
    ensures forall hit :: hit in AllHits(b) ==> hit in AllHits(a)
  {
    forall hit | hit in AllHits(b)
      ensures hit in AllHits(a)
    {
      HitsMember(a, hit);
      HitsMember(b, hit);
      hide AllHits;
      if a[i].source.Some? {
        var f, vs := ToHits(a[i].source.value), a[i].vulnerabilities.value;
        assert vs == vs[..k] + [vs[k]] + vs[k + 1..];
        FlatMapAppend(f, vs[..k] + [vs[k]], vs[k + 1..]);
        FlatMapAppend(f, vs[..k], [vs[k]]);
        FlatMapAppend(f, vs[..k], vs[k + 1..]);
      }
      hide FlatMap;
    }
  }
}
