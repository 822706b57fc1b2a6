/** Artifact contracts and the build requests that stand for them. */
module BuildContract {
  import opened Bounded
  import opened Text
  import opened Requirements

  // ----- the Python version -----------------------------------------------------------------

  function TakeDigits(s: string): (d: string)
    ensures |d| <= |s| && d == s[..|d|]
    ensures forall k :: 0 <= k < |d| ==> IsDigit(d[k])
  {
    if s == "" || !IsDigit(s[0]) then "" else [s[0]] + TakeDigits(s[1..])
  }

  /** Digits at the start of a text, and what follows them. */
  function TakeNumber(s: string): Option<(string, string)> {
    var d := TakeDigits(s);
    if d == "" then None else Some((d, s[|d|..]))
  }

  function TakeDot(s: string): Option<(string, string)> {
    if s == "" || s[0] != '.' then None else TakeNumber(s[1..])
  }

  /** A version X.Y.Z at the start of a text, and what follows it. */
  function TakeVersion(s: string): Option<(string, string)> {
    match TakeNumber(s)
    case None => None
    case Some(a) =>
      match TakeDot(a.1)
      case None => None
      case Some(b) =>
        match TakeDot(b.1)
        case None => None
        case Some(c) => Some((a.0 + "." + b.0 + "." + c.0, c.1))
  }

  function DropSpaces(s: string): string {
    if s != "" && IsSpace(s[0]) then DropSpaces(s[1..]) else s
  }

  function DropQuote(s: string): string {
    if s != "" && (s[0] == '\'' || s[0] == '\"') then s[1..] else s
  }

  /** Only whitespace up to the end of a line or of the text. */
  predicate LineEnds(s: string) {
    s == "" || s[0] == '\n' || (IsSpace(s[0]) && LineEnds(s[1..]))
  }

  /** The version that a line starting here declares. */
  function Declared(s: string): Option<string> {
    if !("python:" <= s) then None
    else
      match TakeVersion(DropQuote(DropSpaces(s[7..])))
      case None => None
      case Some(pair) => if LineEnds(DropQuote(pair.1)) then Some(pair.0) else None
  }

  /** Every declaration at the start of a line. */
  function Declarations(s: string, atStart: bool): seq<string> {
    if s == "" then []
    else
      (if atStart && Declared(s).Some? then [Declared(s).value] else []) + Declarations(s[1..], s[0] == '\n')
  }

  function ParsePython(text: string): Option<string> {
    var found := Declarations(text, true);
    if |found| == 1 then Some(found[0]) else None
  }

  predicate Digits(d: string) {
    d != "" && forall k :: 0 <= k < |d| ==> IsDigit(d[k])
  }

  ghost predicate CanonicalVersion(v: string) {
    exists a, b, c :: Digits(a) && Digits(b) && Digits(c) && v == a + "." + b + "." + c
  }

  lemma {:induction false} TakeDigitsOf(d: string, rest: string)
    requires forall k :: 0 <= k < |d| ==> IsDigit(d[k])
    requires rest == "" || !IsDigit(rest[0])
    ensures TakeDigits(d + rest) == d
  {
    if d == "" {
      assert d + rest == rest;
    } else {
      assert (d + rest)[1..] == d[1..] + rest;
      TakeDigitsOf(d[1..], rest);
    }
  }

  lemma NumberThen(d: string, rest: string)
    requires Digits(d) && (rest == "" || !IsDigit(rest[0]))
    ensures TakeNumber(d + rest) == Some((d, rest))
  {
    TakeDigitsOf(d, rest);
    assert (d + rest)[|d|..] == rest;
  }

  lemma DotThen(d: string, rest: string)
    requires Digits(d) && (rest == "" || !IsDigit(rest[0]))
    ensures TakeDot("." + (d + rest)) == Some((d, rest))
  {
    NumberThen(d, rest);
    hide TakeNumber;
    assert ("." + (d + rest))[1..] == d + rest;
  }

  lemma DotsAssociate(a: string, b: string, c: string, rest: string)
    ensures a + ("." + (b + ("." + (c + rest)))) == a + "." + b + "." + c + rest
  {
    var s2 := "." + (c + rest);
    assert s2 == "." + c + rest;
    assert a + ("." + (b + s2)) == a + "." + b + s2;
    assert a + "." + b + s2 == a + "." + b + "." + c + rest;
  }

  lemma VersionReadsBack(a: string, b: string, c: string, rest: string)
    requires Digits(a) && Digits(b) && Digits(c) && (rest == "" || !IsDigit(rest[0]))
    ensures TakeVersion(a + "." + b + "." + c + rest) == Some((a + "." + b + "." + c, rest))
  {
    hide TakeNumber;
    hide TakeDot;
    hide Digits;
    var s2 := "." + (c + rest);
    var s1 := "." + (b + s2);
    NumberThen(a, s1);
    DotThen(b, s2);
    DotThen(c, rest);
    assert TakeVersion(a + s1) == Some((a + "." + b + "." + c, rest));
    hide TakeVersion;
    DotsAssociate(a, b, c, rest);
  }

  lemma CanonicalVersionText(v: string)
    requires CanonicalVersion(v)
    ensures v != "" && IsDigit(v[0]) && forall k :: 0 <= k < |v| ==> v[k] != '\n'
    ensures TakeVersion(v) == Some((v, ""))
  {
    var a, b, c :| Digits(a) && Digits(b) && Digits(c) && v == a + "." + b + "." + c;
    VersionReadsBack(a, b, c, "");
    hide TakeVersion;
    assert v[0] == a[0] && v + "" == v;
  }

  lemma {:induction false} OneLineDeclaresNothingMore(s: string)
    requires forall k :: 0 <= k < |s| ==> s[k] != '\n'
    ensures Declarations(s, false) == []
  {
    hide Declared;
    if s != "" {
      OneLineDeclaresNothingMore(s[1..]);
    }
  }

  lemma DeclaredHere(s: string, v: string)
    requires "python:" <= s && DropSpaces(s[7..]) == v
    requires v != "" && IsDigit(v[0]) && TakeVersion(v) == Some((v, ""))
    ensures Declared(s) == Some(v)
  {
    hide TakeVersion;
  }

  lemma OnlyDeclaration(s: string, v: string)
    requires Declared(s) == Some(v) && forall k :: 0 <= k < |s| ==> s[k] != '\n'
    ensures ParsePython(s) == Some(v)
  {
    assert s != "";
    hide Declared;
    OneLineDeclaresNothingMore(s[1..]);
  }

  /** A canonical version survives the request's own embedding of it. */
  lemma CanonicalVersionParses(v: string)
    requires CanonicalVersion(v)
    ensures ParsePython("python: " + v) == Some(v)
  {
    hide ParsePython;
    hide Declared;
    hide TakeVersion;
    CanonicalVersionText(v);
    hide CanonicalVersion;
    var word := "python:";
    var s := "python: " + v;
    assert s == word + (" " + v);
    assert s[7..] == " " + v && (" " + v)[1..] == v;
    DeclaredHere(s, v);
    forall k | 0 <= k < |s|
      ensures s[k] != '\n'
    {
      assert k >= 8 ==> s[k] == v[k - 8];
    }
    OnlyDeclaration(s, v);
  }

  lemma TakenVersionIsCanonical(s: string)
    ensures TakeVersion(s).Some? ==> CanonicalVersion(TakeVersion(s).value.0)
  {
    if TakeVersion(s).Some? {
      var a := TakeNumber(s).value;
      var b := TakeDot(a.1).value;
      var c := TakeDot(b.1).value;
      assert Digits(a.0) && Digits(b.0) && Digits(c.0);
    }
  }

  lemma {:induction false} DeclarationsAreCanonical(s: string, atStart: bool)
    ensures forall i :: 0 <= i < |Declarations(s, atStart)| ==> CanonicalVersion(Declarations(s, atStart)[i])
  {
    hide CanonicalVersion;
    if s != "" {
      DeclarationsAreCanonical(s[1..], s[0] == '\n');
      if Declared(s).Some? {
        TakenVersionIsCanonical(DropQuote(DropSpaces(s[7..])));
      }
    }
    hide TakeVersion;
  }

  // ----- exactly which version a text declares ------------------------------------------------

  predicate Spaces(s: string) {
    forall k :: 0 <= k < |s| ==> IsSpace(s[k])
  }

  /** The keyword, the version in optional quotes, and nothing more but whitespace up to the end of a line. */
  ghost predicate IsDeclaration(s: string, v: string, before: string, q: string, r: string, after: string, rest: string)
  {
    && s == "python:" + (before + (q + (v + (r + (after + rest)))))
    && Spaces(before) && q in {"", "'", "\""} && CanonicalVersion(v) && r in {"", "'", "\""}
    && Spaces(after) && (rest == "" || rest[0] == '\n')
  }

  lemma {:induction false} DropSpacesOf(before: string, rest: string)
    requires Spaces(before) && (rest == "" || !IsSpace(rest[0]))
    ensures DropSpaces(before + rest) == rest
  {
    if before == "" {
      assert before + rest == rest;
    } else {
      assert (before + rest)[1..] == before[1..] + rest;
      DropSpacesOf(before[1..], rest);
    }
  }

  lemma {:induction false} LineEndsAfter(after: string, rest: string)
    requires Spaces(after) && (rest == "" || rest[0] == '\n')
    ensures LineEnds(after + rest)
  {
    if after == "" {
      assert after + rest == rest;
    } else {
      assert (after + rest)[1..] == after[1..] + rest;
      LineEndsAfter(after[1..], rest);
    }
  }

  lemma {:induction false} SpacesDropped(s: string) returns (before: string)
    ensures Spaces(before) && s == before + DropSpaces(s)
  {
    before := "";
    if s != "" && IsSpace(s[0]) {
      before := SpacesDropped(s[1..]);
      before := [s[0]] + before;
    }
  }

  lemma {:induction false} LineEndParts(s: string) returns (after: string, rest: string)
    requires LineEnds(s)
    ensures Spaces(after) && s == after + rest && (rest == "" || rest[0] == '\n')
  {
    if s == "" || s[0] == '\n' {
      after, rest := "", s;
    } else {
      after, rest := LineEndParts(s[1..]);
      after := [s[0]] + after;
    }
  }

  lemma QuoteParts(s: string) returns (q: string)
    ensures q in {"", "'", "\""} && s == q + DropQuote(s)
  {
    q := if s != "" && (s[0] == '\'' || s[0] == '\"') then [s[0]] else "";
  }

  lemma VersionThen(v: string, rest: string)
    requires CanonicalVersion(v) && (rest == "" || !IsDigit(rest[0]))
    ensures TakeVersion(v + rest) == Some((v, rest))
  {
    var a, b, c :| Digits(a) && Digits(b) && Digits(c) && v == a + "." + b + "." + c;
    VersionReadsBack(a, b, c, rest);
    hide TakeVersion;
  }

  lemma TakenVersionParts(s: string)
    ensures TakeVersion(s).Some? ==> s == TakeVersion(s).value.0 + TakeVersion(s).value.1
  {
    if TakeVersion(s).Some? {
      NumberParts(s);
      var a := TakeNumber(s).value;
      DotParts(a.1);
      var b := TakeDot(a.1).value;
      DotParts(b.1);
      var c := TakeDot(b.1).value;
      hide TakeNumber;
      hide TakeDot;
      assert TakeVersion(s) == Some((a.0 + "." + b.0 + "." + c.0, c.1));
      hide TakeVersion;
      DotsAssociate(a.0, b.0, c.0, c.1);
    }
  }

  lemma NumberParts(s: string)
    ensures TakeNumber(s).Some? ==> s == TakeNumber(s).value.0 + TakeNumber(s).value.1
  {
  }

  lemma DotParts(s: string)
    ensures TakeDot(s).Some? ==> s == "." + (TakeDot(s).value.0 + TakeDot(s).value.1)
  {
    if TakeDot(s).Some? {
      NumberParts(s[1..]);
      hide TakeNumber;
      assert s == "." + s[1..];
    }
  }

  /** A line declares a version exactly when it is written like that. */
  lemma DeclaredExactly(s: string, v: string)
    ensures Declared(s) == Some(v) <==>
              exists before, q, r, after, rest :: IsDeclaration(s, v, before, q, r, after, rest)
  {
    forall before, q, r, after, rest | IsDeclaration(s, v, before, q, r, after, rest)
      ensures Declared(s) == Some(v)
    {
      WrittenIsDeclared(s, v, before, q, r, after, rest);
    }
    if Declared(s) == Some(v) {
      var before, q, r, after, rest := DeclaredIsWritten(s, v);
    }
    hide Declared;
    hide IsDeclaration;
  }

  lemma DeclaredIsWritten(s: string, v: string)
    returns (before: string, q: string, r: string, after: string, rest: string)
    requires Declared(s) == Some(v)
    ensures IsDeclaration(s, v, before, q, r, after, rest)
  {
    var s0 := s[7..];
    before := SpacesDropped(s0);
    var s1 := DropSpaces(s0);
    q := QuoteParts(s1);
    var s2 := DropQuote(s1);
    var s3;
    s3, r, after, rest := RestIsWritten(s2, v);
    KeywordFirst(s);
    hide TakeVersion;
    hide CanonicalVersion;
    hide DropSpaces;
    hide DropQuote;
    hide LineEnds;
    hide Spaces;
  }

  lemma KeywordFirst(s: string)
    requires "python:" <= s
    ensures s == "python:" + s[7..]
  {
  }

  /** The version, and what may follow it. */
  lemma RestIsWritten(s: string, v: string) returns (tail: string, r: string, after: string, rest: string)
    requires TakeVersion(s).Some? && TakeVersion(s).value.0 == v && LineEnds(DropQuote(TakeVersion(s).value.1))
    ensures s == v + tail && tail == r + (after + rest)
    ensures CanonicalVersion(v) && r in {"", "'", "\""} && Spaces(after) && (rest == "" || rest[0] == '\n')
  {
    TakenVersionParts(s);
    TakenVersionIsCanonical(s);
    tail := TakeVersion(s).value.1;
    r := QuoteParts(tail);
    after, rest := LineEndParts(DropQuote(tail));
    hide TakeVersion;
    hide CanonicalVersion;
    hide DropQuote;
    hide LineEnds;
    hide Spaces;
  }

  lemma WrittenIsDeclared(s: string, v: string, before: string, q: string, r: string, after: string, rest: string)
    requires IsDeclaration(s, v, before, q, r, after, rest)
    ensures Declared(s) == Some(v)
  {
    CanonicalVersionText(v);
    hide TakeVersion;
    var s3 := r + (after + rest);
    var s1 := q + (v + s3);
    assert s[7..] == before + s1;
    assert (v + s3)[0] == v[0];
    QuoteThen(q, v + s3);
    DropSpacesOf(before, s1);
    TailEnds(r, after, rest);
    VersionThen(v, s3);
    hide CanonicalVersion;
    hide DropSpaces;
    hide DropQuote;
    hide LineEnds;
    hide Spaces;
  }

  lemma QuoteThen(q: string, s: string)
    requires q in {"", "'", "\""} && (s == "" || (s[0] != '\'' && s[0] != '\"'))
    ensures DropQuote(q + s) == s
    ensures s != "" && !IsSpace(s[0]) ==> !IsSpace((q + s)[0])
  {
    assert q == "" ==> q + s == s;
    assert q != "" ==> (q + s)[1..] == s;
  }

  lemma TailEnds(r: string, after: string, rest: string)
    requires r in {"", "'", "\""} && Spaces(after) && (rest == "" || rest[0] == '\n')
    ensures var s := r + (after + rest);
            LineEnds(DropQuote(s)) && (s == "" || !IsDigit(s[0]))
  {
    var s := after + rest;
    LineEndsAfter(after, rest);
    if s != "" {
      assert s[0] == if after == "" then rest[0] else after[0];
    }
    QuoteThen(r, s);
    assert r != "" ==> (r + s)[0] == r[0];
    assert r == "" ==> r + s == s;
  }

  predicate Begins(text: string, atStart: bool, i: int) {
    0 <= i < |text| && if i == 0 then atStart else text[i - 1] == '\n'
  }

  /** The only declaration. */
  ghost predicate OnlyAt(text: string, atStart: bool, i: int, v: string) {
    Begins(text, atStart, i) && Declared(text[i..]) == Some(v)
    && forall j :: j != i && Begins(text, atStart, j) ==> Declared(text[j..]).None?
  }

  /** A text declares a version exactly when one line start does, and no other. */
  lemma ParseExactly(text: string, v: string)
    ensures ParsePython(text) == Some(v) <==> exists i :: OnlyAt(text, true, i, v)
  {
    DeclarationsMean(text, true, v);
    hide OnlyAt;
    var found := Declarations(text, true);
    assert |found| == 1 ==> found == [found[0]];
  }

  lemma {:induction false} DeclarationsMean(s: string, atStart: bool, v: string)
    ensures Declarations(s, atStart) == [] <==> forall j :: Begins(s, atStart, j) ==> Declared(s[j..]).None?
    ensures Declarations(s, atStart) == [v] <==> exists i :: OnlyAt(s, atStart, i, v)
  {
    hide Declared;
    if s != "" {
      var t, start := s[1..], s[0] == '\n';
      var rest := Declarations(t, start);
      DeclarationsMean(t, start, v);
      assert s[0..] == s;
      forall j | Begins(s, atStart, j) && j > 0
        ensures Begins(t, start, j - 1) && t[j - 1..] == s[j..]
      {
      }
      forall j | Begins(t, start, j)
        ensures Begins(s, atStart, j + 1) && t[j..] == s[j + 1..]
      {
      }
      if atStart && Declared(s).Some? {
        assert Begins(s, atStart, 0) && Declarations(s, atStart) == [Declared(s).value] + rest;
        if Declarations(s, atStart) == [v] {
          assert rest == [] && [v][0] == v;
          assert OnlyAt(s, atStart, 0, v);
        }
        if i :| OnlyAt(s, atStart, i, v) {
          assert i == 0 && rest == [];
        }
      } else {
        assert Declarations(s, atStart) == [] + rest == rest;
        if i :| OnlyAt(t, start, i, v) {
          assert OnlyAt(s, atStart, i + 1, v);
        }
        if i :| OnlyAt(s, atStart, i, v) {
          assert OnlyAt(t, start, i - 1, v);
        }
      }
    }
  }

  // ----- contracts and requests --------------------------------------------------------------

  datatype Contract = Contract(python: string, requirements: seq<string>)
  datatype Profile = Profile(mlserver: string, mlflow: string, platform: string, build: string, serving: string)

  const PROFILE_X: Profile :=
    Profile("1.7.1", "1.7.1", "linux/amd64", "runtime-x-hardened-v1", "mlserver-v2-parallel-workers-0")
  const PROFILE_CI: Profile :=
    Profile("1.7.1", "1.7.1", "linux/amd64", "runtime-ci-py31214-slim-v2", "mlserver-v2-parallel-workers-0")

  const FIELDS: set<string> := {"schema_version", "fingerprint", "python_version", "requirements", "runtime_profile"}

  /** An ideal digest of a contract and a profile; Raw is any other text. */
  datatype Fingerprint = Of(contract: Contract, profile: Profile) | Raw(text: string)

  /** A decoded request; None stands for a value that is missing or of another type. */
  datatype Request = Request(schema: Option<int>, fields: set<string>, fingerprint: Fingerprint,
                             python: Option<string>, requirements: Option<seq<string>>, profile: Option<Profile>)

  function BuildRequest(c: Contract, p: Profile): Request {
    Request(Some(1), FIELDS, Of(c, p), Some(c.python), Some(c.requirements), Some(p))
  }

  ghost predicate CanonicalContract(c: Contract) {
    CanonicalVersion(c.python) && CanonicalList(c.requirements)
  }

  predicate Reviewed(p: Profile) {
    p == PROFILE_X || p == PROFILE_CI
  }

  ghost function Accepted(data: Request): Option<(Contract, Profile)> {
    if data.schema != Some(1) || data.fields != FIELDS || data.requirements.None? || data.python.None? then None
    else
      var python := ParsePython("python: " + data.python.value);
      var requirements := Normalized(JoinLines(data.requirements.value));
      if python.None? || requirements.None? || data.profile.None? then None
      else
        var c := Contract(python.value, requirements.value);
        if !Reviewed(data.profile.value) || BuildRequest(c, data.profile.value) != data then None
        else Some((c, data.profile.value))
  }

  method ValidateRequest(data: Request) returns (r: Option<(Contract, Profile)>)
    ensures r == Accepted(data)
  {
    if data.schema != Some(1) || data.fields != FIELDS || data.requirements.None? || data.python.None? {
      return None;
    }
    var python := ParsePython("python: " + data.python.value);
    var requirements := NormalizeRequirements(JoinLines(data.requirements.value));
    if python.None? || requirements.None? || data.profile.None? {
      return None;
    }
    var c := Contract(python.value, requirements.value);
    if !Reviewed(data.profile.value) || BuildRequest(c, data.profile.value) != data {
      return None;
    }
    return Some((c, data.profile.value));
  }

  /**
   * A request is accepted as (c, p) exactly when c is canonical, p is a
   * reviewed profile, and the request is the one built from them.
   */
  lemma RequestRoundTrip(data: Request, c: Contract, p: Profile)
    ensures Accepted(data) == Some((c, p)) <==>
              CanonicalContract(c) && (p == PROFILE_X || p == PROFILE_CI) && data == BuildRequest(c, p)
  {
    hide ParsePython;
    hide Normalized;
    hide CanonicalVersion;
    hide CanonicalList;
    if CanonicalContract(c) {
      CanonicalVersionParses(c.python);
      CanonicalReadsBack(c.requirements);
    }
    if Accepted(data) == Some((c, p)) {
      ParsedIsCanonical("python: " + data.python.value);
      NormalizedIsCanonical(JoinLines(data.requirements.value));
    }
  }

  lemma ParsedIsCanonical(text: string)
    ensures ParsePython(text).Some? ==> CanonicalVersion(ParsePython(text).value)
  {
    DeclarationsAreCanonical(text, true);
    hide CanonicalVersion;
  }

  /** The contract of an artifact directory is canonical, so it can always be requested. */
  lemma ArtifactIsRequestable(pythonEnv: string, requirements: string, p: Profile)
    requires ParsePython(pythonEnv).Some? && Normalized(requirements).Some? && Reviewed(p)
    ensures var c := Contract(ParsePython(pythonEnv).value, Normalized(requirements).value);
            Accepted(BuildRequest(c, p)) == Some((c, p))
  {
    ParsedIsCanonical(pythonEnv);
    NormalizedIsCanonical(requirements);
    var c := Contract(ParsePython(pythonEnv).value, Normalized(requirements).value);
    hide ParsePython;
    hide Normalized;
    hide CanonicalVersion;
    hide CanonicalList;
    RequestRoundTrip(BuildRequest(c, p), c, p);
    hide Accepted;
  }

  /** Accepted requests with the same fingerprint are the same request. */
  lemma FingerprintIdentifiesRequest(a: Request, b: Request)
    requires Accepted(a).Some? && Accepted(b).Some?
    ensures a.fingerprint == b.fingerprint <==> a == b
  {
    RequestRoundTrip(a, Accepted(a).value.0, Accepted(a).value.1);
    RequestRoundTrip(b, Accepted(b).value.0, Accepted(b).value.1);
    hide Accepted;
  }
}
