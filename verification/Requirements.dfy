/** Exact dependency pins: parsing, name normalisation and the canonical requirement list. */
module Requirements {
  import opened Bounded
  import opened Text

  datatype Pin = Pin(name: string, version: string)

  /** What one line of a requirements file says. */
  datatype Line = Blank | Unsupported | Pinned(pin: Pin)

  predicate IsDigit(c: char) {
    '0' <= c <= '9'
  }

  predicate IsAlnum(c: char) {
    IsDigit(c) || 'a' <= c <= 'z' || 'A' <= c <= 'Z'
  }

  predicate IsSeparator(c: char) {
    c == '-' || c == '_' || c == '.'
  }

  predicate ValidName(s: string) {
    s != "" && IsAlnum(s[0]) && forall k :: 0 <= k < |s| ==> IsAlnum(s[k]) || IsSeparator(s[k])
  }

  predicate ValidVersion(s: string) {
    s != "" && IsDigit(s[0])
    && forall k :: 0 <= k < |s| ==> IsAlnum(s[k]) || IsSeparator(s[k]) || s[k] == '!' || s[k] == '+'
  }

  function Lower(c: char): char {
    if 'A' <= c <= 'Z' then c + 32 as char else c
  }

  /** Runs of separators become one dash; `after` says that the previous character was one. */
  function Squash(s: string, after: bool): string {
    if s == "" then ""
    else if IsSeparator(s[0]) then (if after then "" else "-") + Squash(s[1..], true)
    else [Lower(s[0])] + Squash(s[1..], false)
  }

  function NormalizeName(name: string): string {
    Squash(name, false)
  }

  /** Everything before a comment, without any whitespace. */
  function Compact(line: string): string {
    if line == "" || line[0] == '#' then ""
    else (if IsSpace(line[0]) then "" else [line[0]]) + Compact(line[1..])
  }

  function FirstEquals(s: string): (i: nat)
    ensures i <= |s| && (i < |s| ==> s[i] == '=')
    ensures forall k :: 0 <= k < i ==> s[k] != '='
  {
    if s == "" || s[0] == '=' then 0 else 1 + FirstEquals(s[1..])
  }

  /** The whole text has to be name==version. */
  function ParsePin(s: string): Option<Pin> {
    var i := FirstEquals(s);
    if i + 1 < |s| && s[i + 1] == '=' && ValidName(s[..i]) && ValidVersion(s[i + 2..])
    then Some(Pin(NormalizeName(s[..i]), s[i + 2..])) else None
  }

  function ReadLine(line: string): Line {
    var compact := Compact(line);
    if compact == "" then Blank
    else match ParsePin(compact) case None => Unsupported case Some(pin) => Pinned(pin)
  }

  // ----- pins ----------------------------------------------------------------------------

  function AddLine(pins: map<string, string>, line: Line): Option<map<string, string>> {
    match line
    case Blank => Some(pins)
    case Unsupported => None
    case Pinned(p) => if p.name in pins && pins[p.name] != p.version then None else Some(pins[p.name := p.version])
  }

  function Pins(lines: seq<string>): Option<map<string, string>> {
    if lines == [] then Some(map[])
    else
      match Pins(lines[..|lines| - 1])
      case None => None
      case Some(pins) => AddLine(pins, ReadLine(lines[|lines| - 1]))
  }

  ghost predicate Says(lines: seq<string>, line: Line) {
    exists i :: 0 <= i < |lines| && ReadLine(lines[i]) == line
  }

  /** Every line is understood, and no name has two versions. */
  ghost predicate Unambiguous(lines: seq<string>) {
    && !Says(lines, Unsupported)
    && forall name, v, w :: Says(lines, Pinned(Pin(name, v))) && Says(lines, Pinned(Pin(name, w))) ==> v == w
  }

  lemma {:induction false} SaysLast(lines: seq<string>, line: Line)
    requires lines != []
    ensures Says(lines, line) <==> Says(lines[..|lines| - 1], line) || ReadLine(lines[|lines| - 1]) == line
  {
    hide ReadLine;
    var n := |lines| - 1;
    if i :| 0 <= i < |lines| && ReadLine(lines[i]) == line {
      assert i < n ==> lines[..n][i] == lines[i];
    }
  }

  lemma SaysGrows(lines: seq<string>)
    requires lines != []
    ensures forall line :: Says(lines, line) <==>
              Says(lines[..|lines| - 1], line) || ReadLine(lines[|lines| - 1]) == line
  {
    forall line
      ensures Says(lines, line) <==> Says(lines[..|lines| - 1], line) || ReadLine(lines[|lines| - 1]) == line
    {
      SaysLast(lines, line);
    }
  }

  /** The pins hold exactly what the lines say. */
  ghost predicate Holds(pins: map<string, string>, lines: seq<string>) {
    forall name, v :: (name in pins && pins[name] == v) <==> Says(lines, Pinned(Pin(name, v)))
  }

  /** One more line: its pin is added, unless it is rejected or conflicts. */
  lemma AddLineMeans(pins: map<string, string>, lines: seq<string>)
    requires lines != [] && Holds(pins, lines[..|lines| - 1]) && Unambiguous(lines[..|lines| - 1])
    ensures var r := AddLine(pins, ReadLine(lines[|lines| - 1]));
            && (r.Some? <==> Unambiguous(lines))
            && (r.Some? ==> Holds(r.value, lines))
  {
    SaysGrows(lines);
    var last := ReadLine(lines[|lines| - 1]);
    hide Says;
    hide ReadLine;
    if last.Pinned? {
      var p := last.pin;
      if p.name in pins {
        assert Says(lines, Pinned(Pin(p.name, pins[p.name])));
        assert Says(lines, Pinned(Pin(p.name, p.version)));
      }
    }
  }

  lemma PrefixUnambiguous(lines: seq<string>)
    requires lines != [] && Unambiguous(lines)
    ensures Unambiguous(lines[..|lines| - 1])
  {
    SaysGrows(lines);
    hide Says;
  }

  /** The pins are exactly what the lines say, and exist exactly when that is unambiguous. */
  lemma {:induction false} PinsMean(lines: seq<string>)
    ensures Pins(lines).Some? <==> Unambiguous(lines)
    ensures Pins(lines).Some? ==> Holds(Pins(lines).value, lines)
  {
    if lines != [] {
      var n := |lines| - 1;
      PinsMean(lines[..n]);
      if Pins(lines[..n]).Some? {
        AddLineMeans(Pins(lines[..n]).value, lines);
      } else if Unambiguous(lines) {
        PrefixUnambiguous(lines);
      }
      hide Says;
      hide ReadLine;
      hide Unambiguous;
    }
  }

  /** Files that say the same pins give the same pins, in whatever order and however often. */
  lemma SamePins(a: seq<string>, b: seq<string>)
    requires forall line: Line :: !line.Blank? ==> (Says(a, line) <==> Says(b, line))
    ensures Pins(a) == Pins(b)
  {
    PinsMean(a);
    PinsMean(b);
    hide Says;
    assert Unambiguous(a) <==> Unambiguous(b);
    if Pins(a).Some? {
      HoldsUniquely(Pins(a).value, Pins(b).value, a, b);
    }
  }

  lemma HoldsUniquely(p: map<string, string>, q: map<string, string>, a: seq<string>, b: seq<string>)
    requires Holds(p, a) && Holds(q, b)
    requires forall pin: Pin :: Says(a, Pinned(pin)) <==> Says(b, Pinned(pin))
    ensures p == q
  {
    hide Says;
    forall name
      ensures name in p <==> name in q
      ensures name in p ==> p[name] == q[name]
    {
      if name in p {
        assert Says(a, Pinned(Pin(name, p[name])));
      }
      if name in q {
        assert Says(b, Pinned(Pin(name, q[name])));
      }
    }
  }

  // ----- the canonical list -----------------------------------------------------------------

  ghost function SortedKeys(ks: set<string>): (r: seq<string>)
    ensures Ascending(r) && forall k :: k in r <==> k in ks
  {
    if ks == {} then []
    else
      var k :| k in ks;
      InsertAscends(SortedKeys(ks - {k}), k);
      InsertName(SortedKeys(ks - {k}), k)
  }

  function Render(names: seq<string>, pins: map<string, string>): (r: seq<string>)
    requires forall k :: k in names ==> k in pins
    ensures |r| == |names| && forall i :: 0 <= i < |r| ==> r[i] == names[i] + "==" + pins[names[i]]
  {
    if names == [] then [] else [names[0] + "==" + pins[names[0]]] + Render(names[1..], pins)
  }

  /** None stands for every rejection. */
  ghost function Normalized(text: string): Option<seq<string>> {
    match Pins(SplitLines(text))
    case None => None
    case Some(pins) => if pins == map[] then None else Some(Render(SortedKeys(pins.Keys), pins))
  }

  method SortNames(names: set<string>) returns (sorted: seq<string>)
    ensures sorted == SortedKeys(names)
  {
    sorted := [];
    var rest := names;
    while rest != {}
      invariant rest <= names && Ascending(sorted)
      invariant forall k :: k in sorted <==> k in names - rest
    {
      var k :| k in rest;
      InsertAscends(sorted, k);
      sorted := InsertName(sorted, k);
      rest := rest - {k};
    }
    AscendingIsUnique(sorted, SortedKeys(names));
  }

  method NormalizeRequirements(text: string) returns (requirements: Option<seq<string>>)
    ensures requirements == Normalized(text)
  {
    hide Compact;
    hide ParsePin;
    hide SplitLines;
    var lines := SplitLines(text);
    var pins: map<string, string> := map[];
    for i := 0 to |lines|
      invariant Pins(lines[..i]) == Some(pins)
    {
      assert lines[..i + 1][..i] == lines[..i];
      var compact := Compact(lines[i]);
      if compact == "" {
        continue;
      }
      var pin := ParsePin(compact);
      if pin.None? || (pin.value.name in pins && pins[pin.value.name] != pin.value.version) {
        PrefixDecides(lines, i + 1);
        return None;
      }
      pins := pins[pin.value.name := pin.value.version];
    }
    assert lines[..|lines|] == lines;
    if pins == map[] {
      return None;
    }
    var names := SortNames(pins.Keys);
    requirements := Some(Render(names, pins));
  }

  /** A rejected line is never made up for by later ones. */
  lemma {:induction false} PrefixDecides(lines: seq<string>, i: nat)
    requires i <= |lines| && Pins(lines[..i]).None?
    ensures Pins(lines).None?
  {
    hide ReadLine;
    if i == |lines| {
      assert lines[..i] == lines;
    } else {
      assert lines[..|lines| - 1][..i] == lines[..i];
      PrefixDecides(lines[..|lines| - 1], i);
    }
  }

  // ----- canonical names and lines --------------------------------------------------------------

  /** Lower case, single dashes only. */
  ghost predicate CanonicalName(s: string) {
    NormalizeName(s) == s
  }

  lemma {:induction false} SquashIsStable(s: string, after: bool)
    ensures Squash(Squash(s, after), after) == Squash(s, after)
    ensures after ==> Squash(s, true) == "" || !IsSeparator(Squash(s, true)[0])
  {
    if s != "" {
      if IsSeparator(s[0]) {
        SquashIsStable(s[1..], true);
        var rest := Squash(s[1..], true);
        if after {
          assert Squash(s, after) == rest;
        } else {
          assert Squash(s, after) == "-" + rest;
          assert ("-" + rest)[1..] == rest;
        }
      } else {
        SquashIsStable(s[1..], false);
        var rest := Squash(s[1..], false);
        assert ([Lower(s[0])] + rest)[1..] == rest;
      }
    }
  }

  lemma {:induction false} SquashKeepsAlphabet(s: string, after: bool)
    requires forall k :: 0 <= k < |s| ==> IsAlnum(s[k]) || IsSeparator(s[k])
    ensures forall c :: c in Squash(s, after) ==> '0' <= c <= '9' || 'a' <= c <= 'z' || c == '-'
  {
    if s != "" {
      SquashKeepsAlphabet(s[1..], IsSeparator(s[0]));
    }
  }

  /** Normalising a name gives a valid canonical name, of small letters, digits and dashes. */
  lemma NormalizedNameIsCanonical(name: string)
    requires ValidName(name)
    ensures ValidName(NormalizeName(name)) && CanonicalName(NormalizeName(name))
    ensures forall c :: c in NormalizeName(name) ==> '0' <= c <= '9' || 'a' <= c <= 'z' || c == '-'
  {
    SquashIsStable(name, false);
    SquashKeepsAlphabet(name, false);
    var normal := NormalizeName(name);
    assert forall k :: 0 <= k < |normal| ==> normal[k] in normal;
  }

  lemma {:induction false} CompactOfPlain(s: string)
    requires forall k :: 0 <= k < |s| ==> !IsSpace(s[k]) && s[k] != '#'
    ensures Compact(s) == s
  {
    if s != "" {
      CompactOfPlain(s[1..]);
    }
  }

  lemma FirstEqualsOfPin(name: string, rest: string)
    requires ValidName(name)
    ensures FirstEquals(name + "=" + rest) == |name|
  {
    var s := name + "=" + rest;
    assert s[|name|] == '=';
    assert forall k :: 0 <= k < |name| ==> s[k] == name[k] && s[k] != '=';
  }

  /** A written pin has no whitespace, comment or line boundary. */
  lemma PinIsPlain(name: string, version: string)
    requires ValidName(name) && ValidVersion(version)
    ensures var s := name + "==" + version;
            && (forall k :: 0 <= k < |s| ==> !IsSpace(s[k]) && s[k] != '#')
            && Unbroken(s)
  {
    var s := name + "==" + version;
    assert PlainChars(name) && PlainChars(version);
    hide ValidName;
    hide ValidVersion;
    forall k | 0 <= k < |s|
      ensures !IsSpace(s[k]) && s[k] != '#' && !IsBreak(s[k])
    {
      if k < |name| {
        assert s[k] == name[k];
      } else if k >= |name| + 2 {
        assert s[k] == version[k - |name| - 2];
      }
    }
  }

  predicate PlainChars(s: string) {
    forall k :: 0 <= k < |s| ==> !IsSpace(s[k]) && s[k] != '#' && !IsBreak(s[k])
  }

  lemma ParseOfPin(name: string, version: string)
    requires ValidName(name) && ValidVersion(version)
    ensures ParsePin(name + "==" + version) == Some(Pin(NormalizeName(name), version))
  {
    var s := name + "==" + version;
    assert s == name + "=" + ("=" + version);
    FirstEqualsOfPin(name, "=" + version);
    hide FirstEquals;
    hide ValidName;
    hide ValidVersion;
    hide NormalizeName;
    assert s[|name| + 1] == '=' && s[..|name|] == name && s[|name| + 2..] == version;
  }

  /** A pin that is written out plainly reads back as itself, with its name normalised. */
  lemma PinReadsBack(name: string, version: string)
    requires ValidName(name) && ValidVersion(version)
    ensures ReadLine(name + "==" + version) == Pinned(Pin(NormalizeName(name), version))
    ensures Unbroken(name + "==" + version)
  {
    PinIsPlain(name, version);
    ParseOfPin(name, version);
    CompactOfPlain(name + "==" + version);
    hide Compact;
    hide ParsePin;
    hide Unbroken;
    hide NormalizeName;
    hide ValidName;
    hide ValidVersion;
  }

  lemma ReadLineIsCanonical(line: string)
    ensures ReadLine(line).Pinned? ==>
              var p := ReadLine(line).pin;
              ValidName(p.name) && CanonicalName(p.name) && ValidVersion(p.version)
  {
    var s := Compact(line);
    if s != "" && ParsePin(s).Some? {
      NormalizedNameIsCanonical(s[..FirstEquals(s)]);
    }
  }

  /** All names canonical and ascending, all versions valid: what a normalised list looks like. */
  ghost predicate CanonicalList(requirements: seq<string>) {
    exists names, pins: map<string, string> :: IsList(requirements, names, pins)
  }

  ghost predicate IsList(requirements: seq<string>, names: seq<string>, pins: map<string, string>) {
    && requirements != [] && Ascending(names) && (forall k :: k in names <==> k in pins)
    && (forall k :: k in pins ==> ValidName(k) && CanonicalName(k) && ValidVersion(pins[k]))
    && requirements == Render(names, pins)
  }

  lemma NormalizedIsCanonical(text: string)
    ensures Normalized(text).Some? ==> CanonicalList(Normalized(text).value)
  {
    var lines := SplitLines(text);
    PinsMean(lines);
    if Normalized(text).Some? {
      var pins := Pins(lines).value;
      forall k | k in pins
        ensures ValidName(k) && CanonicalName(k) && ValidVersion(pins[k])
      {
        assert Says(lines, Pinned(Pin(k, pins[k])));
        var i :| 0 <= i < |lines| && ReadLine(lines[i]) == Pinned(Pin(k, pins[k]));
        ReadLineIsCanonical(lines[i]);
      }
      var some :| some in pins;
      assert some in SortedKeys(pins.Keys);
      assert IsList(Normalized(text).value, SortedKeys(pins.Keys), pins);
    }
  }

  /** A canonical list, joined into a text, normalises to itself. */
  lemma CanonicalReadsBack(requirements: seq<string>)
    requires CanonicalList(requirements)
    ensures Normalized(JoinLines(requirements)) == Some(requirements)
  {
    var names, pins: map<string, string> :| IsList(requirements, names, pins);
    ListSays(requirements, names, pins);
    SplitJoin(requirements);
    PinsMean(requirements);
    var read := Pins(requirements).value;
    HoldsUniquely(read, pins, requirements, requirements);
    AscendingIsUnique(names, SortedKeys(pins.Keys));
    hide Unambiguous;
    hide Holds;
    hide Says;
    hide ReadLine;
  }

  /** The lines of a canonical list say exactly its pins. */
  lemma ListSays(requirements: seq<string>, names: seq<string>, pins: map<string, string>)
    requires IsList(requirements, names, pins)
    ensures Holds(pins, requirements) && Unambiguous(requirements)
    ensures forall i :: 0 <= i < |requirements| ==> Unbroken(requirements[i])
  {
    forall i | 0 <= i < |requirements|
      ensures Unbroken(requirements[i]) && ReadLine(requirements[i]) == Pinned(Pin(names[i], pins[names[i]]))
    {
      assert names[i] in names;
      PinReadsBack(names[i], pins[names[i]]);
    }
    hide ReadLine;
    hide ValidName;
    hide ValidVersion;
    hide Unbroken;
    forall name, v
      ensures Says(requirements, Pinned(Pin(name, v))) <==> name in pins && pins[name] == v
    {
      if name in pins {
        assert name in names;
        var i :| 0 <= i < |names| && names[i] == name;
        assert ReadLine(requirements[i]) == Pinned(Pin(name, pins[name]));
      }
    }
    assert !Says(requirements, Unsupported);
  }

  // ----- the main properties ----------------------------------------------------------------------

  /** Normalisation is idempotent through its own joined output. */
  lemma NormalizeIsIdempotent(text: string)
    ensures Normalized(text).Some? ==> Normalized(JoinLines(Normalized(text).value)) == Normalized(text)
  {
    NormalizedIsCanonical(text);
    if Normalized(text).Some? {
      CanonicalReadsBack(Normalized(text).value);
    }
  }

  /** Only what the lines say matters: not their order or repetition, nor blank lines and comments. */
  lemma NormalizeIgnoresLayout(a: string, b: string)
    requires forall line: Line :: !line.Blank? ==> (Says(SplitLines(a), line) <==> Says(SplitLines(b), line))
    ensures Normalized(a) == Normalized(b)
  {
    SamePins(SplitLines(a), SplitLines(b));
  }

  /** A whitespace character anywhere in a line makes no difference to what it says. */
  lemma {:induction false} SpacingIsIgnored(before: string, c: char, after: string)
    requires IsSpace(c)
    ensures Compact(before + [c] + after) == Compact(before + after)
    ensures ReadLine(before + [c] + after) == ReadLine(before + after)
  {
    if before == "" {
      assert before + [c] + after == [c] + after && before + after == after;
      assert ([c] + after)[1..] == after;
    } else {
      assert (before + [c] + after)[1..] == before[1..] + [c] + after;
      assert (before + after)[1..] == before[1..] + after;
      SpacingIsIgnored(before[1..], c, after);
    }
  }

  /** Letter case and the spelling of separators in a name make no difference. */
  lemma {:induction false} SpellingIsIgnored(before: string, c: string, d: string, after: string, sep: bool)
    requires c != "" && d != ""
    requires (|c| == |d| == 1 && Lower(c[0]) == Lower(d[0]) && !IsSeparator(c[0]) && !IsSeparator(d[0]))
             || ((forall k :: 0 <= k < |c| ==> IsSeparator(c[k])) && (forall k :: 0 <= k < |d| ==> IsSeparator(d[k])))
    ensures Squash(before + c + after, sep) == Squash(before + d + after, sep)
  {
    if before != "" {
      assert (before + c + after)[1..] == before[1..] + c + after;
      assert (before + d + after)[1..] == before[1..] + d + after;
      SpellingIsIgnored(before[1..], c, d, after, IsSeparator(before[0]));
    } else {
      assert before + c + after == c + after && before + d + after == d + after;
      if IsSeparator(c[0]) {
        SeparatorsSquash(c, after, sep);
        SeparatorsSquash(d, after, sep);
      } else {
        assert (c + after)[1..] == after && (d + after)[1..] == after;
      }
    }
  }

  lemma {:induction false} SeparatorsSquash(c: string, after: string, sep: bool)
    requires c != "" && forall k :: 0 <= k < |c| ==> IsSeparator(c[k])
    ensures Squash(c + after, sep) == (if sep then "" else "-") + Squash(after, true)
  {
    assert (c + after)[1..] == c[1..] + after;
    if |c| > 1 {
      SeparatorsSquash(c[1..], after, true);
    } else {
      assert c[1..] + after == after;
    }
  }

  // ----- exactly what a line and a name say ---------------------------------------------------------

  /** A comment, up to the end of its line, makes no difference. */
  lemma {:induction false} CommentIsIgnored(before: string, comment: string)
    ensures Compact(before + "#" + comment) == Compact(before)
    ensures ReadLine(before + "#" + comment) == ReadLine(before)
  {
    if before == "" {
      assert before + "#" + comment == "#" + comment;
    } else {
      assert (before + "#" + comment)[1..] == before[1..] + "#" + comment;
      CommentIsIgnored(before[1..], comment);
    }
  }

  /**
   * Without whitespace and comments a line is a pin exactly when it is a name
   * of letters, digits and separators, two equality signs, and a version that
   * starts with a digit.
   */
  lemma PinExactly(s: string, pin: Pin)
    ensures ParsePin(s) == Some(pin) <==>
              exists n :: IsPinAt(s, n) && pin == Pin(NormalizeName(s[..n]), s[n + 2..])
  {
    hide NormalizeName;
    var i := FirstEquals(s);
    forall n | IsPinAt(s, n)
      ensures i == n
    {
      assert forall k :: 0 <= k < n ==> s[k] != '=';
    }
    if 0 < i && i + 2 < |s| && s[i + 1] == '=' {
      PinParts(s, i);
    }
    hide IsPinAt;
    hide FirstEquals;
    hide ValidName;
    hide ValidVersion;
  }

  lemma PinParts(s: string, n: nat)
    requires 0 < n && n + 2 < |s| && s[n] == s[n + 1] == '='
    ensures IsPinAt(s, n) <==> ValidName(s[..n]) && ValidVersion(s[n + 2..])
  {
    var name, version := s[..n], s[n + 2..];
    assert name[0] == s[0] && version[0] == s[n + 2];
    assert forall k :: 0 <= k < n ==> name[k] == s[k];
    assert forall k :: n + 2 <= k < |s| ==> version[k - n - 2] == s[k];
  }

  predicate IsPinAt(s: string, n: int) {
    && 0 < n && n + 2 < |s| && s[n] == '=' && s[n + 1] == '='
    && ('0' <= s[0] <= '9' || 'a' <= s[0] <= 'z' || 'A' <= s[0] <= 'Z') && '0' <= s[n + 2] <= '9'
    && (forall k :: 0 <= k < n ==>
          || '0' <= s[k] <= '9' || 'a' <= s[k] <= 'z' || 'A' <= s[k] <= 'Z'
          || s[k] == '-' || s[k] == '_' || s[k] == '.')
    && (forall k :: n + 2 <= k < |s| ==>
          || '0' <= s[k] <= '9' || 'a' <= s[k] <= 'z' || 'A' <= s[k] <= 'Z'
          || s[k] == '-' || s[k] == '_' || s[k] == '.' || s[k] == '!' || s[k] == '+')
  }

  /** Words with a text between each two. */
  function Weave(words: seq<string>, between: seq<string>): string
    requires |words| == |between| + 1
  {
    if between == [] then words[0] else words[0] + between[0] + Weave(words[1..], between[1..])
  }

  /** Words without separators, divided by runs of them; only the first and the last word may be empty. */
  predicate Divided(words: seq<string>, runs: seq<string>) {
    && |words| == |runs| + 1
    && (forall i :: 0 <= i < |words| ==> forall k :: 0 <= k < |words[i]| ==> !IsSeparator(words[i][k]))
    && (forall i :: 0 < i < |runs| ==> words[i] != "")
    && (forall i :: 0 <= i < |runs| ==> runs[i] != "" && forall k :: 0 <= k < |runs[i]| ==> IsSeparator(runs[i][k]))
  }

  function LowerAll(s: string): (r: string)
    ensures |r| == |s| && forall k :: 0 <= k < |s| ==> r[k] == Lower(s[k])
  {
    seq(|s|, k requires 0 <= k < |s| => Lower(s[k]))
  }

  function LowerEach(words: seq<string>): (r: seq<string>)
    ensures |r| == |words| && forall i :: 0 <= i < |words| ==> r[i] == LowerAll(words[i])
  {
    seq(|words|, i requires 0 <= i < |words| => LowerAll(words[i]))
  }

  function Dashes(n: nat): (r: seq<string>)
    ensures |r| == n && forall i :: 0 <= i < n ==> r[i] == "-"
  {
    seq(n, _ => "-")
  }

  lemma {:induction false} SquashWord(word: string, rest: string, after: bool)
    requires forall k :: 0 <= k < |word| ==> !IsSeparator(word[k])
    ensures Squash(word + rest, after) == LowerAll(word) + Squash(rest, word == "" && after)
  {
    if word == "" {
      assert word + rest == rest;
    } else {
      SquashWord(word[1..], rest, false);
      assert (word + rest)[1..] == word[1..] + rest;
      assert LowerAll(word) == [Lower(word[0])] + LowerAll(word[1..]);
    }
  }

  lemma {:induction false} SquashWeave(words: seq<string>, runs: seq<string>, after: bool)
    requires Divided(words, runs) && (after && runs != [] ==> words[0] != "")
    ensures Squash(Weave(words, runs), after) == Weave(LowerEach(words), Dashes(|runs|))
  {
    if runs == [] {
      assert words[0] + "" == words[0] && Squash("", words[0] == "" && after) == "";
      SquashWord(words[0], "", after);
    } else {
      var rest := Weave(words[1..], runs[1..]);
      assert words[0] + runs[0] + rest == words[0] + (runs[0] + rest);
      SquashWord(words[0], runs[0] + rest, after);
      SeparatorsSquash(runs[0], rest, false);
      SquashWeave(words[1..], runs[1..], true);
      assert LowerEach(words)[1..] == LowerEach(words[1..]);
      assert Dashes(|runs|)[1..] == Dashes(|runs[1..]|);
    }
  }

  /** Every text is divided in this way. */
  lemma {:induction false} Divide(s: string) returns (words: seq<string>, runs: seq<string>)
    ensures Divided(words, runs) && Weave(words, runs) == s
  {
    if s == "" {
      words, runs := [""], [];
    } else {
      words, runs := Divide(s[1..]);
      if !IsSeparator(s[0]) {
        words := words[0 := [s[0]] + words[0]];
      } else if words[0] == "" && runs != [] {
        runs := runs[0 := [s[0]] + runs[0]];
      } else {
        words, runs := [""] + words, [[s[0]]] + runs;
      }
    }
  }

  lemma {:induction false} WeaveIsUnique(ws: seq<string>, vs: seq<string>)
    requires |ws| > 0 && |vs| > 0
    requires Weave(ws, Dashes(|ws| - 1)) == Weave(vs, Dashes(|vs| - 1))
    requires forall i :: 0 <= i < |ws| ==> forall k :: 0 <= k < |ws[i]| ==> ws[i][k] != '-'
    requires forall i :: 0 <= i < |vs| ==> forall k :: 0 <= k < |vs[i]| ==> vs[i][k] != '-'
    ensures ws == vs
  {
    var s := Weave(ws, Dashes(|ws| - 1));
    assert forall k :: 0 <= k < |ws[0]| ==> s[k] == ws[0][k];
    assert forall k :: 0 <= k < |vs[0]| ==> s[k] == vs[0][k];
    assert |ws| > 1 ==> s[|ws[0]|] == '-';
    assert |vs| > 1 ==> s[|vs[0]|] == '-';
    assert |ws[0]| == |vs[0]| && (|ws| > 1 <==> |vs| > 1);
    assert ws[0] == s[..|ws[0]|] == vs[0];
    if |ws| > 1 {
      assert Dashes(|ws| - 1)[1..] == Dashes(|ws| - 2) && Dashes(|vs| - 1)[1..] == Dashes(|vs| - 2);
      assert Weave(ws[1..], Dashes(|ws| - 2)) == s[|ws[0]| + 1..] == Weave(vs[1..], Dashes(|vs| - 2));
      WeaveIsUnique(ws[1..], vs[1..]);
    }
  }

  /** The normal form of a name: its words in lower case, with one dash for every run of separators. */
  lemma NormalizeExactly(words: seq<string>, runs: seq<string>)
    requires Divided(words, runs)
    ensures NormalizeName(Weave(words, runs)) == Weave(LowerEach(words), Dashes(|runs|))
  {
    SquashWeave(words, runs, false);
  }

  /** So two names are the same exactly when their words are, up to letter case. */
  lemma SameNameExactly(ws: seq<string>, rs: seq<string>, vs: seq<string>, qs: seq<string>)
    requires Divided(ws, rs) && Divided(vs, qs)
    ensures NormalizeName(Weave(ws, rs)) == NormalizeName(Weave(vs, qs)) <==> LowerEach(ws) == LowerEach(vs)
  {
    NormalizeExactly(ws, rs);
    NormalizeExactly(vs, qs);
    hide NormalizeName;
    if NormalizeName(Weave(ws, rs)) == NormalizeName(Weave(vs, qs)) {
      WordsStayPlain(ws, rs);
      WordsStayPlain(vs, qs);
      WeaveIsUnique(LowerEach(ws), LowerEach(vs));
    }
  }

  lemma WordsStayPlain(words: seq<string>, runs: seq<string>)
    requires Divided(words, runs)
    ensures forall i :: 0 <= i < |words| ==>
              forall k :: 0 <= k < |LowerEach(words)[i]| ==> LowerEach(words)[i][k] != '-'
  {
    forall i, k | 0 <= i < |words| && 0 <= k < |LowerEach(words)[i]|
      ensures LowerEach(words)[i][k] != '-'
    {
      assert LowerEach(words)[i][k] == Lower(words[i][k]) && !IsSeparator(words[i][k]);
    }
  }

  // ----- the same, for whole files -------------------------------------------------------------------

  lemma SaysByPieces(text: string, line: Line)
    requires !line.Blank?
    ensures Says(SplitLines(text), line) <==> Says(Pieces(text), line)
  {
    if i :| 0 <= i < |SplitLines(text)| && ReadLine(SplitLines(text)[i]) == line {
      SameLines(text, SplitLines(text)[i]);
    }
    if i :| 0 <= i < |Pieces(text)| && ReadLine(Pieces(text)[i]) == line {
      SameLines(text, Pieces(text)[i]);
    }
    hide ReadLine;
  }

  /** Replacing one piece by another that says the same. */
  lemma SaysReplaced(before: seq<string>, a: string, b: string, after: seq<string>, line: Line)
    requires ReadLine(a) == ReadLine(b)
    ensures Says(before + [a] + after, line) ==> Says(before + [b] + after, line)
  {
    hide ReadLine;
    var xs, ys := before + [a] + after, before + [b] + after;
    if i :| 0 <= i < |xs| && ReadLine(xs[i]) == line {
      assert ReadLine(ys[i]) == line;
    }
  }

  /** Texts whose pieces differ in one place only, where both say the same, normalise alike. */
  lemma OnePieceApart(s: string, t: string, before: seq<string>, a: string, b: string, after: seq<string>)
    requires Pieces(s) == before + [a] + after && Pieces(t) == before + [b] + after && ReadLine(a) == ReadLine(b)
    ensures Normalized(s) == Normalized(t)
  {
    hide ReadLine;
    forall line: Line | !line.Blank?
      ensures Says(SplitLines(s), line) <==> Says(SplitLines(t), line)
    {
      SaysByPieces(s, line);
      SaysByPieces(t, line);
      SaysReplaced(before, a, b, after, line);
      SaysReplaced(before, b, a, after, line);
    }
    hide Says;
    NormalizeIgnoresLayout(s, t);
    hide Normalized;
  }

  lemma PiecesOfThree(before: string, line: string, after: string)
    requires forall k :: 0 <= k < |line| ==> !IsBreak(line[k])
    ensures var ps, qs := Pieces(before), Pieces(after);
            Pieces(before + line + after) == ps[..|ps| - 1] + [ps[|ps| - 1] + line + qs[0]] + qs[1..]
  {
    var ps, qs := Pieces(before), Pieces(after);
    PiecesOfLine(line);
    hide Pieces;
    PiecesConcat(before, line);
    PiecesConcat(before + line, after);
    var joined := ps[..|ps| - 1] + [ps[|ps| - 1] + line];
    assert Glue(ps, [line]) == joined;
    assert joined[..|joined| - 1] == ps[..|ps| - 1];
  }

  /** A blank, tab or other spacing character anywhere in a file makes no difference. */
  lemma FileSpacingIsIgnored(before: string, c: char, after: string)
    requires IsSpace(c) && !IsBreak(c)
    ensures Normalized(before + [c] + after) == Normalized(before + after)
  {
    hide Normalized;
    var ps, qs := Pieces(before), Pieces(after);
    var p, q := ps[|ps| - 1], qs[0];
    PiecesOfThree(before, [c], after);
    PiecesConcat(before, after);
    SpacingIsIgnored(p, c, q);
    hide ReadLine;
    hide Pieces;
    OnePieceApart(before + [c] + after, before + after, ps[..|ps| - 1], p + [c] + q, p + q, qs[1..]);
  }

  /** A comment up to the end of its line makes no difference. */
  lemma FileCommentIsIgnored(before: string, comment: string, after: string)
    requires forall k :: 0 <= k < |comment| ==> !IsBreak(comment[k])
    requires after == "" || IsBreak(after[0])
    ensures Normalized(before + ("#" + comment) + after) == Normalized(before + after)
  {
    hide Normalized;
    var ps, qs := Pieces(before), Pieces(after);
    var p := ps[|ps| - 1];
    var note := "#" + comment;
    assert qs[0] == "" && p + note + qs[0] == p + "#" + comment && p + qs[0] == p;
    PiecesOfThree(before, note, after);
    PiecesConcat(before, after);
    CommentIsIgnored(p, comment);
    hide ReadLine;
    hide Pieces;
    OnePieceApart(before + note + after, before + after, ps[..|ps| - 1], p + note + qs[0], p + qs[0], qs[1..]);
  }

  /** Between line boundaries, two spellings of a pinned name that normalise alike make no difference. */
  lemma FileSpellingIsIgnored(before: string, a: string, b: string, version: string, after: string)
    requires before == "" || IsBreak(before[|before| - 1])
    requires after == "" || IsBreak(after[0])
    requires ValidName(a) && ValidName(b) && ValidVersion(version) && NormalizeName(a) == NormalizeName(b)
    ensures Normalized(before + (a + "==" + version) + after) == Normalized(before + (b + "==" + version) + after)
  {
    hide Normalized;
    var ps, qs := Pieces(before), Pieces(after);
    hide ReadLine;
    hide ValidName;
    hide ValidVersion;
    hide NormalizeName;
    PinReadsBack(a, version);
    PinReadsBack(b, version);
    var s, t := a + "==" + version, b + "==" + version;
    EndsEmpty(before);
    hide Pieces;
    PiecesOfThree(before, s, after);
    PiecesOfThree(before, t, after);
    assert "" + s + "" == s && "" + t + "" == t;
    OnePieceApart(before + s + after, before + t + after, ps[..|ps| - 1], s, t, qs[1..]);
  }

  /** The last piece of a text that ends at a line boundary is empty. */
  lemma EndsEmpty(text: string)
    requires text == "" || IsBreak(text[|text| - 1])
    ensures Pieces(text)[|Pieces(text)| - 1] == ""
  {
    if text != "" {
      var n := |text| - 1;
      assert text == text[..n] + [text[n]];
      PiecesConcat(text[..n], [text[n]]);
      assert [text[n]][1..] == "";
      assert Pieces([text[n]]) == ["", ""];
    }
  }
}
