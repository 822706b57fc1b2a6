/** Lines, whitespace and the order of strings. */
module Text {

  /** The characters that str.isspace and the regular expression class \s accept. */
  predicate IsSpace(c: char) {
    || '\t' <= c <= '\r' || '\U{1C}' <= c <= ' ' || c == '\U{85}' || c == '\U{A0}' || c == '\U{1680}'
    || '\U{2000}' <= c <= '\U{200A}' || c == '\U{2028}' || c == '\U{2029}' || c == '\U{202F}' || c == '\U{205F}'
    || c == '\U{3000}'
  }

  /** The line boundaries of str.splitlines. */
  predicate IsBreak(c: char) {
    '\n' <= c <= '\r' || '\U{1C}' <= c <= '\U{1E}' || c == '\U{85}' || c == '\U{2028}' || c == '\U{2029}'
  }

  /** The same two classes, by code. */
  lemma CharacterClasses(c: char)
    ensures IsSpace(c) <==>
              || 9 <= c as int <= 13 || 28 <= c as int <= 32 || 8192 <= c as int <= 8202
              || c as int in {133, 160, 5760, 8232, 8233, 8239, 8287, 12288}
    ensures IsBreak(c) <==> c as int in {10, 11, 12, 13, 28, 29, 30, 133, 8232, 8233}
  {
  }

  function FirstBreak(text: string): (i: nat)
    ensures i <= |text| && (i < |text| ==> IsBreak(text[i]))
    ensures forall k :: 0 <= k < i ==> !IsBreak(text[k])
  {
    if text == "" || IsBreak(text[0]) then 0 else 1 + FirstBreak(text[1..])
  }

  function SplitLines(text: string): seq<string> {
    if text == "" then []
    else
      var i := FirstBreak(text);
      if i == |text| then [text]
      else
        var next := if text[i] == '\r' && i + 1 < |text| && text[i + 1] == '\n' then i + 2 else i + 1;
        [text[..i]] + SplitLines(text[next..])
  }

  /** Joined with newlines. */
  function JoinLines(lines: seq<string>): string {
    if lines == [] then "" else if |lines| == 1 then lines[0] else lines[0] + "\n" + JoinLines(lines[1..])
  }

  predicate Unbroken(line: string) {
    line != "" && forall k :: 0 <= k < |line| ==> !IsBreak(line[k])
  }

  lemma FirstBreakOf(line: string, rest: string)
    requires forall k :: 0 <= k < |line| ==> !IsBreak(line[k])
    ensures FirstBreak(line + "\n" + rest) == |line|
  {
    var text := line + "\n" + rest;
    assert text[|line|] == '\n';
    assert forall k :: 0 <= k < |line| ==> text[k] == line[k];
  }

  lemma SplitFirst(line: string, rest: string)
    requires Unbroken(line)
    ensures SplitLines(line + "\n" + rest) == [line] + SplitLines(rest)
  {
    FirstBreakOf(line, rest);
    var text := line + "\n" + rest;
    hide FirstBreak;
    assert text[|line|] == '\n' && text[..|line|] == line && text[|line| + 1..] == rest;
  }

  lemma {:induction false} SplitJoin(lines: seq<string>)
    requires forall i :: 0 <= i < |lines| ==> Unbroken(lines[i])
    ensures SplitLines(JoinLines(lines)) == lines
  {
    if |lines| == 1 {
      assert FirstBreak(lines[0]) == |lines[0]|;
    } else if lines != [] {
      SplitFirst(lines[0], JoinLines(lines[1..]));
      hide SplitLines;
      SplitJoin(lines[1..]);
    }
  }

  /** Cut at every line boundary character, so that a carriage return and newline enclose an empty line. */
  function Pieces(text: string): (ps: seq<string>)
    ensures ps != []
  {
    if text == "" then [""]
    else
      var rest := Pieces(text[1..]);
      if IsBreak(text[0]) then [""] + rest else [[text[0]] + rest[0]] + rest[1..]
  }

  /** Two cuts, joined inside the piece where they meet. */
  function Glue(ps: seq<string>, qs: seq<string>): (r: seq<string>)
    requires ps != [] && qs != []
    ensures r != []
  {
    ps[..|ps| - 1] + [ps[|ps| - 1] + qs[0]] + qs[1..]
  }

  lemma GlueFirst(c: string, ps: seq<string>, qs: seq<string>)
    requires ps != [] && qs != []
    ensures Glue([c + ps[0]] + ps[1..], qs) == [c + Glue(ps, qs)[0]] + Glue(ps, qs)[1..]
  {
    var xs := [c + ps[0]] + ps[1..];
    if |ps| == 1 {
      assert xs == [c + ps[0]];
      assert (c + ps[0]) + qs[0] == c + (ps[0] + qs[0]);
    } else {
      assert xs[..|xs| - 1] == [c + ps[0]] + ps[1..|ps| - 1];
      assert Glue(ps, qs)[1..] == ps[1..|ps| - 1] + [ps[|ps| - 1] + qs[0]] + qs[1..];
    }
  }

  lemma GlueEmpty(ps: seq<string>, qs: seq<string>)
    requires ps != [] && qs != []
    ensures Glue([""] + ps, qs) == [""] + Glue(ps, qs)
  {
    assert ([""] + ps)[..|ps|] == [""] + ps[..|ps| - 1];
  }

  lemma {:induction false} PiecesConcat(a: string, b: string)
    ensures Pieces(a + b) == Glue(Pieces(a), Pieces(b))
  {
    if a == "" {
      assert a + b == b;
      assert "" + Pieces(b)[0] == Pieces(b)[0];
    } else {
      assert (a + b)[1..] == a[1..] + b && (a + b)[0] == a[0];
      PiecesConcat(a[1..], b);
      GlueFirst([a[0]], Pieces(a[1..]), Pieces(b));
      GlueEmpty(Pieces(a[1..]), Pieces(b));
      hide Glue;
    }
  }

  lemma {:induction false} PiecesOfLine(line: string)
    requires forall k :: 0 <= k < |line| ==> !IsBreak(line[k])
    ensures Pieces(line) == [line]
  {
    if line != "" {
      PiecesOfLine(line[1..]);
      assert line == [line[0]] + line[1..];
    }
  }

  lemma BreakPiece(text: string)
    requires text != "" && IsBreak(text[0])
    ensures Pieces(text) == [""] + Pieces(text[1..])
  {
  }

  lemma GlueOne(head: string, ps: seq<string>)
    ensures Glue([head], [""] + ps) == [head] + ps
  {
    assert head + "" == head;
    assert ([""] + ps)[1..] == ps;
  }

  lemma FirstPiece(text: string, i: nat)
    requires i == FirstBreak(text) < |text|
    ensures Pieces(text) == [text[..i]] + Pieces(text[i + 1..])
  {
    var head, tail := text[..i], text[i..];
    assert text == head + tail && tail[1..] == text[i + 1..];
    PiecesOfLine(head);
    BreakPiece(tail);
    hide FirstBreak;
    hide Pieces;
    hide Glue;
    PiecesConcat(head, tail);
    GlueOne(head, Pieces(tail[1..]));
  }

  /** Both ways cut off the same first line. */
  lemma CutFirst(text: string) returns (head: string, tail: string)
    requires text != "" && FirstBreak(text) < |text|
    ensures |tail| < |text| && SplitLines(text) == [head] + SplitLines(tail)
    ensures Pieces(text) == [head] + Pieces(tail) || Pieces(text) == [head] + ([""] + Pieces(tail))
  {
    var i := FirstBreak(text);
    head := text[..i];
    var crlf := text[i] == '\r' && i + 1 < |text| && text[i + 1] == '\n';
    tail := text[if crlf then i + 2 else i + 1..];
    FirstPiece(text, i);
    if crlf {
      var rest := text[i + 1..];
      assert rest[1..] == tail;
      BreakPiece(rest);
    }
    hide Pieces;
  }

  /** The two ways to cut a text differ in empty lines only. */
  lemma {:induction false} SameLines(text: string, line: string)
    requires line != ""
    ensures line in SplitLines(text) <==> line in Pieces(text)
    decreases |text|
  {
    if text != "" {
      if FirstBreak(text) == |text| {
        PiecesOfLine(text);
      } else {
        var head, tail := CutFirst(text);
        hide SplitLines;
        hide Pieces;
        hide FirstBreak;
        SameLines(tail, line);
      }
    }
  }

  // ----- order -------------------------------------------------------------------------

  /** Lexicographic by code point. */
  predicate Precedes(a: string, b: string) {
    b != "" && (a == "" || a[0] < b[0] || (a[0] == b[0] && Precedes(a[1..], b[1..])))
  }

  lemma {:induction false} PrecedesIsStrict(a: string, b: string)
    ensures !(Precedes(a, b) && Precedes(b, a))
    ensures a == b || Precedes(a, b) || Precedes(b, a)
  {
    if a != "" && b != "" {
      PrecedesIsStrict(a[1..], b[1..]);
      assert a == [a[0]] + a[1..] && b == [b[0]] + b[1..];
    }
  }

  lemma {:induction false} PrecedesIsTransitive(a: string, b: string, c: string)
    requires Precedes(a, b) && Precedes(b, c)
    ensures Precedes(a, c)
  {
    if a != "" && a[0] == b[0] && b[0] == c[0] {
      PrecedesIsTransitive(a[1..], b[1..], c[1..]);
    }
  }

  ghost predicate Ascending(ks: seq<string>) {
    forall i, j :: 0 <= i < j < |ks| ==> Precedes(ks[i], ks[j])
  }

  /** Insertion into an ascending list of other strings. */
  function InsertName(ks: seq<string>, k: string): (r: seq<string>)
    ensures multiset(r) == multiset(ks) + multiset{k}
  {
    if ks == [] || Precedes(k, ks[0]) then [k] + ks
    else
      assert ks == [ks[0]] + ks[1..];
      [ks[0]] + InsertName(ks[1..], k)
  }

  lemma InsertMembers(ks: seq<string>, k: string)
    ensures forall x :: x in InsertName(ks, k) <==> x in ks || x == k
  {
    var all := InsertName(ks, k);
    hide InsertName;
    assert forall x :: x in all <==> x in multiset(all);
  }

  lemma {:induction false} InsertAscends(ks: seq<string>, k: string)
    requires Ascending(ks) && k !in ks
    ensures Ascending(InsertName(ks, k))
    ensures forall x :: x in InsertName(ks, k) <==> x in ks || x == k
  {
    InsertMembers(ks, k);
    hide Precedes;
    if ks != [] && Precedes(k, ks[0]) {
      forall j | 0 <= j < |ks|
        ensures Precedes(k, ks[j])
      {
        if j > 0 {
          PrecedesIsTransitive(k, ks[0], ks[j]);
        }
      }
    } else if ks != [] {
      PrecedesIsStrict(k, ks[0]);
      InsertAscends(ks[1..], k);
      var rest := InsertName(ks[1..], k);
      forall j | 0 <= j < |rest|
        ensures Precedes(ks[0], rest[j])
      {
        assert rest[j] in rest;
        if rest[j] != k {
          var i :| 0 <= i < |ks[1..]| && ks[1..][i] == rest[j];
          assert ks[i + 1] == rest[j];
        }
      }
    }
  }

  /** There is only one ascending list of the same strings. */
  lemma {:induction false} AscendingIsUnique(a: seq<string>, b: seq<string>)
    requires Ascending(a) && Ascending(b) && forall x :: x in a <==> x in b
    ensures a == b
  {
    if a == [] {
      assert forall i :: 0 <= i < |b| ==> b[i] in b;
    } else {
      assert a[0] in a && a[0] in b;
      assert b[0] in b && b[0] in a;
      PrecedesIsStrict(a[0], b[0]);
      assert a[0] == b[0];
      forall x
        ensures x in a[1..] <==> x in b[1..]
      {
        TailWithoutHead(a, x);
        TailWithoutHead(b, x);
      }
      AscendingIsUnique(a[1..], b[1..]);
    }
  }

  lemma TailWithoutHead(a: seq<string>, x: string)
    requires Ascending(a) && a != []
    ensures x in a[1..] <==> x in a && x != a[0]
  {
    PrecedesIsStrict(a[0], a[0]);
    if x in a && x != a[0] {
      var i :| 0 <= i < |a| && a[i] == x;
      assert a[1..][i - 1] == x;
    }
    if x in a[1..] {
      var i :| 0 <= i < |a[1..]| && a[1..][i] == x;
      assert a[i + 1] == x && Precedes(a[0], a[i + 1]);
    }
  }
}
