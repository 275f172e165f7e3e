/** Lines of text in the EVBUFFER_EOL_CRLF style of libevent, over flat strings: the
    reference against which the buffer and the receive loop are proved. */
module Lines {
  import opened Options

  const CRLF := "\r\n"

  datatype Eol = Eol(position: nat, length: nat)

  datatype Line = Line(text: string, eol: string)

  /** A string cut after its first line. */
  datatype Cut = Cut(line: Line, rest: string)

  /** The position of the first LF, or the length of the string. */
  function FindLf(s: string): (p: nat)
    ensures p <= |s|
    ensures p < |s| ==> s[p] == '\n'
    ensures forall i | 0 <= i < p :: s[i] != '\n'
  {
    if s == "" || s[0] == '\n' then 0 else FindLf(s[1..]) + 1
  }

  /** evbuffer_search_eol: the LF that comes first, with the CR before it if there is one. */
  function SearchEol(s: string): (found: Option<Eol>)
    ensures found.Some? ==> found.value.position + found.value.length <= |s|
  {
    var p := FindLf(s);
    if p == |s| then None
    else if p > 0 && s[p - 1] == '\r' then Some(Eol(p - 1, 2))
    else Some(Eol(p, 1))
  }

  function FirstLine(s: string): (r: Option<Cut>)
    ensures r.Some? ==> |r.value.rest| < |s|
  {
    match SearchEol(s)
    case None => None
    case Some(e) =>
      Some(Cut(Line(s[..e.position], s[e.position..e.position + e.length]), s[e.position + e.length..]))
  }

  /** A line as the reader sees it: one terminator, no LF in the text, and a CR that
      stands just before the LF counted with the terminator. */
  predicate IsLine(l: Line) {
    && '\n' !in l.text
    && (l.eol == CRLF || (l.eol == "\n" && (l.text == "" || l.text[|l.text| - 1] != '\r')))
  }

  /** What FirstLine returns is a line, followed by the rest of the string; and it returns
      nothing just when no LF is there. */
  lemma FirstLineSound(s: string)
    ensures FirstLine(s).None? <==> '\n' !in s
    ensures FirstLine(s).Some? ==>
              var cut := FirstLine(s).value;
              IsLine(cut.line) && cut.line.text + cut.line.eol + cut.rest == s
  {
    var p := FindLf(s);
    if p < |s| {
      var e := SearchEol(s).value;
      EolIsTerminator(s);
      hide SearchEol, FindLf;
      SliceOfSlices(s, e.position, e.position + e.length);
    }
  }

  lemma EolIsTerminator(s: string)
    requires FindLf(s) < |s|
    ensures var e := SearchEol(s).value;
            IsLine(Line(s[..e.position], s[e.position..e.position + e.length]))
  {
    var p := FindLf(s);
    hide FindLf, IsLine;
    if p > 0 && s[p - 1] == '\r' {
      CrLfEnds(s, p);
    } else {
      LfEnds(s, p);
    }
  }

  lemma LfEnds(s: string, p: nat)
    requires p < |s| && s[p] == '\n' && (p > 0 ==> s[p - 1] != '\r')
    requires forall i | 0 <= i < p :: s[i] != '\n'
    ensures IsLine(Line(s[..p], s[p..p + 1]))
  {
    assert s[p..p + 1] == [s[p]];
  }

  lemma CrLfEnds(s: string, p: nat)
    requires 0 < p < |s| && s[p] == '\n' && s[p - 1] == '\r'
    requires forall i | 0 <= i < p :: s[i] != '\n'
    ensures IsLine(Line(s[..p - 1], s[p - 1..p + 1]))
  {
    assert s[p - 1..p + 1] == [s[p - 1], s[p]];
  }

  lemma SliceOfSlices<T>(s: seq<T>, i: nat, j: nat)
    requires i <= j <= |s|
    ensures s[..i] + s[i..j] + s[j..] == s
  {}

  /** There is only one way to cut a line off a string. */
  lemma FirstLineUnique(l: Line, rest: string)
    requires IsLine(l)
    ensures FirstLine(l.text + l.eol + rest) == Some(Cut(l, rest))
  {
    var s := l.text + l.eol + rest;
    var q := |l.text| + |l.eol| - 1;
    assert s[q] == '\n';
    FirstLfAt(s, q);
    if l.eol == "\n" {
      assert q > 0 ==> s[q - 1] == l.text[|l.text| - 1];
    } else {
      assert s[q - 1] == '\r';
    }
    assert SearchEol(s) == Some(Eol(|l.text|, |l.eol|));
    CutAt(l.text, l.eol, rest);
  }

  lemma FirstLfAt(s: string, q: nat)
    requires q < |s| && s[q] == '\n' && forall i | 0 <= i < q :: s[i] != '\n'
    ensures FindLf(s) == q
  {}

  lemma CutAt(a: string, b: string, c: string)
    ensures (a + b + c)[..|a|] == a && (a + b + c)[|a|..|a| + |b|] == b && (a + b + c)[|a| + |b|..] == c
  {}

  /** The text that lines spell, terminators included. */
  function Join(lines: seq<Line>): string {
    if lines == [] then "" else lines[0].text + lines[0].eol + Join(lines[1..])
  }

  /** All complete lines of a string, in order. */
  function Split(s: string): (lines: seq<Line>)
    decreases |s|
  {
    match FirstLine(s)
    case None => []
    case Some(cut) => [cut.line] + Split(cut.rest)
  }

  lemma {:induction false} JoinConcat(a: seq<Line>, b: seq<Line>)
    ensures Join(a + b) == Join(a) + Join(b)
  {
    if a == [] {
      assert a + b == b;
    } else {
      assert (a + b)[1..] == a[1..] + b;
      JoinConcat(a[1..], b);
    }
  }

  /** The incomplete line that follows the complete ones. */
  function Tail(s: string): (tail: string)
    ensures '\n' !in tail
    decreases |s|
  {
    FirstLineSound(s);
    match FirstLine(s)
    case None => s
    case Some(cut) => Tail(cut.rest)
  }

  lemma JoinCons(l: Line, lines: seq<Line>)
    ensures Join([l] + lines) == l.text + l.eol + Join(lines)
  {
    assert ([l] + lines)[1..] == lines;
  }

  lemma Uncons<T>(s: seq<T>, t: seq<T>)
    requires s != []
    ensures s + t == [s[0]] + (s[1..] + t)
  {}

  lemma Associate<T>(a: seq<T>, b: seq<T>, c: seq<T>)
    ensures (a + b) + c == a + (b + c)
  {}

  lemma {:induction false} SplitIsLines(s: string)
    ensures forall i | 0 <= i < |Split(s)| :: IsLine(Split(s)[i])
    decreases |s|
  {
    hide IsLine;
    FirstLineSound(s);
    match FirstLine(s)
    case None =>
    case Some(cut) => SplitIsLines(cut.rest);
  }

  lemma {:induction false} JoinOfSplit(s: string)
    ensures s == Join(Split(s)) + Tail(s)
    decreases |s|
  {
    FirstLineSound(s);
    match FirstLine(s)
    case None =>
    case Some(cut) =>
      JoinOfSplit(cut.rest);
      JoinCons(cut.line, Split(cut.rest));
      Associate(cut.line.text + cut.line.eol, Join(Split(cut.rest)), Tail(cut.rest));
  }

  lemma SplitCons(l: Line, more: string)
    requires IsLine(l)
    ensures Split(l.text + l.eol + more) == [l] + Split(more)
    ensures Tail(l.text + l.eol + more) == Tail(more)
  {
    FirstLineUnique(l, more);
  }

  /** Lines already complete do not change when more text arrives, wherever the chunk
      boundary falls: even between the CR and the LF. */
  lemma {:induction false} SplitGrows(lines: seq<Line>, buffered: string)
    requires forall i | 0 <= i < |lines| :: IsLine(lines[i])
    ensures Split(Join(lines) + buffered) == lines + Split(buffered)
    ensures Tail(Join(lines) + buffered) == Tail(buffered)
  {
    if lines == [] {
      assert Join(lines) + buffered == buffered;
    } else {
      var l, more := lines[0], Join(lines[1..]) + buffered;
      assert Join(lines) + buffered == l.text + l.eol + more by {
        Associate(l.text + l.eol, Join(lines[1..]), buffered);
      }
      SplitCons(l, more);
      SplitGrows(lines[1..], buffered);
      Uncons(lines, Split(buffered));
    }
  }

  /** The wire form of a reply: each text closed by CRLF. */
  function Encode(texts: seq<string>): string {
    if texts == [] then "" else texts[0] + CRLF + Encode(texts[1..])
  }
}
