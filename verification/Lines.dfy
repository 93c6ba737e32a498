// The line reader: a file read through a buffer that is refilled in pieces of
// any length gives the lines of the file.

module Lines {
  const BUF_SIZE := 4096

  // ------------------------------------------------------------ what lines are

  // Where the first line of s ends: at its first newline or at its end.
  function LineEnd(s: string): (k: nat)
    ensures k <= |s| && (forall i | 0 <= i < k :: s[i] != '\n') && (k < |s| ==> s[k] == '\n')
  {
    if s == "" || s[0] == '\n' then 0 else 1 + LineEnd(s[1..])
  }

  function AfterLine(s: string): (rest: string)
    ensures s != "" ==> |rest| < |s|
  {
    if LineEnd(s) < |s| then s[LineEnd(s) + 1..] else ""
  }

  // The lines of a file; a newline at its end starts no further line.
  function LinesOf(s: string): seq<string>
    decreases |s|
  {
    if s == "" then [] else [s[..LineEnd(s)]] + LinesOf(AfterLine(s))
  }

  // A file is cut at its newlines.
  lemma CutAtNewline(s: string, k: nat)
    requires s != "" && k <= |s| && (forall i | 0 <= i < k :: s[i] != '\n') && (k < |s| ==> s[k] == '\n')
    ensures LinesOf(s) == [s[..k]] + if k < |s| then LinesOf(s[k + 1..]) else []
  {
    assert LineEnd(s) == k;
    hide LineEnd;
    assert AfterLine(s) == if k < |s| then s[k + 1..] else "";
    hide AfterLine;
  }

  function Terminated(lines: seq<string>): string {
    if lines == [] then "" else lines[0] + "\n" + Terminated(lines[1..])
  }

  predicate OneLine(s: string) {
    '\n' !in s
  }

  lemma FirstLine(line: string, rest: string)
    requires OneLine(line)
    ensures LineEnd(line + "\n" + rest) == |line| && AfterLine(line + "\n" + rest) == rest
    ensures (line + "\n" + rest)[..|line|] == line
  {
    var s := line + "\n" + rest;
    assert s[|line|] == '\n';
    assert forall i | 0 <= i < |line| :: s[i] == line[i] && line[i] in line;
    assert s[|line| + 1..] == rest;
  }

  lemma OnlyLine(line: string)
    requires OneLine(line) && line != ""
    ensures LinesOf(line) == [line]
  {
    assert LineEnd(line) == |line| && line[..|line|] == line;
  }

  // Lines written with a newline each, and perhaps a last one without, are
  // read back as they were.
  lemma {:induction false} LinesAreReadBack(lines: seq<string>, last: string)
    requires (forall i | 0 <= i < |lines| :: OneLine(lines[i])) && OneLine(last)
    ensures LinesOf(Terminated(lines) + last) == lines + if last == "" then [] else [last]
  {
    hide LineEnd, AfterLine, OneLine;
    if lines == [] {
      assert Terminated(lines) + last == last;
      if last != "" { OnlyLine(last); }
      assert last == "" ==> LinesOf(last) == [];
    } else {
      var rest := Terminated(lines[1..]) + last;
      LinesAreReadBack(lines[1..], last);
      assert Terminated(lines) + last == lines[0] + "\n" + rest;
      FirstLine(lines[0], rest);
      hide Terminated;
    }
  }

  // Every file is such a text, so LinesAreReadBack is about all files.
  lemma {:induction false} EveryFileIsLines(s: string) returns (lines: seq<string>, last: string)
    ensures (forall i | 0 <= i < |lines| :: OneLine(lines[i])) && OneLine(last)
    ensures s == Terminated(lines) + last
    decreases |s|
  {
    var k := LineEnd(s);
    if k == |s| {
      lines, last := [], s;
    } else {
      var more, end := EveryFileIsLines(AfterLine(s));
      lines, last := [s[..k]] + more, end;
      assert s == s[..k] + "\n" + AfterLine(s);
      assert lines[1..] == more;
    }
  }

  // ------------------------------------------------------------------ the file

  class File {
    const content: string
    var pos: nat
    var eof: bool

    constructor (content: string)
      ensures this.content == content && pos == 0 && !eof
    {
      this.content := content;
      pos := 0;
      eof := false;
    }

    // Reads some of the remaining bytes, at least one if there is one and at
    // most max. The end-of-file mark is set only at the end.
    method Read(buf: array<char>, max: nat) returns (n: nat)
      requires pos <= |content| && 0 < max <= buf.Length
      modifies this, buf
      ensures n <= max && pos == old(pos) + n <= |content|
      ensures n == 0 <==> old(pos) == |content|
      ensures buf[..n] == content[old(pos)..pos]
      ensures eof ==> pos == |content|
    {
      var rest := |content| - pos;
      n :| 0 <= n <= max && n <= rest && (n == 0 ==> rest == 0);
      forall i | 0 <= i < n { buf[i] := content[pos + i]; }
      pos := pos + n;
      eof := pos == |content| && n < max;
    }

    method Seek(to: nat)
      requires to <= |content|
      modifies this
      ensures pos == to && !eof
    {
      pos := to;
      eof := false;
    }
  }

  // The gathered text after the part of the buffer from pos to i is added; the
  // buffer holds the file from base on.
  lemma Gathered(s: string, buf: seq<char>, base: nat, from: nat, pos: nat, i: nat)
    requires base + |buf| <= |s| && buf == s[base..base + |buf|] && pos <= i <= |buf| && from <= base + pos
    requires OneLine(s[from..base + pos]) && forall k | pos <= k < i :: buf[k] != '\n'
    ensures s[from..base + pos] + buf[pos..i] == s[from..base + i] && OneLine(s[from..base + i])
    ensures i < |buf| ==> s[base + i] == buf[i]
  {
    assert forall k | 0 <= k < |buf| :: buf[k] == s[base + k];
    var part := s[base + pos..base + i];
    assert buf[pos..i] == part;
    forall k | 0 <= k < |part| ensures part[k] != '\n' { assert part[k] == buf[pos + k]; }
    assert s[from..base + i] == s[from..base + pos] + part;
  }

  lemma PartOf<T>(all: seq<T>, length: nat, pos: nat, i: nat)
    requires pos <= i <= length <= |all|
    ensures all[..length][pos..i] == all[pos..i] && forall k | 0 <= k < length :: all[..length][k] == all[k]
  {
  }

  lemma LineFound(s: string, from: nat, mid: nat)
    requires from <= mid < |s| && OneLine(s[from..mid]) && s[mid] == '\n'
    ensures s[from..] != "" && s[from..][..LineEnd(s[from..])] == s[from..mid] && AfterLine(s[from..]) == s[mid + 1..]
  {
    assert s[from..] == s[from..mid] + "\n" + s[mid + 1..];
    FirstLine(s[from..mid], s[mid + 1..]);
  }

  lemma LastLine(s: string, from: nat)
    requires from <= |s| && OneLine(s[from..|s|])
    ensures s[from..] == s[from..|s|] && s[from..][..LineEnd(s[from..])] == s[from..] && AfterLine(s[from..]) == ""
  {
    var t := s[from..];
    assert forall i | 0 <= i < |t| :: t[i] in t;
  }

  datatype Text = Null | Chars(s: string)

  class LineReader {
    const file: File
    const buf: array<char>
    var bufLength: nat
    var pos: nat
    var readSize: nat
    var currentLine: Text

    // The buffer holds the part of the file that was read last.
    ghost predicate Valid()
      reads this, file, buf
    {
      && buf.Length == BUF_SIZE && pos <= bufLength <= buf.Length
      && bufLength <= readSize == file.pos <= |file.content|
      && buf[..bufLength] == file.content[readSize - bufLength..readSize]
      && (file.eof ==> readSize == |file.content|)
    }

    ghost function Consumed(): nat
      requires Valid()
      reads this, file, buf
    {
      readSize - bufLength + pos
    }

    // What is still to be given out.
    ghost function Rest(): string
      requires Valid()
      reads this, file, buf
    {
      file.content[Consumed()..]
    }

    constructor (file: File)
      modifies file
      ensures Valid() && this.file == file && fresh(buf) && currentLine == Null && Rest() == file.content
    {
      this.file := file;
      buf := new char[BUF_SIZE];
      bufLength, pos, readSize := 0, 0, 0;
      currentLine := Null;
      new;
      file.Seek(0);
    }

    function Pending(): string
      reads this
    {
      if currentLine.Null? then "" else currentLine.s
    }

    method GetCurrentLine() returns (line: Text)
      modifies this`currentLine
      ensures line == old(currentLine) && currentLine == Null
      ensures old(Valid()) ==> Valid()
    {
      line := currentLine;
      currentLine := Null;
    }

    method AppendCurrentLine(part: string)
      modifies this`currentLine
      ensures old(Valid()) ==> Valid()
      ensures currentLine == Chars(old(Pending()) + part)
    {
      currentLine := Chars(Pending() + part);
    }

    method Refill()
      requires Valid() && pos >= bufLength && readSize < |file.content|
      modifies this`bufLength, this`pos, this`readSize, file, buf
      ensures Valid() && Consumed() == old(Consumed()) && pos < bufLength
      ensures forall from: nat :: old(Gathering(from)) ==> Gathering(from)
    {
      var toRead := BUF_SIZE;
      if toRead > |file.content| { toRead := |file.content|; }
      bufLength := file.Read(buf, toRead);
      readSize := readSize + bufLength;
      pos := 0;
    }

    // The position of the next newline in the buffer, or its end.
    method FindNewline() returns (i: nat)
      requires Valid()
      ensures pos <= i <= bufLength && forall k | pos <= k < i :: buf[k] != '\n'
      ensures i < bufLength ==> buf[i] == '\n'
    {
      i := pos;
      while i < bufLength && buf[i] != '\n'
        invariant pos <= i <= bufLength && forall k | pos <= k < i :: buf[k] != '\n'
      {
        i := i + 1;
      }
    }

    // The text gathered since position from, which has no newline.
    ghost predicate Gathering(from: nat)
      requires Valid()
      reads this, file, buf
    {
      && from <= Consumed() && OneLine(file.content[from..Consumed()])
      && currentLine == if Consumed() == from then Null else Chars(file.content[from..Consumed()])
    }

    // Looks for a newline in what the buffer still holds; gathers what comes
    // before it, or everything.
    method Scan(ghost from: nat) returns (found: bool)
      requires Valid() && pos < bufLength && Gathering(from)
      modifies this`pos, this`currentLine
      ensures Valid() && Consumed() > old(Consumed())
      ensures found ==> from < Consumed() && EndsLine(from, Consumed() - 1)
      ensures !found ==> pos == bufLength && Gathering(from)
    {
      hide OneLine, Valid;
      var i := FindNewline();
      Basics();
      GatherTo(from, i);
      AppendCurrentLine(buf[pos..i]);
      found := i < bufLength;
      Advance(if found then i + 1 else bufLength);
    }

    // The gathered text goes on with the buffer from pos to i.
    lemma GatherTo(from: nat, i: nat)
      requires Valid() && Gathering(from) && pos <= i <= bufLength && forall k | pos <= k < i :: buf[k] != '\n'
      ensures var end := Consumed() + i - pos;
        && from <= end <= |file.content|
        && Pending() + buf[pos..i] == file.content[from..end] && OneLine(file.content[from..end])
        && (i < bufLength ==> end < |file.content| && file.content[end] == buf[i])
    {
      var base, filled := readSize - bufLength, buf[..bufLength];
      PendingIsGathered(from);
      hide OneLine, Pending;
      PartOf(buf[..], bufLength, pos, i);
      Gathered(file.content, filled, base, from, pos, i);
    }

    lemma PendingIsGathered(from: nat)
      requires Valid() && Gathering(from)
      ensures from <= Consumed() && Pending() == file.content[from..Consumed()]
    {
      hide OneLine;
      assert Consumed() == from ==> file.content[from..from] == "";
    }

    lemma Basics()
      requires Valid()
      ensures pos <= bufLength <= buf.Length && bufLength <= readSize <= |file.content|
      ensures buf[..bufLength] == file.content[readSize - bufLength..readSize]
    {
    }

    method Advance(to: nat)
      requires Valid() && pos <= to <= bufLength
      modifies this`pos
      ensures Valid() && pos == to
    {
      pos := to;
    }

    // The current line is the text from position from to a newline at end.
    ghost predicate EndsLine(from: nat, end: nat)
      reads this, file
    {
      && from <= end < |file.content| && file.content[end] == '\n'
      && OneLine(file.content[from..end]) && currentLine == Chars(file.content[from..end])
    }

    method ReadLine() returns (line: Text)
      requires Valid() && currentLine == Null
      modifies this`bufLength, this`pos, this`readSize, this`currentLine, file, buf
      ensures Valid() && currentLine == Null
      ensures old(Rest()) == "" ==> line == Null && Rest() == ""
      ensures old(Rest()) != "" ==> line == Chars(old(Rest())[..LineEnd(old(Rest()))])
      ensures old(Rest()) != "" ==> Rest() == AfterLine(old(Rest()))
    {
      ghost var from := Consumed();
      NothingGathered(from);
      hide OneLine, LineEnd, AfterLine, Valid, Gathering, EndsLine;
      while true
        invariant Valid() && Gathering(from)
        decreases |file.content| - Consumed(), bufLength - pos == 0
      {
        if pos >= bufLength {
          if readSize >= |file.content| || file.eof {
            AtTheEnd(from);
            line := GetCurrentLine();
            return;
          }
          Refill();
        }
        var found := Scan(from);
        if found {
          AtALineEnd(from);
          line := GetCurrentLine();
          return;
        }
      }
    }

    // Nothing is left to read: the gathered text is the rest of the file.
    lemma AtTheEnd(from: nat)
      requires Valid() && Gathering(from) && pos >= bufLength && (readSize >= |file.content| || file.eof)
      ensures from <= |file.content| && Rest() == ""
      ensures var rest := file.content[from..];
        AfterLine(rest) == "" && currentLine == if rest == "" then Null else Chars(rest[..LineEnd(rest)])
    {
      LastLine(file.content, from);
      hide OneLine, LineEnd;
    }

    lemma AtALineEnd(from: nat)
      requires Valid() && from < Consumed() && EndsLine(from, Consumed() - 1)
      ensures var rest := file.content[from..];
        rest != "" && currentLine == Chars(rest[..LineEnd(rest)]) && Rest() == AfterLine(rest)
    {
      LineFound(file.content, from, Consumed() - 1);
      hide OneLine, LineEnd, AfterLine;
    }

    lemma NothingGathered(from: nat)
      requires Valid() && currentLine == Null && from == Consumed()
      ensures Gathering(from)
    {
    }

    method Reset()
      requires Valid()
      modifies this`bufLength, this`pos, this`readSize, this`currentLine, file
      ensures Valid() && currentLine == Null && Rest() == file.content
    {
      currentLine := Null;
      file.Seek(0);
      pos, bufLength, readSize := 0, 0, 0;
    }
  }
}
