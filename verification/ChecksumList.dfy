/** The checksum list of a backup: one line per file, printed by the exporter and parsed by the restorer. */
module ChecksumList {
  import opened Texts

  const CHECKSUMS := "checksums.sha256"

  datatype Line = Line(name: string, sum: string)

  // Relative paths that cleaning leaves alone and that start with neither "/" nor "../".
  predicate SafePath(path: string) {
    && '\\' !in path
    && (path == ".." || forall segment :: segment in Split(path, '/') ==> segment != "" && segment != "." && segment != "..")
  }

  predicate LowerHexadecimal(c: char) {
    '0' <= c <= '9' || 'a' <= c <= 'f'
  }

  predicate ValidChecksum(sum: string) {
    |sum| == 64 && forall c :: c in sum ==> LowerHexadecimal(c)
  }

  // The first position of two blanks in a row, or |s|.
  function DoubleBlank(s: string): (k: nat)
    ensures k <= |s| && (k < |s| ==> k + 1 < |s| && s[k] == ' ' && s[k + 1] == ' ')
  {
    if |s| < 2 then |s| else if s[0] == ' ' && s[1] == ' ' then 0 else DoubleBlank(s[1..]) + 1
  }

  function ReadLine(s: string): Option<Line> {
    var k := DoubleBlank(s);
    if k == |s| || !ValidChecksum(s[..k]) || !SafePath(s[k + 2..]) || s[k + 2..] == CHECKSUMS then None
    else Some(Line(s[k + 2..], s[..k]))
  }

  // The list as a map; a malformed line or a repeated name spoils it.
  function ReadLines(lines: seq<string>): Option<map<string, string>> {
    if lines == [] then Some(map[]) else
    match (ReadLines(lines[..|lines| - 1]), ReadLine(lines[|lines| - 1]))
    case (Some(sums), Some(line)) => if line.name in sums then None else Some(sums[line.name := line.sum])
    case _ => None
  }

  function WithoutLastNewline(s: string): string {
    if s != "" && s[|s| - 1] == '\n' then s[..|s| - 1] else s
  }

  function Read(body: string): Option<map<string, string>> {
    ReadLines(Split(WithoutLastNewline(body), '\n'))
  }

  // ---- Printing ----

  function PrintLine(line: Line): string {
    line.sum + "  " + line.name
  }

  function PrintLines(lines: seq<Line>): seq<string> {
    seq(|lines|, i requires 0 <= i < |lines| => PrintLine(lines[i]))
  }

  function Print(lines: seq<Line>): string
    requires lines != []
  {
    Join(PrintLines(lines), '\n') + "\n"
  }

  predicate Readable(line: Line) {
    ValidChecksum(line.sum) && SafePath(line.name) && line.name != CHECKSUMS
  }

  predicate GoodLine(line: Line) {
    Readable(line) && '\n' !in line.name
  }

  predicate NamesDistinct(lines: seq<Line>) {
    forall i, j :: 0 <= i < j < |lines| ==> lines[i].name != lines[j].name
  }

  function SumsOf(lines: seq<Line>): map<string, string> {
    if lines == [] then map[] else SumsOf(lines[..|lines| - 1])[lines[|lines| - 1].name := lines[|lines| - 1].sum]
  }

  lemma {:induction false} BlankAfterSum(sum: string, name: string)
    requires forall c :: c in sum ==> LowerHexadecimal(c)
    ensures DoubleBlank(sum + "  " + name) == |sum|
  {
    var s := sum + "  " + name;
    if sum == "" {
      assert s[0] == ' ' && s[1] == ' ';
    } else {
      assert s[0] == sum[0] && sum[0] in sum;
      assert s[1..] == sum[1..] + "  " + name;
      BlankAfterSum(sum[1..], name);
    }
  }

  // A line can be read exactly if it is the printed form of a good name and sum; what is read is that line.
  lemma LineReadsIff(s: string, line: Line)
    ensures ReadLine(s) == Some(line) <==> s == PrintLine(line) && Readable(line)
  {
    if ReadLine(s) == Some(line) {
      var k := DoubleBlank(s);
      assert s == s[..k] + "  " + s[k + 2..];
    }
    if s == PrintLine(line) && Readable(line) {
      BlankAfterSum(line.sum, line.name);
      assert s[..64] == line.sum && s[66..] == line.name;
    }
  }

  lemma {:induction false} NameInSums(lines: seq<Line>, name: string)
    ensures name in SumsOf(lines) <==> exists i :: 0 <= i < |lines| && lines[i].name == name
  {
    if lines != [] {
      var before := lines[..|lines| - 1];
      NameInSums(before, name);
      if i :| 0 <= i < |before| && before[i].name == name {
        assert lines[i].name == name;
      }
    }
  }

  lemma {:induction false} LinesReadBack(lines: seq<Line>)
    requires NamesDistinct(lines) && forall line :: line in lines ==> Readable(line)
    ensures ReadLines(PrintLines(lines)) == Some(SumsOf(lines))
  {
    if lines != [] {
      var before, last := lines[..|lines| - 1], lines[|lines| - 1];
      LinesReadBack(before);
      assert last in lines;
      LineReadsIff(PrintLine(last), last);
      assert PrintLines(lines)[..|lines| - 1] == PrintLines(before);
      NameInSums(before, last.name);
    }
  }

  lemma {:induction false} LinesWereRead(texts: seq<string>) returns (lines: seq<Line>)
    requires ReadLines(texts).Some?
    ensures PrintLines(lines) == texts && NamesDistinct(lines) && forall line :: line in lines ==> Readable(line)
    ensures ReadLines(texts) == Some(SumsOf(lines))
  {
    if texts == [] {
      lines := [];
    } else {
      var before := LinesWereRead(texts[..|texts| - 1]);
      var last := ReadLine(texts[|texts| - 1]).value;
      LineReadsIff(texts[|texts| - 1], last);
      NameInSums(before, last.name);
      lines := before + [last];
      assert texts == PrintLines(before) + [texts[|texts| - 1]];
      assert lines[..|lines| - 1] == before;
    }
  }

  // The body lists these lines: each stands on a text line of its own, and no name is repeated.
  ghost predicate Lists(body: string, lines: seq<Line>) {
    && PrintLines(lines) == Split(WithoutLastNewline(body), '\n')
    && NamesDistinct(lines) && forall line :: line in lines ==> Readable(line)
  }

  // Which bodies are accepted, and as what.
  lemma ReadsExactly(body: string)
    ensures Read(body).Some? <==> exists lines :: Lists(body, lines)
    ensures forall lines :: Lists(body, lines) ==> Read(body) == Some(SumsOf(lines))
  {
    if Read(body).Some? {
      var lines := LinesWereRead(Split(WithoutLastNewline(body), '\n'));
      assert Lists(body, lines);
    }
    forall lines | Lists(body, lines) ensures Read(body) == Some(SumsOf(lines)) {
      LinesReadBack(lines);
    }
  }

  lemma {:induction false} Spoiled(lines: seq<string>, i: nat)
    requires i <= |lines| && ReadLines(lines[..i]) == None
    ensures ReadLines(lines) == None
    decreases |lines| - i
  {
    if i == |lines| {
      assert lines[..i] == lines;
    } else {
      assert lines[..i + 1][..i] == lines[..i];
      Spoiled(lines, i + 1);
    }
  }

  method ParseLines(lines: seq<string>) returns (result: Option<map<string, string>>)
    ensures result == ReadLines(lines)
  {
    var sums: map<string, string> := map[];
    for i := 0 to |lines|
      invariant ReadLines(lines[..i]) == Some(sums)
    {
      assert lines[..i + 1][..i] == lines[..i];
      var parsed := ReadLine(lines[i]);
      if parsed == None || parsed.value.name in sums {
        Spoiled(lines, i + 1);
        return None;
      }
      sums := sums[parsed.value.name := parsed.value.sum];
    }
    assert lines[..|lines|] == lines;
    result := Some(sums);
  }

  method ParseChecksums(body: string) returns (result: Option<map<string, string>>)
    ensures result.Some? <==> exists lines :: Lists(body, lines)
    ensures forall lines :: Lists(body, lines) ==> result == Some(SumsOf(lines))
    ensures result == Read(body)
  {
    ReadsExactly(body);
    result := ParseLines(Split(WithoutLastNewline(body), '\n'));
  }

  // The restorer reads from a printed list exactly the sums that were printed.
  lemma ListReadsBack(lines: seq<Line>)
    requires lines != [] && NamesDistinct(lines) && forall line :: line in lines ==> GoodLine(line)
    ensures Read(Print(lines)) == Some(SumsOf(lines))
  {
    forall s | s in PrintLines(lines) ensures '\n' !in s {
      var i :| 0 <= i < |lines| && PrintLines(lines)[i] == s;
      assert lines[i] in lines && GoodLine(lines[i]);
      assert '\n' in lines[i].sum ==> LowerHexadecimal('\n');
    }
    SplitJoin(PrintLines(lines), '\n');
    LinesReadBack(lines);
    assert WithoutLastNewline(Print(lines)) == Join(PrintLines(lines), '\n');
  }
}
