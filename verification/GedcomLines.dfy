/** The GEDCOM 7.0 line printer and a reader for its output (section 1.3, Lines, of the FamilySearch specification). */
module GedcomLines {
  import opened Texts

  datatype Payload = Text(text: string) | Pointer(target: string)

  datatype Line = Line(level: nat, xref: string, tag: string, payload: Payload)

  // One physical line: what stands between two line ends.
  datatype Raw = Raw(level: nat, xref: string, tag: string, value: string)

  const EOL := "\r\n"
  const CONT := "CONT"

  // ---- Cleaning ----

  predicate Control(c: char) {
    c as int < 0x20 || 0x7f <= c as int <= 0x9f
  }

  predicate Dropped(c: char) {
    (Control(c) && c != '\n' && c != '\t') || c as int == 0xfffe || c as int == 0xffff
  }

  function ReplaceCrLf(s: string): string {
    if s == "" then ""
    else if |s| >= 2 && s[0] == '\r' && s[1] == '\n' then "\n" + ReplaceCrLf(s[2..])
    else [s[0]] + ReplaceCrLf(s[1..])
  }

  function ReplaceCr(s: string): string {
    if s == "" then "" else [if s[0] == '\r' then '\n' else s[0]] + ReplaceCr(s[1..])
  }

  function Strip(s: string): string {
    if s == "" then "" else (if Dropped(s[0]) then "" else [s[0]]) + Strip(s[1..])
  }

  function CleanText(s: string): string {
    Strip(ReplaceCr(ReplaceCrLf(s)))
  }

  predicate Clean(s: string) {
    forall c :: c in s ==> !Dropped(c)
  }

  lemma {:induction false} StripIsClean(s: string)
    ensures Clean(Strip(s))
    ensures Clean(s) ==> Strip(s) == s
  {
    if s != "" {
      StripIsClean(s[1..]);
      assert s == [s[0]] + s[1..];
      assert Clean(s) ==> Clean(s[1..]) && !Dropped(s[0]);
    }
  }

  lemma {:induction false} ReplacementsKeepClean(s: string)
    requires '\r' !in s
    ensures ReplaceCrLf(s) == s && ReplaceCr(s) == s
  {
    if s != "" {
      ReplacementsKeepClean(s[1..]);
      assert s[0] in s && s == [s[0]] + s[1..];
    }
  }

  lemma CleanIsFixed(s: string)
    requires Clean(s)
    ensures CleanText(s) == s
  {
    assert Dropped('\r');
    ReplacementsKeepClean(s);
    StripIsClean(s);
  }

  // Cleaned text holds no carriage return and no control character but line feeds and tabs, and only such text
  // is left alone. So cleaning twice is cleaning once.
  lemma CleanTextFixes(s: string)
    ensures Clean(CleanText(s)) && '\r' !in CleanText(s)
    ensures CleanText(s) == s <==> Clean(s)
    ensures CleanText(CleanText(s)) == CleanText(s)
  {
    var cleaned := CleanText(s);
    StripIsClean(ReplaceCr(ReplaceCrLf(s)));
    assert Dropped('\r');
    CleanIsFixed(cleaned);
    if Clean(s) {
      CleanIsFixed(s);
    }
  }

  // ---- Text on one line ----

  predicate Space(c: char) {
    var u := c as int;
    || c == ' ' || 0x9 <= u <= 0xd || u == 0x85 || u == 0xa0 || u == 0x1680 || 0x2000 <= u <= 0x200a
    || u == 0x2028 || u == 0x2029 || u == 0x202f || u == 0x205f || u == 0x3000
  }

  function Blanked(s: string): string {
    if s == "" then "" else
      [if Control(s[0]) || s[0] as int == 0xfffe || s[0] as int == 0xffff then ' ' else s[0]] + Blanked(s[1..])
  }

  function WordLength(s: string): (k: nat)
    ensures k <= |s| && (s != "" && !Space(s[0]) ==> k > 0) && (k < |s| ==> Space(s[k]))
    ensures forall c :: c in s[..k] ==> !Space(c)
  {
    if s == "" || Space(s[0]) then 0 else
      var k := WordLength(s[1..]) + 1;
      assert s[..k] == [s[0]] + s[1..][..k - 1];
      k
  }

  // The words of s, one blank between them.
  function JoinWords(s: string): string
    decreases |s|
  {
    if s == "" then ""
    else if Space(s[0]) then JoinWords(s[1..])
    else
      var k := WordLength(s);
      var rest := JoinWords(s[k..]);
      if rest == "" then s[..k] else s[..k] + " " + rest
  }

  function CleanInline(s: string): string {
    JoinWords(Blanked(s))
  }

  lemma {:induction false} BlankedIsClean(s: string)
    ensures forall c :: c in Blanked(s) ==> !Dropped(c) && c != '\n' && c != '\t'
  {
    if s != "" {
      BlankedIsClean(s[1..]);
    }
  }

  lemma {:induction false} JoinedCharacters(s: string)
    ensures forall c :: c in JoinWords(s) ==> c == ' ' || (c in s && !Space(c))
    decreases |s|
  {
    if s != "" {
      if Space(s[0]) {
        JoinedCharacters(s[1..]);
      } else {
        var k := WordLength(s);
        JoinedCharacters(s[k..]);
        assert forall c :: c in s[..k] ==> c in s && !Space(c);
      }
    }
  }

  // The maximal runs of characters that are not blank.
  function Words(s: string): seq<string>
    decreases |s|
  {
    if s == "" then []
    else if Space(s[0]) then Words(s[1..])
    else [s[..WordLength(s)]] + Words(s[WordLength(s)..])
  }

  lemma {:induction false} WordInFront(w: string, t: string)
    requires (forall c :: c in w ==> !Space(c)) && (t == "" || Space(t[0]))
    ensures WordLength(w + t) == |w|
  {
    if w == "" {
      assert w + t == t;
    } else {
      assert (w + t)[0] == w[0] && w[0] in w;
      assert (w + t)[1..] == w[1..] + t;
      WordInFront(w[1..], t);
    }
  }

  // Joining keeps the words and their order.
  lemma {:induction false} JoinKeepsWords(s: string)
    ensures Words(JoinWords(s)) == Words(s)
    decreases |s|
  {
    if s == "" {
    } else if Space(s[0]) {
      JoinKeepsWords(s[1..]);
    } else {
      var k := WordLength(s);
      var w, rest := s[..k], JoinWords(s[k..]);
      JoinKeepsWords(s[k..]);
      assert w[0] == s[0];
      if rest == "" {
        WordInFront(w, "");
        assert w + "" == w && w[..k] == w && w[k..] == "";
      } else {
        var tail := " " + rest;
        WordInFront(w, tail);
        assert s[..k] + " " + rest == w + tail;
        assert (w + tail)[..k] == w && (w + tail)[k..] == tail && tail[1..] == rest;
      }
    }
  }

  // Inline text is clean text on a single line, and no blank but the plain one is left in it.
  lemma CleanInlineIsClean(s: string)
    ensures Clean(CleanInline(s)) && '\n' !in CleanInline(s)
    ensures forall c :: c in CleanInline(s) && Space(c) ==> c == ' '
    ensures Words(CleanInline(s)) == Words(Blanked(s))
  {
    JoinKeepsWords(Blanked(s));
    BlankedIsClean(s);
    JoinedCharacters(Blanked(s));
  }

  // ---- Values ----

  function EscapeLineString(s: string): string {
    if s != "" && s[0] == '@' then "@" + s else s
  }

  function PointerText(xref: string): string {
    "@" + xref + "@"
  }

  // A line value that starts with one @ is a pointer, one that starts with two is text.
  function ReadValue(v: string): Payload {
    if |v| >= 2 && v[0] == '@' && v[1] != '@' then Pointer(v[1..|v| - 1])
    else if |v| >= 2 && v[0] == '@' then Text(v[1..])
    else Text(v)
  }

  // Whatever a text is, its escaped form reads back as that text and never as a pointer.
  lemma EscapedReadsBack(s: string)
    ensures ReadValue(EscapeLineString(s)) == Text(s)
  {
  }

  lemma PointerReadsBack(xref: string)
    requires xref != "" && '@' !in xref
    ensures ReadValue(PointerText(xref)) == Pointer(xref)
  {
    assert xref[0] in xref;
    var v := PointerText(xref);
    assert v[1] == xref[0];
    assert v[1..|v| - 1] == xref;
  }

  // ---- Numbers ----

  function DigitChar(d: nat): char
    requires d < 10
  {
    "0123456789"[d]
  }

  function Digits(n: nat): string {
    if n < 10 then [DigitChar(n)] else Digits(n / 10) + [DigitChar(n % 10)]
  }

  predicate IsDigit(c: char) {
    '0' <= c <= '9'
  }

  function Number(s: string): nat
    requires forall c :: c in s ==> IsDigit(c)
  {
    if s == "" then 0 else
      assert IsDigit(s[|s| - 1]);
      10 * Number(s[..|s| - 1]) + (s[|s| - 1] as int - '0' as int)
  }

  lemma {:induction false} DigitsReadBack(n: nat)
    ensures Digits(n) != "" && (forall c :: c in Digits(n) ==> IsDigit(c)) && Number(Digits(n)) == n
  {
    if n >= 10 {
      DigitsReadBack(n / 10);
      assert Digits(n)[..|Digits(n)| - 1] == Digits(n / 10);
    }
  }

  // ---- Physical lines ----

  function XRefText(xref: string): string {
    if xref == "" then "" else " " + PointerText(xref)
  }

  function ValueText(value: string): string {
    if value == "" then "" else " " + value
  }

  function PrintRaw(r: Raw): string {
    Digits(r.level) + XRefText(r.xref) + " " + r.tag + ValueText(r.value)
  }

  ghost predicate GoodXRef(xref: string) {
    '@' !in xref && '\r' !in xref
  }

  ghost predicate GoodTag(tag: string) {
    tag != "" && tag[0] != '@' && ' ' !in tag && '\r' !in tag
  }

  ghost predicate GoodRaw(r: Raw) {
    GoodXRef(r.xref) && GoodTag(r.tag) && '\r' !in r.value
  }

  predicate AllDigits(s: string) {
    forall c :: c in s ==> IsDigit(c)
  }

  // What follows the level and its space: an optional record name, the tag and the value.
  function ReadTagged(level: nat, xref: string, s: string): Option<Raw> {
    var k := IndexOf(s, ' ');
    if k == |s| then Some(Raw(level, xref, s, "")) else Some(Raw(level, xref, s[..k], s[k + 1..]))
  }

  function ReadAfterLevel(level: nat, rest: string): Option<Raw> {
    if rest == "" || rest[0] != '@' then ReadTagged(level, "", rest) else
    var m := IndexOf(rest[1..], '@');
    if m + 2 >= |rest| || rest[m + 2] != ' ' then None else ReadTagged(level, rest[1..m + 1], rest[m + 3..])
  }

  function ReadRaw(s: string): Option<Raw> {
    var k := IndexOf(s, ' ');
    if k == 0 || k == |s| || !AllDigits(s[..k]) then None else
    ReadAfterLevel(Number(s[..k]), s[k + 1..])
  }

  lemma TaggedReadsBack(level: nat, xref: string, tag: string, value: string)
    requires GoodTag(tag)
    ensures ReadTagged(level, xref, tag + ValueText(value)) == Some(Raw(level, xref, tag, value))
  {
    IndexAfter(tag, ' ', value);
    var s := tag + ValueText(value);
    if value == "" {
      assert s == tag;
    } else {
      assert s == tag + [' '] + value;
      assert s[..|tag|] == tag && s[|tag| + 1..] == value;
    }
  }

  lemma Regroup(digits: string, name: string, tag: string, value: string)
    ensures digits + (" " + name) + " " + tag + value == digits + [' '] + (name + " " + (tag + value))
    ensures digits + "" + " " + tag + value == digits + [' '] + (tag + value)
  {
  }

  // Everything after the level.
  function AfterLevel(r: Raw): string {
    if r.xref == "" then r.tag + ValueText(r.value) else PointerText(r.xref) + " " + (r.tag + ValueText(r.value))
  }

  lemma NamedReadsBack(xref: string, tagged: string)
    requires GoodXRef(xref) && tagged != ""
    ensures var rest := PointerText(xref) + " " + tagged;
      var m := IndexOf(rest[1..], '@');
      m == |xref| && rest[0] == '@' && rest[m + 2] == ' ' && rest[1..m + 1] == xref && rest[m + 3..] == tagged
  {
    var rest := PointerText(xref) + " " + tagged;
    assert rest[1..] == xref + ['@'] + (" " + tagged);
    IndexAfter(xref, '@', " " + tagged);
  }

  lemma AfterLevelReadsBack(r: Raw)
    requires GoodRaw(r)
    ensures ReadAfterLevel(r.level, AfterLevel(r)) == Some(r)
  {
    TaggedReadsBack(r.level, r.xref, r.tag, r.value);
    if r.xref != "" {
      NamedReadsBack(r.xref, r.tag + ValueText(r.value));
    }
  }

  lemma LevelReadsBack(s: string, digits: string, level: nat, rest: string)
    requires s == digits + [' '] + rest && digits == Digits(level)
    ensures ReadRaw(s) == ReadAfterLevel(level, rest)
  {
    DigitsReadBack(level);
    IndexAfter(digits, ' ', rest);
    assert s[..|digits|] == digits && s[|digits| + 1..] == rest;
  }

  lemma RawReadsBack(r: Raw)
    requires GoodRaw(r)
    ensures ReadRaw(PrintRaw(r)) == Some(r)
  {
    Regroup(Digits(r.level), PointerText(r.xref), r.tag, ValueText(r.value));
    LevelReadsBack(PrintRaw(r), Digits(r.level), r.level, AfterLevel(r));
    AfterLevelReadsBack(r);
  }

  // ---- Framing ----

  // The printed items one after the other.
  function Concat<T>(print1: T -> string, items: seq<T>): string {
    if items == [] then "" else print1(items[0]) + Concat(print1, items[1..])
  }

  lemma Regroup3(a: string, b: string, c: string)
    ensures a + (b + c) == a + b + c
  {
  }

  lemma {:induction false} ConcatAppend<T>(print1: T -> string, a: seq<T>, b: seq<T>)
    ensures Concat(print1, a + b) == Concat(print1, a) + Concat(print1, b)
  {
    if a == [] {
      assert a + b == b;
    } else {
      ConcatAppend(print1, a[1..], b);
      assert (a + b)[1..] == a[1..] + b;
      Regroup3(print1(a[0]), Concat(print1, a[1..]), Concat(print1, b));
    }
  }

  lemma ConcatOne<T>(print1: T -> string, item: T)
    ensures Concat(print1, [item]) == print1(item)
  {
    assert Concat(print1, [item][1..]) == "";
  }

  function PrintFramed(r: Raw): string {
    PrintRaw(r) + EOL
  }

  function PrintRaws(raws: seq<Raw>): string {
    Concat(PrintFramed, raws)
  }

  function ReadRaws(text: string): Option<seq<Raw>>
    decreases |text|
  {
    if text == "" then Some([]) else
    var k := IndexOf(text, '\r');
    if k + 1 >= |text| || text[k + 1] != '\n' then None else
    match (ReadRaw(text[..k]), ReadRaws(text[k + 2..]))
    case (Some(first), Some(rest)) => Some([first] + rest)
    case _ => None
  }

  lemma NoReturnInRaw(r: Raw)
    requires GoodRaw(r)
    ensures '\r' !in PrintRaw(r)
  {
    DigitsReadBack(r.level);
    assert forall c :: c in PrintRaw(r) ==>
      c in Digits(r.level) || c in XRefText(r.xref) || c == ' ' || c in r.tag || c in ValueText(r.value);
    assert forall c :: c in XRefText(r.xref) ==> c == ' ' || c == '@' || c in r.xref;
    assert forall c :: c in ValueText(r.value) ==> c == ' ' || c in r.value;
  }

  lemma FirstFrame(first: string, rest: string)
    requires '\r' !in first
    ensures var text := first + EOL + rest;
      && IndexOf(text, '\r') == |first| && |first| + 1 < |text| && text[|first| + 1] == '\n'
      && text[..|first|] == first && text[|first| + 2..] == rest
  {
    assert first + EOL + rest == first + ['\r'] + ("\n" + rest);
    IndexAfter(first, '\r', "\n" + rest);
  }

  // The line ends of a printed text are exactly where the printer put them.
  lemma {:induction false} RawsReadBack(raws: seq<Raw>)
    requires forall r :: r in raws ==> GoodRaw(r)
    ensures ReadRaws(PrintRaws(raws)) == Some(raws)
  {
    if raws != [] {
      assert raws[0] in raws && raws == [raws[0]] + raws[1..];
      NoReturnInRaw(raws[0]);
      RawReadsBack(raws[0]);
      RawsReadBack(raws[1..]);
      FirstFrame(PrintRaw(raws[0]), PrintRaws(raws[1..]));
    }
  }

  // ---- Logical lines ----

  function Continuations(level: nat, parts: seq<string>): seq<Raw> {
    if parts == [] then [] else [Raw(level + 1, "", CONT, EscapeLineString(parts[0]))] + Continuations(level, parts[1..])
  }

  // The physical lines of a line: one for a pointer, one for each line of the cleaned text.
  function RawsOf(line: Line): seq<Raw> {
    match line.payload
    case Pointer(target) => [Raw(line.level, line.xref, line.tag, PointerText(target))]
    case Text(text) =>
      var parts := Split(CleanText(text), '\n');
      [Raw(line.level, line.xref, line.tag, EscapeLineString(parts[0]))] + Continuations(line.level, parts[1..])
  }

  function Print(line: Line): string {
    PrintRaws(RawsOf(line))
  }

  // Continuation lines belong to the text before them.
  function Assemble(lines: seq<Line>, raws: seq<Raw>): Option<seq<Line>>
    decreases |raws|
  {
    if raws == [] then Some(lines) else
    var r := raws[0];
    if r.tag != CONT then Assemble(lines + [Line(r.level, r.xref, r.tag, ReadValue(r.value))], raws[1..])
    else if lines == [] || !lines[|lines| - 1].payload.Text? || !ReadValue(r.value).Text? then None
    else
      var last := lines[|lines| - 1];
      if r.level != last.level + 1 || r.xref != "" then None else
      var longer := last.(payload := Text(last.payload.text + "\n" + ReadValue(r.value).text));
      Assemble(lines[..|lines| - 1] + [longer], raws[1..])
  }

  // The specification's reader of a sequence of lines.
  function Read(text: string): Option<seq<Line>> {
    match ReadRaws(text)
    case None => None
    case Some(raws) => Assemble([], raws)
  }

  function Cleaned(line: Line): Line {
    match line.payload
    case Pointer(_) => line
    case Text(text) => line.(payload := Text(CleanText(text)))
  }

  ghost predicate GoodLine(line: Line) {
    && GoodXRef(line.xref) && GoodTag(line.tag) && line.tag != CONT
    && (line.payload.Pointer? ==> line.payload.target != "" && GoodXRef(line.payload.target))
  }

  lemma {:induction false} ContinuationsGood(level: nat, parts: seq<string>)
    requires forall p :: p in parts ==> '\r' !in p
    ensures forall r :: r in Continuations(level, parts) ==> GoodRaw(r)
  {
    if parts != [] {
      assert parts[0] in parts;
      ContinuationsGood(level, parts[1..]);
    }
  }

  lemma RawsGood(line: Line)
    requires GoodLine(line)
    ensures forall r :: r in RawsOf(line) ==> GoodRaw(r)
  {
    match line.payload
    case Pointer(_) =>
    case Text(text) =>
      var parts := Split(CleanText(text), '\n');
      CleanTextFixes(text);
      JoinSplit(CleanText(text), '\n');
      assert forall p :: p in parts ==> '\r' !in p;
      assert parts[0] in parts;
      ContinuationsGood(line.level, parts[1..]);
  }

  lemma JoinShift(a: string, b: string, rest: seq<string>)
    ensures Join([a, b] + rest, '\n') == Join([a + "\n" + b] + rest, '\n')
    ensures [a] + ([b] + rest) == [a, b] + rest
  {
    assert ([a, b] + rest)[1..] == [b] + rest;
    assert ([a + "\n" + b] + rest)[1..] == rest;
    assert ([b] + rest)[1..] == rest;
    if rest != [] {
      assert Join([b] + rest, '\n') == b + "\n" + Join(rest, '\n');
    }
  }

  lemma {:induction false} AssembleContinuations(lines: seq<Line>, last: Line, parts: seq<string>, raws: seq<Raw>)
    requires last.payload.Text? && last.tag != CONT
    ensures var joined := last.(payload := Text(Join([last.payload.text] + parts, '\n')));
      Assemble(lines + [last], Continuations(last.level, parts) + raws) == Assemble(lines + [joined], raws)
    decreases |parts|
  {
    if parts == [] {
      assert Continuations(last.level, parts) + raws == raws;
      assert last.(payload := Text(Join([last.payload.text] + parts, '\n'))) == last;
    } else {
      EscapedReadsBack(parts[0]);
      var all := Continuations(last.level, parts) + raws;
      var longer := last.(payload := Text(last.payload.text + "\n" + parts[0]));
      assert all[1..] == Continuations(last.level, parts[1..]) + raws;
      assert (lines + [last])[..|lines|] == lines;
      AssembleContinuations(lines, longer, parts[1..], raws);
      JoinShift(last.payload.text, parts[0], parts[1..]);
    }
  }

  lemma AssembleLine(lines: seq<Line>, line: Line, raws: seq<Raw>)
    requires GoodLine(line)
    ensures Assemble(lines, RawsOf(line) + raws) == Assemble(lines + [Cleaned(line)], raws)
  {
    match line.payload
    case Pointer(target) =>
      PointerReadsBack(target);
      assert (RawsOf(line) + raws)[1..] == raws;
    case Text(text) =>
      var parts := Split(CleanText(text), '\n');
      var first := line.(payload := Text(parts[0]));
      EscapedReadsBack(parts[0]);
      assert (RawsOf(line) + raws)[1..] == Continuations(line.level, parts[1..]) + raws;
      AssembleContinuations(lines, first, parts[1..], raws);
      JoinSplit(CleanText(text), '\n');
      assert [parts[0]] + parts[1..] == parts;
  }

  // ---- Whole documents ----

  function PrintAll(lines: seq<Line>): string {
    Concat(Print, lines)
  }

  function CleanedAll(lines: seq<Line>): seq<Line> {
    seq(|lines|, i requires 0 <= i < |lines| => Cleaned(lines[i]))
  }

  function AllRaws(lines: seq<Line>): seq<Raw> {
    if lines == [] then [] else RawsOf(lines[0]) + AllRaws(lines[1..])
  }

  lemma {:induction false} PrintAllIsRaws(lines: seq<Line>)
    requires forall l :: l in lines ==> GoodLine(l)
    ensures PrintAll(lines) == PrintRaws(AllRaws(lines))
    ensures forall r :: r in AllRaws(lines) ==> GoodRaw(r)
  {
    if lines != [] {
      assert lines[0] in lines;
      RawsGood(lines[0]);
      PrintAllIsRaws(lines[1..]);
      ConcatAppend(PrintFramed, RawsOf(lines[0]), AllRaws(lines[1..]));
    }
  }

  lemma {:induction false} AssembleAll(done: seq<Line>, lines: seq<Line>)
    requires forall l :: l in lines ==> GoodLine(l)
    ensures Assemble(done, AllRaws(lines)) == Some(done + CleanedAll(lines))
    decreases |lines|
  {
    if lines == [] {
      assert done + CleanedAll(lines) == done;
    } else {
      assert lines[0] in lines;
      AssembleLine(done, lines[0], AllRaws(lines[1..]));
      AssembleAll(done + [Cleaned(lines[0])], lines[1..]);
      assert done + [Cleaned(lines[0])] + CleanedAll(lines[1..]) == done + CleanedAll(lines);
    }
  }

  // The reader undoes the printer: every line comes back with its level, name, tag and cleaned text, pointers as
  // pointers and texts as texts, whatever the texts are.
  lemma DocumentReadsBack(lines: seq<Line>)
    requires forall l :: l in lines ==> GoodLine(l)
    ensures Read(PrintAll(lines)) == Some(CleanedAll(lines))
  {
    PrintAllIsRaws(lines);
    RawsReadBack(AllRaws(lines));
    AssembleAll([], lines);
    assert [] + CleanedAll(lines) == CleanedAll(lines);
  }

  // ---- The writer ----

  lemma {:induction false} ContinuationsAppend(level: nat, parts: seq<string>, p: string)
    ensures Continuations(level, parts + [p]) == Continuations(level, parts) + [Raw(level + 1, "", CONT, EscapeLineString(p))]
  {
    if parts != [] {
      ContinuationsAppend(level, parts[1..], p);
      assert (parts + [p])[1..] == parts[1..] + [p];
    }
  }

  lemma ContinuationsStep(level: nat, parts: seq<string>, i: nat)
    requires i < |parts|
    ensures Continuations(level, parts[..i + 1]) ==
            Continuations(level, parts[..i]) + [Raw(level + 1, "", CONT, EscapeLineString(parts[i]))]
  {
    ContinuationsAppend(level, parts[..i], parts[i]);
    assert parts[..i + 1] == parts[..i] + [parts[i]];
  }

  lemma RawsStep(was: string, raws: seq<Raw>, r: Raw)
    ensures was + PrintRaws(raws + [r]) == was + PrintRaws(raws) + PrintFramed(r)
  {
    ConcatAppend(PrintFramed, raws, [r]);
    ConcatOne(PrintFramed, r);
    Regroup3(was, PrintRaws(raws), PrintFramed(r));
  }

  lemma RegroupName(was: string, level: nat, xref: string)
    ensures was + (Digits(level) + XRefText(xref)) ==
      if xref == "" then was + Digits(level) else was + Digits(level) + (" " + PointerText(xref))
  {
    Regroup3(was, Digits(level), XRefText(xref));
    assert was + Digits(level) + "" == was + Digits(level);
  }

  lemma RegroupValue(was: string, value: string)
    ensures was + ValueText(value) == if value == "" then was else was + (" " + value)
  {
  }

  lemma RegroupPieces(was: string, name: string, tag: string, value: string)
    ensures was + name + (" " + tag) + value + EOL == was + (name + " " + tag + value + EOL)
  {
  }

  class Writer {
    var buffer: string
    // The lines written so far.
    ghost var lines: seq<Line>

    ghost predicate Valid()
      reads this
    {
      buffer == PrintAll(lines)
    }

    constructor ()
      ensures Valid() && lines == []
    {
      buffer, lines := "", [];
    }

    // One physical line, piece by piece.
    method WriteRaw(level: nat, xref: string, tag: string, value: string)
      modifies this`buffer
      ensures buffer == old(buffer) + PrintFramed(Raw(level, xref, tag, value))
    {
      ghost var was := buffer;
      buffer := buffer + Digits(level);
      if xref != "" {
        buffer := buffer + (" " + PointerText(xref));
      }
      RegroupName(was, level, xref);
      ghost var named := buffer;
      buffer := buffer + (" " + tag);
      if value != "" {
        buffer := buffer + (" " + value);
      }
      RegroupValue(named + (" " + tag), value);
      RegroupPieces(was, Digits(level) + XRefText(xref), tag, ValueText(value));
      buffer := buffer + EOL;
    }

    // The lines after a text's first.
    method WriteContinuations(level: nat, parts: seq<string>)
      modifies this`buffer
      ensures buffer == old(buffer) + PrintRaws(Continuations(level, parts))
    {
      for i := 0 to |parts|
        invariant buffer == old(buffer) + PrintRaws(Continuations(level, parts[..i]))
      {
        WriteRaw(level + 1, "", CONT, EscapeLineString(parts[i]));
        ContinuationsStep(level, parts, i);
        RawsStep(old(buffer), Continuations(level, parts[..i]), Raw(level + 1, "", CONT, EscapeLineString(parts[i])));
      }
      assert parts[..|parts|] == parts;
    }

    ghost method Append(line: Line)
      requires buffer == PrintAll(lines) + Print(line)
      modifies this`lines
      ensures Valid() && lines == old(lines) + [line]
    {
      ConcatAppend(Print, lines, [line]);
      ConcatOne(Print, line);
      lines := lines + [line];
    }

    method WriteLine(level: nat, xref: string, tag: string, payload: string)
      requires Valid()
      modifies this
      ensures Valid() && lines == old(lines) + [Line(level, xref, tag, Text(payload))]
    {
      ghost var line := Line(level, xref, tag, Text(payload));
      var parts := Split(CleanText(payload), '\n');
      ghost var first := Raw(level, xref, tag, EscapeLineString(parts[0]));
      WriteRaw(level, xref, tag, EscapeLineString(parts[0]));
      WriteContinuations(level, parts[1..]);
      ghost var rest := Continuations(level, parts[1..]);
      ConcatOne(PrintFramed, first);
      ConcatAppend(PrintFramed, [first], rest);
      Regroup3(old(buffer), PrintFramed(first), PrintRaws(rest));
      assert Print(line) == PrintFramed(first) + PrintRaws(rest);
      Append(line);
    }

    method WritePointer(level: nat, tag: string, target: string)
      requires Valid()
      modifies this
      ensures Valid() && lines == old(lines) + [Line(level, "", tag, Pointer(target))]
    {
      ghost var line := Line(level, "", tag, Pointer(target));
      WriteRaw(level, "", tag, PointerText(target));
      ConcatOne(PrintFramed, Raw(level, "", tag, PointerText(target)));
      Append(line);
    }
  }
}
