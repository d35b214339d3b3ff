/** GEDCOM records: what the exporter writes for families and persons, and what a reader learns from it. */
module GedcomRecords {
  import opened Graphs
  import opened GedcomFamilies
  import opened GedcomLines
  import opened Texts

  // ---- Names of records ----

  // `compact` prints a UUID in hexadecimal digits, `digest` the SHA-256 digest of a relation family's key.
  datatype Naming = Naming(compact: Uuid -> string, digest: XRef -> string)

  predicate Hexadecimal(c: char) {
    IsDigit(c) || 'A' <= c <= 'F'
  }

  ghost predicate HexadecimalText(s: string) {
    s != "" && forall c :: c in s ==> Hexadecimal(c)
  }

  // Different UUIDs print differently, and digests do not collide.
  ghost predicate GoodNaming(n: Naming) {
    && (forall p :: HexadecimalText(n.compact(p)))
    && (forall p, q :: n.compact(p) == n.compact(q) ==> p == q)
    && (forall x :: HexadecimalText(n.digest(x)))
    && (forall x, y :: n.digest(x) == n.digest(y) ==> x == y)
  }

  function PersonName(n: Naming, p: Uuid): string {
    "I" + n.compact(p)
  }

  function FamilyName(n: Naming, x: XRef): string {
    match x
    case UnionXRef(u, index) => "F" + n.compact(u) + if index > 0 then "_" + Digits(index + 1) else ""
    case RelationXRef(_, _, _, _) => "FREL_" + n.digest(x)
  }

  lemma PersonNamesDiffer(n: Naming, p: Uuid, q: Uuid)
    requires GoodNaming(n)
    ensures PersonName(n, p) == PersonName(n, q) <==> p == q
  {
    assert PersonName(n, p)[1..] == n.compact(p) && PersonName(n, q)[1..] == n.compact(q);
  }

  lemma UnionAndRelationNamesDiffer(n: Naming, x: XRef, y: XRef)
    requires GoodNaming(n) && x.UnionXRef? && y.RelationXRef?
    ensures FamilyName(n, x) != FamilyName(n, y)
  {
    var compact := n.compact(x.unionId);
    assert HexadecimalText(compact);
    assert FamilyName(n, x)[1] == compact[0];
    assert compact[0] in compact;
    assert FamilyName(n, y)[1] == 'R';
  }

  lemma SplitAtUnderscore(head: string, digits: string)
    requires '_' !in head && head != ""
    ensures IndexOf(head, '_') == |head| && head[..|head|] == head
    ensures var a := head + ("_" + digits);
      IndexOf(a, '_') == |head| && |head| < |a| && a[1..|head|] == head[1..] && a[|head| + 1..] == digits
  {
    assert head + ("_" + digits) == head + ['_'] + digits;
    IndexAfter(head, '_', digits);
  }

  // The parts of a union family's name can be told apart: there is no underscore in a printed UUID.
  lemma UnionNameParts(n: Naming, u: Uuid, i: nat)
    requires GoodNaming(n)
    ensures var a := FamilyName(n, UnionXRef(u, i));
      var k := IndexOf(a, '_');
      && k >= 1 && a[1..k] == n.compact(u)
      && (i == 0 <==> k == |a|) && (i > 0 ==> a[k + 1..] == Digits(i + 1))
  {
    var compact := n.compact(u);
    assert HexadecimalText(compact);
    assert '_' in compact ==> Hexadecimal('_');
    assert ("F" + compact)[1..] == compact;
    SplitAtUnderscore("F" + compact, Digits(i + 1));
  }

  lemma UnionNamesDiffer(n: Naming, u: Uuid, i: nat, v: Uuid, j: nat)
    requires GoodNaming(n)
    ensures FamilyName(n, UnionXRef(u, i)) == FamilyName(n, UnionXRef(v, j)) <==> u == v && i == j
  {
    if FamilyName(n, UnionXRef(u, i)) == FamilyName(n, UnionXRef(v, j)) {
      UnionNameParts(n, u, i);
      UnionNameParts(n, v, j);
      assert n.compact(u) == n.compact(v) && (i == 0 <==> j == 0);
      if i > 0 {
        assert Digits(i + 1) == Digits(j + 1);
        DigitsReadBack(i + 1);
        DigitsReadBack(j + 1);
      }
    }
  }

  lemma RelationNamesDiffer(n: Naming, x: XRef, y: XRef)
    requires GoodNaming(n) && x.RelationXRef? && y.RelationXRef?
    ensures FamilyName(n, x) == FamilyName(n, y) <==> x == y
  {
    assert FamilyName(n, x)[5..] == n.digest(x) && FamilyName(n, y)[5..] == n.digest(y);
  }

  // Two families have the same record name only if they are the same.
  lemma FamilyNamesDiffer(n: Naming, x: XRef, y: XRef)
    requires GoodNaming(n)
    ensures FamilyName(n, x) == FamilyName(n, y) <==> x == y
  {
    match (x, y)
    case (UnionXRef(u, i), UnionXRef(v, j)) => UnionNamesDiffer(n, u, i, v, j);
    case (RelationXRef(_, _, _, _), RelationXRef(_, _, _, _)) => RelationNamesDiffer(n, x, y);
    case (UnionXRef(_, _), RelationXRef(_, _, _, _)) => UnionAndRelationNamesDiffer(n, x, y);
    case (RelationXRef(_, _, _, _), UnionXRef(_, _)) => UnionAndRelationNamesDiffer(n, y, x);
  }

  lemma HexadecimalIsGood(s: string)
    requires HexadecimalText(s)
    ensures GoodXRef(s)
  {
    assert '@' in s ==> Hexadecimal('@');
    assert '\r' in s ==> Hexadecimal('\r');
  }

  lemma NamesAreGood(n: Naming, p: Uuid, x: XRef)
    requires GoodNaming(n)
    ensures GoodXRef(PersonName(n, p)) && PersonName(n, p) != ""
    ensures GoodXRef(FamilyName(n, x)) && FamilyName(n, x) != ""
  {
    HexadecimalIsGood(n.compact(p));
    match x
    case UnionXRef(u, index) =>
      HexadecimalIsGood(n.compact(u));
      DigitsReadBack(index + 1);
      HexadecimalIsGood(Digits(index + 1));
    case RelationXRef(_, _, _, _) =>
      HexadecimalIsGood(n.digest(x));
      var prefix := "FREL_";
      assert FamilyName(n, x) == prefix + n.digest(x);
      assert '@' !in prefix && '\r' !in prefix;
  }

  // ---- Such names exist ----

  function ListCode(xs: seq<nat>): string {
    if xs == [] then "" else Digits(xs[0]) + "A" + ListCode(xs[1..])
  }

  lemma {:induction false} ListCodesDiffer(xs: seq<nat>, ys: seq<nat>)
    requires ListCode(xs) == ListCode(ys)
    ensures xs == ys
  {
    if xs != [] && ys != [] {
      DigitsReadBack(xs[0]);
      DigitsReadBack(ys[0]);
      assert 'A' !in Digits(xs[0]) && 'A' !in Digits(ys[0]);
      IndexAfter(Digits(xs[0]), 'A', ListCode(xs[1..]));
      IndexAfter(Digits(ys[0]), 'A', ListCode(ys[1..]));
      var code, k := ListCode(xs), |Digits(xs[0])|;
      assert code[..k] == Digits(xs[0]) && code[..k] == Digits(ys[0]);
      assert code[k + 1..] == ListCode(xs[1..]) && code[k + 1..] == ListCode(ys[1..]);
      ListCodesDiffer(xs[1..], ys[1..]);
      assert xs == [xs[0]] + xs[1..] && ys == [ys[0]] + ys[1..];
    }
  }

  lemma {:induction false} ListCodeHexadecimal(xs: seq<nat>)
    ensures forall c :: c in ListCode(xs) ==> Hexadecimal(c)
  {
    if xs != [] {
      DigitsReadBack(xs[0]);
      ListCodeHexadecimal(xs[1..]);
    }
  }

  function Numbers(x: XRef): seq<nat> {
    match x
    case UnionXRef(u, i) => [0, u, i]
    case RelationXRef(c, t, k, ps) => [1, c, k, |t|] + seq(|t|, i requires 0 <= i < |t| => t[i] as nat) + ps
  }

  lemma NumbersDiffer(x: XRef, y: XRef)
    requires Numbers(x) == Numbers(y)
    ensures x == y
  {
    var a, b := Numbers(x), Numbers(y);
    assert a[0] == b[0];
    if x.RelationXRef? && y.RelationXRef? {
      assert a[1] == b[1] && a[2] == b[2] && a[3] == b[3];
      forall i | 0 <= i < |x.relationType| ensures x.relationType[i] == y.relationType[i] {
        assert a[4 + i] == x.relationType[i] as nat && b[4 + i] == y.relationType[i] as nat;
      }
      assert a[4 + |x.relationType|..] == x.parents && b[4 + |y.relationType|..] == y.parents;
    } else {
      assert x.UnionXRef? && y.UnionXRef? ==> a[1] == b[1] && a[2] == b[2];
    }
  }

  // The assumption on names can be met.
  lemma NamingsExist()
    ensures exists n :: GoodNaming(n)
  {
    var n := Naming(Digits, (x: XRef) => "E" + ListCode(Numbers(x)));
    forall p ensures HexadecimalText(n.compact(p)) {
      DigitsReadBack(p);
    }
    forall p, q | n.compact(p) == n.compact(q) ensures p == q {
      DigitsReadBack(p);
      DigitsReadBack(q);
    }
    forall x ensures HexadecimalText(n.digest(x)) {
      ListCodeHexadecimal(Numbers(x));
    }
    forall x, y | n.digest(x) == n.digest(y) ensures x == y {
      assert n.digest(x)[1..] == ListCode(Numbers(x)) && n.digest(y)[1..] == ListCode(Numbers(y));
      ListCodesDiffer(Numbers(x), Numbers(y));
      NumbersDiffer(x, y);
    }
    assert GoodNaming(n);
  }

  // ---- Pedigrees ----

  function GedcomPedigree(t: string): (string, string) {
    if t == "biological" then ("BIRTH", "")
    else if t == "adoptive" then ("ADOPTED", "")
    else if t == "foster" then ("FOSTER", "")
    else if t == "guardian" then ("OTHER", "Guardian")
    else if t == "step" then ("OTHER", "Step")
    else ("OTHER", "Unknown")
  }

  // The reader's side of the pedigree table.
  function TypeOfPedigree(pedigree: (string, string)): string {
    if pedigree == ("BIRTH", "") then "biological"
    else if pedigree == ("ADOPTED", "") then "adoptive"
    else if pedigree == ("FOSTER", "") then "foster"
    else if pedigree == ("OTHER", "Guardian") then "guardian"
    else if pedigree == ("OTHER", "Step") then "step"
    else "unknown"
  }

  const KNOWN_TYPES := {"biological", "adoptive", "foster", "guardian", "step", "unknown"}

  function Canonical(t: string): string {
    if t in KNOWN_TYPES then t else "unknown"
  }

  // The known types come back as they were; every other type comes back as unknown.
  lemma PedigreeReadsBack(t: string)
    ensures TypeOfPedigree(GedcomPedigree(t)) == Canonical(t)
    ensures TypeOfPedigree(GedcomPedigree(t)) == t <==> t in KNOWN_TYPES
  {
  }

  // ---- A reader ----

  // Partners and children as FAM records list them, spouse and child links as INDI records state them.
  datatype Facts = Facts(partners: set<(string, string)>, children: set<(string, string)>,
                         spouses: set<(string, string)>, childIn: map<(string, string), (string, string)>)

  datatype Reading = Reading(facts: Facts, record: string, kind: string, famc: Option<string>)

  const START := Reading(Facts({}, {}, {}, map[]), "", "", None)

  function ReadFamilyLine(s: Reading, tag: string, target: string): Facts {
    if tag == "HUSB" || tag == "WIFE" then s.facts.(partners := s.facts.partners + {(s.record, target)})
    else if tag == "CHIL" then s.facts.(children := s.facts.children + {(s.record, target)})
    else s.facts
  }

  function Step(s: Reading, line: Line): Reading {
    if line.level == 0 then s.(record := line.xref, kind := line.tag, famc := None)
    else if line.level == 1 && line.payload.Pointer? then
      var target := line.payload.target;
      if s.kind == "FAM" then s.(facts := ReadFamilyLine(s, line.tag, target), famc := None)
      else if s.kind == "INDI" && line.tag == "FAMS" then
        s.(facts := s.facts.(spouses := s.facts.spouses + {(s.record, target)}), famc := None)
      else if s.kind == "INDI" && line.tag == "FAMC" then
        s.(facts := s.facts.(childIn := s.facts.childIn[(s.record, target) := ("", "")]), famc := Some(target))
      else s.(famc := None)
    else if line.level == 1 then s.(famc := None)
    else if s.famc.Some? && line.payload.Text? && (s.record, s.famc.value) in s.facts.childIn then
      var key, text := (s.record, s.famc.value), line.payload.text;
      if line.level == 2 && line.tag == "PEDI" then s.(facts := s.facts.(childIn := s.facts.childIn[key := (text, "")]))
      else if line.level == 3 && line.tag == "PHRASE" then
        s.(facts := s.facts.(childIn := s.facts.childIn[key := (s.facts.childIn[key].0, text)]))
      else s
    else s
  }

  function ReadFrom(s: Reading, lines: seq<Line>): Reading {
    if lines == [] then s else Step(ReadFrom(s, lines[..|lines| - 1]), lines[|lines| - 1])
  }

  function FactsOf(lines: seq<Line>): Facts {
    ReadFrom(START, lines).facts
  }

  lemma {:induction false} ReadAppend(s: Reading, a: seq<Line>, b: seq<Line>)
    ensures ReadFrom(s, a + b) == ReadFrom(ReadFrom(s, a), b)
  {
    if b == [] {
      assert a + b == a;
    } else {
      ReadAppend(s, a, b[..|b| - 1]);
      assert (a + b)[..|a + b| - 1] == a + b[..|b| - 1];
    }
  }

  lemma ReadOne(s: Reading, line: Line)
    ensures ReadFrom(s, [line]) == Step(s, line)
  {
    assert ReadFrom(s, [line][..0]) == s;
  }

  // What a reader concludes: p is a parent of c of type t if some family lists p as partner and c as child, and
  // c's own link to that family states the pedigree.
  ghost predicate Concludes(facts: Facts, p: string, c: string, t: string) {
    exists f :: (f, p) in facts.partners && (f, c) in facts.children && (c, f) in facts.childIn &&
      TypeOfPedigree(facts.childIn[(c, f)]) == t
  }

  // ---- What the lines of a record say ----

  // Lines the printer can print and whose reading survives cleaning.
  ghost predicate Printable(line: Line) {
    && GoodLine(line) && (line.payload.Pointer? ==> line.xref == "")
    && (line.payload.Text? && line.tag in {"PEDI", "PHRASE"} ==> Clean(line.payload.text))
  }

  // Names, events, notes, media and other lines that state no family link.
  ghost predicate Details(lines: seq<Line>) {
    forall l :: l in lines ==> Printable(l) && l.level >= 1 && l.tag !in {"FAMS", "FAMC", "HUSB", "WIFE", "CHIL"}
  }

  // Status and note lines under a child link, and roles under a partner.
  ghost predicate LinkDetails(lines: seq<Line>) {
    forall l :: l in lines ==> Printable(l) && l.level >= 2 && l.tag !in {"PEDI", "PHRASE"}
  }

  lemma {:induction false} DetailsRead(s: Reading, lines: seq<Line>)
    requires Details(lines) && s.famc == None
    ensures ReadFrom(s, lines) == s
  {
    if lines != [] {
      var line := lines[|lines| - 1];
      assert line in lines;
      DetailsRead(s, lines[..|lines| - 1]);
      assert Step(s, line) == s;
    }
  }

  lemma {:induction false} LinkDetailsRead(s: Reading, lines: seq<Line>)
    requires LinkDetails(lines)
    ensures ReadFrom(s, lines) == s
  {
    if lines != [] {
      var line := lines[|lines| - 1];
      assert line in lines;
      LinkDetailsRead(s, lines[..|lines| - 1]);
      assert Step(s, line) == s;
    }
  }

  function WithChildIn(s: Reading, family: string, pedigree: (string, string)): Reading {
    s.(facts := s.facts.(childIn := s.facts.childIn[(s.record, family) := pedigree]), famc := Some(family))
  }

  lemma FamcReads(s: Reading, family: string)
    requires s.kind == "INDI"
    ensures Step(s, Line(1, "", "FAMC", Pointer(family))) == WithChildIn(s, family, ("", ""))
  {
  }

  lemma PediReads(s: Reading, family: string, pedi: string)
    ensures Step(WithChildIn(s, family, ("", "")), Line(2, "", "PEDI", Text(pedi))) == WithChildIn(s, family, (pedi, ""))
  {
    var key := (s.record, family);
    assert s.facts.childIn[key := ("", "")][key := (pedi, "")] == s.facts.childIn[key := (pedi, "")];
  }

  lemma PhraseReads(s: Reading, family: string, pedi: string, phrase: string)
    ensures Step(WithChildIn(s, family, (pedi, "")), Line(3, "", "PHRASE", Text(phrase))) ==
            WithChildIn(s, family, (pedi, phrase))
  {
    var key := (s.record, family);
    assert s.facts.childIn[key := (pedi, "")][key := (pedi, phrase)] == s.facts.childIn[key := (pedi, phrase)];
  }

  function PhraseLines(phrase: string): seq<Line> {
    if phrase == "" then [] else [Line(3, "", "PHRASE", Text(phrase))]
  }

  function ChildLinkLines(family: string, t: string, notes: seq<Line>): seq<Line> {
    [Line(1, "", "FAMC", Pointer(family))] + [Line(2, "", "PEDI", Text(GedcomPedigree(t).0))] +
    PhraseLines(GedcomPedigree(t).1) + notes
  }

  lemma ChildLinkReads(s: Reading, family: string, t: string, notes: seq<Line>)
    requires s.kind == "INDI" && LinkDetails(notes)
    ensures ReadFrom(s, ChildLinkLines(family, t, notes)) == WithChildIn(s, family, GedcomPedigree(t))
  {
    var famc, pedi := Line(1, "", "FAMC", Pointer(family)), Line(2, "", "PEDI", Text(GedcomPedigree(t).0));
    var phrase := PhraseLines(GedcomPedigree(t).1);
    ReadAppend(s, [famc] + [pedi] + phrase, notes);
    ReadAppend(s, [famc] + [pedi], phrase);
    ReadAppend(s, [famc], [pedi]);
    ReadOne(s, famc);
    FamcReads(s, family);
    ReadOne(WithChildIn(s, family, ("", "")), pedi);
    PediReads(s, family, GedcomPedigree(t).0);
    if GedcomPedigree(t).1 != "" {
      ReadOne(WithChildIn(s, family, (GedcomPedigree(t).0, "")), phrase[0]);
      PhraseReads(s, family, GedcomPedigree(t).0, GedcomPedigree(t).1);
    }
    LinkDetailsRead(WithChildIn(s, family, GedcomPedigree(t)), notes);
  }

  // ---- Individuals ----

  function SpouseLines(n: Naming, xs: seq<XRef>): seq<Line> {
    if xs == [] then [] else SpouseLines(n, xs[..|xs| - 1]) + [Line(1, "", "FAMS", Pointer(FamilyName(n, xs[|xs| - 1])))]
  }

  function Members(xs: seq<XRef>): set<XRef> {
    set x | x in xs
  }

  function Pairs(n: Naming, person: string, xs: set<XRef>): set<(string, string)> {
    set x | x in xs :: (person, FamilyName(n, x))
  }

  function WithSpouses(s: Reading, n: Naming, xs: set<XRef>): Reading {
    s.(facts := s.facts.(spouses := s.facts.spouses + Pairs(n, s.record, xs)))
  }

  lemma FamsReads(s: Reading, family: string)
    requires s.kind == "INDI" && s.famc == None
    ensures Step(s, Line(1, "", "FAMS", Pointer(family))) ==
            s.(facts := s.facts.(spouses := s.facts.spouses + {(s.record, family)}))
  {
  }

  lemma {:induction false} SpouseLinesRead(s: Reading, n: Naming, xs: seq<XRef>)
    requires s.kind == "INDI" && s.famc == None
    ensures ReadFrom(s, SpouseLines(n, xs)) == WithSpouses(s, n, Members(xs))
  {
    if xs == [] {
      assert Pairs(n, s.record, {}) == {};
    } else {
      var before, x := xs[..|xs| - 1], xs[|xs| - 1];
      var line := Line(1, "", "FAMS", Pointer(FamilyName(n, x)));
      SpouseLinesRead(s, n, before);
      ReadAppend(s, SpouseLines(n, before), [line]);
      ReadOne(WithSpouses(s, n, Members(before)), line);
      FamsReads(WithSpouses(s, n, Members(before)), FamilyName(n, x));
      assert xs == before + [x];
      assert Members(xs) == Members(before) + {x};
      assert Pairs(n, s.record, Members(xs)) == Pairs(n, s.record, Members(before)) + {(s.record, FamilyName(n, x))};
    }
  }

  function NotesOf(notes: map<XRef, seq<Line>>, x: XRef): seq<Line> {
    if x in notes then notes[x] else []
  }

  function ChildLines(n: Naming, xs: seq<XRef>, asChild: map<XRef, string>, notes: map<XRef, seq<Line>>): seq<Line>
    requires forall x :: x in xs ==> x in asChild
  {
    if xs == [] then [] else
      var x := xs[|xs| - 1];
      ChildLines(n, xs[..|xs| - 1], asChild, notes) + ChildLinkLines(FamilyName(n, x), asChild[x], NotesOf(notes, x))
  }

  type ChildLinks = map<(string, string), (string, string)>

  // The child links of the families in `done` and no others have been added.
  ghost predicate ChildLinksAdded(n: Naming, person: string, before: ChildLinks, after: ChildLinks,
                                  asChild: map<XRef, string>, done: set<XRef>)
    requires done <= asChild.Keys
  {
    && after.Keys == before.Keys + Pairs(n, person, done)
    && (forall x :: x in done ==>
          (person, FamilyName(n, x)) in after && after[(person, FamilyName(n, x))] == GedcomPedigree(asChild[x]))
    && (forall k :: k in before && k !in Pairs(n, person, done) ==> after[k] == before[k])
  }

  lemma ChildLinkAdded(n: Naming, person: string, before: ChildLinks, after: ChildLinks, asChild: map<XRef, string>,
                       done: set<XRef>, x: XRef)
    requires GoodNaming(n) && done <= asChild.Keys && x in asChild && x !in done
    requires ChildLinksAdded(n, person, before, after, asChild, done)
    ensures ChildLinksAdded(n, person, before, after[(person, FamilyName(n, x)) := GedcomPedigree(asChild[x])], asChild, done + {x})
  {
    var key := (person, FamilyName(n, x));
    assert Pairs(n, person, done + {x}) == Pairs(n, person, done) + {key};
    forall y | y in done ensures (person, FamilyName(n, y)) != key {
      FamilyNamesDiffer(n, x, y);
    }
  }

  ghost predicate NoRepeats(xs: seq<XRef>) {
    forall i, j :: 0 <= i < j < |xs| ==> xs[i] != xs[j]
  }

  // After the child links of the families in `done`: same record, those links added, nothing else changed.
  ghost predicate ChildrenRead(n: Naming, s: Reading, after: Reading, asChild: map<XRef, string>, done: set<XRef>)
    requires done <= asChild.Keys
  {
    && after.record == s.record && after.kind == s.kind
    && after.facts == s.facts.(childIn := after.facts.childIn)
    && ChildLinksAdded(n, s.record, s.facts.childIn, after.facts.childIn, asChild, done)
  }

  lemma ChildRead(n: Naming, s: Reading, mid: Reading, asChild: map<XRef, string>, done: set<XRef>, x: XRef)
    requires GoodNaming(n) && done <= asChild.Keys && x in asChild && x !in done
    requires ChildrenRead(n, s, mid, asChild, done)
    ensures ChildrenRead(n, s, WithChildIn(mid, FamilyName(n, x), GedcomPedigree(asChild[x])), asChild, done + {x})
  {
    ChildLinkAdded(n, s.record, s.facts.childIn, mid.facts.childIn, asChild, done, x);
  }

  lemma NextChildRead(s: Reading, n: Naming, lines: seq<Line>, asChild: map<XRef, string>, done: set<XRef>, x: XRef, notes: seq<Line>)
    requires GoodNaming(n) && s.kind == "INDI" && done <= asChild.Keys && x in asChild && x !in done && LinkDetails(notes)
    requires ChildrenRead(n, s, ReadFrom(s, lines), asChild, done)
    ensures ChildrenRead(n, s, ReadFrom(s, lines + ChildLinkLines(FamilyName(n, x), asChild[x], notes)), asChild, done + {x})
  {
    var mid := ReadFrom(s, lines);
    ReadAppend(s, lines, ChildLinkLines(FamilyName(n, x), asChild[x], notes));
    ChildLinkReads(mid, FamilyName(n, x), asChild[x], notes);
    ChildRead(n, s, mid, asChild, done, x);
  }

  lemma {:induction false} ChildLinesRead(s: Reading, n: Naming, xs: seq<XRef>, asChild: map<XRef, string>,
                                          notes: map<XRef, seq<Line>>)
    requires GoodNaming(n) && s.kind == "INDI" && NoRepeats(xs) && forall x :: x in xs ==> x in asChild
    requires forall x :: x in notes ==> LinkDetails(notes[x])
    ensures ChildrenRead(n, s, ReadFrom(s, ChildLines(n, xs, asChild, notes)), asChild, Members(xs))
  {
    if xs == [] {
      assert Pairs(n, s.record, {}) == {};
    } else {
      var before, x := xs[..|xs| - 1], xs[|xs| - 1];
      assert xs == before + [x] && NoRepeats(before);
      assert Members(xs) == Members(before) + {x} && x !in Members(before);
      ChildLinesRead(s, n, before, asChild, notes);
      NextChildRead(s, n, ChildLines(n, before, asChild, notes), asChild, Members(before), x, NotesOf(notes, x));
    }
  }

  // Everything in a person's record besides its family links.
  datatype PersonDetails = PersonDetails(before: seq<Line>, notes: map<XRef, seq<Line>>, after: seq<Line>)

  // Media pointers and titles, which follow the child links.
  ghost predicate MediaDetails(lines: seq<Line>) {
    Details(lines) && forall l :: l in lines ==> l.tag !in {"PEDI", "PHRASE"}
  }

  ghost predicate GoodDetails(d: PersonDetails) {
    Details(d.before) && MediaDetails(d.after) && forall x :: x in d.notes ==> LinkDetails(d.notes[x])
  }

  lemma {:induction false} MediaRead(s: Reading, lines: seq<Line>)
    requires MediaDetails(lines) && s.kind == "INDI"
    ensures ReadFrom(s, lines).facts == s.facts && ReadFrom(s, lines).kind == "INDI"
  {
    if lines != [] {
      assert lines[|lines| - 1] in lines;
      MediaRead(s, lines[..|lines| - 1]);
    }
  }

  function IndividualLines(n: Naming, p: Uuid, d: PersonDetails, xs: seq<XRef>, ys: seq<XRef>, asChild: map<XRef, string>): seq<Line>
    requires forall y :: y in ys ==> y in asChild
  {
    [Line(0, PersonName(n, p), "INDI", Text(""))] + d.before + SpouseLines(n, xs) + ChildLines(n, ys, asChild, d.notes) + d.after
  }

  // The record of a person adds that person's links to the facts and nothing else.
  ghost predicate IndividualAdded(n: Naming, p: Uuid, links: PersonLinks, before: Facts, after: Facts) {
    && after == before.(spouses := before.spouses + Pairs(n, PersonName(n, p), links.asPartner), childIn := after.childIn)
    && ChildLinksAdded(n, PersonName(n, p), before.childIn, after.childIn, links.asChild, links.asChild.Keys)
  }

  lemma IndividualReads(s: Reading, n: Naming, p: Uuid, d: PersonDetails, xs: seq<XRef>, ys: seq<XRef>, links: PersonLinks)
    requires GoodNaming(n) && GoodDetails(d)
    requires Members(xs) == links.asPartner && NoRepeats(ys) && Members(ys) == links.asChild.Keys
    ensures IndividualAdded(n, p, links, s.facts, ReadFrom(s, IndividualLines(n, p, d, xs, ys, links.asChild)).facts)
  {
    var head := Line(0, PersonName(n, p), "INDI", Text(""));
    var spouses, children := SpouseLines(n, xs), ChildLines(n, ys, links.asChild, d.notes);
    var s1 := Reading(s.facts, PersonName(n, p), "INDI", None);
    var s2 := WithSpouses(s1, n, links.asPartner);
    ReadAppend(s, [head] + d.before + spouses + children, d.after);
    ReadAppend(s, [head] + d.before + spouses, children);
    ReadAppend(s, [head] + d.before, spouses);
    ReadAppend(s, [head], d.before);
    ReadOne(s, head);
    DetailsRead(s1, d.before);
    SpouseLinesRead(s1, n, xs);
    ChildLinesRead(s2, n, ys, links.asChild, d.notes);
    MediaRead(ReadFrom(s2, children), d.after);
  }

  // ---- Families ----

  function PartnerTag(f: Family, persons: Persons, k: nat): string
    requires k < |f.partners|
  {
    if k > 0 || (|f.partners| == 1 && Sex(persons, f.partners[0], "female")) then "WIFE" else "HUSB"
  }

  function RoleLines(f: Family, p: Uuid): seq<Line> {
    if p in f.roles && f.roles[p] != "" then [Line(2, "", "PHRASE", Text(f.roles[p]))] else []
  }

  function PartnerLines(n: Naming, f: Family, persons: Persons, k: nat): seq<Line>
    requires k <= |f.partners|
  {
    if k == 0 then [] else
      PartnerLines(n, f, persons, k - 1) +
      [Line(1, "", PartnerTag(f, persons, k - 1), Pointer(PersonName(n, f.partners[k - 1])))] +
      RoleLines(f, f.partners[k - 1])
  }

  function ChilLines(n: Naming, children: seq<Uuid>): seq<Line> {
    if children == [] then [] else
      ChilLines(n, children[..|children| - 1]) + [Line(1, "", "CHIL", Pointer(PersonName(n, children[|children| - 1])))]
  }

  function FamilyLines(n: Naming, f: Family, persons: Persons, children: seq<Uuid>, details: seq<Line>): seq<Line> {
    [Line(0, FamilyName(n, f.xref), "FAM", Text(""))] + PartnerLines(n, f, persons, |f.partners|) +
    ChilLines(n, children) + details
  }

  function Names(n: Naming, family: string, ps: seq<Uuid>): set<(string, string)> {
    set p | p in ps :: (family, PersonName(n, p))
  }

  lemma PartnerReads(s: Reading, tag: string, person: string)
    requires s.kind == "FAM" && s.famc == None && (tag == "HUSB" || tag == "WIFE")
    ensures Step(s, Line(1, "", tag, Pointer(person))) ==
            s.(facts := s.facts.(partners := s.facts.partners + {(s.record, person)}))
  {
  }

  lemma ChilReads(s: Reading, person: string)
    requires s.kind == "FAM" && s.famc == None
    ensures Step(s, Line(1, "", "CHIL", Pointer(person))) ==
            s.(facts := s.facts.(children := s.facts.children + {(s.record, person)}))
  {
  }

  lemma RoleReads(s: Reading, f: Family, p: Uuid)
    requires s.famc == None
    ensures ReadFrom(s, RoleLines(f, p)) == s
  {
    if RoleLines(f, p) != [] {
      ReadOne(s, RoleLines(f, p)[0]);
    }
  }

  function WithPartnerFacts(s: Reading, n: Naming, ps: seq<Uuid>): Reading {
    s.(facts := s.facts.(partners := s.facts.partners + Names(n, s.record, ps)))
  }

  function WithChildFacts(s: Reading, n: Naming, ps: seq<Uuid>): Reading {
    s.(facts := s.facts.(children := s.facts.children + Names(n, s.record, ps)))
  }

  lemma NamesStep(n: Naming, family: string, ps: seq<Uuid>)
    requires ps != []
    ensures Names(n, family, ps) == Names(n, family, ps[..|ps| - 1]) + {(family, PersonName(n, ps[|ps| - 1]))}
  {
    assert ps == ps[..|ps| - 1] + [ps[|ps| - 1]];
  }

  lemma PartnerRead(s: Reading, n: Naming, f: Family, persons: Persons, k: nat)
    requires s.kind == "FAM" && s.famc == None && k < |f.partners|
    ensures ReadFrom(WithPartnerFacts(s, n, f.partners[..k]),
                     [Line(1, "", PartnerTag(f, persons, k), Pointer(PersonName(n, f.partners[k])))]) ==
            WithPartnerFacts(s, n, f.partners[..k + 1])
  {
    var line := Line(1, "", PartnerTag(f, persons, k), Pointer(PersonName(n, f.partners[k])));
    var mid := WithPartnerFacts(s, n, f.partners[..k]);
    ReadOne(mid, line);
    PartnerReads(mid, line.tag, PersonName(n, f.partners[k]));
    assert f.partners[..k + 1][..k] == f.partners[..k];
    NamesStep(n, s.record, f.partners[..k + 1]);
  }

  lemma NextPartnerRead(s: Reading, n: Naming, f: Family, persons: Persons, k: nat, lines: seq<Line>)
    requires s.kind == "FAM" && s.famc == None && k < |f.partners|
    requires ReadFrom(s, lines) == WithPartnerFacts(s, n, f.partners[..k])
    ensures var line := Line(1, "", PartnerTag(f, persons, k), Pointer(PersonName(n, f.partners[k])));
      ReadFrom(s, lines + [line] + RoleLines(f, f.partners[k])) == WithPartnerFacts(s, n, f.partners[..k + 1])
  {
    var line := Line(1, "", PartnerTag(f, persons, k), Pointer(PersonName(n, f.partners[k])));
    ReadAppend(s, lines + [line], RoleLines(f, f.partners[k]));
    ReadAppend(s, lines, [line]);
    PartnerRead(s, n, f, persons, k);
    RoleReads(WithPartnerFacts(s, n, f.partners[..k + 1]), f, f.partners[k]);
  }

  lemma {:induction false} PartnerLinesRead(s: Reading, n: Naming, f: Family, persons: Persons, k: nat)
    requires s.kind == "FAM" && s.famc == None && k <= |f.partners|
    ensures ReadFrom(s, PartnerLines(n, f, persons, k)) == WithPartnerFacts(s, n, f.partners[..k])
  {
    if k == 0 {
      assert Names(n, s.record, f.partners[..0]) == {};
    } else {
      PartnerLinesRead(s, n, f, persons, k - 1);
      NextPartnerRead(s, n, f, persons, k - 1, PartnerLines(n, f, persons, k - 1));
    }
  }

  lemma {:induction false} ChilLinesRead(s: Reading, n: Naming, children: seq<Uuid>)
    requires s.kind == "FAM" && s.famc == None
    ensures ReadFrom(s, ChilLines(n, children)) == WithChildFacts(s, n, children)
  {
    if children == [] {
      assert Names(n, s.record, children) == {};
    } else {
      var before, c := children[..|children| - 1], children[|children| - 1];
      var line := Line(1, "", "CHIL", Pointer(PersonName(n, c)));
      ChilLinesRead(s, n, before);
      ReadAppend(s, ChilLines(n, before), [line]);
      ReadOne(WithChildFacts(s, n, before), line);
      ChilReads(WithChildFacts(s, n, before), PersonName(n, c));
      NamesStep(n, s.record, children);
    }
  }

  // The record of a family adds its partners and children to the facts and nothing else.
  lemma FamilyReads(s: Reading, n: Naming, f: Family, persons: Persons, children: seq<Uuid>, details: seq<Line>)
    requires Details(details)
    ensures var x := FamilyName(n, f.xref);
      ReadFrom(s, FamilyLines(n, f, persons, children, details)).facts ==
      s.facts.(partners := s.facts.partners + Names(n, x, f.partners), children := s.facts.children + Names(n, x, children))
  {
    var head := Line(0, FamilyName(n, f.xref), "FAM", Text(""));
    var partners := PartnerLines(n, f, persons, |f.partners|);
    var s1 := Reading(s.facts, FamilyName(n, f.xref), "FAM", None);
    var s2 := WithPartnerFacts(s1, n, f.partners);
    ReadAppend(s, [head] + partners + ChilLines(n, children), details);
    ReadAppend(s, [head] + partners, ChilLines(n, children));
    ReadAppend(s, [head], partners);
    ReadOne(s, head);
    PartnerLinesRead(s1, n, f, persons, |f.partners|);
    assert f.partners[..|f.partners|] == f.partners;
    ChilLinesRead(s2, n, children);
    DetailsRead(WithChildFacts(s2, n, children), details);
  }
}
