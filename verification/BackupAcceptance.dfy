/** Exactly which bodies the restorer accepts as a backup, and what it makes of them. */
module BackupAcceptance {
  import opened Graphs
  import opened Manifest
  import opened ManifestRelations
  import opened Texts
  import ChecksumList
  import opened BackupFiles
  import opened BackupArchive
  import opened BackupRoundTrip

  // ---- Opening ----

  lemma NamesGoodStep(es: seq<Entry>, last: Entry)
    ensures NamesGood(es + [last]) <==> NamesGood(es) && ChecksumList.SafePath(last.name) && last.name !in NamesOf(es)
  {
    var longer := es + [last];
    if NamesGood(longer) {
      LastName(longer);
      assert longer[..|es|] == es;
    }
    if NamesGood(es) && ChecksumList.SafePath(last.name) && last.name !in NamesOf(es) {
      forall i | 0 <= i < |es| ensures es[i].name != last.name {
        assert es[i].name in NamesOf(es);
      }
    }
  }

  // Any archive opens exactly when its names are safe and distinct and its uncompressed total is within the limit.
  lemma {:induction false} OpensExactly(es: seq<Entry>, limit: int)
    ensures OpenAll(es, limit).Opened? <==> NamesGood(es) && (es == [] || Total(es) <= limit)
    ensures OpenAll(es, limit).Opened? ==> OpenAll(es, limit) == Opened(ContentsOf(es), Total(es))
  {
    if es != [] {
      var before, last := es[..|es| - 1], es[|es| - 1];
      assert es == before + [last];
      OpensExactly(before, limit);
      NamesGoodStep(before, last);
      if NamesGood(before) {
        ContentsLookup(before);
      }
    }
  }

  // ---- The entries ----

  // The checksum list names every other entry with its digest, and nothing else.
  ghost predicate SumsComplete(e: Env, entries: Contents, lines: seq<ChecksumList.Line>)
    requires ChecksumList.CHECKSUMS in entries
  {
    && ChecksumList.Lists(entries[ChecksumList.CHECKSUMS], lines) && |lines| == |entries| - 1
    && forall name :: name in entries && name != ChecksumList.CHECKSUMS ==>
         ChecksumList.Line(name, e.sha(entries[name])) in lines
  }

  // The files that the manifest refers to are all the other entries, with the stated sizes and digests.
  ghost predicate FilesComplete(e: Env, entries: Contents, d: Document) {
    && FilesGood(e.uuid, d.assets, d.variants) && |Refs(d.assets, d.variants)| == |entries| - 2
    && forall r :: r in Refs(d.assets, d.variants) ==>
         r.name in entries && |entries[r.name]| == r.sizeBytes && e.sha(entries[r.name]) == r.checksum
  }

  ghost predicate ManifestAccepted(e: Env, d: Document) {
    Supported(d) && d.treeId != 0 && Restorable(d.persons, d.relations) && e.otherChecks(d)
  }

  lemma SumsAgree(e: Env, entries: Contents, lines: seq<ChecksumList.Line>, name: string)
    requires ChecksumList.NamesDistinct(lines) && name in entries && name != ChecksumList.CHECKSUMS
    ensures SumMatches(e, entries, ChecksumList.SumsOf(lines), name) <==> ChecksumList.Line(name, e.sha(entries[name])) in lines
  {
    ChecksumList.NameInSums(lines, name);
    if i :| 0 <= i < |lines| && lines[i].name == name {
      SumAt(lines, i);
    }
  }

  ghost predicate SumsMatch(e: Env, entries: Contents, sums: map<string, string>) {
    |sums| == |entries| - 1 && forall name :: name in entries ==> SumMatches(e, entries, sums, name)
  }

  lemma ListedSumsMatch(e: Env, entries: Contents, lines: seq<ChecksumList.Line>)
    requires ChecksumList.CHECKSUMS in entries && ChecksumList.Lists(entries[ChecksumList.CHECKSUMS], lines)
    ensures SumsMatch(e, entries, ChecksumList.SumsOf(lines)) <==> SumsComplete(e, entries, lines)
  {
    SumCount(lines);
    forall name | name in entries && name != ChecksumList.CHECKSUMS
      ensures SumMatches(e, entries, ChecksumList.SumsOf(lines), name) <==> ChecksumList.Line(name, e.sha(entries[name])) in lines
    {
      SumsAgree(e, entries, lines, name);
    }
  }

  lemma SumsDecided(e: Env, entries: Contents)
    requires ChecksumList.CHECKSUMS in entries
    ensures var sums := ChecksumList.Read(entries[ChecksumList.CHECKSUMS]);
      (sums.Some? && SumsMatch(e, entries, sums.value)) <==> exists lines :: SumsComplete(e, entries, lines)
  {
    var body := entries[ChecksumList.CHECKSUMS];
    ChecksumList.ReadsExactly(body);
    if ChecksumList.Read(body).Some? {
      var lines :| ChecksumList.Lists(body, lines);
      ListedSumsMatch(e, entries, lines);
    }
    if lines :| SumsComplete(e, entries, lines) {
      ListedSumsMatch(e, entries, lines);
    }
  }

  lemma {:induction false} RefCount(refs: seq<FileRef>)
    requires NamesDistinct(refs)
    ensures |ByName(refs)| == |refs|
    ensures forall i :: 0 <= i < |refs| ==> refs[i].name in ByName(refs) && ByName(refs)[refs[i].name] == refs[i]
  {
    if refs != [] {
      var before, last := refs[..|refs| - 1], refs[|refs| - 1];
      RefCount(before);
      InByName(before, last.name);
      assert ByName(refs).Keys == ByName(before).Keys + {last.name};
    }
  }

  lemma FilesDecided(e: Env, entries: Contents, d: Document)
    ensures var expected := Expect(e.uuid, d.assets, d.variants);
      (expected.Some? && |entries| == |expected.value| + 2 &&
       (forall name :: name in expected.value ==> FileMatches(e, entries, expected.value, name)))
      <==> FilesComplete(e, entries, d)
  {
    ExpectedExactly(e.uuid, d.assets, d.variants);
    var refs := Refs(d.assets, d.variants);
    if FilesGood(e.uuid, d.assets, d.variants) {
      RefCount(refs);
      forall name | name in ByName(refs) ensures ByName(refs)[name] in refs && ByName(refs)[name].name == name {
        InByName(refs, name);
      }
      forall r | r in refs ensures r.name in ByName(refs) && ByName(refs)[r.name] == r {
        var i :| 0 <= i < |refs| && refs[i] == r;
      }
    }
  }

  // Everything about the entries that the restorer asks for.
  ghost predicate Complete(e: Env, entries: Contents, d: Document) {
    && MANIFEST in entries && ChecksumList.CHECKSUMS in entries
    && (exists lines :: SumsComplete(e, entries, lines))
    && e.decode(entries[MANIFEST]) == Some(d) && ManifestAccepted(e, d) && FilesComplete(e, entries, d)
  }

  lemma DocumentDecided(e: Env, entries: Contents, d: Document)
    ensures ParseDocument(e, entries, d).Parsed? <==> ManifestAccepted(e, d) && FilesComplete(e, entries, d)
    ensures ParseDocument(e, entries, d).Parsed? ==> ParseDocument(e, entries, d).document == d
  {
    FilesDecided(e, entries, d);
  }

  // The document that the entries hold, if they pass.
  lemma EntriesDecided(e: Env, entries: Contents)
    ensures ParseEntries(e, entries).Parsed? <==>
      MANIFEST in entries && e.decode(entries[MANIFEST]).Some? && Complete(e, entries, e.decode(entries[MANIFEST]).value)
    ensures ParseEntries(e, entries).Parsed? ==> ParseEntries(e, entries).document == e.decode(entries[MANIFEST]).value
  {
    if MANIFEST in entries && ChecksumList.CHECKSUMS in entries {
      SumsDecided(e, entries);
      if e.decode(entries[MANIFEST]).Some? {
        DocumentDecided(e, entries, e.decode(entries[MANIFEST]).value);
      }
    }
  }

  // ---- The whole body ----

  ghost predicate WithinBounds(body: Body, es: seq<Entry>, limit: int) {
    0 < |body| <= limit && 2 <= |es| <= MAX_ENTRIES && Total(es) <= limit
  }

  lemma ParsedByEntries(e: Env, body: Body, limit: int, es: seq<Entry>)
    requires e.unpack(body) == Some(es)
    ensures Parse(e, body, limit).Parsed? <==>
      WithinBounds(body, es, limit) && NamesGood(es) && ParseEntries(e, ContentsOf(es)).Parsed?
    ensures Parse(e, body, limit).Parsed? ==> Parse(e, body, limit) == ParseEntries(e, ContentsOf(es))
  {
    OpensExactly(es, limit);
  }

  // For every body: it is accepted, and as this document, exactly if it and its entries are within bounds, the names
  // are safe and distinct, the checksum list is complete, and the manifest is this document, is acceptable and refers
  // to exactly the other entries.
  lemma ParsedExactly(e: Env, body: Body, limit: int, d: Document)
    ensures var result, unpacked := Parse(e, body, limit), e.unpack(body);
      (result.Parsed? && result.document == d) <==>
        unpacked.Some? && WithinBounds(body, unpacked.value, limit) && NamesGood(unpacked.value) &&
        Complete(e, ContentsOf(unpacked.value), d)
  {
    if e.unpack(body).Some? {
      ParsedByEntries(e, body, limit, e.unpack(body).value);
      EntriesDecided(e, ContentsOf(e.unpack(body).value));
    }
  }

  lemma {:induction false} AssetRefsGood(u: Printer, assets: seq<Asset>)
    requires AssetsGood(u, assets)
    ensures forall r :: r in AssetRefs(assets) ==> GoodRef(r)
  {
    if assets != [] {
      assert assets[|assets| - 1] in assets;
      AssetRefsGood(u, assets[..|assets| - 1]);
    }
  }

  lemma {:induction false} VariantRefsGood(u: Printer, assets: seq<Asset>, variants: seq<Variant>)
    requires VariantsGood(u, assets, variants)
    ensures forall r :: r in VariantRefs(variants) ==> GoodRef(r)
  {
    if variants != [] {
      assert variants[|variants| - 1] in variants;
      VariantRefsGood(u, assets, variants[..|variants| - 1]);
    }
  }

  lemma SpecialsNotReferred(u: Printer, assets: seq<Asset>, variants: seq<Variant>)
    requires FilesGood(u, assets, variants)
    ensures MANIFEST !in ByName(Refs(assets, variants)) && ChecksumList.CHECKSUMS !in ByName(Refs(assets, variants))
  {
    AssetRefsGood(u, assets);
    VariantRefsGood(u, assets, variants);
    InByName(Refs(assets, variants), MANIFEST);
    InByName(Refs(assets, variants), ChecksumList.CHECKSUMS);
  }

  lemma WholeSubset<T>(small: set<T>, large: set<T>)
    requires small <= large && |small| == |large|
    ensures small == large
  {
    assert large == small + (large - small);
  }

  lemma FilesAreTheRest(e: Env, entries: Contents, d: Document)
    requires MANIFEST in entries && ChecksumList.CHECKSUMS in entries && FilesComplete(e, entries, d)
    ensures ByName(Refs(d.assets, d.variants)).Keys == entries.Keys - {MANIFEST, ChecksumList.CHECKSUMS}
  {
    var refs := Refs(d.assets, d.variants);
    var rest := entries.Keys - {MANIFEST, ChecksumList.CHECKSUMS};
    RefCount(refs);
    SpecialNamesArePlain();
    SpecialsNotReferred(e.uuid, d.assets, d.variants);
    assert entries.Keys == rest + {MANIFEST} + {ChecksumList.CHECKSUMS};
    forall name | name in ByName(refs) ensures name in rest {
      InByName(refs, name);
    }
    WholeSubset(ByName(refs).Keys, rest);
  }

  lemma EntriesFiles(e: Env, entries: Contents)
    requires ParseEntries(e, entries).Parsed?
    ensures var files := ParseEntries(e, entries).files;
      && files.Keys == entries.Keys - {MANIFEST, ChecksumList.CHECKSUMS}
      && forall name :: name in files ==> files[name] == entries[name]
  {
    var d := e.decode(entries[MANIFEST]).value;
    EntriesDecided(e, entries);
    ExpectedExactly(e.uuid, d.assets, d.variants);
    FilesAreTheRest(e, entries, d);
  }

  // What an accepted body yields: all entries but the manifest and the checksum list.
  lemma ParsedFiles(e: Env, body: Body, limit: int)
    requires Parse(e, body, limit).Parsed?
    ensures var files, entries := Parse(e, body, limit).files, ContentsOf(e.unpack(body).value);
      && files.Keys == entries.Keys - {MANIFEST, ChecksumList.CHECKSUMS}
      && forall name :: name in files ==> files[name] == entries[name]
  {
    ParsedByEntries(e, body, limit, e.unpack(body).value);
    EntriesFiles(e, ContentsOf(e.unpack(body).value));
  }
}
