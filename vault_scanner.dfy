/**
 * The unresolved-link engine of the vault scanner: collect every link that
 * does not resolve, keyed by its label, count its references and record the
 * files it appears in; rank the entries; group them by folder.
 *
 * The host's services are inputs: the markdown files in the vault's
 * enumeration order, each with the links its metadata cache lists, and for
 * each link the host's answer to "does this link resolve from this file".
 */
module VaultScanner {
  import opened Wrappers
  import opened Seqs
  import opened OrderedMaps
  import opened ArraySort
  import opened JsStrings

  /** A cached link; `resolves` is the host's link-path lookup, folded in. */
  datatype LinkCache = LinkCache(link: string, displayText: Option<string>, resolves: bool)

  /** A markdown file; `links` is None when the host has no cached links for it. */
  datatype MarkdownFile = MarkdownFile(path: string, links: Option<seq<LinkCache>>)

  /** One entry of the scan result. */
  datatype UnresolvedLinkInfo = UnresolvedLinkInfo(linkText: string, frequency: nat, sourceFiles: seq<string>)

  /** The key of a link: its display text when that is non-empty, else the raw link. */
  function LinkText(link: LinkCache): (text: string)
    ensures link.displayText.Some? && link.displayText.value != "" ==> text == link.displayText.value
    ensures link.displayText.None? || link.displayText == Some("") ==> text == link.link
  {
    match link.displayText
    case Some(d) => if d != "" then d else link.link
    case None => link.link
  }

  // ---------------------------------------------------------------------
  // The scan, specified

  /** One unresolved reference met by the walk: its key and the file it is in. */
  datatype Occurrence = Occurrence(linkText: string, path: string)

  /** The unresolved references among `links`, in order. */
  function LinkOccurrences(path: string, links: seq<LinkCache>): seq<Occurrence> {
    if links == [] then []
    else
      var l := links[|links| - 1];
      LinkOccurrences(path, links[..|links| - 1])
        + (if l.resolves then [] else [Occurrence(LinkText(l), path)])
  }

  function FileOccurrences(f: MarkdownFile): seq<Occurrence> {
    match f.links
    case None => []
    case Some(links) => LinkOccurrences(f.path, links)
  }

  /** The unresolved references of the whole vault, in walk order. */
  function Occurrences(files: seq<MarkdownFile>): seq<Occurrence> {
    if files == [] then []
    else Occurrences(files[..|files| - 1]) + FileOccurrences(files[|files| - 1])
  }

  function LinkTexts(occ: seq<Occurrence>): seq<string> {
    seq(|occ|, i requires 0 <= i < |occ| => occ[i].linkText)
  }

  /** The files of the references keyed `text`, once per reference, in walk order. */
  function SourcesOf(occ: seq<Occurrence>, text: string): seq<string> {
    if occ == [] then []
    else
      var o := occ[|occ| - 1];
      SourcesOf(occ[..|occ| - 1], text) + (if o.linkText == text then [o.path] else [])
  }

  /** The entry for `text`: every reference counted, every file listed once. */
  function EntryFor(occ: seq<Occurrence>, text: string): UnresolvedLinkInfo {
    UnresolvedLinkInfo(text, Count(LinkTexts(occ), text), Dedup(SourcesOf(occ, text)))
  }

  /** The scan result: one entry per distinct key, in the order keys were first met. */
  function ScanResult(files: seq<MarkdownFile>): seq<UnresolvedLinkInfo> {
    var occ := Occurrences(files);
    var texts := Dedup(LinkTexts(occ));
    seq(|texts|, i requires 0 <= i < |texts| => EntryFor(occ, texts[i]))
  }

  // ---------------------------------------------------------------------
  // The scan, as the plugin runs it

  /** The map built so far holds exactly the entries of the references walked. */
  ghost predicate Registers(m: OrderedMap<string, UnresolvedLinkInfo>, occ: seq<Occurrence>) {
    && m.Valid()
    && m.keys == Dedup(LinkTexts(occ))
    && forall k :: k in m.values ==> m.values[k] == EntryFor(occ, k)
  }

  /**
   * `scanUnresolvedLinks`: walks the files and their cached links, skips
   * the links that resolve and accumulates the others in a `Map` keyed by
   * their link text.
   */
  method ScanUnresolvedLinks(files: seq<MarkdownFile>) returns (links: seq<UnresolvedLinkInfo>)
    ensures links == ScanResult(files)
  {
    var unresolved: OrderedMap<string, UnresolvedLinkInfo> := Empty();
    for i := 0 to |files|
      invariant Registers(unresolved, Occurrences(files[..i]))
    {
      OccurrencesSnoc(files, i);
      var file := files[i];
      if file.links.None? {
        continue;
      }
      unresolved := ScanFile(unresolved, Occurrences(files[..i]), file.path, file.links.value);
    }
    assert files[..|files|] == files;
    links := unresolved.Values();
    forall k | 0 <= k < |links| ensures links[k] == ScanResult(files)[k] {
    }
  }

  /** The body of the scan for one file with cached links. */
  method ScanFile(unresolved: OrderedMap<string, UnresolvedLinkInfo>, ghost done: seq<Occurrence>,
                  path: string, cachedLinks: seq<LinkCache>)
    returns (m: OrderedMap<string, UnresolvedLinkInfo>)
    requires Registers(unresolved, done)
    ensures Registers(m, done + LinkOccurrences(path, cachedLinks))
  {
    m := unresolved;
    assert done + LinkOccurrences(path, cachedLinks[..0]) == done;
    for j := 0 to |cachedLinks|
      invariant Registers(m, done + LinkOccurrences(path, cachedLinks[..j]))
    {
      var link := cachedLinks[j];
      ghost var before := done + LinkOccurrences(path, cachedLinks[..j]);
      LinkOccurrencesSnoc(path, cachedLinks, j);
      if !link.resolves {
        var linkText := LinkText(link);
        ghost var o := Occurrence(linkText, path);
        assert done + LinkOccurrences(path, cachedLinks[..j + 1]) == before + [o];
        RegistersHas(m, before, linkText);
        var info: UnresolvedLinkInfo;
        if linkText in m.values {
          var existingInfo := m.values[linkText];
          var sourceFiles := existingInfo.sourceFiles;
          if path !in sourceFiles {
            sourceFiles := sourceFiles + [path];
          }
          info := existingInfo.(frequency := existingInfo.frequency + 1, sourceFiles := sourceFiles);
          EntryForSnocSeen(before, o);
        } else {
          info := UnresolvedLinkInfo(linkText, 1, [path]);
          EntryForSnocNew(before, o);
        }
        RegistersStep(m, before, o, info);
        m := m.Set(linkText, info);
      }
    }
    assert cachedLinks[..|cachedLinks|] == cachedLinks;
  }

  lemma OccurrencesSnoc(files: seq<MarkdownFile>, i: nat)
    requires i < |files|
    ensures files[i].links.None? ==> Occurrences(files[..i + 1]) == Occurrences(files[..i])
    ensures files[i].links.Some? ==>
      Occurrences(files[..i + 1]) == Occurrences(files[..i]) + LinkOccurrences(files[i].path, files[i].links.value)
  {
    assert files[..i + 1][..i] == files[..i];
    assert Occurrences(files[..i]) + [] == Occurrences(files[..i]);
  }

  lemma LinkOccurrencesSnoc(path: string, links: seq<LinkCache>, j: nat)
    requires j < |links|
    ensures links[j].resolves ==> LinkOccurrences(path, links[..j + 1]) == LinkOccurrences(path, links[..j])
    ensures !links[j].resolves ==>
      LinkOccurrences(path, links[..j + 1]) == LinkOccurrences(path, links[..j]) + [Occurrence(LinkText(links[j]), path)]
  {
    assert links[..j + 1][..j] == links[..j];
    assert LinkOccurrences(path, links[..j]) + [] == LinkOccurrences(path, links[..j]);
  }

  lemma RegistersHas(m: OrderedMap<string, UnresolvedLinkInfo>, occ: seq<Occurrence>, t: string)
    requires Registers(m, occ)
    ensures t in m.values <==> t in LinkTexts(occ)
  {
    DedupMembership(LinkTexts(occ), t);
  }

  lemma LinkTextsAppend(a: seq<Occurrence>, b: seq<Occurrence>)
    ensures LinkTexts(a + b) == LinkTexts(a) + LinkTexts(b)
  {
  }

  lemma LinkTextsSnoc(occ: seq<Occurrence>, o: Occurrence)
    ensures LinkTexts(occ + [o]) == LinkTexts(occ) + [o.linkText]
  {
  }

  lemma {:induction false} SourcesOfAbsent(occ: seq<Occurrence>, text: string)
    requires text !in LinkTexts(occ)
    ensures SourcesOf(occ, text) == []
  {
    if occ != [] {
      var init := occ[..|occ| - 1];
      assert LinkTexts(occ) == LinkTexts(init) + [occ[|occ| - 1].linkText];
      SourcesOfAbsent(init, text);
    }
  }

  lemma SourcesOfSnoc(occ: seq<Occurrence>, o: Occurrence, k: string)
    ensures SourcesOf(occ + [o], k) == SourcesOf(occ, k) + (if o.linkText == k then [o.path] else [])
  {
    assert (occ + [o])[..|occ|] == occ;
  }

  /** Walking one more unresolved reference leaves the entries of other keys alone. */
  lemma EntryForSnocOther(occ: seq<Occurrence>, o: Occurrence, k: string)
    requires k != o.linkText
    ensures EntryFor(occ + [o], k) == EntryFor(occ, k)
  {
    SourcesOfSnoc(occ, o, k);
    assert SourcesOf(occ, k) + [] == SourcesOf(occ, k);
    LinkTextsSnoc(occ, o);
    CountSnoc(LinkTexts(occ), o.linkText, k);
  }

  /** The first reference to a key creates its entry with one reference from one file. */
  lemma EntryForSnocNew(occ: seq<Occurrence>, o: Occurrence)
    requires o.linkText !in LinkTexts(occ)
    ensures EntryFor(occ + [o], o.linkText) == UnresolvedLinkInfo(o.linkText, 1, [o.path])
  {
    var k := o.linkText;
    SourcesOfSnoc(occ, o, k);
    SourcesOfAbsent(occ, k);
    assert SourcesOf(occ + [o], k) == [] + [o.path];
    DedupSnoc([], o.path);
    LinkTextsSnoc(occ, o);
    CountSnoc(LinkTexts(occ), k, k);
    CountPositive(LinkTexts(occ), k);
  }

  /** A further reference adds one to the frequency and its file, if new, to the sources. */
  lemma EntryForSnocSeen(occ: seq<Occurrence>, o: Occurrence)
    ensures var e := EntryFor(occ, o.linkText);
      EntryFor(occ + [o], o.linkText)
        == e.(frequency := e.frequency + 1,
              sourceFiles := if o.path in e.sourceFiles then e.sourceFiles else e.sourceFiles + [o.path])
  {
    var k := o.linkText;
    var src := SourcesOf(occ, k);
    SourcesOfSnoc(occ, o, k);
    DedupSnoc(src, o.path);
    DedupMembership(src, o.path);
    LinkTextsSnoc(occ, o);
    CountSnoc(LinkTexts(occ), k, k);
  }

  lemma RegistersStep(m: OrderedMap<string, UnresolvedLinkInfo>, occ: seq<Occurrence>, o: Occurrence,
                      v: UnresolvedLinkInfo)
    requires Registers(m, occ)
    requires v == EntryFor(occ + [o], o.linkText)
    ensures Registers(m.Set(o.linkText, v), occ + [o])
  {
    LinkTextsSnoc(occ, o);
    DedupSnoc(LinkTexts(occ), o.linkText);
    RegistersHas(m, occ, o.linkText);
    OtherEntriesKept(m.values, occ, o, v);
  }

  lemma OtherEntriesKept(values: map<string, UnresolvedLinkInfo>, occ: seq<Occurrence>, o: Occurrence,
                         v: UnresolvedLinkInfo)
    requires forall k :: k in values ==> values[k] == EntryFor(occ, k)
    requires v == EntryFor(occ + [o], o.linkText)
    ensures forall k :: k in values[o.linkText := v] ==> values[o.linkText := v][k] == EntryFor(occ + [o], k)
  {
    forall k | k in values && k != o.linkText ensures values[k] == EntryFor(occ + [o], k) {
      EntryForSnocOther(occ, o, k);
    }
  }

  // ---------------------------------------------------------------------
  // What the scan promises

  /** No two entries share a link text. */
  lemma ScanLinkTextsDistinct(files: seq<MarkdownFile>)
    ensures forall i, j :: 0 <= i < j < |ScanResult(files)| ==>
      ScanResult(files)[i].linkText != ScanResult(files)[j].linkText
  {
    DedupNoDup(LinkTexts(Occurrences(files)));
  }

  /** Entries come in the order their keys were first met by the walk. */
  lemma ScanFirstSeenOrder(files: seq<MarkdownFile>)
    ensures forall i, j :: 0 <= i < j < |ScanResult(files)| ==>
      var texts := LinkTexts(Occurrences(files));
      FirstIndex(texts, ScanResult(files)[i].linkText) < FirstIndex(texts, ScanResult(files)[j].linkText)
  {
    DedupFirstSeenOrder(LinkTexts(Occurrences(files)));
  }

  /** A key has an entry exactly when some unresolved reference carries it. */
  lemma ScanCoversUnresolved(files: seq<MarkdownFile>, text: string)
    ensures (exists i :: 0 <= i < |ScanResult(files)| && ScanResult(files)[i].linkText == text)
        <==> text in LinkTexts(Occurrences(files))
  {
    var texts := Dedup(LinkTexts(Occurrences(files)));
    if text in LinkTexts(Occurrences(files)) {
      DedupMembership(LinkTexts(Occurrences(files)), text);
      var i :| 0 <= i < |texts| && texts[i] == text;
      assert ScanResult(files)[i].linkText == text;
    }
  }

  /** References to `text` that do not resolve, counted directly in the cached links. */
  function ReferenceCountIn(links: seq<LinkCache>, text: string): nat {
    if links == [] then 0
    else
      var l := links[|links| - 1];
      ReferenceCountIn(links[..|links| - 1], text) + (if !l.resolves && LinkText(l) == text then 1 else 0)
  }

  /** References to `text` that do not resolve, over the whole vault. */
  function ReferenceCount(files: seq<MarkdownFile>, text: string): nat {
    if files == [] then 0
    else
      var f := files[|files| - 1];
      ReferenceCount(files[..|files| - 1], text)
        + (match f.links case None => 0 case Some(links) => ReferenceCountIn(links, text))
  }

  lemma {:induction false} CountLinkOccurrences(path: string, links: seq<LinkCache>, text: string)
    ensures Count(LinkTexts(LinkOccurrences(path, links)), text) == ReferenceCountIn(links, text)
  {
    if links != [] {
      var n := |links| - 1;
      CountLinkOccurrences(path, links[..n], text);
      LinkOccurrencesSnoc(path, links, n);
      assert links[..n + 1] == links;
      if !links[n].resolves {
        LinkTextsSnoc(LinkOccurrences(path, links[..n]), Occurrence(LinkText(links[n]), path));
        CountSnoc(LinkTexts(LinkOccurrences(path, links[..n])), LinkText(links[n]), text);
      }
    }
  }

  lemma {:induction false} CountOccurrences(files: seq<MarkdownFile>, text: string)
    ensures Count(LinkTexts(Occurrences(files)), text) == ReferenceCount(files, text)
  {
    if files != [] {
      var n := |files| - 1;
      CountOccurrences(files[..n], text);
      OccurrencesSnoc(files, n);
      assert files[..n + 1] == files;
      var f := files[n];
      if f.links.Some? {
        var more := LinkOccurrences(f.path, f.links.value);
        LinkTextsAppend(Occurrences(files[..n]), more);
        CountAppend(LinkTexts(Occurrences(files[..n])), LinkTexts(more), text);
        CountLinkOccurrences(f.path, f.links.value, text);
      }
    }
  }

  /**
   * Each entry's frequency is the number of unresolved references carrying
   * its key, across all files; a file referring to it twice counts twice.
   */
  lemma ScanFrequency(files: seq<MarkdownFile>, i: nat)
    requires i < |ScanResult(files)|
    ensures ScanResult(files)[i].frequency == ReferenceCount(files, ScanResult(files)[i].linkText)
  {
    CountOccurrences(files, ScanResult(files)[i].linkText);
  }

  lemma {:induction false} SourcesOfCount(occ: seq<Occurrence>, text: string)
    ensures |SourcesOf(occ, text)| == Count(LinkTexts(occ), text)
  {
    if occ != [] {
      var init, o := occ[..|occ| - 1], occ[|occ| - 1];
      SourcesOfCount(init, text);
      assert occ == init + [o];
      LinkTextsSnoc(init, o);
      SourcesOfSnoc(init, o, text);
      CountSnoc(LinkTexts(init), o.linkText, text);
    }
  }

  lemma {:induction false} SourcesOfMembership(occ: seq<Occurrence>, text: string, path: string)
    ensures path in SourcesOf(occ, text) <==> Occurrence(text, path) in occ
  {
    if occ != [] {
      var init := occ[..|occ| - 1];
      SourcesOfMembership(init, text, path);
      assert occ == init + [occ[|occ| - 1]];
    }
  }

  /** The first source is the file of the first reference to the key. */
  lemma {:induction false} SourcesOfHead(occ: seq<Occurrence>, text: string)
    requires text in LinkTexts(occ)
    ensures |SourcesOf(occ, text)| > 0
    ensures SourcesOf(occ, text)[0] == occ[FirstIndex(LinkTexts(occ), text)].path
  {
    var init, o := occ[..|occ| - 1], occ[|occ| - 1];
    assert occ == init + [o];
    LinkTextsSnoc(init, o);
    SourcesOfSnoc(init, o, text);
    if text in LinkTexts(init) {
      SourcesOfHead(init, text);
      FirstIndexSnoc(LinkTexts(init), o.linkText, text);
      var k := FirstIndex(LinkTexts(init), text);
      assert occ[k] == init[k];
    } else {
      SourcesOfAbsent(init, text);
      assert FirstIndex(LinkTexts(occ), text) == |init| by {
        assert LinkTexts(occ)[..|init|] == LinkTexts(init);
      }
    }
  }

  /**
   * Each entry lists its files once each, never none, the file of its first
   * reference first, no more of them than its frequency, and exactly the
   * files with an unresolved reference carrying its key.
   */
  lemma ScanSourceFiles(files: seq<MarkdownFile>, i: nat, path: string)
    requires i < |ScanResult(files)|
    ensures var e := ScanResult(files)[i];
      && NoDup(e.sourceFiles)
      && 1 <= |e.sourceFiles| <= e.frequency
      && e.sourceFiles[0] == Occurrences(files)[FirstIndex(LinkTexts(Occurrences(files)), e.linkText)].path
      && (path in e.sourceFiles <==> Occurrence(e.linkText, path) in Occurrences(files))
  {
    var occ := Occurrences(files);
    var text := ScanResult(files)[i].linkText;
    assert text in LinkTexts(occ);
    DedupNoDup(SourcesOf(occ, text));
    DedupMembership(SourcesOf(occ, text), path);
    SourcesOfHead(occ, text);
    DedupHead(SourcesOf(occ, text));
    SourcesOfCount(occ, text);
    SourcesOfMembership(occ, text, path);
  }

  /** The vault with every link that resolves removed. */
  function DropResolved(files: seq<MarkdownFile>): (r: seq<MarkdownFile>)
    ensures |r| == |files|
  {
    if files == [] then []
    else
      var f := files[|files| - 1];
      DropResolved(files[..|files| - 1])
        + [f.(links := match f.links case None => None case Some(ls) => Some(Unresolved(ls)))]
  }

  function Unresolved(links: seq<LinkCache>): seq<LinkCache> {
    if links == [] then []
    else
      var l := links[|links| - 1];
      Unresolved(links[..|links| - 1]) + (if l.resolves then [] else [l])
  }

  lemma {:induction false} LinkOccurrencesAppend(path: string, a: seq<LinkCache>, b: seq<LinkCache>)
    ensures LinkOccurrences(path, a + b) == LinkOccurrences(path, a) + LinkOccurrences(path, b)
  {
    if b != [] {
      var init := b[..|b| - 1];
      assert a + b == (a + init) + [b[|b| - 1]];
      LinkOccurrencesAppend(path, a, init);
    } else {
      assert a + b == a;
    }
  }

  lemma {:induction false} UnresolvedSameOccurrences(path: string, links: seq<LinkCache>)
    ensures LinkOccurrences(path, Unresolved(links)) == LinkOccurrences(path, links)
  {
    if links != [] {
      var init, l := links[..|links| - 1], links[|links| - 1];
      UnresolvedSameOccurrences(path, init);
      LinkOccurrencesAppend(path, Unresolved(init), if l.resolves then [] else [l]);
      if !l.resolves {
        assert [l][..0] == [];
      }
    }
  }

  lemma {:induction false} DropResolvedSameOccurrences(files: seq<MarkdownFile>)
    ensures Occurrences(DropResolved(files)) == Occurrences(files)
  {
    if files != [] {
      var init, f := files[..|files| - 1], files[|files| - 1];
      DropResolvedSameOccurrences(init);
      var d := DropResolved(files);
      assert d[..|d| - 1] == DropResolved(init);
      if f.links.Some? {
        UnresolvedSameOccurrences(f.path, f.links.value);
      }
    }
  }

  /** Links that resolve contribute nothing to the scan. */
  lemma ResolvedLinksIgnored(files: seq<MarkdownFile>)
    ensures ScanResult(DropResolved(files)) == ScanResult(files)
  {
    DropResolvedSameOccurrences(files);
  }

  lemma {:induction false} OccurrencesAppend(a: seq<MarkdownFile>, b: seq<MarkdownFile>)
    ensures Occurrences(a + b) == Occurrences(a) + Occurrences(b)
  {
    if b != [] {
      var init := b[..|b| - 1];
      assert a + b == (a + init) + [b[|b| - 1]];
      OccurrencesAppend(a, init);
    } else {
      assert a + b == a;
    }
  }

  /** A file without cached links is skipped, wherever it stands. */
  lemma UncachedFileSkipped(a: seq<MarkdownFile>, f: MarkdownFile, b: seq<MarkdownFile>)
    requires f.links.None?
    ensures ScanResult(a + [f] + b) == ScanResult(a + b)
  {
    OccurrencesAppend(a + [f], b);
    OccurrencesAppend(a, [f]);
    OccurrencesAppend(a, b);
    assert Occurrences([f]) == [] by {
      assert [f][..0] == [];
    }
    assert Occurrences(a + [f]) == Occurrences(a);
    assert Occurrences(a + [f] + b) == Occurrences(a + b);
  }

  // ---------------------------------------------------------------------
  // Ranking

  /** The frequency comparator `(a, b) => b.frequency - a.frequency`, read as "a comes first". */
  function ByFrequency(a: UnresolvedLinkInfo, b: UnresolvedLinkInfo): (before: bool)
    ensures before <==> a.frequency > b.frequency
  {
    b.frequency - a.frequency < 0
  }

  /** The alphabetical comparator `(a, b) => a.linkText.localeCompare(b.linkText)`. */
  function Alphabetically(localeCompare: (string, string) -> int): (less: (UnresolvedLinkInfo, UnresolvedLinkInfo) -> bool)
    ensures forall a, b :: less(a, b) <==> localeCompare(a.linkText, b.linkText) < 0
  {
    (a: UnresolvedLinkInfo, b: UnresolvedLinkInfo) => localeCompare(a.linkText, b.linkText) < 0
  }

  /** The comparator `sortLinks` picks: unknown policies fall back to frequency. */
  function ComparatorFor(sortBy: string, localeCompare: (string, string) -> int)
    : (less: (UnresolvedLinkInfo, UnresolvedLinkInfo) -> bool)
    ensures sortBy == "alphabetical" ==>
      forall a, b :: less(a, b) <==> localeCompare(a.linkText, b.linkText) < 0
    ensures sortBy != "alphabetical" ==> forall a, b :: less(a, b) <==> a.frequency > b.frequency
  {
    if sortBy == "frequency" then ByFrequency
    else if sortBy == "alphabetical" then Alphabetically(localeCompare)
    else ByFrequency
  }

  /**
   * The part of a consistent `localeCompare` that the sorting proofs use:
   * "before" is asymmetric and "not before" is transitive, so "before" is
   * a strict weak order. The consistent-comparator rule of ECMA-262 for
   * `Array.prototype.sort` asks more (for instance that equal strings
   * compare as 0); none of it is needed here.
   */
  ghost predicate IsCollation(localeCompare: (string, string) -> int) {
    && (forall a, b :: localeCompare(a, b) < 0 ==> localeCompare(b, a) >= 0)
    && (forall a, b, c :: localeCompare(b, a) >= 0 && localeCompare(c, b) >= 0 ==> localeCompare(c, a) >= 0)
  }

  /** Both comparators are consistent, the alphabetical one when the collation is. */
  lemma ComparatorConsistent(sortBy: string, localeCompare: (string, string) -> int)
    requires sortBy == "alphabetical" ==> IsCollation(localeCompare)
    ensures StrictWeakOrder(ComparatorFor(sortBy, localeCompare))
  {
    var less := ComparatorFor(sortBy, localeCompare);
    if sortBy == "alphabetical" {
      forall a: UnresolvedLinkInfo, b: UnresolvedLinkInfo, c: UnresolvedLinkInfo
        | !less(b, a) && !less(c, b) ensures !less(c, a)
      {
        assert localeCompare(b.linkText, a.linkText) >= 0;
        assert localeCompare(c.linkText, b.linkText) >= 0;
      }
    }
  }

  /**
   * `sortLinks`: sorts a copy of `links` (the argument is a value and
   * stays as it was) with the stable `Array.prototype.sort`.
   */
  method SortLinks(links: seq<UnresolvedLinkInfo>, sortBy: string, localeCompare: (string, string) -> int)
    returns (sorted: seq<UnresolvedLinkInfo>)
    ensures sorted == StableSorted(links, ComparatorFor(sortBy, localeCompare))
    ensures multiset(sorted) == multiset(links)
    ensures sortBy != "alphabetical" ==>
      forall i, j :: 0 <= i < j < |sorted| ==> sorted[i].frequency >= sorted[j].frequency
    ensures sortBy != "alphabetical" ==> forall y ::
      TiesWith(sorted, y, ByFrequency) == TiesWith(links, y, ByFrequency)
    ensures sortBy == "alphabetical" && IsCollation(localeCompare) ==>
      forall i, j :: 0 <= i < j < |sorted| ==> localeCompare(sorted[j].linkText, sorted[i].linkText) >= 0
  {
    var sortedLinks := new UnresolvedLinkInfo[|links|](i requires 0 <= i < |links| => links[i]);
    assert sortedLinks[..] == links;
    var less := ComparatorFor(sortBy, localeCompare);
    Sort(sortedLinks, less);
    sorted := sortedLinks[..];
    SortPermutes(links, less);
    if sortBy != "alphabetical" || IsCollation(localeCompare) {
      ComparatorConsistent(sortBy, localeCompare);
      SortedIsOrdered(links, less);
      forall y ensures TiesWith(sorted, y, less) == TiesWith(links, y, less) {
        SortIsStable(links, y, less);
      }
    }
  }

  /** Sorting twice with the same policy is sorting once. */
  lemma SortLinksIdempotent(links: seq<UnresolvedLinkInfo>, sortBy: string, localeCompare: (string, string) -> int)
    requires sortBy == "alphabetical" ==> IsCollation(localeCompare)
    ensures var less := ComparatorFor(sortBy, localeCompare);
      StableSorted(StableSorted(links, less), less) == StableSorted(links, less)
  {
    ComparatorConsistent(sortBy, localeCompare);
    SortIdempotent(links, ComparatorFor(sortBy, localeCompare));
  }

  // ---------------------------------------------------------------------
  // Grouping by folder

  const NoSourceFolder := "No Source Folder"

  /** The part of a path before its last `/`, or "" when there is none. */
  function FolderOf(path: string): (folder: string)
    ensures '/' !in path ==> folder == ""
    ensures '/' in path ==>
      |folder| < |path| && path[..|folder|] == folder && path[|folder|] == '/' && '/' !in path[|folder| + 1..]
  {
    Substring(path, 0, LastIndexOf(path, '/'))
  }

  /** The group of an entry: the folder of its first source file, or the sentinel. */
  function GroupKey(link: UnresolvedLinkInfo): (key: string)
    ensures |link.sourceFiles| == 0 ==> key == NoSourceFolder
    ensures |link.sourceFiles| > 0 ==>
      var first := link.sourceFiles[0];
      if '/' in first then
        |key| < |first| && first[..|key|] == key && first[|key|] == '/' && '/' !in first[|key| + 1..]
      else key == ""
  {
    if |link.sourceFiles| > 0 then FolderOf(link.sourceFiles[0]) else NoSourceFolder
  }

  function GroupKeys(links: seq<UnresolvedLinkInfo>): seq<string> {
    seq(|links|, i requires 0 <= i < |links| => GroupKey(links[i]))
  }

  /** The entries of `links` in group `key`, in their order in `links`. */
  function Members(links: seq<UnresolvedLinkInfo>, key: string): seq<UnresolvedLinkInfo> {
    if links == [] then []
    else
      var l := links[|links| - 1];
      Members(links[..|links| - 1], key) + (if GroupKey(l) == key then [l] else [])
  }

  /**
   * `groupLinksByFolder`: files each entry, in order, under the folder of
   * its first source file in a `Map` of arrays.
   */
  method GroupLinksByFolder(links: seq<UnresolvedLinkInfo>)
    returns (groupedLinks: OrderedMap<string, seq<UnresolvedLinkInfo>>)
    ensures groupedLinks.Valid()
    ensures groupedLinks.keys == Dedup(GroupKeys(links))
    ensures forall k :: k in groupedLinks.values ==> groupedLinks.values[k] == Members(links, k)
  {
    groupedLinks := Empty();
    for i := 0 to |links|
      invariant Groups(groupedLinks, links[..i])
    {
      var link := links[i];
      var folderPath: string;
      if |link.sourceFiles| > 0 {
        var firstSourcePath := link.sourceFiles[0];
        folderPath := Substring(firstSourcePath, 0, LastIndexOf(firstSourcePath, '/'));
      } else {
        folderPath := NoSourceFolder;
      }
      ghost var before := groupedLinks;
      GroupsHas(before, links[..i], folderPath);
      MembersSnoc(links, i, folderPath);
      if folderPath !in groupedLinks.values {
        MembersAbsent(links[..i], folderPath);
        groupedLinks := groupedLinks.Set(folderPath, []);
      }
      var group := groupedLinks.values[folderPath] + [link];
      GroupStep(before, links, i, group);
      SetTwice(before, folderPath, [], group);
      groupedLinks := groupedLinks.Set(folderPath, group);
    }
    assert links[..|links|] == links;
  }

  /** The map built so far files every entry seen under its group, in order. */
  ghost predicate Groups(g: OrderedMap<string, seq<UnresolvedLinkInfo>>, links: seq<UnresolvedLinkInfo>) {
    && g.Valid()
    && g.keys == Dedup(GroupKeys(links))
    && forall k :: k in g.values ==> g.values[k] == Members(links, k)
  }

  lemma GroupKeysSnoc(links: seq<UnresolvedLinkInfo>, l: UnresolvedLinkInfo)
    ensures GroupKeys(links + [l]) == GroupKeys(links) + [GroupKey(l)]
  {
  }

  lemma GroupsHas(g: OrderedMap<string, seq<UnresolvedLinkInfo>>, links: seq<UnresolvedLinkInfo>, key: string)
    requires Groups(g, links)
    ensures key in g.values <==> key in GroupKeys(links)
  {
    DedupMembership(GroupKeys(links), key);
  }

  lemma MembersSnoc(links: seq<UnresolvedLinkInfo>, i: nat, key: string)
    requires i < |links|
    ensures GroupKey(links[i]) == key ==> Members(links[..i + 1], key) == Members(links[..i], key) + [links[i]]
    ensures GroupKey(links[i]) != key ==> Members(links[..i + 1], key) == Members(links[..i], key)
  {
    assert links[..i + 1][..i] == links[..i];
    assert Members(links[..i], key) + [] == Members(links[..i], key);
  }

  lemma {:induction false} MembersAbsent(links: seq<UnresolvedLinkInfo>, key: string)
    requires key !in GroupKeys(links)
    ensures Members(links, key) == []
  {
    if links != [] {
      var n := |links| - 1;
      GroupKeysSnoc(links[..n], links[n]);
      assert links == links[..n] + [links[n]];
      MembersAbsent(links[..n], key);
      MembersSnoc(links, n, key);
    }
  }

  lemma GroupStep(g: OrderedMap<string, seq<UnresolvedLinkInfo>>, links: seq<UnresolvedLinkInfo>, i: nat,
                  group: seq<UnresolvedLinkInfo>)
    requires i < |links| && Groups(g, links[..i])
    requires group == Members(links[..i + 1], GroupKey(links[i]))
    ensures Groups(g.Set(GroupKey(links[i]), group), links[..i + 1])
  {
    var key := GroupKey(links[i]);
    assert links[..i + 1] == links[..i] + [links[i]];
    GroupKeysSnoc(links[..i], links[i]);
    DedupSnoc(GroupKeys(links[..i]), key);
    GroupsHas(g, links[..i], key);
    OtherGroupsKept(g.values, links, i, group);
  }

  lemma OtherGroupsKept(values: map<string, seq<UnresolvedLinkInfo>>, links: seq<UnresolvedLinkInfo>, i: nat,
                        group: seq<UnresolvedLinkInfo>)
    requires i < |links|
    requires forall k :: k in values ==> values[k] == Members(links[..i], k)
    requires group == Members(links[..i + 1], GroupKey(links[i]))
    ensures var g := values[GroupKey(links[i]) := group];
      forall k :: k in g ==> g[k] == Members(links[..i + 1], k)
  {
    forall k | k in values && k != GroupKey(links[i]) ensures values[k] == Members(links[..i + 1], k) {
      MembersSnoc(links, i, k);
    }
  }

  /** An entry belongs to a group exactly when the group is its own. */
  lemma {:induction false} MembersMembership(links: seq<UnresolvedLinkInfo>, key: string, x: UnresolvedLinkInfo)
    ensures x in Members(links, key) <==> x in links && GroupKey(x) == key
  {
    if links != [] {
      var init := links[..|links| - 1];
      MembersMembership(init, key, x);
      assert links == init + [links[|links| - 1]];
    }
  }

  /** Entries in `links`, summed over the groups `keys`. */
  function GroupSizes(keys: seq<string>, links: seq<UnresolvedLinkInfo>): nat {
    if keys == [] then 0
    else GroupSizes(keys[..|keys| - 1], links) + |Members(links, keys[|keys| - 1])|
  }

  lemma {:induction false} GroupSizesSnoc(keys: seq<string>, links: seq<UnresolvedLinkInfo>, l: UnresolvedLinkInfo)
    requires NoDup(keys)
    ensures GroupSizes(keys, links + [l]) == GroupSizes(keys, links) + (if GroupKey(l) in keys then 1 else 0)
  {
    assert (links + [l])[..|links|] == links;
    if keys != [] {
      var init := keys[..|keys| - 1];
      assert NoDup(init);
      GroupSizesSnoc(init, links, l);
      assert keys == init + [keys[|keys| - 1]];
    }
  }

  /** An entry whose folder is new opens a group holding just that entry. */
  lemma GroupSizesNewKey(init: seq<UnresolvedLinkInfo>, l: UnresolvedLinkInfo)
    requires GroupKey(l) !in GroupKeys(init)
    ensures var keys := Dedup(GroupKeys(init));
      GroupSizes(keys + [GroupKey(l)], init + [l]) == GroupSizes(keys, init + [l]) + 1
  {
    var keys, k, links := Dedup(GroupKeys(init)), GroupKey(l), init + [l];
    MembersAbsent(init, k);
    MembersSnoc(links, |init|, k);
    assert links[..|init|] == init;
    assert links[..|init| + 1] == links;
    assert (keys + [k])[..|keys|] == keys;
  }

  /** One more entry adds one to the total size of the groups. */
  lemma GroupSizesStep(init: seq<UnresolvedLinkInfo>, l: UnresolvedLinkInfo)
    ensures GroupSizes(Dedup(GroupKeys(init + [l])), init + [l]) == GroupSizes(Dedup(GroupKeys(init)), init) + 1
  {
    var keys, k := Dedup(GroupKeys(init)), GroupKey(l);
    GroupKeysSnoc(init, l);
    DedupSnoc(GroupKeys(init), k);
    DedupNoDup(GroupKeys(init));
    DedupMembership(GroupKeys(init), k);
    GroupSizesSnoc(keys, init, l);
    if k !in GroupKeys(init) {
      GroupSizesNewKey(init, l);
    }
  }

  /** The groups together hold exactly as many entries as the input. */
  lemma {:induction false} GroupSizesSum(links: seq<UnresolvedLinkInfo>)
    ensures GroupSizes(Dedup(GroupKeys(links)), links) == |links|
  {
    if links != [] {
      var init := links[..|links| - 1];
      assert links == init + [links[|links| - 1]];
      GroupSizesSum(init);
      GroupSizesStep(init, links[|links| - 1]);
    }
  }

  /** Groups come in the order their folders were first met. */
  lemma GroupFirstSeenOrder(links: seq<UnresolvedLinkInfo>)
    ensures forall i, j :: 0 <= i < j < |Dedup(GroupKeys(links))| ==>
      FirstIndex(GroupKeys(links), Dedup(GroupKeys(links))[i]) < FirstIndex(GroupKeys(links), Dedup(GroupKeys(links))[j])
  {
    DedupFirstSeenOrder(GroupKeys(links));
  }

  /** A scanned entry is always filed under the folder of its first source file. */
  lemma ScannedEntriesHaveFolders(files: seq<MarkdownFile>, i: nat)
    requires i < |ScanResult(files)|
    ensures |ScanResult(files)[i].sourceFiles| > 0
    ensures GroupKey(ScanResult(files)[i]) == FolderOf(ScanResult(files)[i].sourceFiles[0])
  {
    ScanSourceFiles(files, i, "");
  }

  /** The sentinel is an ordinary string: a folder of that name shares its group. */
  lemma SentinelSharedWithFolder(text: string, other: string)
    ensures GroupKey(UnresolvedLinkInfo(text, 1, ["No Source Folder/a.md"]))
         == GroupKey(UnresolvedLinkInfo(other, 0, []))
  {
    var path := "No Source Folder/a.md";
    assert path[16] == '/' && '/' !in path[17..];
    assert LastIndexOf(path, '/') == 16;
  }
}
