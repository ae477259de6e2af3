/** scripts/scrapeGuanyin.js: the list page's tagged links are filtered, de-duplicated by index
    and sorted (the pipeline in ScrapeCommon); then one entry per link is built from the link text
    and the detail page, a failed page giving a placeholder. The rewrite of the database file is
    outside the model. */
module ScrapeGuanyin {
  import opened Wrappers
  import opened Text
  import opened Fortunes
  import opened ScrapeCommon

  const Tag: string := "觀音靈籤百首-"

  /** The alternation searched for in the page text, in the order the regular expression lists it. */
  const LevelKeywords: seq<string> := ["上上", "上吉", "中吉", "中平", "下下", "下吉", "上籤", "中籤", "下籤"]

  /** Every alternative of the expression is a two-character keyword. */
  lemma KeywordsNonEmpty()
    ensures "" !in LevelKeywords
  {
    assert forall n :: 0 <= n < |LevelKeywords| ==> |LevelKeywords[n]| == 2;
  }

  /** What a detail page yields: the body text, and the captures of the 解曰 and 整體解譯
      expressions (None when the expression does not match). */
  datatype GuanyinPage = GuanyinPage(bodyText: string, explainCapture: Option<string>, overallCapture: Option<string>)

  /** The poem taken from the link text: the tag and its number removed, trimmed, commas turned
      into line breaks, full stops deleted. No comma or full stop is left. */
  function GuanyinPoem(originalText: string): (poem: string)
    ensures Avoids(poem, Commas) && Avoids(poem, Stops)
  {
    var poemText := Trim(RemoveTagged(originalText, Tag));
    var lines := ReplaceChars(poemText, Commas, '\n');
    ReplaceClears(poemText, Commas, '\n');
    DeleteKeepsOut(lines, Stops, Commas);
    DeleteChars(lines, Stops)
  }

  /** On a link text of the usual shape, poem then tag then number, the poem is the text before the
      tag with its commas made into line breaks and its full stops dropped. */
  lemma GuanyinPoemOfLinkText(p: string, d: string)
    requires NoTagBefore(p, Tag, d)
    requires d != [] && AllDigits(d)
    ensures GuanyinPoem(p + Tag + d) == DeleteChars(ReplaceChars(Trim(p), Commas, '\n'), Stops)
  {
    RemoveTrailingTag(p, Tag, d);
  }

  /** The explanation before clean-up: the 解曰 capture, else the 整體解譯 capture, trimmed. */
  function RawExplain(page: GuanyinPage): (e: string)
    ensures Trimmed(e)
  {
    match page.explainCapture
    case Some(c) => Trim(c)
    case None =>
      match page.overallCapture
      case Some(c) => Trim(c)
      case None => ""
  }

  /** One entry: from the page when it was read (Some), or the placeholder when reading it threw. */
  function GuanyinEntry(link: IndexedLink, page: Option<GuanyinPage>): Fortune {
    match page
    case None => Fortune(link.title, "", "", ScrapingFailed)
    case Some(pg) =>
      KeywordsNonEmpty();
      Fortune(link.title, KeywordLevel(pg.bodyText, LevelKeywords), GuanyinPoem(link.originalText), CleanExplain(RawExplain(pg)))
  }

  /** Every entry keeps the link's title. A placeholder has no level and no poem; otherwise the
      level is the keyword of the leftmost match, the first listed one at that position (empty
      when none occurs in the page), the poem has no comma
      or full stop, and the explanation is trimmed, single-spaced and free of line breaks. */
  lemma GuanyinEntryFields(link: IndexedLink, page: Option<GuanyinPage>)
    ensures var f := GuanyinEntry(link, page);
      && f.title == link.title
      && (page.None? ==> f == Fortune(link.title, "", "", ScrapingFailed))
      && (page.Some? ==>
            && (f.level == "" || f.level in LevelKeywords)
            && (f.level == "" <==> forall q: nat, n :: 0 <= n < |LevelKeywords| ==> !OccursAt(page.value.bodyText, LevelKeywords[n], q))
            && (FindKeyword(page.value.bodyText, LevelKeywords, 0).Some? ==>
                  f.level == LevelKeywords[FindKeyword(page.value.bodyText, LevelKeywords, 0).value.1])
            && Avoids(f.poem, Commas) && Avoids(f.poem, Stops)
            && '\n' !in f.explain && SingleSpaced(f.explain) && Trimmed(f.explain))
  {
  }

  /** The `for` loop of lines 66-159: exactly one entry per link, in link order. */
  method ScrapeDetails(links: seq<IndexedLink>, fetch: IndexedLink -> Option<GuanyinPage>) returns (data: seq<Fortune>)
    ensures data == Mapped(links, fetch, GuanyinEntry)
    ensures |data| == |links|
    ensures forall i :: 0 <= i < |links| ==> data[i] == GuanyinEntry(links[i], fetch(links[i]))
  {
    data := [];
    for i := 0 to |links|
      invariant data == Mapped(links[..i], fetch, GuanyinEntry)
    {
      assert links[..i + 1][..i] == links[..i];
      var link := links[i];
      var page := fetch(link);
      if page.None? {
        data := data + [Fortune(link.title, "", "", ScrapingFailed)];
      } else {
        var pg := page.value;
        KeywordsNonEmpty();
        var explain := CleanExplain(RawExplain(pg));
        data := data + [Fortune(link.title, KeywordLevel(pg.bodyText, LevelKeywords), GuanyinPoem(link.originalText), explain)];
      }
    }
    assert links[..|links|] == links;
    MappedPointwise(links, fetch, GuanyinEntry);
  }

  /** The script up to the file rewrite, with the list page's anchors and each detail page as
      inputs. `links` is `uniqueLinks` after the sort. */
  method ScrapeGuanyin(anchors: seq<Anchor>, fetch: IndexedLink -> Option<GuanyinPage>)
    returns (links: seq<IndexedLink>, run: ScrapeRun)
    ensures StrictlyIncreasing(links) && WellTitled(links)
    ensures multiset(links) == multiset(FirstPerIndex(KeptLinks(anchors, Tag)))
    ensures Indices(links) == Indices(KeptLinks(anchors, Tag))
    ensures run == NoLinks <==> KeptLinks(anchors, Tag) == []
    ensures run.Scraped? ==> |run.data| == |links|
    ensures run.Scraped? ==> forall i :: 0 <= i < |links| ==> run.data[i] == GuanyinEntry(links[i], fetch(links[i]))
  {
    links := UniqueSortedLinks(anchors, Tag);
    var kept := KeptLinks(anchors, Tag);
    assert links == [] <==> kept == [] by {
      if kept != [] { assert kept[0].index in Indices(kept); }
      if links != [] { assert links[0].index in Indices(links); }
    }
    if |links| == 0 {
      return links, NoLinks;
    }
    var data := ScrapeDetails(links, fetch);
    run := Scraped(data);
  }

  /** The entries of a run carry the titles 第1籤 to 第100籤, each at most once, in increasing order
      of the number. */
  lemma ScrapedTitles(links: seq<IndexedLink>, fetch: IndexedLink -> Option<GuanyinPage>, data: seq<Fortune>)
    requires StrictlyIncreasing(links) && WellTitled(links)
    requires |data| == |links|
    requires forall i :: 0 <= i < |links| ==> data[i] == GuanyinEntry(links[i], fetch(links[i]))
    ensures forall i :: 0 <= i < |data| ==> data[i].title == BaseTitle(links[i].index) && 1 <= links[i].index <= 100
    ensures forall i, j :: 0 <= i < j < |data| ==> data[i].title != data[j].title
  {
    forall i | 0 <= i < |data| ensures data[i].title == links[i].title {
      GuanyinEntryFields(links[i], fetch(links[i]));
    }
    forall i, j | 0 <= i < j < |data| ensures data[i].title != data[j].title {
      if data[i].title == data[j].title {
        BaseTitleInjective(links[i].index, links[j].index);
      }
    }
  }
}
