/** scripts/scrapeGuandi.js: the same link pipeline as scripts/scrapeGuanyin.js with its own tag,
    then one entry per link. A page whose title line matches gives the title 第N籤【干支】 and the
    level after it; otherwise the link's title is kept and the level is searched for. A failed page
    gives a placeholder under the link's title. The rewrite of the database file is outside the
    model. */
module ScrapeGuandi {
  import opened Wrappers
  import opened Text
  import opened Fortunes
  import opened ScrapeCommon

  const Tag: string := "雷雨師籤百首-"

  /** The fallback alternation, in the order the regular expression lists it. */
  const LevelKeywords: seq<string> := ["大吉", "上吉", "中吉", "中平", "下下", "下吉", "上籤", "中籤", "下籤"]

  /** Every alternative of the expression is a two-character keyword. */
  lemma KeywordsNonEmpty()
    ensures "" !in LevelKeywords
  {
    assert forall n :: 0 <= n < |LevelKeywords| ==> |LevelKeywords[n]| == 2;
  }

  /** The two captures of the title-line expression: the two stem characters and the token after
      them. */
  datatype TitleLine = TitleLine(ganzhi: string, token: string)

  /** What a detail page yields: the body text, the title-line match, and the captures of the 聖意
      and 解曰 expressions (None when an expression does not match). */
  datatype GuandiPage = GuandiPage(
    bodyText: string,
    titleLine: Option<TitleLine>,
    sacredCapture: Option<string>,
    explainCapture: Option<string>)

  /** `第${link.index}籤【${ganzhi}】`. */
  function GanzhiTitle(index: nat, ganzhi: string): string {
    "第" + FormatDecimal(index) + "籤【" + ganzhi + "】"
  }

  /** The title with stems is the standard title with the stems in brackets appended. */
  lemma GanzhiTitleExtendsBase(index: nat, ganzhi: string)
    ensures GanzhiTitle(index, ganzhi) == BaseTitle(index) + "【" + ganzhi + "】"
  {
  }

  /** In a title `第` + number + text starting with 籤, the number is the run of digits after 第. */
  lemma NumberOfTitle(index: nat, rest: string)
    requires rest != [] && rest[0] == '籤'
    ensures var t := "第" + FormatDecimal(index) + rest;
      && 1 + |FormatDecimal(index)| <= |t|
      && t[1..1 + DigitRun(t, 1)] == FormatDecimal(index)
  {
    var f := FormatDecimal(index);
    var t := "第" + f + rest;
    var k := DigitRun(t, 1);
    assert forall i :: 0 <= i < |f| ==> t[1 + i] == f[i];
    assert t[1 + |f|] == '籤';
    assert k == |f|;
  }

  /** Titles built on different numbers differ, whatever follows the number. */
  lemma NumberedTitlesDiffer(i: nat, r1: string, j: nat, r2: string)
    requires r1 != [] && r1[0] == '籤' && r2 != [] && r2[0] == '籤'
    requires "第" + FormatDecimal(i) + r1 == "第" + FormatDecimal(j) + r2
    ensures i == j
  {
    NumberOfTitle(i, r1);
    NumberOfTitle(j, r2);
    FormatInjective(i, j);
  }

  /** The poem from the link text: the tag and its number removed and trimmed, commas and full
      stops turned into line breaks, trimmed again, then one line break at the very end removed. */
  function GuandiPoem(originalText: string): (poem: string)
    ensures Avoids(poem, Commas) && Avoids(poem, Stops)
    ensures Trimmed(poem)
  {
    var poemText := Trim(RemoveTagged(originalText, Tag));
    var commasDone := ReplaceChars(poemText, Commas, '\n');
    var lines := ReplaceChars(commasDone, Stops, '\n');
    ReplaceClears(poemText, Commas, '\n');
    ReplaceKeepsOut(commasDone, Stops, '\n', Commas);
    ReplaceClears(commasDone, Stops, '\n');
    TrimAvoids(lines, Commas);
    TrimAvoids(lines, Stops);
    StripAfterTrim(lines);
    StripTrailingNewline(Trim(lines))
  }

  /** `s.replace(/\n$/, '')`: one line break at the end of the text removed. */
  function StripTrailingNewline(s: string): (r: string)
    ensures s != [] && s[|s| - 1] == '\n' ==> r == s[..|s| - 1]
    ensures s == [] || s[|s| - 1] != '\n' ==> r == s
  {
    if s != [] && s[|s| - 1] == '\n' then s[..|s| - 1] else s
  }

  /** After `trim` there is no line break at the end, so the strip never changes the poem. */
  lemma StripAfterTrim(s: string)
    ensures StripTrailingNewline(Trim(s)) == Trim(s)
  {
    var t := Trim(s);
    if t != [] {
      assert !IsSpace(t[|t| - 1]);
    }
  }

  /** On a link text of the usual shape, poem then tag then number, the poem is the text before the
      tag with its punctuation made into line breaks, trimmed. */
  lemma GuandiPoemOfLinkText(p: string, d: string)
    requires NoTagBefore(p, Tag, d)
    requires d != [] && AllDigits(d)
    ensures GuandiPoem(p + Tag + d) == Trim(ReplaceChars(ReplaceChars(Trim(p), Commas, '\n'), Stops, '\n'))
  {
    RemoveTrailingTag(p, Tag, d);
    StripAfterTrim(ReplaceChars(ReplaceChars(Trim(p), Commas, '\n'), Stops, '\n'));
  }

  /** The explanation before clean-up: the 聖意 capture, else the 解曰 capture, trimmed. */
  function RawExplain(page: GuandiPage): (e: string)
    ensures Trimmed(e)
  {
    match page.sacredCapture
    case Some(c) => Trim(c)
    case None =>
      match page.explainCapture
      case Some(c) => Trim(c)
      case None => ""
  }

  /** Lines 79-107: the title and level a read page gives. */
  function TitleAndLevel(link: IndexedLink, pg: GuandiPage): (string, string) {
    match pg.titleLine
    case Some(line) => (GanzhiTitle(link.index, line.ganzhi), Trim(line.token))
    case None =>
      KeywordsNonEmpty();
      (link.title, KeywordLevel(pg.bodyText, LevelKeywords))
  }

  /** One entry: from the page when it was read (Some), or the placeholder when reading it threw. */
  function GuandiEntry(link: IndexedLink, page: Option<GuandiPage>): Fortune {
    match page
    case None => Fortune(link.title, "", "", ScrapingFailed)
    case Some(pg) =>
      var (title, level) := TitleAndLevel(link, pg);
      Fortune(title, level, GuandiPoem(link.originalText), CleanExplain(RawExplain(pg)))
  }

  /** Title and level selection: with a title-line match the stems go into the title and the
      trimmed token is the level; without one the link's title stays and the level is the keyword
      found first in the page, or empty when none occurs. A placeholder keeps the link's title. */
  lemma GuandiEntryFields(link: IndexedLink, page: Option<GuandiPage>)
    ensures var f := GuandiEntry(link, page);
      && (page.None? ==> f == Fortune(link.title, "", "", ScrapingFailed))
      && (page.Some? && page.value.titleLine.Some? ==>
            f.title == GanzhiTitle(link.index, page.value.titleLine.value.ganzhi)
            && f.level == Trim(page.value.titleLine.value.token))
      && (page.Some? && page.value.titleLine.None? ==>
            && f.title == link.title
            && (f.level == "" || f.level in LevelKeywords)
            && (f.level == "" <==> forall q: nat, n :: 0 <= n < |LevelKeywords| ==> !OccursAt(page.value.bodyText, LevelKeywords[n], q))
            && (FindKeyword(page.value.bodyText, LevelKeywords, 0).Some? ==>
                  f.level == LevelKeywords[FindKeyword(page.value.bodyText, LevelKeywords, 0).value.1]))
      && (page.Some? ==>
            && Avoids(f.poem, Commas) && Avoids(f.poem, Stops)
            && Trimmed(f.poem)
            && '\n' !in f.explain && SingleSpaced(f.explain) && Trimmed(f.explain))
  {
  }

  /** The `for` loop of lines 66-162: exactly one entry per link, in link order. */
  method ScrapeDetails(links: seq<IndexedLink>, fetch: IndexedLink -> Option<GuandiPage>) returns (data: seq<Fortune>)
    ensures data == Mapped(links, fetch, GuandiEntry)
    ensures |data| == |links|
    ensures forall i :: 0 <= i < |links| ==> data[i] == GuandiEntry(links[i], fetch(links[i]))
  {
    data := [];
    for i := 0 to |links|
      invariant data == Mapped(links[..i], fetch, GuandiEntry)
    {
      assert links[..i + 1][..i] == links[..i];
      var link := links[i];
      var page := fetch(link);
      if page.None? {
        data := data + [Fortune(link.title, "", "", ScrapingFailed)];
      } else {
        var pg := page.value;
        var title := link.title;
        var level := "";
        if pg.titleLine.Some? {
          title := GanzhiTitle(link.index, pg.titleLine.value.ganzhi);
          level := Trim(pg.titleLine.value.token);
        } else {
          KeywordsNonEmpty();
          level := KeywordLevel(pg.bodyText, LevelKeywords);
        }
        var poem := GuandiPoem(link.originalText);
        var explain := CleanExplain(RawExplain(pg));
        data := data + [Fortune(title, level, poem, explain)];
      }
    }
    assert links[..|links|] == links;
    MappedPointwise(links, fetch, GuandiEntry);
  }

  /** The script up to the file rewrite, with the list page's anchors and each detail page as
      inputs. `links` is `uniqueLinks` after the sort. */
  method ScrapeGuandi(anchors: seq<Anchor>, fetch: IndexedLink -> Option<GuandiPage>)
    returns (links: seq<IndexedLink>, run: ScrapeRun)
    ensures StrictlyIncreasing(links) && WellTitled(links)
    ensures multiset(links) == multiset(FirstPerIndex(KeptLinks(anchors, Tag)))
    ensures Indices(links) == Indices(KeptLinks(anchors, Tag))
    ensures run == NoLinks <==> KeptLinks(anchors, Tag) == []
    ensures run.Scraped? ==> |run.data| == |links|
    ensures run.Scraped? ==> forall i :: 0 <= i < |links| ==> run.data[i] == GuandiEntry(links[i], fetch(links[i]))
  {
    links := UniqueSortedLinks(anchors, Tag);
    var kept := KeptLinks(anchors, Tag);
    assert links == [] <==> kept == [] by {
      if kept != [] { assert kept[0].index in Indices(kept); }
      if links != [] { assert links[0].index in Indices(links); }
    }
    if |links| == 0 {
      return links, NoLinks;
    }
    var data := ScrapeDetails(links, fetch);
    run := Scraped(data);
  }

  /** What follows the number in an entry's title: 籤, then the bracketed stems when the title
      line matched. */
  function TitleTail(page: Option<GuandiPage>): (tail: string)
    ensures tail != [] && tail[0] == '籤'
  {
    if page.Some? && page.value.titleLine.Some? then "籤【" + page.value.titleLine.value.ganzhi + "】" else "籤"
  }

  lemma SelectedTitleNumbered(link: IndexedLink, pg: GuandiPage)
    requires link.title == BaseTitle(link.index)
    ensures TitleAndLevel(link, pg).0 == "第" + FormatDecimal(link.index) + TitleTail(Some(pg))
  {
    var d := FormatDecimal(link.index);
    match pg.titleLine
    case Some(line) =>
      AppendAssoc("第" + d, "籤【", line.ganzhi);
      AppendAssoc("第" + d, "籤【" + line.ganzhi, "】");
    case None =>
  }

  /** Every entry's title, placeholder or not, is 第N籤 for its link's number N, possibly followed
      by the stems. */
  lemma EntryTitleNumbered(link: IndexedLink, page: Option<GuandiPage>)
    requires link.title == BaseTitle(link.index)
    ensures GuandiEntry(link, page).title == "第" + FormatDecimal(link.index) + TitleTail(page)
  {
    match page
    case None =>
    case Some(pg) =>
      assert GuandiEntry(link, page).title == TitleAndLevel(link, pg).0;
      SelectedTitleNumbered(link, pg);
  }

  /** The entries of a run have pairwise different titles, stems or no stems, placeholders
      included, because their links have different numbers. */
  lemma ScrapedTitlesDistinct(links: seq<IndexedLink>, fetch: IndexedLink -> Option<GuandiPage>, data: seq<Fortune>)
    requires StrictlyIncreasing(links) && WellTitled(links)
    requires |data| == |links|
    requires forall i :: 0 <= i < |links| ==> data[i] == GuandiEntry(links[i], fetch(links[i]))
    ensures forall i, j :: 0 <= i < j < |data| ==> data[i].title != data[j].title
  {
    forall i, j | 0 <= i < j < |data| ensures data[i].title != data[j].title {
      EntryTitleNumbered(links[i], fetch(links[i]));
      EntryTitleNumbered(links[j], fetch(links[j]));
      if data[i].title == data[j].title {
        NumberedTitlesDiffer(links[i].index, TitleTail(fetch(links[i])), links[j].index, TitleTail(fetch(links[j])));
      }
    }
  }
}
